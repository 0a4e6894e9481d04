/** The handful of Python `str` operations the session layer relies on. */
module Text {
  import opened Wrappers

  /** Python's `str.isspace()` for one character: the Unicode white space
      characters that `str.strip()` with no argument removes. */
  predicate IsSpace(c: char)
  {
    ('\t' <= c <= '\r') || ('\U{1C}' <= c <= '\U{1F}') || c == ' ' ||
    c == '\U{85}' || c == '\U{A0}' || c == '\U{1680}' ||
    ('\U{2000}' <= c <= '\U{200A}') || c == '\U{2028}' || c == '\U{2029}' ||
    c == '\U{202F}' || c == '\U{205F}' || c == '\U{3000}'
  }

  /** Number of white space characters at the front of `s`. */
  function LeadingSpace(s: string): (k: nat)
    ensures k <= |s|
    ensures forall i :: 0 <= i < k ==> IsSpace(s[i])
    ensures k < |s| ==> !IsSpace(s[k])
  {
    if s == [] || !IsSpace(s[0]) then 0 else 1 + LeadingSpace(s[1..])
  }

  /** Number of white space characters at the end of `s`. */
  function TrailingSpace(s: string): (k: nat)
    ensures k <= |s|
    ensures forall i :: |s| - k <= i < |s| ==> IsSpace(s[i])
    ensures k < |s| ==> !IsSpace(s[|s| - 1 - k])
  {
    if s == [] || !IsSpace(s[|s| - 1]) then 0 else 1 + TrailingSpace(s[..|s| - 1])
  }

  /** Python's `s.strip()`: `s` without its leading and trailing white space. */
  function Strip(s: string): (r: string)
    ensures |r| <= |s|
    ensures r == [] <==> IsBlank(s)
    ensures r != [] ==> !IsSpace(r[0]) && !IsSpace(r[|r| - 1])
    ensures LeadingSpace(s) + |r| <= |s| && r == s[LeadingSpace(s)..LeadingSpace(s) + |r|]
    ensures IsBlank(s[..LeadingSpace(s)]) && IsBlank(s[LeadingSpace(s) + |r|..])
  {
    var u := s[LeadingSpace(s)..];
    u[..|u| - TrailingSpace(u)]
  }

  /** `s` is empty or white space only: `s.strip()` is falsy (see `Strip`). */
  predicate IsBlank(s: string)
  {
    forall i :: 0 <= i < |s| ==> IsSpace(s[i])
  }

  /** A string with nothing to strip is its own stripped form. */
  lemma StripUntrimmed(s: string)
    requires s != [] && !IsSpace(s[0]) && !IsSpace(s[|s| - 1])
    ensures Strip(s) == s
  {
    assert LeadingSpace(s) == 0;
    assert s[0..] == s;
  }

  /** `s` holds no newline character. */
  predicate NoNewline(s: string)
  {
    forall j :: 0 <= j < |s| ==> s[j] != '\n'
  }

  /** The index of the first newline of `s`, if any: `"\n" in s` asks
      whether there is one, and `s.split("\n", 1)` cuts there. */
  function FindNewline(s: string): (r: Option<nat>)
    ensures r.None? <==> NoNewline(s)
    ensures r.Some? ==> r.value < |s| && s[r.value] == '\n' && NoNewline(s[..r.value])
  {
    if s == [] then None
    else if s[0] == '\n' then Some(0)
    else
      match FindNewline(s[1..])
      case None => None
      case Some(j) =>
        assert s[..j + 1] == [s[0]] + s[1..][..j];
        Some(j + 1)
  }
}
