/** The records exchanged on the wire, seen as parsed JSON values, and the
    shapes of the two records the client itself writes. The serializer
    (`json.dumps`) and the parser (`json.loads`) are not modelled: they are
    passed to the operations that use them as an `Encoder` and a `Decoder`. */
module Json {
  import opened Wrappers
  import opened Text

  /** A parsed JSON value. Numbers keep their literal text; an object keeps
      its members in order, as a Python dict does. */
  datatype Json =
    | JNull
    | JBool(b: bool)
    | JNumber(literal: string)
    | JString(s: string)
    | JArray(items: seq<Json>)
    | JObject(members: seq<Member>)

  datatype Member = Member(key: string, value: Json)

  /** `json.dumps`: one value to its text. */
  type Encoder = Json -> string

  /** `json.loads`: `None` where it raises `JSONDecodeError`. */
  type Decoder = string -> Option<Json>

  /** The value bound to `key` in an object's members. When `json.loads`
      meets a key twice, the later member wins, so the search starts at the end. */
  function Lookup(members: seq<Member>, key: string): (r: Option<Json>)
    ensures r.None? <==> forall i :: 0 <= i < |members| ==> members[i].key != key
    ensures r.Some? ==> exists i :: 0 <= i < |members| && members[i] == Member(key, r.value) &&
                          forall j :: i < j < |members| ==> members[j].key != key
  {
    if members == [] then None
    else if members[|members| - 1].key == key then Some(members[|members| - 1].value)
    else Lookup(members[..|members| - 1], key)
  }

  /** Python's `message_data.get(key)` on a dict: `None` exactly when no
      member has the key, else the value of the last member with that key. */
  function Get(message: Json, key: string): (r: Option<Json>)
    requires message.JObject?
    ensures r.None? <==> forall i :: 0 <= i < |message.members| ==> message.members[i].key != key
    ensures r.Some? ==> exists i :: 0 <= i < |message.members| && message.members[i] == Member(key, r.value) &&
                          forall j :: i < j < |message.members| ==> message.members[j].key != key
  {
    Lookup(message.members, key)
  }

  /** Python's `message_data.get(key, default)` on a dict: the bound value
      when the key is present, else the default. */
  function GetOr(message: Json, key: string, default: Json): (r: Json)
    requires message.JObject?
    ensures Get(message, key).Some? ==> r == Get(message, key).value
    ensures Get(message, key).None? ==> r == default
  {
    match Get(message, key)
    case Some(v) => v
    case None => default
  }

  /** The handshake record written right after connecting. */
  function JoinRecord(userId: string, username: string): Json
  {
    JObject([Member("type", JString("join")),
             Member("user_id", JString(userId)),
             Member("username", JString(username))])
  }

  /** The record written for one chat message. */
  function MessageRecord(userId: string, username: string, text: string, timestamp: string): Json
  {
    JObject([Member("type", JString("message")),
             Member("user_id", JString(userId)),
             Member("username", JString(username)),
             Member("message", JString(text)),
             Member("timestamp", JString(timestamp))])
  }

  /** What the line framing needs of the codec for one value `v` that is
      sent: `json.dumps(v)` holds no raw newline and is not blank, and
      `json.loads` gives `v` back from it. */
  predicate RoundTrips(encode: Encoder, decode: Decoder, v: Json)
  {
    NoNewline(encode(v)) && !IsBlank(encode(v)) && decode(encode(v)) == Some(v)
  }

  /** In an object whose keys are pairwise distinct, each key finds its own member. */
  lemma LookupDistinct(members: seq<Member>, i: nat)
    requires i < |members|
    requires forall j, k :: 0 <= j < k < |members| ==> members[j].key != members[k].key
    ensures Lookup(members, members[i].key) == Some(members[i].value)
  {
  }

  /** Reading the fields of a message record gives back what it was built from. */
  lemma MessageRecordFields(userId: string, username: string, text: string, timestamp: string)
    ensures var m := MessageRecord(userId, username, text, timestamp);
      Get(m, "type") == Some(JString("message")) &&
      Get(m, "user_id") == Some(JString(userId)) &&
      Get(m, "username") == Some(JString(username)) &&
      Get(m, "message") == Some(JString(text)) &&
      Get(m, "timestamp") == Some(JString(timestamp))
  {
    var ms := MessageRecord(userId, username, text, timestamp).members;
    LookupDistinct(ms, 0);
    LookupDistinct(ms, 1);
    LookupDistinct(ms, 2);
    LookupDistinct(ms, 3);
    LookupDistinct(ms, 4);
  }

  /** Reading the fields of a join record gives back what it was built from;
      it has no "message" field. */
  lemma JoinRecordFields(userId: string, username: string)
    ensures var m := JoinRecord(userId, username);
      Get(m, "type") == Some(JString("join")) &&
      Get(m, "user_id") == Some(JString(userId)) &&
      Get(m, "username") == Some(JString(username)) &&
      Get(m, "message") == None
  {
    var ms := JoinRecord(userId, username).members;
    LookupDistinct(ms, 0);
    LookupDistinct(ms, 1);
    LookupDistinct(ms, 2);
  }
}
