/** The login form's checks before connecting (`LoginScreen.join_chat`).
    Python's `int()` is passed in as a partial function. */
module Login {
  import opened Wrappers
  import opened Text

  /** What the form hands to `connect_to_server`. */
  datatype Request = Request(username: string, host: string, port: int)

  const UsernameRequired := "Please enter a username"
  const PortNotNumber := "Port must be a number"
  const DefaultHostText := "localhost"
  const DefaultPortText := "12345"

  /** Python's `text or default` on a string: the default only for an empty text. */
  function OrDefault(text: string, default: string): (r: string)
    ensures text != "" ==> r == text
    ensures text == "" ==> r == default
  {
    if text == "" then default else text
  }

  /** The username is stripped and must not be blank; host and port fall
      back to their defaults only when their field is empty, and are then
      stripped; the port text must parse as an integer. The username is
      checked before the port. */
  function JoinChat(usernameText: string, serverText: string, portText: string,
                    parseInt: string -> Option<int>): (r: Result<Request, string>)
    ensures r == Failure(UsernameRequired) <==> IsBlank(usernameText)
    ensures r == Failure(PortNotNumber) <==>
            !IsBlank(usernameText) && parseInt(Strip(OrDefault(portText, DefaultPortText))).None?
    ensures r.Failure? ==> r.error == UsernameRequired || r.error == PortNotNumber
    ensures r.Success? ==>
              r.value.username == Strip(usernameText) && r.value.username != [] &&
              r.value.host == Strip(OrDefault(serverText, DefaultHostText)) &&
              parseInt(Strip(OrDefault(portText, DefaultPortText))) == Some(r.value.port)
  {
    var username := Strip(usernameText);
    if username == [] then Failure(UsernameRequired)
    else
      var host := Strip(OrDefault(serverText, DefaultHostText));
      match parseInt(Strip(OrDefault(portText, DefaultPortText)))
      case None => Failure(PortNotNumber)
      case Some(port) => Success(Request(username, host, port))
  }

  /** Empty host and port fields give "localhost" and the port that "12345" parses to. */
  lemma EmptyFieldsUseDefaults(usernameText: string, parseInt: string -> Option<int>)
    requires !IsBlank(usernameText)
    requires parseInt("12345").Some?
    ensures JoinChat(usernameText, "", "", parseInt) ==
            Success(Request(Strip(usernameText), "localhost", parseInt("12345").value))
  {
    StripUntrimmed(DefaultHostText);
    StripUntrimmed(DefaultPortText);
  }

  /** A host field holding only white space is not replaced by the default:
      the `or` is applied before stripping, so the host becomes empty. */
  lemma BlankHostNotDefaulted(usernameText: string, serverText: string, portText: string,
                              parseInt: string -> Option<int>)
    requires serverText != [] && IsBlank(serverText)
    requires JoinChat(usernameText, serverText, portText, parseInt).Success?
    ensures JoinChat(usernameText, serverText, portText, parseInt).value.host == ""
  {
  }

  /** Likewise a port field of white space is not defaulted: it is rejected
      unless the parser accepts the empty text. */
  lemma BlankPortNotDefaulted(usernameText: string, serverText: string, portText: string,
                              parseInt: string -> Option<int>)
    requires portText != [] && IsBlank(portText)
    requires !IsBlank(usernameText) && parseInt("").None?
    ensures JoinChat(usernameText, serverText, portText, parseInt) == Failure(PortNotNumber)
  {
  }
}
