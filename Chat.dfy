/** The chat screen's two operations on the session: how a received record
    is shown (`display_message`) and how typed text is sent (`send_message`). */
module Chat {
  import opened Wrappers
  import opened Text
  import opened Json
  import opened Framer
  import opened Session

  /** One row of the message list: a system line or a user bubble. The
      shown text is a string, as a Kivy `Label` takes only `str` text; the
      sender's name is the value read from the record, which the bubble
      formats whatever its type. */
  datatype Row = SystemRow(text: string) | UserRow(username: Json, text: string, isMe: bool)

  const SendFailedNotice := [Cross] + " Failed to send message"

  /** The row `display_message` adds for a record; `None` where it raises:
      when the record is not a JSON object (a list, string, number or null
      has no `.get`, so the call raises `AttributeError`), or
      when its "message" is present but not a string (the `Label` built for
      it rejects the value before the row is added). Any object whose
      "type" is not "system" (a join, a message, an unknown or missing
      type) is shown as a user bubble, named "Unknown" when it has no
      "username"; a missing "message" is shown as empty text. */
  function Render(message: Json, localId: string): (r: Option<Row>)
    ensures r.None? <==>
            !message.JObject? || (Get(message, "message").Some? && !Get(message, "message").value.JString?)
    ensures r.Some? ==> (r.value.SystemRow? <==> Get(message, "type") == Some(JString("system")))
    ensures r.Some? ==> Get(message, "message") == Some(JString(r.value.text)) ||
                        (Get(message, "message").None? && r.value.text == "")
    ensures r.Some? && r.value.UserRow? ==>
              Get(message, "username") == Some(r.value.username) ||
              (Get(message, "username").None? && r.value.username == JString("Unknown"))
    ensures r.Some? && r.value.UserRow? ==> (r.value.isMe <==> Get(message, "user_id") == Some(JString(localId)))
  {
    if !message.JObject? then None
    else
      match GetOr(message, "message", JString(""))
      case JString(text) =>
        if Get(message, "type") == Some(JString("system")) then Some(SystemRow(text))
        else
          Some(UserRow(GetOr(message, "username", JString("Unknown")), text,
                       Get(message, "user_id") == Some(JString(localId))))
      case _ => None
  }

  /** An object that is not a system record, with a string "message" and a
      "username", is shown as a bubble with that name and text. */
  lemma RenderUserRow(message: Json, localId: string, username: Json, text: string)
    requires message.JObject?
    requires Get(message, "type") == Some(JString("message"))
    requires Get(message, "message") == Some(JString(text))
    requires Get(message, "username") == Some(username)
    ensures Render(message, localId) ==
            Some(UserRow(username, text, Get(message, "user_id") == Some(JString(localId))))
  {
    assert JString("message") != JString("system");
  }

  /** A chat message record is shown as a bubble with its sender's name and
      text, marked as the viewer's own exactly when the ids agree. */
  lemma RenderMessageRecord(userId: string, username: string, text: string, timestamp: string, localId: string)
    ensures Render(MessageRecord(userId, username, text, timestamp), localId) ==
            Some(UserRow(JString(username), text, userId == localId))
  {
    MessageRecordFields(userId, username, text, timestamp);
    RenderUserRow(MessageRecord(userId, username, text, timestamp), localId, JString(username), text);
  }

  /** A join record is not rejected: it is shown as a user bubble with an
      empty text. */
  lemma RenderJoinRecord(userId: string, username: string, localId: string)
    ensures Render(JoinRecord(userId, username), localId) ==
            Some(UserRow(JString(username), "", userId == localId))
  {
    JoinRecordFields(userId, username);
    assert JString("join") != JString("system");
  }

  /** An object without the fields is shown with the defaults, as someone else's. */
  lemma RenderEmptyObject(localId: string)
    ensures Render(JObject([]), localId) == Some(UserRow(JString("Unknown"), "", false))
  {
  }

  /** The record `send_message` writes, if it writes one: only for text
      that is not blank, while connected and holding a socket. */
  function OutgoingRecord(inputText: string, connected: bool, hasSocket: bool,
                          userId: string, username: string, now: string): (r: Option<Json>)
    ensures r.Some? <==> !IsBlank(inputText) && connected && hasSocket
    ensures r.Some? ==> r.value == MessageRecord(userId, username, Strip(inputText), now)
  {
    var text := Strip(inputText);
    if text == [] || !connected || !hasSocket then None
    else Some(MessageRecord(userId, username, text, now))
  }

  /** The record sent reads back as a chat message from this app's user,
      with the stripped text and the timestamp. */
  lemma OutgoingRecordFields(inputText: string, connected: bool, hasSocket: bool,
                             userId: string, username: string, now: string)
    requires OutgoingRecord(inputText, connected, hasSocket, userId, username, now).Some?
    ensures var r := OutgoingRecord(inputText, connected, hasSocket, userId, username, now).value;
            r.JObject? &&
            Get(r, "type") == Some(JString("message")) &&
            Get(r, "user_id") == Some(JString(userId)) &&
            Get(r, "username") == Some(JString(username)) &&
            Get(r, "message") == Some(JString(Strip(inputText))) &&
            Get(r, "timestamp") == Some(JString(now))
  {
    MessageRecordFields(userId, username, Strip(inputText), now);
  }

  /** What is sent is the typed text without surrounding white space, never
      blank, and the sender sees it as its own. */
  lemma OutgoingShownAsOwn(inputText: string, userId: string, username: string, now: string)
    requires OutgoingRecord(inputText, true, true, userId, username, now).Some?
    ensures var r := OutgoingRecord(inputText, true, true, userId, username, now).value;
            var text := Strip(inputText);
            text != [] && !IsSpace(text[0]) && !IsSpace(text[|text| - 1]) &&
            Render(r, userId) == Some(UserRow(JString(username), text, true))
  {
    var text := Strip(inputText);
    assert OutgoingRecord(inputText, true, true, userId, username, now) == Some(MessageRecord(userId, username, text, now));
    RenderMessageRecord(userId, username, text, now, userId);
  }

  /** The join line and then a message line, as this client writes them,
      are the two serialized records, each terminated. */
  lemma JoinThenMessageLines(join: string, message: string)
    ensures Written([Opened, Wrote(join + "\n"), ReceiverStarted, Wrote(message + "\n")]) ==
            Terminated([join, message])
  {
    var ops := [Opened, Wrote(join + "\n"), ReceiverStarted, Wrote(message + "\n")];
    assert ops[1..][1..][1..][1..] == [];
    assert Written(ops[1..][1..][1..]) == (message + "\n") + "";
    assert Written(ops[1..][1..]) == "" + ((message + "\n") + "") == (message + "\n") + "";
    assert Written(ops) == "" + Written(ops[1..]) == (join + "\n") + ((message + "\n") + "");
    assert [join, message][1..] == [message];
    TerminatedOne(message);
    assert Terminated([join, message]) == join + "\n" + (message + "\n");
    Assoc(join, "\n", message + "\n");
  }

  /** A client that joins as `username` and then sends one message writes
      two lines; a peer reading them, cut into reads in any way, dispatches
      the join and then the message, and shows the message as its own
      exactly when its id is the sender's. */
  lemma JoinThenMessageReachPeer(userId: string, username: string, text: string, timestamp: string,
                                 encode: Encoder, decode: Decoder,
                                 outcomes: seq<ReadOutcome>, peerId: string)
    requires RoundTrips(encode, decode, JoinRecord(userId, username))
    requires RoundTrips(encode, decode, MessageRecord(userId, username, text, timestamp))
    requires Stream(outcomes) ==
             Written([Opened, Wrote(encode(JoinRecord(userId, username)) + "\n"), ReceiverStarted,
                      Wrote(encode(MessageRecord(userId, username, text, timestamp)) + "\n")])
    ensures Records(SplitLines(Stream(outcomes)).lines, decode) ==
            [JoinRecord(userId, username), MessageRecord(userId, username, text, timestamp)]
    ensures Render(MessageRecord(userId, username, text, timestamp), peerId) ==
            Some(UserRow(JString(username), text, peerId == userId))
  {
    var records := [JoinRecord(userId, username), MessageRecord(userId, username, text, timestamp)];
    JoinThenMessageLines(encode(records[0]), encode(records[1]));
    assert Encoded(records, encode) == [encode(records[0]), encode(records[1])];
    PeerReadsWhatWasWritten(records, encode, decode, outcomes);
    RenderMessageRecord(userId, username, text, timestamp, peerId);
  }

  class ChatScreen {
    /** The text of the message input box. */
    var inputText: string
    var rows: seq<Row>

    constructor ()
      ensures inputText == "" && rows == []
    {
      inputText := "";
      rows := [];
    }

    /** Adds the row for a received record; `raised` when building the row
        raises (see `Render`), in which case nothing is added. */
    method DisplayMessage(message: Json, app: App) returns (raised: bool)
      modifies this`rows
      ensures raised <==> Render(message, app.userId).None?
      ensures !raised ==> rows == old(rows) + [Render(message, app.userId).value]
      ensures raised ==> rows == old(rows)
    {
      var row := Render(message, app.userId);
      if row.None? {
        return true;
      }
      rows := rows + [row.value];
      raised := false;
    }

    /** Sends the typed text as a message record followed by a newline.
        Nothing happens for blank text, or when the app is not connected or
        has no socket. The input box is cleared only when the write
        succeeds; a failed write adds a failure notice instead. */
    method SendMessage(app: App, now: string, outcome: SendOutcome, encode: Encoder)
      modifies this`inputText, this`rows, app`sockets
      ensures var record := OutgoingRecord(old(inputText), app.connected, app.socket.Some?,
                                           app.userId, app.username, now);
              if record.None? then
                inputText == old(inputText) && rows == old(rows) && app.sockets == old(app.sockets)
              else if outcome.Sent? then
                app.sockets == old(app.sockets) + [Wrote(encode(record.value) + "\n")] &&
                inputText == "" && rows == old(rows)
              else
                app.sockets == old(app.sockets) && inputText == old(inputText) &&
                rows == old(rows) + [SystemRow(SendFailedNotice)]
    {
      var record := OutgoingRecord(inputText, app.connected, app.socket.Some?, app.userId, app.username, now);
      if record.None? {
        return;
      }
      match outcome {
        case Sent =>
          app.sockets := app.sockets + [Wrote(encode(record.value) + "\n")];
          inputText := "";
        case SendRaised(_) =>
          rows := rows + [SystemRow(SendFailedNotice)];
      }
    }
  }
}
