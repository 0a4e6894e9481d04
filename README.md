# Modern Messenger client: session layer

A Dafny model of the networking core of the Modern Messenger Kivy client
(`main.py`). The client joins a chat room over one TCP connection, writes
each event as one line of JSON, and reads the server's lines on a
background thread. The model covers:

- the login form's checks before connecting (`LoginScreen.join_chat`);
- connecting: how the three kinds of connect failure are reported, and the
  join record written first (`ModernMessengerApp.connect_to_server`);
- the receive loop (`receive_messages`): a carry-over buffer that cuts the
  received text into lines, skips blank lines, drops lines that do not
  parse, and schedules each parsed record for display in order. When the
  loop ends while connected, the connected flag is cleared and a single
  lost-connection notice is scheduled;
- how a received record is shown (`ChatScreen.display_message`);
- how typed text is sent (`ChatScreen.send_message`).

Modules follow the program's parts:

- `Text`: Python's `str.strip` and the newline search.
- `Json`: parsed records and `dict.get`.
- `Framer`: the line framer.
- `Session`: the app's connection state.
- `Chat`: the chat screen.
- `Login`: the login form.
- `Wrappers`: `Option` and `Result`.

Sockets, threads and the Kivy clock are not modelled. Each is replaced by
an input or by an ordered log kept on the `App` object:

- Inputs: the outcome of `connect` (`ConnectOutcome`), of each `send`
  (`SendOutcome`) and of each `recv` (`ReadOutcome`). The JSON serializer
  and parser are passed in as an `Encoder` and a `Decoder`, and so is
  Python's `int()`. The uuid and the timestamp are plain string inputs.
- Logs: `App.sockets` records, in order, every socket opened, closed,
  written to, or handed to the receive thread. `App.scheduled` records the
  callbacks `receive_messages` queues with `Clock.schedule_once`
  (main.py:450, 457).

The model follows what the code does, including these behaviours:

- Any text that parses as JSON is dispatched, whatever its "type". A join
  record or an unknown type is shown as a user bubble.
- `display_message` raises, and shows nothing, for a record that is not a
  JSON object (a list, string or number has no `.get`, so the call raises
  `AttributeError`) and for one whose "message" is present but not a
  string. In the second case the Kivy `Label` that should show it
  takes only `str` text. `Render` gives `None` in both cases.
- The port is not range-checked.
- There is no disconnect operation.
- When the join write fails, the client stays marked as connected, no
  receive thread is started, and the socket is not closed.

## Model

| member | source | states |
|---|---|---|
| Text.Strip | main.py:134 | `str.strip()`: the result is the text with its leading and trailing white space removed. It is the slice after the leading white space, everything cut off on either side is white space, it is empty exactly when the text is blank, and otherwise it neither starts nor ends with white space |
| Text.FindNewline | main.py:443-444 | `"\n" in buffer` and `split("\n", 1)`: none exactly when the text holds no newline, else the index of its first newline |
| Json.Get | main.py:345-349 | `dict.get(key)`: absent exactly when no member has the key, else the value of the last member with that key |
| Json.GetOr | main.py:346-352 | `dict.get(key, default)`: the bound value when the key is present, else the default |
| Json.Lookup | main.py:345-352 | `dict.get`: absent exactly when no member has the key, else the value of the last member with that key |
| Json.MessageRecordFields | main.py:362-368 | a message record reads back its type "message", user id, username, text and timestamp |
| Json.JoinRecordFields | main.py:423-427 | a join record reads back its type "join", user id and username, and has no "message" field |
| Framer.SplitLines | main.py:443-444 | cutting `split("\n", 1)` off while a newline is left: at most one line per character consumed, and a text with no line is kept whole as the tail |
| Framer.Accepted | main.py:445-450 | one line gives at most one record: a record exactly when the line is not blank and parses, and then the parsed value |
| Framer.Records | main.py:445-450 | the records of a run of lines, at most one per line |
| Framer.LineFramer.constructor | main.py:435 | a new receive loop starts with an empty buffer |
| Framer.LineFramer.Feed | main.py:442-450 | after a feed the buffer holds no newline and is the unterminated tail of old buffer plus chunk; the records returned are those of the complete lines, in order |
| Framer.SplitLinesSound | main.py:442-444 | the extracted lines, each followed by a newline, then the kept tail, are exactly the text; no line and not the tail holds a newline |
| Framer.SplitLinesUnique | main.py:443-444 | newline-free lines, each terminated, then a newline-free tail, split back into exactly those lines and tail |
| Framer.SplitLinesAppend | main.py:435-444 | splitting text read in two parts gives the lines of the first part, then those of its tail joined to the second part |
| Framer.PartialLineCarried | main.py:442-444 | "A\nB" gives the line "A" and keeps "B"; feeding "C\n" next gives "BC" and keeps nothing |
| Framer.RecordsFromLines | main.py:445-450 | a record is dispatched exactly when some non-blank line parses to it |
| Framer.BlankLinesNotParsed | main.py:445 | blank lines never reach the parser: parsers that agree on non-blank lines dispatch the same records |
| Framer.MalformedLineDropped | main.py:446-449 | a blank or unparsable line is dropped and the lines before and after it are still dispatched in order |
| Framer.RecordsAppend | main.py:443-450 | the records of two runs of lines are those of the first run followed by those of the second |
| Session.ConnectError | main.py:406-416 | a connect outcome yields an error exactly when it is not a success |
| Session.ConnectErrorInjective | main.py:408-416 | timeout, refusal and other failures give distinct messages, and a generic failure's message determines its cause |
| Session.App.constructor | main.py:380-387 | a new app is disconnected, holds no socket, and has the default host and port and the given user id |
| Session.App.ConnectToServer | main.py:398-432 | on failure the socket is opened and closed, the outcome's error is returned, and the connected flag is untouched; on success the client is connected and the join record is written before the receive thread starts |
| Session.App.ReceiveMessages | main.py:434-460 | one display is scheduled per record of the whole text read so far, in order, whatever the read boundaries. While connected, the loop ends only at a read that delivers nothing (an empty read or an exception); ending then clears the flag and schedules exactly one lost-connection notice. Ending while disconnected schedules nothing |
| Session.App.ReadLoop | main.py:436-452 | every read before the stop delivered text; a connected loop stops only at a read that delivers nothing or when the reads run out; a disconnected one reads nothing; the schedule holds the displays of the text read |
| Session.App.Deliver | main.py:438-450 | one delivered read is fed to the framer and the schedule again holds one display per record of all text read so far, with the framer keeping that text's unterminated tail |
| Session.App.ConnectionLost | main.py:454-460 | afterwards the client is disconnected; a notice is scheduled exactly when it was connected, and only one |
| Session.ReadStep | main.py:438-450 | after one more read, the carried tail and the records shown are those of the text read so far, whatever the read boundaries |
| Session.RecordsOfAppend | main.py:442-450 | the records dispatched after two reads are those of the whole text the reads delivered |
| Session.RecordsOfEncoded | main.py:371 | lines written by an encoder the parser inverts are each dispatched as the record they encode |
| Session.PeerReadsWhatWasWritten | main.py:442-450 | a reader of the written records, however the text is cut into reads, dispatches exactly those records and keeps nothing buffered |
| Chat.Render | main.py:344-354 | a non-object raises, and so does a "message" that is present but not a string. Otherwise the record is a system line exactly when its type is "system", else a user bubble. The shown text is the "message" string, or "" when absent. A bubble's name is the "username" value, or "Unknown" when absent. A bubble is the viewer's own exactly when its user id matches |
| Chat.RenderUserRow | main.py:347-353 | any object of type "message" whose "message" is a string and which has a "username" is shown as a bubble with that name and text, as the viewer's own exactly when its user id matches |
| Chat.RenderMessageRecord | main.py:349-353 | a message record is shown with its sender and text, as the viewer's own exactly when the ids agree |
| Chat.RenderJoinRecord | main.py:344-354 | a join record is not rejected but shown as a user bubble with an empty text |
| Chat.RenderEmptyObject | main.py:349-353 | missing fields default to "Unknown" and "", and the record is not the viewer's own |
| Chat.OutgoingRecord | main.py:358-368 | a record is built exactly for non-blank text while connected and holding a socket, and it is exactly the message record of the app's id and name, the stripped text and the timestamp: those five members, in that order, and no others |
| Chat.OutgoingRecordFields | main.py:362-368 | the record sent reads back type "message", the app's user id and name, the stripped text and the timestamp |
| Chat.OutgoingShownAsOwn | main.py:358-368 | the text sent is non-blank and not padded, and its sender shows it as its own |
| Chat.ChatScreen.constructor | main.py:208-222 | a new chat screen has an empty input box and an empty message list |
| Chat.ChatScreen.DisplayMessage | main.py:344-354 | adds the rendered row; a record for which building the row raises adds nothing |
| Chat.ChatScreen.SendMessage | main.py:356-374 | nothing happens unless a record is built; a successful write logs record plus newline and clears the input; a failed write keeps the input and adds a failure notice |
| Chat.JoinThenMessageReachPeer | main.py:362-428 | a peer reading the join line (written at main.py:423-428) then a message line (main.py:362-371), in any chunking, dispatches both in order and sees the message as its own exactly when its id is the sender's |
| Login.JoinChat | main.py:133-145 | a blank username is rejected first; an unparsable port is rejected next; otherwise the stripped username, host and parsed port are passed on |
| Login.OrDefault | main.py:139-140 | `text or default`: an empty field gives the default, any other text, white space included, is kept |
| Login.EmptyFieldsUseDefaults | main.py:139-140 | empty host and port fields give "localhost" and the port "12345" parses to |
| Login.BlankHostNotDefaulted | main.py:139 | a white-space host field is not defaulted and becomes the empty host |
| Login.BlankPortNotDefaulted | main.py:140-145 | a white-space port field is not defaulted and is rejected as not a number |

## Left out

- Kivy widgets, layout, colours, bubbles, scrolling and screen changes: these are user interface code. A shown record is a `Row`, and the chat view is the list of rows.
- Real sockets, `settimeout`, the 1024-byte read size and thread start: these are I/O and concurrency. Each read, connect and send is an input outcome. Starting the receive thread is an entry in the socket log.
- `Clock.schedule_once` is modelled as a FIFO log of callbacks. Running those callbacks later on the UI thread is `ChatScreen.DisplayMessage`, called separately.
- `json.dumps` and `json.loads` are parameters. The round-trip lemmas assume only about the records actually sent: each one's serialization holds no newline, is not blank, and parses back to it.
- Kivy's `Label` is not part of this model. The model takes from it only that its text must be a `str`.
- UTF-8 encoding and decoding: the wire is modelled as text. A decode error is one of the `ReadRaised` outcomes.
- `uuid.uuid4()`, `datetime.now().isoformat()` and `int()` are inputs, so Python's integer grammar is not modelled.
- Session.App.ConnectToServer: assumes a successful `socket.send` writes the whole record, although `send` (unlike `sendall`) may write part of it.
- Chat.ChatScreen.SendMessage: likewise assumes a successful `socket.send` (main.py:371) writes the whole record and its newline.
- Session.App.ReceiveMessages: takes a finite list of read outcomes. If the list runs out before an empty read or an error, the thread is taken to be still blocked in `recv`. An exception from the parser other than a decode error is not modelled.
- What `join_chat` does after validation: the background connect, the button state and the status label (main.py:147-166). The message it would show is the error `ConnectToServer` returns.
