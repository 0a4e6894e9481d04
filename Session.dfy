/** The client's connection state held by `ModernMessengerApp`: connecting
    and the join handshake (`connect_to_server`), and the background receive
    loop (`receive_messages`) with its lost-connection notice. Sockets,
    threads and the Kivy clock are replaced by inputs and by two ordered logs
    kept on the app: what it did with its sockets, and the callbacks it
    scheduled onto the UI thread. */
module Session {
  import opened Wrappers
  import opened Text
  import opened Json
  import opened Framer

  /** How `s.connect((host, port))` ended. */
  datatype ConnectOutcome = Connected | TimedOut | Refused | ConnectRaised(cause: string)

  /** How one `socket.send(...)` ended. */
  datatype SendOutcome = Sent | SendRaised(cause: string)

  /** What one `recv(1024)` followed by UTF-8 decoding gave: some text (empty
      when the peer closed), or an exception. */
  datatype ReadOutcome = Received(data: string) | ReadRaised

  /** Socket actions, in the order the client performed them. */
  datatype SocketOp = Opened | Closed | Wrote(text: string) | ReceiverStarted

  /** Callbacks handed to `Clock.schedule_once`; the UI thread runs them in order. */
  datatype Callback = ShowMessage(message: Json) | ShowNotice(text: string)

  const DefaultHost := "localhost"
  const DefaultPort := 12345
  const TimeoutMessage := "Connection timeout - Server not responding"
  /** The cross mark that opens the client's error notices. */
  const Cross := '\U{274C}'
  const RefusedMessage := [Cross] + " Connection refused - Start server.py first!"
  const FailedPrefix := "Connection failed: "
  const LostConnectionNotice := [Cross] + " Lost connection to server"

  /** The error `connect_to_server` raises for a connect outcome, if any. */
  function ConnectError(outcome: ConnectOutcome): (r: Option<string>)
    ensures r.None? <==> outcome.Connected?
  {
    match outcome
    case Connected => None
    case TimedOut => Some(TimeoutMessage)
    case Refused => Some(RefusedMessage)
    case ConnectRaised(cause) => Some(FailedPrefix + cause)
  }

  /** The three kinds of connect failure are told apart by their messages,
      and a generic failure's message carries its cause. */
  lemma ConnectErrorInjective(o1: ConnectOutcome, o2: ConnectOutcome)
    requires ConnectError(o1).Some?
    ensures ConnectError(o1) == ConnectError(o2) <==> o1 == o2
  {
    if ConnectError(o1) == ConnectError(o2) {
      var m := ConnectError(o1).value;
      assert TimeoutMessage[0] == 'C' && TimeoutMessage[11] == 't';
      assert RefusedMessage[0] == Cross;
      forall c ensures (FailedPrefix + c)[0] == 'C' && (FailedPrefix + c)[11] == 'f' {
      }
      if o1.ConnectRaised? && o2.ConnectRaised? {
        assert o1.cause == m[|FailedPrefix|..] == o2.cause;
      }
    }
  }

  /** A read that hands text to the framer; an empty read (the peer closed)
      or an exception ends the loop. */
  predicate Delivers(r: ReadOutcome)
  {
    r.Received? && |r.data| > 0
  }

  /** The text delivered by a run of reads, concatenated. */
  function Stream(outcomes: seq<ReadOutcome>): string
  {
    if outcomes == [] then ""
    else
      var last := outcomes[|outcomes| - 1];
      Stream(outcomes[..|outcomes| - 1]) + (if last.Received? then last.data else "")
  }

  /** One display callback per record, in record order. */
  function Displays(records: seq<Json>): seq<Callback>
  {
    if records == [] then [] else [ShowMessage(records[0])] + Displays(records[1..])
  }

  lemma {:induction false} DisplaysAppend(a: seq<Json>, b: seq<Json>)
    ensures Displays(a + b) == Displays(a) + Displays(b)
  {
    if a == [] {
      assert a + b == b;
    } else {
      assert (a + b)[0] == a[0];
      assert (a + b)[1..] == a[1..] + b;
      DisplaysAppend(a[1..], b);
      Assoc([ShowMessage(a[0])], Displays(a[1..]), Displays(b));
    }
  }

  /** The text this client has written to its sockets. */
  function Written(ops: seq<SocketOp>): string
  {
    if ops == [] then ""
    else (if ops[0].Wrote? then ops[0].text else "") + Written(ops[1..])
  }

  /** The serialized records, one per line, as they go on the wire. */
  function Encoded(records: seq<Json>, encode: Encoder): (lines: seq<string>)
    ensures |lines| == |records|
    ensures forall k :: 0 <= k < |lines| ==> lines[k] == encode(records[k])
  {
    if records == [] then [] else [encode(records[0])] + Encoded(records[1..], encode)
  }

  lemma {:induction false} RecordsOfEncoded(records: seq<Json>, encode: Encoder, decode: Decoder)
    requires forall k :: 0 <= k < |records| ==> RoundTrips(encode, decode, records[k])
    ensures Records(Encoded(records, encode), decode) == records
  {
    if records != [] {
      var lines := Encoded(records, encode);
      assert lines[1..] == Encoded(records[1..], encode);
      assert RoundTrips(encode, decode, records[0]);
      assert !IsBlank(lines[0]) && decode(lines[0]) == Some(records[0]);
      RecordsOfEncoded(records[1..], encode, decode);
      assert [records[0]] + records[1..] == records;
    }
  }

  /** A peer reading the written records, however the text is cut into
      reads, dispatches exactly those records, in order, with nothing left
      in its buffer. */
  lemma PeerReadsWhatWasWritten(records: seq<Json>, encode: Encoder, decode: Decoder, outcomes: seq<ReadOutcome>)
    requires forall k :: 0 <= k < |records| ==> RoundTrips(encode, decode, records[k])
    requires Stream(outcomes) == Terminated(Encoded(records, encode))
    ensures SplitLines(Stream(outcomes)) == Split(Encoded(records, encode), "")
    ensures Records(SplitLines(Stream(outcomes)).lines, decode) == records
  {
    var lines := Encoded(records, encode);
    assert Terminated(lines) + "" == Terminated(lines);
    forall k | 0 <= k < |lines| ensures NoNewline(lines[k]) {
      assert RoundTrips(encode, decode, records[k]);
    }
    SplitLinesUnique(lines, "");
    RecordsOfEncoded(records, encode, decode);
  }

  class App {
    var host: string
    var port: int
    /** The connected socket, by the address it was opened to. */
    var socket: Option<(string, int)>
    var username: string
    const userId: string
    var connected: bool
    var sockets: seq<SocketOp>
    var scheduled: seq<Callback>

    /** A connected client always holds its socket. The socket is kept after
        the connection is lost, so the converse does not hold. */
    ghost predicate Valid()
      reads this
    {
      connected ==> socket.Some?
    }

    /** `userId` stands for `str(uuid.uuid4())`, drawn once per run. */
    constructor (userId: string)
      ensures Valid()
      ensures host == DefaultHost && port == DefaultPort && socket.None? && username == ""
      ensures this.userId == userId && !connected && sockets == [] && scheduled == []
    {
      host := DefaultHost;
      port := DefaultPort;
      socket := None;
      username := "";
      this.userId := userId;
      connected := false;
      sockets := [];
      scheduled := [];
    }

    /** Opens a socket to `host:port`. On failure the socket is closed and
        the error for the outcome is returned; on success the client is
        connected, the join record is its first write and the receive
        thread is started after it. A failing join write is returned as
        it was raised, with the client already marked connected. */
    method ConnectToServer(username: string, host: string, port: int,
                           outcome: ConnectOutcome, joinSend: SendOutcome, encode: Encoder)
      returns (error: Option<string>)
      requires Valid()
      modifies this`username, this`host, this`port, this`socket, this`connected, this`sockets
      ensures Valid()
      ensures this.username == username && this.host == host && this.port == port
      ensures !outcome.Connected? ==>
                error == ConnectError(outcome) &&
                sockets == old(sockets) + [Opened, Closed] &&
                socket == old(socket) && connected == old(connected)
      ensures outcome.Connected? ==>
                socket == Some((host, port)) && connected &&
                match joinSend
                case Sent =>
                  error.None? &&
                  sockets == old(sockets) + [Opened, Wrote(encode(JoinRecord(userId, username)) + "\n"), ReceiverStarted]
                case SendRaised(cause) =>
                  error == Some(cause) && sockets == old(sockets) + [Opened]
    {
      this.username := username;
      this.host := host;
      this.port := port;
      sockets := sockets + [Opened];
      match outcome {
        case TimedOut =>
          sockets := sockets + [Closed];
          return Some(TimeoutMessage);
        case Refused =>
          sockets := sockets + [Closed];
          return Some(RefusedMessage);
        case ConnectRaised(cause) =>
          sockets := sockets + [Closed];
          return Some(FailedPrefix + cause);
        case Connected =>
      }
      socket := Some((host, port));
      connected := true;
      var join := JoinRecord(userId, this.username);
      match joinSend {
        case SendRaised(cause) =>
          return Some(cause);
        case Sent =>
          sockets := sockets + [Wrote(encode(join) + "\n")];
      }
      sockets := sockets + [ReceiverStarted];
      error := None;
    }

    /** The receive loop, run over the outcomes of its successive reads.
        While connected it feeds every delivered text to a fresh framer and
        schedules one display per record, in order. An empty read or an
        exception ends it (`finished`); when the outcomes run out first the
        thread is still blocked in `recv`. Ending while connected clears the
        flag and schedules exactly one lost-connection notice; ending while
        not connected schedules nothing. `delivered` counts the outcomes fed. */
    method ReceiveMessages(outcomes: seq<ReadOutcome>, decode: Decoder) returns (delivered: nat, finished: bool)
      requires Valid()
      modifies this`connected, this`scheduled
      ensures Valid()
      ensures delivered <= |outcomes|
      ensures forall j :: 0 <= j < delivered ==> Delivers(outcomes[j])
      ensures old(connected) ==> finished == (delivered < |outcomes|)
      ensures old(connected) && finished ==> !Delivers(outcomes[delivered])
      ensures !old(connected) ==> delivered == 0 && finished
      ensures connected == (old(connected) && !finished)
      ensures scheduled ==
              old(scheduled) + Shown(outcomes, delivered, decode) +
              (if old(connected) && finished then [ShowNotice(LostConnectionNotice)] else [])
    {
      delivered := ReadLoop(outcomes, decode);
      finished := !connected || delivered < |outcomes|;
      if finished {
        ConnectionLost();
      } else {
        assert scheduled + [] == scheduled;
      }
    }

    /** The `while self.connected and self.socket` loop itself. While
        connected it feeds each read's text to a fresh framer and schedules
        one display per record; it stops at the first read that delivers
        nothing, or when the outcomes run out. */
    method ReadLoop(outcomes: seq<ReadOutcome>, decode: Decoder) returns (delivered: nat)
      requires Valid()
      modifies this`scheduled
      ensures delivered <= |outcomes|
      ensures forall j :: 0 <= j < delivered ==> Delivers(outcomes[j])
      ensures connected ==> delivered == |outcomes| || !Delivers(outcomes[delivered])
      ensures !connected ==> delivered == 0
      ensures scheduled == old(scheduled) + Shown(outcomes, delivered, decode)
    {
      var framer := new LineFramer();
      delivered := 0;
      EmptyStream(outcomes, decode);
      while connected && socket.Some?
        invariant delivered <= |outcomes|
        invariant !connected ==> delivered == 0
        invariant forall j :: 0 <= j < delivered ==> Delivers(outcomes[j])
        invariant framer.buffer == Carried(outcomes, delivered)
        invariant scheduled == old(scheduled) + Shown(outcomes, delivered, decode)
        decreases |outcomes| - delivered
      {
        if delivered == |outcomes| {
          break;
        }
        var read := outcomes[delivered];
        if !Delivers(read) {
          break;
        }
        Deliver(framer, outcomes, delivered, decode, old(scheduled));
        forall j | 0 <= j < delivered + 1
          ensures Delivers(outcomes[j])
        {
          if j == delivered {
            assert outcomes[j] == read;
          }
        }
        delivered := delivered + 1;
      }
    }

    /** One delivered read: its text is fed to the framer and one display
        per completed record is scheduled, so the schedule again covers
        exactly the text read so far. */
    method Deliver(framer: LineFramer, outcomes: seq<ReadOutcome>, i: nat, decode: Decoder,
                   ghost base: seq<Callback>)
      requires i < |outcomes| && outcomes[i].Received?
      requires framer.buffer == Carried(outcomes, i)
      requires scheduled == base + Shown(outcomes, i, decode)
      modifies framer, this`scheduled
      ensures framer.buffer == Carried(outcomes, i + 1)
      ensures scheduled == base + Shown(outcomes, i + 1, decode)
    {
      var records := framer.Feed(outcomes[i].data, decode);
      ReadStep(outcomes, i, decode);
      Assoc(base, Shown(outcomes, i, decode), Displays(records));
      scheduled := scheduled + Displays(records);
    }

    /** What runs once the receive loop has ended: a connected client is
        marked disconnected and one lost-connection notice is scheduled; a
        client already disconnected is left as it is. */
    method ConnectionLost()
      requires Valid()
      modifies this`connected, this`scheduled
      ensures Valid() && !connected
      ensures scheduled == old(scheduled) + (if old(connected) then [ShowNotice(LostConnectionNotice)] else [])
    {
      if connected {
        connected := false;
        scheduled := scheduled + [ShowNotice(LostConnectionNotice)];
      } else {
        assert scheduled + [] == scheduled;
      }
    }
  }

  /** Feeding `b` to a buffer left by `a` yields what `a + b` yields beyond what `a` did. */
  lemma RecordsOfAppend(a: string, b: string, decode: Decoder)
    ensures var carried := SplitLines(SplitLines(a).rest + b);
            SplitLines(a + b).rest == carried.rest &&
            Records(SplitLines(a + b).lines, decode) ==
            Records(SplitLines(a).lines, decode) + Records(carried.lines, decode)
  {
    SplitLinesAppend(a, b);
    RecordsAppend(SplitLines(a).lines, SplitLines(SplitLines(a).rest + b).lines, decode);
  }

  /** The unterminated tail left by the first `n` reads. */
  function Carried(outcomes: seq<ReadOutcome>, n: nat): string
    requires n <= |outcomes|
  {
    SplitLines(Stream(outcomes[..n])).rest
  }

  /** The display callbacks scheduled for the first `n` reads. */
  function Shown(outcomes: seq<ReadOutcome>, n: nat, decode: Decoder): seq<Callback>
    requires n <= |outcomes|
  {
    Displays(Records(SplitLines(Stream(outcomes[..n])).lines, decode))
  }

  lemma EmptyStream(outcomes: seq<ReadOutcome>, decode: Decoder)
    ensures Carried(outcomes, 0) == "" && Shown(outcomes, 0, decode) == []
  {
    assert outcomes[..0] == [];
  }

  /** One more read: the framer's carried tail plus the new text gives the
      next tail, and its records extend what was scheduled. */
  lemma ReadStep(outcomes: seq<ReadOutcome>, i: nat, decode: Decoder)
    requires i < |outcomes| && outcomes[i].Received?
    ensures var next := SplitLines(Carried(outcomes, i) + outcomes[i].data);
            Carried(outcomes, i + 1) == next.rest &&
            Shown(outcomes, i + 1, decode) == Shown(outcomes, i, decode) + Displays(Records(next.lines, decode))
  {
    var before := Stream(outcomes[..i]);
    var chunk := outcomes[i].data;
    assert outcomes[..i + 1][..i] == outcomes[..i];
    assert Stream(outcomes[..i + 1]) == before + chunk;
    RecordsOfAppend(before, chunk, decode);
    DisplaysAppend(Records(SplitLines(before).lines, decode), Records(SplitLines(SplitLines(before).rest + chunk).lines, decode));
  }
}
