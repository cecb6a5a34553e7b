/** The proxy's forwarder: connects to the IDE, sends it the init packet, then passes on what the
    engine sends until the session ends. */
module Forwarder {
  import opened Text
  import opened Wire
  import opened Stream
  import opened Xml
  import opened Client
  import opened Connections

  /** What the network makes of the attempt to reach the IDE: no connection, a connection whose first
      write fails, or one that works. */
  datatype Dial = Unreachable | FirstWriteFails | Works

  datatype ForwardError = NoError | NotConnected | InitNotSent | IdeClosed

  /** The proxy's side of the connection to an IDE. `sent` is all that was handed to `Write`; after the
      init packet nobody looks at whether a write succeeded. */
  class IdeSocket {
    const target: Connection  // whose address was dialled
    var sent: string
    var closed: bool

    constructor (target: Connection)
      ensures this.target == target && sent == "" && !closed
    {
      this.target := target;
      sent, closed := "", false;
    }

    method Write(data: string)
      modifies this`sent
      ensures sent == old(sent) + data
    {
      sent := sent + data;
    }

    method Close()
      modifies this`closed
      ensures closed
    {
      closed := true;
    }
  }

  ghost function ClosesWith(decode: Decoder): string -> bool {
    d => Closes(decode(d))
  }

  /** What the loop does about one response: whether it ends, and what it writes to the IDE. */
  function ExitOn(response: Wire.Response, closes: string -> bool): Option<Exit> {
    match response
    case TimedOut(ideGone) => if ideGone then Some(IdeGone) else None
    case Failed(cause) => Some(ReadFailed(cause))
    case Packet(data) => if closes(data) then Some(Closing) else None
  }

  function WrittenOn(response: Wire.Response, closes: string -> bool): string {
    if response.Packet? && !closes(response.data) then Reframe(response.data) else ""
  }

  /** One turn of the server read loop. */
  method PumpOnce(client: DbgpClient, ide: IdeSocket) returns (exit: Option<Exit>)
    requires client.Valid()
    modifies client.reader`buffer, client.conn`pending, client.conn`deadline, ide`sent
    ensures IsTail(client.conn.pending, old(client.conn.pending))
    ensures client.conn.deadline
    ensures var (response, rest) := NextResponse(old(client.reader.ItemsWith(true)), client.conn.End());
      && client.reader.ItemsWith(true) == rest
      && exit == ExitOn(response, ClosesWith(client.decode))
      && ide.sent == old(ide.sent) + WrittenOn(response, ClosesWith(client.decode))
  {
    var response := client.ReadResponseWithTimeout();
    match response {
      case TimedOut(ideGone) =>
        return if ideGone then Some(IdeGone) else None;
      case Failed(cause) =>
        return Some(ReadFailed(cause));
      case Packet(data) =>
        if Closes(client.decode(data)) {
          return Some(Closing);
        }
        ide.Write(Reframe(data));
        return None;
    }
  }

  /** What the loop writes to the IDE in all. */
  function Written(items: seq<Item>, end: Cause, closes: string -> bool): string
    requires !end.Deadline?
  {
    Frames(Forward(items, end, closes).payloads)
  }

  lemma ForwardUnfolds(items: seq<Item>, end: Cause, closes: string -> bool)
    requires !end.Deadline?
    ensures var (response, rest) := NextResponse(items, end);
      match ExitOn(response, closes)
      case Some(exit) => Forward(items, end, closes) == Forwarded([], exit, rest)
      case None =>
        && Written(items, end, closes) == WrittenOn(response, closes) + Written(rest, end, closes)
        && Forward(items, end, closes).exit == Forward(rest, end, closes).exit
        && Forward(items, end, closes).rest == Forward(rest, end, closes).rest
  {
    var (response, rest) := NextResponse(items, end);
    if response.Packet? {
      PacketEndsInNul(items, end);
      var payload := response.data[..|response.data| - 1];
      assert response.data == payload + [NUL];
      ReframeIsFrame(payload);
      FramesFirst(payload, Forward(rest, end, closes).payloads);
    }
  }

  lemma Regroup(a: string, b: string, c: string)
    ensures (a + b) + c == a + (b + c)
  {
  }

  /** The server read loop. */
  method Pump(conn: Conn, decode: Decoder, ide: IdeSocket) returns (exit: Exit, lost: string)
    modifies conn`pending, conn`deadline, ide`sent
    ensures IsTail(conn.pending, old(conn.pending))
    ensures var f := Forward(old(conn.ItemsWith(true)), conn.End(), ClosesWith(decode));
      && ide.sent == old(ide.sent) + Frames(f.payloads)
      && exit == f.exit
      && f.rest == AsItems(lost) + conn.ItemsWith(true)
  {
    var client := new DbgpClient(conn, decode);
    ghost var items, end, closes := old(conn.ItemsWith(true)), conn.End(), ClosesWith(decode);
    ghost var whole := Forward(items, end, closes);
    ghost var goal := old(ide.sent) + Written(items, end, closes);
    assert client.reader.ItemsWith(true) == items;
    while true
      invariant client.Valid() && client.conn == conn && fresh(client) && fresh(client.reader)
      invariant IsTail(conn.pending, old(conn.pending))
      invariant conn.closed == old(conn.closed) && conn.End() == end && client.decode == decode
      invariant client.reader.ItemsWith(true) == items
      invariant ide.sent + Written(items, end, closes) == goal
      invariant Forward(items, end, closes).exit == whole.exit
      invariant Forward(items, end, closes).rest == whole.rest
      decreases |items|
    {
      ghost var before := ide.sent;
      ghost var (response, rest) := NextResponse(items, end);
      ForwardUnfolds(items, end, closes);
      ghost var left := conn.pending;
      var out := PumpOnce(client, ide);
      TailOfTail(conn.pending, left, old(conn.pending));
      if out.Some? {
        assert before + "" == before;
        return out.value, client.reader.buffer;
      }
      Regroup(before, WrittenOn(response, closes), Written(rest, end, closes));
      items := rest;
    }
  }

  // ----- The whole forward -----

  lemma ReframeAll(initial: string, payloads: seq<string>)
    requires initial != "" && initial[|initial| - 1] == NUL
    ensures ByLength(Reframe(initial) + Frames(payloads)) == Some([initial[..|initial| - 1]] + payloads)
  {
    var payload := initial[..|initial| - 1];
    assert initial == payload + [NUL];
    ReframeIsFrame(payload);
    FramesFirst(payload, payloads);
    ByLengthIsFrames(Reframe(initial) + Frames(payloads), [payload] + payloads);
  }

  lemma ReframeOne(initial: string)
    requires initial != "" && initial[|initial| - 1] == NUL
    ensures ByLength(Reframe(initial)) == Some([initial[..|initial| - 1]])
  {
    ReframeAll(initial, []);
    assert Reframe(initial) + Frames([]) == Reframe(initial);
    assert [initial[..|initial| - 1]] + [] == [initial[..|initial| - 1]];
  }

  /** What a forward does once the IDE has taken the init packet: it sends the frames of the complete
      packets before the first closing one, fails exactly if the IDE went away, closes the engine's
      connection exactly if reading from it failed, and leaves the rest of the stream, except for `lost`,
      which its own reader still held. */
  ghost predicate IsForward(before: Feed, after: Feed, closes: string -> bool, initial: string,
                            sent: string, err: ForwardError, lost: string)
  {
    var items, end := ItemsOf(before, true), EndOf(before);
    var packets := Packets(Arrived(items, false));
    var passed := Until(packets, closes);
    var exit := if |passed| < |packets| then Closing else StopExit(items, false, end);
    && sent == Reframe(initial) + Frames(passed)
    && err == (if exit.IdeGone? then IdeClosed else NoError)
    && after.closed == (before.closed || exit.ReadFailed?)
    && IsTail(after.events, before.events)
    && (!after.closed ==> Forward(items, end, closes).rest == AsItems(lost) + ItemsOf(after, true))
  }

  /** An attempt to forward, for each way the dial can go. */
  ghost predicate IsAttempt(dial: Dial, before: Feed, after: Feed, closes: string -> bool, initial: string,
                            sent: string, err: ForwardError, lost: string)
  {
    match dial
    case Unreachable => err == NotConnected && sent == "" && after == before
    case FirstWriteFails => err == InitNotSent && sent == Reframe(initial) && after == before
    case Works => IsForward(before, after, closes, initial, sent, err, lost)
  }

  /** What a forward means to an IDE that goes by the lengths: it reads the init packet and the first `n`
      packets that arrive complete; none of these closes, and the next one does if there is one. If
      there is none, the forward fails exactly if the reading ends at a deadline that expires outside
      data, and otherwise closes the engine's connection. */
  lemma ForwardMeans(before: Feed, after: Feed, decode: Decoder, initial: string, sent: string,
                     err: ForwardError, lost: string) returns (n: nat)
    requires IsForward(before, after, ClosesWith(decode), initial, sent, err, lost)
    requires initial != "" && initial[|initial| - 1] == NUL
    ensures var items := ItemsOf(before, true);
      var packets, stop := Packets(Arrived(items, false)), Stop(items, false);
      && n <= |packets|
      && ByLength(sent) == Some([initial[..|initial| - 1]] + packets[..n])
      && (forall i | 0 <= i < n :: !Closes(decode(packets[i] + [NUL])))
      && (n < |packets| ==>
            Closes(decode(packets[n] + [NUL])) && err == NoError && after.closed == before.closed)
      && (n == |packets| ==>
            if stop < |items| && items[stop].Timeout? && NulCount(items[..stop]) % 2 == 0 then
              err == IdeClosed && after.closed == before.closed
            else err == NoError && after.closed)
  {
    var items := ItemsOf(before, true);
    var packets := Packets(Arrived(items, false));
    var passed := Until(packets, ClosesWith(decode));
    n := |passed|;
    UntilStops(packets, ClosesWith(decode));
    StopIsFirst(items, false);
    ReframeAll(initial, passed);
  }

  /** What the IDE was sent, if there is a connection to it. */
  function SentTo(ide: IdeSocket?): string
    reads ide
  {
    if ide == null then "" else ide.sent
  }

  /** `setupForwarder`. `ide` is the socket that was opened, if any, and `lost` is what the forwarder's
      own reader had taken from the connection but not used. */
  method SetupForwarder(conn: Conn, decode: Decoder, initial: string, target: Connection, dial: Dial)
    returns (ide: IdeSocket?, err: ForwardError, lost: string)
    modifies conn`pending, conn`deadline, conn`closed
    ensures IsAttempt(dial, old(conn.Left()), conn.Left(), ClosesWith(decode), initial, SentTo(ide), err, lost)
    ensures initial != "" && initial[|initial| - 1] == NUL ==>
      && (dial.FirstWriteFails? ==> ByLength(SentTo(ide)) == Some([initial[..|initial| - 1]]))
      && (dial.Works? ==>
            ByLength(SentTo(ide)) == Some(
              [initial[..|initial| - 1]]
              + Until(Packets(Arrived(old(conn.ItemsWith(true)), false)), ClosesWith(decode))))
    ensures (err == NotConnected <==> dial == Unreachable) && (err == InitNotSent <==> dial == FirstWriteFails)
    ensures !dial.Works? ==> conn.Left() == old(conn.Left())
    ensures ide == null <==> dial == Unreachable
    ensures ide != null ==> fresh(ide) && ide.closed && ide.target == target
  {
    if dial == Unreachable {
      return null, NotConnected, "";
    }
    ide := new IdeSocket(target);
    ide.Write(Reframe(initial));
    assert ide.sent == Reframe(initial);
    if initial != "" && initial[|initial| - 1] == NUL {
      ReframeOne(initial);
      ReframeAll(initial, Until(Packets(Arrived(conn.ItemsWith(true), false)), ClosesWith(decode)));
    }
    if dial == FirstWriteFails {
      ide.Close();
      return ide, InitNotSent, "";
    }
    ghost var items, end := conn.ItemsWith(true), conn.End();
    var exit;
    exit, lost := Pump(conn, decode, ide);
    ForwardIsSplit(items, end, ClosesWith(decode));
    assert Forward(items, end, ClosesWith(decode)).rest == AsItems(lost) + conn.ItemsWith(true);
    match exit {
      case IdeGone => err := IdeClosed;
      case ReadFailed(_) =>
        conn.closed := true;
        err := NoError;
      case Closing => err := NoError;
    }
    ide.Close();
  }

  // ----- The handoff from the reader that took the init packet -----

  /** The forwarder starts a reader of its own, so it never sees what the first reader still holds.
      That is harmless as long as those bytes hold no NUL ... */
  lemma HandoffHarmless(buffer: string, items: seq<Item>, end: Cause, closes: string -> bool)
    requires !end.Deadline? && NUL !in buffer
    ensures Forward(items, end, closes).payloads == Forward(AsItems(buffer) + items, end, closes).payloads
    ensures Forward(items, end, closes).exit == Forward(AsItems(buffer) + items, end, closes).exit
  {
    ForwardIsSplit(items, end, closes);
    ForwardIsSplit(AsItems(buffer) + items, end, closes);
    ArrivedBytes(buffer, items, false, end);
    PacketsSkip(buffer, Arrived(items, false));
  }

  lemma {:induction false} BytesOfItems(bytes: string)
    ensures Bytes(AsItems(bytes)) == bytes
  {
    if bytes != "" {
      BytesOfItems(bytes[1..]);
      assert AsItems(bytes)[1..] == AsItems(bytes[1..]);
    }
  }

  lemma ArrivedAll(bytes: string)
    ensures Arrived(AsItems(bytes), false) == bytes
  {
    var items := AsItems(bytes);
    forall i: nat | i < |items| ensures !Ends(items, false, i) {
      assert items[i] == Byte(bytes[i]);
    }
    ArrivedWhole(items);
    BytesOfItems(bytes);
  }

  lemma SplitHasNul(buffer: string)
    requires NUL in buffer
    ensures |Split(buffer, NUL)| >= 2
  {
    var i :| 0 <= i < |buffer| && buffer[i] == NUL;
    SplitAppend(buffer[..i], buffer[i + 1..], NUL);
    assert buffer == buffer[..i] + [NUL] + buffer[i + 1..];
  }

  /** ... and as soon as they hold one, there is a stream of which the forwarder passes on other
      packets than were sent. */
  lemma HandoffLoses(buffer: string) returns (items: seq<Item>)
    requires NUL in buffer
    ensures var closes := (d: string) => false;
      Forward(items, Eof, closes).payloads != Forward(AsItems(buffer) + items, Eof, closes).payloads
  {
    var closes := (d: string) => false;
    var more := if |Split(buffer, NUL)| < 3 then [NUL] else "";
    items := AsItems(more);
    SplitAppend(buffer, "", NUL);
    assert buffer + [NUL] + "" == buffer + [NUL];
    SplitHasNul(buffer);
    ForwardIsSplit(items, Eof, closes);
    ForwardIsSplit(AsItems(buffer) + items, Eof, closes);
    assert AsItems(buffer) + items == AsItems(buffer + more);
    ArrivedAll(more);
    ArrivedAll(buffer + more);
    assert buffer + "" == buffer;
    SplitAppend("", "", NUL);
    assert "" + [NUL] + "" == [NUL];
    var packets := Packets(buffer + more);
    assert packets != [] && Until(packets, closes) != [];
  }
}
