/** The interactive client: one connection from the first packet to the end. */
module ClientSession {
  import opened Text
  import opened Wire
  import opened Stream
  import opened Xml
  import opened CommandLine
  import opened Client
  import Printing

  /** What happens at the client, in order. `Shown` has the line number from which a source listing
      would be printed. */
  datatype Event =
    | Signal                             // the user asks to abort
    | Read(response: Wire.Response)
    | Shown(m: Message, start: int)
    | Typed(line: string)                // a line read at the prompt
    | Sent(line: string)

  datatype SessionEnd =
    | Aborted
    | ReadFailed(cause: Cause)
    | NotXmlResponse
    | UnknownXml
    | MoreButFailed
    | CloseAsked
    | InputEnded
    | SendFailed

  datatype Next = Again | Prompt | End(end: SessionEnd)

  predicate IsFinal(m: Message) {
    !ExpectsMore(m) && !ShouldClose(m)
  }

  // ----- What a history says -----

  function Finals(past: seq<Event>): nat {
    if past == [] then 0
    else
      var last := past[|past| - 1];
      Finals(past[..|past| - 1]) + if last.Shown? && IsFinal(last.m) then 1 else 0
  }

  /** The lines sent so far. */
  function SentLines(past: seq<Event>): seq<string> {
    if past == [] then []
    else
      var last := past[|past| - 1];
      SentLines(past[..|past| - 1]) + if last.Sent? then [last.line] else []
  }

  /** The responses read so far, expired deadlines and failures included. */
  function Reads(past: seq<Event>): seq<Wire.Response> {
    if past == [] then []
    else
      var last := past[|past| - 1];
      Reads(past[..|past| - 1]) + if last.Read? then [last.response] else []
  }

  /** All lines typed so far. */
  function TypedLines(past: seq<Event>): seq<string> {
    if past == [] then []
    else
      var last := past[|past| - 1];
      TypedLines(past[..|past| - 1]) + if last.Typed? then [last.line] else []
  }

  /** The latest line typed that is neither empty nor a call for help; empty if there is none. */
  function Latest(past: seq<Event>): string {
    if past == [] then ""
    else
      var last := past[|past| - 1];
      if last.Typed? && last.line != "" && last.line != "help" then last.line
      else Latest(past[..|past| - 1])
  }

  predicate Signalled(past: seq<Event>) {
    exists i | 0 <= i < |past| :: past[i].Signal?
  }

  /** The last thing that happened is a deadline expiring, and an abort has been asked for. */
  predicate IsAborted(past: seq<Event>) {
    past != [] && past[|past| - 1].Read? && past[|past| - 1].response.TimedOut? && Signalled(past)
  }

  /** The last event that is not a signal. */
  function LastAct(past: seq<Event>): Option<Event> {
    if past == [] then None
    else if past[|past| - 1].Signal? then LastAct(past[..|past| - 1])
    else Some(past[|past| - 1])
  }

  /** Everything on the wire: the numbered lines, each with its NUL. */
  function WireText(texts: seq<string>): string {
    if texts == [] then "" else WireText(texts[..|texts| - 1]) + texts[|texts| - 1] + [NUL]
  }

  /** The window start left by the last line sent, or 1. */
  function StartAfter(lines: seq<string>): int {
    var texts := SendAll(lines, 1).0;
    if texts == [] then 1 else WindowStart(Split(texts[|texts| - 1], ' '))
  }

  /** A response is read at the start, after a deadline that expired without an abort, after a
      successful response that announced more, and after a send. */
  predicate CanRead(past: seq<Event>) {
    var last := LastAct(past);
    && !IsAborted(past)
    && (last.Some? ==>
          match last.value
          case Read(response) => response.TimedOut?
          case Shown(m, _) => ExpectsMore(m) && IsSuccess(m)
          case Sent(_) => true
          case _ => false)
  }

  /** The user is asked after a final response, and again after a call for help. */
  predicate CanPrompt(past: seq<Event>) {
    var last := LastAct(past);
    && last.Some?
    && match last.value
       case Shown(m, _) => IsFinal(m)
       case Typed(line) => line == "help"
       case _ => false
  }

  /** The rules for an event after a history. */
  ghost predicate Allowed(past: seq<Event>, e: Event, decode: Decoder) {
    match e
    case Signal => !IsAborted(past) && CanRead(past)
    case Read(_) => CanRead(past)
    case Shown(m, start) =>
      && past != [] && past[|past| - 1].Read? && past[|past| - 1].response.Packet?
      && IsValidXml(past[|past| - 1].response.data)
      && FormatXml(decode(past[|past| - 1].response.data)) == Some(m)
      && start == StartAfter(SentLines(past))
    case Typed(_) => CanPrompt(past)
    case Sent(line) =>
      && LastAct(past).Some? && LastAct(past).value.Typed? && LastAct(past).value.line != "help"
      && line == Latest(past)
  }

  /** Why a session may end after a history. */
  ghost predicate MayEnd(past: seq<Event>, end: SessionEnd, decode: Decoder) {
    var last := LastAct(past);
    && (end == Aborted <==> IsAborted(past))
    && (end != InputEnded ==> last.Some?)
    && match end
       case Aborted => true
       case ReadFailed(cause) => last.value == Read(Failed(cause))
       case NotXmlResponse =>
         last.value.Read? && last.value.response.Packet? && !IsValidXml(last.value.response.data)
       case UnknownXml =>
         && last.value.Read? && last.value.response.Packet? && IsValidXml(last.value.response.data)
         && FormatXml(decode(last.value.response.data)) == None
       case MoreButFailed => last.value.Shown? && ExpectsMore(last.value.m) && !IsSuccess(last.value.m)
       case CloseAsked => last.value.Shown? && ShouldClose(last.value.m)
       case InputEnded => CanPrompt(past)
       case SendFailed => last.value.Sent?
  }

  ghost predicate Lawful(trace: seq<Event>, decode: Decoder) {
    forall i | 0 <= i < |trace| :: Allowed(trace[..i], trace[i], decode)
  }

  lemma {:induction false} InputsSnoc(trace: seq<Event>, e: Event)
    ensures Reads(trace + [e]) == if e.Read? then Reads(trace) + [e.response] else Reads(trace)
    ensures TypedLines(trace + [e]) == if e.Typed? then TypedLines(trace) + [e.line] else TypedLines(trace)
  {
    assert (trace + [e])[..|trace|] == trace;
    assert Reads(trace) + [] == Reads(trace) && TypedLines(trace) + [] == TypedLines(trace);
  }

  lemma {:induction false} Snoc(trace: seq<Event>, e: Event, decode: Decoder)
    ensures Lawful(trace, decode) && Allowed(trace, e, decode) ==> Lawful(trace + [e], decode)
    ensures Finals(trace + [e]) == Finals(trace) + if e.Shown? && IsFinal(e.m) then 1 else 0
    ensures SentLines(trace + [e]) == SentLines(trace) + if e.Sent? then [e.line] else []
    ensures LastAct(trace + [e]) == if e.Signal? then LastAct(trace) else Some(e)
    ensures Latest(trace + [e])
      == if e.Typed? && e.line != "" && e.line != "help" then e.line else Latest(trace)
    ensures Signalled(trace + [e]) <==> Signalled(trace) || e.Signal?
  {
    var longer := trace + [e];
    assert longer[..|trace|] == trace;
    forall i | 0 <= i < |longer| ensures i < |trace| ==> longer[..i] == trace[..i] && longer[i] == trace[i] {
    }
    assert longer[|trace|] == e;
    if Signalled(trace) {
      var i :| 0 <= i < |trace| && trace[i].Signal?;
      assert longer[i].Signal?;
    }
  }

  lemma {:induction false} SendAllSnoc(lines: seq<string>, line: string, counter: int)
    ensures var (texts, counter') := SendAll(lines, counter);
      SendAll(lines + [line], counter) ==
        (texts + [Rewrite(line, counter')], NextCounter(Tokens(line), counter'))
  {
    if lines == [] {
      assert lines + [line] == [line] && [line][1..] == [];
      var text: seq<string> := [Rewrite(line, counter)];
      assert text + [] == text && [] + text == text;
    } else {
      assert (lines + [line])[1..] == lines[1..] + [line];
      var next := NextCounter(Tokens(lines[0]), counter);
      SendAllSnoc(lines[1..], line, next);
      var (sent, counter') := SendAll(lines[1..], next);
      assert [Rewrite(lines[0], counter)] + (sent + [Rewrite(line, counter')])
        == ([Rewrite(lines[0], counter)] + sent) + [Rewrite(line, counter')];
    }
  }

  /** A final response has been shown and not answered yet. */
  predicate AnswerDue(past: seq<Event>) {
    var last := LastAct(past);
    last.Some? && ((last.value.Shown? && IsFinal(last.value.m)) || last.value.Typed?)
  }

  lemma Prefix(trace: seq<Event>, n: nat, decode: Decoder)
    requires Lawful(trace, decode) && n <= |trace|
    ensures Lawful(trace[..n], decode)
  {
    forall i | 0 <= i < n ensures Allowed(trace[..n][..i], trace[..n][i], decode) {
      assert trace[..n][..i] == trace[..i];
      assert Allowed(trace[..i], trace[i], decode);
    }
  }

  /** Lockstep, at every moment of a lawful session: as many commands have been sent as final
      responses shown, except for one that is due exactly between a final response and its answer. */
  lemma {:induction false} Lockstep(trace: seq<Event>, decode: Decoder)
    requires Lawful(trace, decode)
    ensures Finals(trace) == |SentLines(trace)| + if AnswerDue(trace) then 1 else 0
  {
    if trace != [] {
      var n := |trace| - 1;
      Prefix(trace, n, decode);
      Lockstep(trace[..n], decode);
      assert Allowed(trace[..n], trace[n], decode);
    }
  }

  /** So at every read the counts agree, and at every prompt and send one command is due. */
  lemma LockstepAt(trace: seq<Event>, decode: Decoder, i: nat)
    requires Lawful(trace, decode) && i < |trace|
    ensures trace[i].Read? ==> Finals(trace[..i]) == |SentLines(trace[..i])|
    ensures trace[i].Typed? || trace[i].Sent? ==> Finals(trace[..i]) == |SentLines(trace[..i])| + 1
  {
    Prefix(trace, i, decode);
    Lockstep(trace[..i], decode);
    assert Allowed(trace[..i], trace[i], decode);
  }

  /** What is shown was in the packet just read, and goes with the window start of the last line sent, as
      that line went out. */
  lemma {:induction false} ShownFollowsRead(trace: seq<Event>, decode: Decoder, i: nat)
    requires Lawful(trace, decode) && i < |trace| && trace[i].Shown?
    ensures i > 0 && trace[i - 1].Read? && trace[i - 1].response.Packet?
    ensures FormatXml(decode(trace[i - 1].response.data)) == Some(trace[i].m)
    ensures trace[i].start == StartAfter(SentLines(trace[..i]))
  {
    assert Allowed(trace[..i], trace[i], decode);
  }

  /** A packet was read and shown, and nothing but signals has come since. */
  ghost predicate JustShown(past: seq<Event>, k: nat) {
    && k + 1 < |past| && past[k].Read? && past[k].response.Packet? && past[k + 1].Shown?
    && forall j | k + 1 < j < |past| :: past[j].Signal?
  }

  lemma {:induction false} ShownIsLastAct(past: seq<Event>, k: nat)
    requires JustShown(past, k)
    ensures LastAct(past) == Some(past[k + 1]) && !IsAborted(past)
  {
    if k + 2 < |past| {
      ShownIsLastAct(past[..|past| - 1], k);
    }
  }

  lemma JustShownIs(past: seq<Event>, decode: Decoder, k: nat) returns (m: Message)
    requires Lawful(past, decode) && JustShown(past, k)
    ensures LastAct(past).Some? && LastAct(past).value.Shown? && LastAct(past).value.m == m && !IsAborted(past)
    ensures FormatXml(decode(past[k].response.data)) == Some(m)
  {
    ShownIsLastAct(past, k);
    ShownFollowsRead(past, decode, k + 1);
    m := past[k + 1].m;
  }

  /** After a packet that announces more, the session reads on without typing or sending; only a failure
      ends it. The packets are told by their root tag and command. */
  lemma {:induction false} AfterMore(past: seq<Event>, decode: Decoder, k: nat, e: Event, end: SessionEnd)
    requires Lawful(past, decode) && JustShown(past, k)
    requires var doc := decode(past[k].response.data);
      && doc.Element?
      && (|| doc.root == "notify" || doc.root == "stream" || doc.root == "cloudinit"
          || (doc.root == "response" && doc.command == "break"))
    ensures var doc := decode(past[k].response.data);
      var failed := doc.success != 1 && (doc.root == "response" || doc.root == "cloudinit");
      && (Allowed(past, e, decode) <==> !failed && (e.Read? || e.Signal?))
      && (MayEnd(past, end, decode) <==> failed && end == MoreButFailed)
  {
    var m := JustShownIs(past, decode, k);
    MessageTable(decode(past[k].response.data));
  }

  /** So in a lawful history the next event after such a packet that is no signal is a read. */
  lemma {:induction false} ReadsOn(trace: seq<Event>, decode: Decoder, k: nat, j: nat)
    requires Lawful(trace, decode) && k + 1 < j < |trace|
    requires trace[k].Read? && trace[k].response.Packet? && trace[k + 1].Shown?
    requires forall i | k + 1 < i < j :: trace[i].Signal?
    requires var doc := decode(trace[k].response.data);
      && doc.Element?
      && (|| doc.root == "notify" || doc.root == "stream" || doc.root == "cloudinit"
          || (doc.root == "response" && doc.command == "break"))
    ensures trace[j].Read? || trace[j].Signal?
  {
    Prefix(trace, j, decode);
    assert JustShown(trace[..j], k);
    assert Allowed(trace[..j], trace[j], decode);
    AfterMore(trace[..j], decode, k, trace[j], MoreButFailed);
  }

  /** After a packet that asks to close, nothing more happens and the session ends with that. */
  lemma {:induction false} AfterClose(past: seq<Event>, decode: Decoder, k: nat, e: Event, end: SessionEnd)
    requires Lawful(past, decode) && JustShown(past, k)
    requires var doc := decode(past[k].response.data);
      && doc.Element?
      && (|| doc.root == "cloudstop"
          || (doc.root == "response" && (doc.command == "detach" || doc.command == "stop")))
    ensures !Allowed(past, e, decode)
    ensures MayEnd(past, end, decode) <==> end == CloseAsked
  {
    var m := JustShownIs(past, decode, k);
    MessageTable(decode(past[k].response.data));
  }

  /** Every other packet that is shown leads to the prompt. */
  lemma {:induction false} AfterFinal(past: seq<Event>, decode: Decoder, k: nat, e: Event, end: SessionEnd)
    requires Lawful(past, decode) && JustShown(past, k)
    requires var doc := decode(past[k].response.data);
      && doc.Element?
      && (|| doc.root == "ctrl-response" || doc.root == "init" || doc.root == "proxyinit" || doc.root == "proxystop"
          || (&& doc.root == "response"
              && doc.command != "break" && doc.command != "detach" && doc.command != "stop"))
    ensures Allowed(past, e, decode) <==> e.Typed?
    ensures MayEnd(past, end, decode) <==> end == InputEnded
  {
    var m := JustShownIs(past, decode, k);
    MessageTable(decode(past[k].response.data));
  }

  /** Right after a packet is read it is shown, unless it is not XML or of no known kind. */
  lemma {:induction false} AfterPacket(past: seq<Event>, decode: Decoder, e: Event, end: SessionEnd)
    requires past != [] && past[|past| - 1].Read? && past[|past| - 1].response.Packet?
    ensures var data := past[|past| - 1].response.data;
      var doc := decode(data);
      var known :=
        && doc.Element? && doc.decodes
        && (|| doc.root == "response" || doc.root == "ctrl-response" || doc.root == "init" || doc.root == "notify"
            || doc.root == "stream" || doc.root == "proxyinit" || doc.root == "proxystop"
            || doc.root == "cloudinit" || doc.root == "cloudstop");
      && (Allowed(past, e, decode) ==> e.Shown? && "<?xml" <= data && known)
      && (MayEnd(past, end, decode) <==>
            if "<?xml" <= data then !known && end == UnknownXml else end == NotXmlResponse)
  {
    MessageTable(decode(past[|past| - 1].response.data));
  }

  /** So a source that a session shows is listed from there. */
  lemma {:induction false} SourceFollowsWindow(trace: seq<Event>, decode: Decoder, i: nat, base64: Printing.Base64)
    requires Lawful(trace, decode) && i < |trace| && trace[i].Shown? && IsSource(trace[i].m)
    requires Printing.ValueOf(trace[i].m, base64) != ""
    ensures var (m, start) := (trace[i].m, trace[i].start);
      && start == StartAfter(SentLines(trace[..i]))
      && Printing.Lists(Printing.SourceText(m, start, base64), Printing.ValueOf(m, base64), start)
  {
    ShownFollowsRead(trace, decode, i);
    Printing.SourceIsListed(trace[i].m, trace[i].start, base64);
  }

  lemma {:induction false} LatestIs(past: seq<Event>) returns (i: int)
    ensures -1 <= i < |past|
    ensures i >= 0 ==> past[i].Typed? && past[i].line != "" && past[i].line != "help" && past[i].line == Latest(past)
    ensures i < 0 ==> Latest(past) == ""
    ensures forall j | i < j < |past| && past[j].Typed? :: past[j].line == "" || past[j].line == "help"
  {
    if past == [] {
      i := -1;
    } else {
      var n := |past| - 1;
      if past[n].Typed? && past[n].line != "" && past[n].line != "help" {
        i := n;
      } else {
        i := LatestIs(past[..n]);
        forall j | i < j < |past| && past[j].Typed? ensures past[j].line == "" || past[j].line == "help" {
          assert j < n ==> past[..n][j] == past[j];
        }
      }
    }
  }

  /** A line that is sent is the latest one typed before it that is neither empty nor a call for help; it
      is empty only if there is none. */
  lemma SentIsLatest(trace: seq<Event>, decode: Decoder, k: nat) returns (i: int)
    requires Lawful(trace, decode) && k < |trace| && trace[k].Sent?
    ensures -1 <= i < k
    ensures i >= 0 ==>
      trace[i].Typed? && trace[i].line != "" && trace[i].line != "help" && trace[k].line == trace[i].line
    ensures i < 0 ==> trace[k].line == ""
    ensures forall j | i < j < k && trace[j].Typed? :: trace[j].line == "" || trace[j].line == "help"
  {
    assert Allowed(trace[..k], trace[k], decode);
    i := LatestIs(trace[..k]);
    forall j | i < j < k && trace[j].Typed? ensures trace[j].line == "" || trace[j].line == "help" {
      assert trace[..k][j] == trace[j];
    }
  }

  /** A session is aborted exactly if the last thing that happened is a deadline expiring after an abort
      was asked for. */
  lemma AbortIs(trace: seq<Event>, end: SessionEnd, decode: Decoder)
    requires MayEnd(trace, end, decode)
    ensures end == Aborted <==>
      && trace != [] && trace[|trace| - 1].Read? && trace[|trace| - 1].response.TimedOut?
      && exists i | 0 <= i < |trace| :: trace[i].Signal?
  {
  }

  // ----- The session -----

  class Session {
    const client: DbgpClient
    var inputs: seq<string>  // what the user will type
    ghost const wire: string // what was on the wire before
    ghost const script: seq<string>
    ghost const arriving: seq<Item>
    ghost var trace: seq<Event>

    /** The responses read are those that arrive and the lines typed those of the script, in order and
        without a gap; what has not been read and typed is still to come. */
    ghost predicate InOrder()
      reads this, client, client.conn, client.reader
    {
      && client.Valid()
      && TypedLines(trace) + inputs == script
      && Responses(arriving, client.conn.End(), |Reads(trace)|) == (Reads(trace), client.reader.ItemsWith(true))
    }

    /** The history is lawful, and the client's counter, window and connection agree with it. */
    ghost predicate Agrees()
      reads this, client, client.conn
    {
      && client.Valid()
      && Lawful(trace, client.decode)
      && client.counter == SendAll(SentLines(trace), 1).1
      && client.lastSourceBegin == StartAfter(SentLines(trace))
      && client.conn.sent == wire + WireText(SendAll(SentLines(trace), 1).0)
      && (client.abortRequested <==> Signalled(trace))
    }

    /** The history is lawful and in order, and the client and the connection agree with it. */
    ghost predicate Valid()
      reads this, client, client.conn, client.reader
    {
      Agrees() && InOrder()
    }

    constructor (conn: Conn, decode: Decoder, inputs: seq<string>)
      ensures client.conn == conn && client.decode == decode && fresh(client) && fresh(client.reader)
      ensures this.inputs == script == inputs && wire == conn.sent && trace == [] && Valid()
      ensures arriving == conn.ItemsWith(true)
    {
      var c := new DbgpClient(conn, decode);
      client := c;
      this.inputs, script := inputs, inputs;
      arriving := conn.ItemsWith(true);
      wire := conn.sent;
      trace := [];
      new;
      assert client.reader.ItemsWith(true) == conn.ItemsWith(true);
      assert conn.sent == wire + WireText(SendAll([], 1).0);
    }

    /** An event that is neither a signal nor a send. */
    ghost method Note(e: Event)
      requires Agrees() && Allowed(trace, e, client.decode) && !e.Signal? && !e.Sent?
      modifies this`trace
      ensures Agrees() && trace == old(trace) + [e]
      ensures SentLines(trace) == old(SentLines(trace))
      ensures Reads(trace) == if e.Read? then old(Reads(trace)) + [e.response] else old(Reads(trace))
      ensures TypedLines(trace) == if e.Typed? then old(TypedLines(trace)) + [e.line] else old(TypedLines(trace))
      ensures Finals(trace) == old(Finals(trace)) + if e.Shown? && IsFinal(e.m) then 1 else 0
      ensures LastAct(trace) == Some(e)
      ensures Latest(trace)
        == if e.Typed? && e.line != "" && e.line != "help" then e.line else old(Latest(trace))
      ensures Signalled(trace) == old(Signalled(trace))
    {
      Snoc(trace, e, client.decode);
      InputsSnoc(trace, e);
      assert SentLines(trace) + [] == SentLines(trace);
      trace := trace + [e];
    }

    /** An event that is neither a read nor a line typed leaves the order alone. */
    twostate lemma StillInOrder(e: Event)
      requires old(InOrder()) && client.Valid() && trace == old(trace) + [e] && !e.Read? && !e.Typed?
      requires inputs == old(inputs) && client.reader.buffer == old(client.reader.buffer)
      requires client.conn.pending == old(client.conn.pending) && client.conn.closed == old(client.conn.closed)
      ensures InOrder()
    {
      InputsSnoc(old(trace), e);
    }

    lemma FirstIsTyped(typed: seq<string>, rest: seq<string>)
      requires rest != []
      ensures (typed + [rest[0]]) + rest[1..] == typed + rest
    {
    }

    lemma Regroup(a: string, b: string, c: string, d: string)
      ensures a + b + c + d == a + (b + c + d)
    {
    }

    /** `SendCommand` on the line that is due. */
    method Send(line: string) returns (ok: bool)
      requires Valid() && Allowed(trace, Sent(line), client.decode)
      modifies this`trace, client`counter, client`lastSourceBegin, client.conn`sent
      ensures Valid() && trace == old(trace) + [Sent(line)]
    {
      ghost var lines := SentLines(trace);
      SendAllSnoc(lines, line, 1);
      ghost var texts := SendAll(lines, 1).0;
      ghost var text := Rewrite(line, client.counter);
      assert (texts + [text])[..|texts|] == texts;
      Regroup(wire, WireText(texts), text, [NUL]);
      ok := client.SendCommand(line);
      Snoc(trace, Sent(line), client.decode);
      trace := trace + [Sent(line)];
      StillInOrder(Sent(line));
    }

    /** The user may ask to abort at any time; it is noticed before the read it arrives in. */
    method MaybeSignal()
      requires Valid() && CanRead(trace)
      modifies this`trace, client`abortRequested
      ensures Valid() && CanRead(trace) && Latest(trace) == old(Latest(trace))
    {
      var signalled: bool := *;
      if signalled {
        client.SignalAbort();
        Snoc(trace, Signal, client.decode);
        assert SentLines(trace) + [] == SentLines(trace);
        trace := trace + [Signal];
        StillInOrder(Signal);
      }
    }

    /** One read, with its deadline. */
    method Listen() returns (response: Wire.Response)
      requires Valid() && CanRead(trace)
      modifies this`trace, client`abortRequested
      modifies client.reader`buffer, client.conn`pending, client.conn`deadline
      ensures Valid() && Latest(trace) == old(Latest(trace))
      ensures trace != [] && trace[|trace| - 1] == Read(response) && LastAct(trace) == Some(Read(response))
      ensures (response, client.reader.ItemsWith(true))
        == NextResponse(old(client.reader.ItemsWith(true)), client.conn.End())
      ensures IsTail(client.conn.pending, old(client.conn.pending))
      ensures !response.Failed? ==>
        |client.conn.pending| < |old(client.conn.pending)| || |client.reader.buffer| < |old(client.reader.buffer)|
    {
      MaybeSignal();
      ResponsesSnoc(arriving, client.conn.End(), |Reads(trace)|);
      response := client.ReadResponseWithTimeout();
      Note(Read(response));
    }

    /** What is done with a packet that was read. */
    method Show(data: string) returns (next: Next)
      requires Valid() && trace != [] && trace[|trace| - 1] == Read(Packet(data))
      requires LastAct(trace) == Some(Read(Packet(data)))
      modifies this`trace
      ensures Valid() && Latest(trace) == old(Latest(trace))
      ensures next.Again? ==> CanRead(trace)
      ensures next.Prompt? ==> CanPrompt(trace)
      ensures next.End? ==> MayEnd(trace, next.end, client.decode) && !next.end.InputEnded?
    {
      if !IsValidXml(data) {
        return End(NotXmlResponse);
      }
      var formatted := FormatXml(client.decode(data));
      if formatted == None {
        return End(UnknownXml);
      }
      var m := formatted.value;
      Note(Shown(m, client.lastSourceBegin));
      if ExpectsMore(m) {
        return if IsSuccess(m) then Again else End(MoreButFailed);
      }
      return if ShouldClose(m) then End(CloseAsked) else Prompt;
    }

    /** The loop up to the prompt: one response, shown if it can be. */
    method HearOne() returns (next: Next)
      requires Valid() && CanRead(trace)
      modifies this`trace, client`abortRequested
      modifies client.reader`buffer, client.conn`pending, client.conn`deadline
      ensures Valid() && Latest(trace) == old(Latest(trace))
      ensures IsTail(client.conn.pending, old(client.conn.pending))
      ensures !next.End? ==>
        |client.conn.pending| < |old(client.conn.pending)| || |client.reader.buffer| < |old(client.reader.buffer)|
      ensures next.Again? ==> CanRead(trace)
      ensures next.Prompt? ==> CanPrompt(trace)
      ensures next.End? ==> MayEnd(trace, next.end, client.decode) && !next.end.InputEnded?
    {
      var response := Listen();
      if response.TimedOut? {
        return if client.abortRequested then End(Aborted) else Again;
      }
      if response.Failed? {
        return End(SessionEnd.ReadFailed(response.cause));
      }
      next := Show(response.data);
    }

    /** A line read at the prompt. */
    method Take() returns (typed: string)
      requires Valid() && CanPrompt(trace) && inputs != []
      modifies this`trace, this`inputs
      ensures Valid() && inputs == old(inputs)[1..] && typed == old(inputs)[0]
      ensures trace == old(trace) + [Typed(typed)] && LastAct(trace) == Some(Typed(typed))
      ensures Latest(trace) == if typed != "" && typed != "help" then typed else old(Latest(trace))
    {
      FirstIsTyped(TypedLines(trace), inputs);
      typed := inputs[0];
      inputs := inputs[1..];
      Note(Typed(typed));
    }

    /** The prompt: asks again after each `help`. */
    method AskLine() returns (typed: Option<string>)
      requires Valid() && CanPrompt(trace)
      modifies this`trace, this`inputs
      ensures Valid()
      ensures typed.None? ==> CanPrompt(trace) && inputs == []
      ensures typed.Some? ==> typed.value != "help" && LastAct(trace) == Some(Typed(typed.value))
      ensures typed.Some? ==> Latest(trace) == if typed.value != "" then typed.value else old(Latest(trace))
    {
      while inputs != []
        invariant Valid() && CanPrompt(trace)
        invariant Latest(trace) == old(Latest(trace))
        decreases |inputs|
      {
        var line := Take();
        if line != "help" {
          return Some(line);
        }
      }
      return None;
    }

    /** From the prompt to the next read: what was typed is sent, or for an empty line the last
        command once more. */
    method Answer(lastCommand: string) returns (line: string, end: Option<SessionEnd>)
      requires Valid() && CanPrompt(trace) && lastCommand == Latest(trace)
      modifies this`trace, this`inputs, client`counter, client`lastSourceBegin, client.conn`sent
      ensures Valid()
      ensures end == None ==> CanRead(trace) && line == Latest(trace)
      ensures end.Some? ==> MayEnd(trace, end.value, client.decode)
      ensures end == Some(InputEnded) ==> inputs == []
    {
      var typed := AskLine();
      if typed == None {
        return lastCommand, Some(InputEnded);
      }
      line := if typed.value == "" then lastCommand else typed.value;
      Snoc(trace, Sent(line), client.decode);
      var ok := Send(line);
      end := if ok then None else Some(SendFailed);
    }

    /** `handleConnection`, for every sequence of responses and of typed lines. `Valid` says that its
        whole history keeps the rules, that it takes the responses that arrive and the lines typed in
        order and skips none, and that the wire holds exactly the numbered lines sent. The session
        ends only for one of the reasons of `MayEnd`, as an abort exactly if the last thing that
        happened was a deadline expiring after an abort signal. */
    method Run() returns (end: SessionEnd)
      requires Valid() && trace == []
      modifies this`trace, this`inputs, client, client.reader`buffer
      modifies client.conn`pending, client.conn`deadline, client.conn`sent
      ensures Valid() && MayEnd(trace, end, client.decode)
      ensures end.InputEnded? ==> inputs == []
    {
      var lastCommand := "";
      while true
        invariant Valid() && CanRead(trace)
        invariant lastCommand == Latest(trace)
        decreases |client.conn.pending|, |client.reader.buffer|
      {
        var next := HearOne();
        match next {
          case Again => continue;
          case End(e) => return e;
          case Prompt =>
            var line, stop := Answer(lastCommand);
            if stop.Some? {
              return stop.value;
            }
            lastCommand := line;
        }
      }
    }
  }
}
