/** The proxy's handler for an engine's connection: each init packet is routed to the IDE that is
    registered for it, or the engine is told to detach. */
module Routing {
  import Text
  import CommandLine
  import opened Wire
  import opened Stream
  import opened Xml
  import opened Client
  import opened Registry
  import opened Connections
  import opened Forwarder

  // ----- What the handler hears -----

  datatype HandleResult =
    | PeerClosed
    | Interrupted
    | ReadError(cause: Cause)
    | NoKeyGiven
    | HandlerCrashed

  /** What one turn of the reading loop brings. */
  datatype Heard = Nothing | End(result: HandleResult) | InitPacket(data: string, key: string)

  /** The user id of a cloud session goes before the IDE key. */
  function RoutingKey(doc: Doc): string {
    if InitUser(doc) != "" then InitUser(doc) else InitKey(doc)
  }

  /** What the handler makes of a response. A signal is looked for first. */
  function HeardOf(response: Wire.Response, interrupted: bool, decode: Decoder): Heard {
    if interrupted then End(Interrupted)
    else
      match response
      case TimedOut(_) => Nothing
      case Failed(cause) => End(if cause.Eof? then PeerClosed else ReadError(cause))
      case Packet(data) =>
        if RoutingKey(decode(data)) != "" then InitPacket(data, RoutingKey(decode(data))) else End(NoKeyGiven)
  }

  // ----- What the handler does about an init packet -----

  /** A call of `setupForwarder`: what the dial met, the socket to the IDE and what was sent on it, how it
      ended, what the engine's connection had left afterwards, and what was lost with the forwarder's
      own reader. */
  datatype Attempt = Attempt(
    target: Connection, dial: Dial, ide: IdeSocket?, sent: string, err: ForwardError, left: Feed, lost: string)

  /** The socket, if there is one, is to the target's address, was sent what the attempt says, and is
      closed. */
  ghost predicate HasTold(a: Attempt)
    reads a.ide
  {
    && a.sent == SentTo(a.ide)
    && (a.ide == null <==> a.dial == Unreachable)
    && (a.ide != null ==> a.ide.closed && a.ide.target == a.target)
  }

  /** What came of the detach command, and what was lost with the reader that waited for it. */
  datatype Reply = Reply(result: RunResult, lost: string)

  /** All that is done about one init packet. `found` is the registry when the key was looked up;
      `failed` and `removed` are the registry before and after the removal of the key; `reply` is
      that to the detach command. */
  datatype Turn =
    | Clean(found: Reg<Connection>, forward: Attempt)
    | Spoiled(found: Reg<Connection>, forward: Attempt, failed: Reg<Connection>, removed: Reg<Connection>,
             reply: Reply)
    | Absent(found: Reg<Connection>, reply: Reply)

  ghost predicate TurnHasTold(t: Turn)
    reads if t.Absent? then {} else {t.forward.ide}
  {
    !t.Absent? ==> HasTold(t.forward)
  }

  predicate Detaches(t: Turn) {
    !t.Clean?
  }

  /** One command was sent and one response awaited, without a deadline. */
  ghost predicate IsReply(before: Feed, after: Feed, decode: Decoder, reply: Reply) {
    match reply.result
    case WriteFailed => after == before
    case result =>
      var (response, rest) := NextResponse(ItemsOf(before, false), EndOf(before));
      && IsTail(after.events, before.events) && after.closed == before.closed
      && !response.TimedOut? && result == Judge(response, decode)
      && rest == AsItems(reply.lost) + ItemsOf(after, false)
  }

  ghost predicate IsForwardTo(a: Attempt, found: Reg<Connection>, key: string) {
    key in found.table && found.table[key] == a.target
  }

  ghost predicate IsAttemptOn(a: Attempt, data: string, dial: Dial, before: Feed, decode: Decoder) {
    a.dial == dial && IsAttempt(dial, before, a.left, ClosesWith(decode), data, a.sent, a.err, a.lost)
  }

  /** What a turn does on the engine's connection. */
  ghost predicate TurnOnFeed(t: Turn, data: string, dial: Dial, before: Feed, after: Feed, decode: Decoder) {
    match t
    case Clean(_, a) => IsAttemptOn(a, data, dial, before, decode) && a.err == NoError && after == a.left
    case Spoiled(_, a, _, _, reply) =>
      && IsAttemptOn(a, data, dial, before, decode) && a.err != NoError
      && IsReply(a.left, after, decode, reply)
    case Absent(_, reply) => IsReply(before, after, decode, reply)
  }

  /** What a turn does on the registry: the lookup decides, and only a forward that failed is followed by
      a removal, which is of the same key. Others may take steps at any time in between. */
  ghost predicate TurnOnRegistry(t: Turn, key: string, before: Reg<Connection>, after: Reg<Connection>) {
    match t
    case Clean(found, a) => Later(before, found) && IsForwardTo(a, found, key) && Later(found, after)
    case Spoiled(found, a, failed, removed, _) =>
      && Later(before, found) && IsForwardTo(a, found, key)
      && Later(found, failed) && IsRemoval(failed, key, removed) && Later(removed, after)
    case Absent(found, _) => Later(before, found) && key !in found.table && Later(found, after)
  }

  // ----- Whole runs -----

  /** Where a run stands: what the handler's reader holds, what the connection has left, and the
      registry. */
  datatype Point = Point(held: string, feed: Feed, registry: Reg<Connection>)

  /** One pass of the loop: what it hears, where its read leaves it, its turn if it has one, and where
      that leaves it. */
  datatype Pass = Pass(heard: Heard, read: Point, turn: Text.Option<Turn>, next: Point)

  function Visible(p: Point): seq<Item> {
    AsItems(p.held) + ItemsOf(p.feed, true)
  }

  /** What the read of a pass that starts at `from` brings. */
  function HeardAt(from: Point, interrupted: bool, decode: Decoder): Heard {
    HeardOf(NextResponse(Visible(from), EndOf(from.feed)).0, interrupted, decode)
  }

  /** The read takes the next response and no more off what can be seen. */
  ghost predicate IsRead(from: Point, to: Point) {
    match NextResponse(Visible(from), EndOf(from.feed))
    case (_, rest) =>
      && Visible(to) == rest
      && IsTail(to.feed.events, from.feed.events) && to.feed.closed == from.feed.closed
      && Later(from.registry, to.registry)
  }

  /** There is a turn exactly for an init packet, and otherwise nothing happens after the read. */
  ghost predicate IsAnswer(heard: Heard, read: Point, turn: Text.Option<Turn>, next: Point,
                           dial: Dial, decode: Decoder)
  {
    match turn
    case None => !heard.InitPacket? && next == read
    case Some(t) =>
      && heard.InitPacket? && next.held == read.held
      && TurnOnFeed(t, heard.data, dial, read.feed, next.feed, decode)
      && TurnOnRegistry(t, heard.key, read.registry, next.registry)
  }

  ghost predicate IsPass(from: Point, p: Pass, interrupted: bool, dial: Dial, decode: Decoder) {
    && p.heard == HeardAt(from, interrupted, decode)
    && IsRead(from, p.read)
    && IsAnswer(p.heard, p.read, p.turn, p.next, dial, decode)
  }

  ghost predicate PassHasTold(p: Pass)
    reads if p.turn.Some? && !p.turn.value.Absent? then {p.turn.value.forward.ide} else {}
  {
    p.turn.Some? ==> TurnHasTold(p.turn.value)
  }

  predicate IsCrash(t: Turn) {
    Detaches(t) && t.reply.result.Crashed?
  }

  /** How the run ends with a pass, if it does. */
  function Verdict(heard: Heard, turn: Text.Option<Turn>): Text.Option<HandleResult> {
    match heard
    case End(result) => Text.Some(result)
    case _ => if turn.Some? && IsCrash(turn.value) then Text.Some(HandlerCrashed) else Text.None
  }

  /** `signals` says at which passes a signal is found, `dials` how a dial at each pass goes. */
  datatype World = World(signals: nat -> bool, dials: nat -> Dial, decode: Decoder)

  /** Where a run stops that starts at `start`. */
  function Halt(start: Point, passes: seq<Pass>): Point {
    if passes == [] then start else passes[|passes| - 1].next
  }

  /** What pass number `n` hears after some passes. */
  function HeardAfter(start: Point, passes: seq<Pass>, w: World): Heard {
    HeardAt(Halt(start, passes), w.signals(|passes|), w.decode)
  }

  /** How a run has ended, if its last pass ended it. */
  function Result(passes: seq<Pass>): Text.Option<HandleResult> {
    if passes == [] then Text.None
    else
      var last := passes[|passes| - 1];
      Verdict(last.heard, last.turn)
  }

  /** What is heard is what arrives, and there is a turn exactly where it is an init packet. */
  ghost predicate TurnsMatch(start: Point, passes: seq<Pass>, w: World)
    decreases |passes|
  {
    if passes == [] then true
    else
      var n := |passes| - 1;
      && TurnsMatch(start, passes[..n], w)
      && passes[n].heard == HeardAfter(start, passes[..n], w)
      && (passes[n].turn.Some? <==> passes[n].heard.InitPacket?)
  }

  /** Each pass starts where the one before it stopped, and none but the last ends the run. */
  ghost predicate PassesFollow(start: Point, passes: seq<Pass>, w: World)
    decreases |passes|, 0
  {
    if passes == [] then true else Follows(start, passes[..|passes| - 1], passes[|passes| - 1], w)
  }

  ghost predicate Follows(start: Point, front: seq<Pass>, p: Pass, w: World)
    decreases |front|, 1
  {
    var n := |front|;
    && PassesFollow(start, front, w)
    && Result(front).None?
    && IsPass(Halt(start, front), p, w.signals(n), w.dials(n), w.decode)
  }

  ghost predicate IsRun(start: Point, passes: seq<Pass>, w: World) {
    TurnsMatch(start, passes, w) && PassesFollow(start, passes, w)
  }

  lemma {:induction false} RunSnoc(start: Point, passes: seq<Pass>, p: Pass, w: World)
    requires IsRun(start, passes, w) && Result(passes).None?
    requires var n := |passes|;
      IsPass(Halt(start, passes), p, w.signals(n), w.dials(n), w.decode)
    ensures IsRun(start, passes + [p], w) && Halt(start, passes + [p]) == p.next
    ensures Result(passes + [p]) == Verdict(p.heard, p.turn)
  {
    assert (passes + [p])[..|passes|] == passes;
  }

  lemma LastFollows(start: Point, passes: seq<Pass>, w: World)
    requires PassesFollow(start, passes, w) && passes != []
    ensures Follows(start, passes[..|passes| - 1], passes[|passes| - 1], w)
  {
  }

  lemma FrontFollows(start: Point, front: seq<Pass>, p: Pass, w: World)
    requires Follows(start, front, p, w)
    ensures PassesFollow(start, front, w)
  {
  }

  lemma {:induction false} FollowsAt(start: Point, passes: seq<Pass>, w: World, front: seq<Pass>, p: Pass)
    requires PassesFollow(start, passes, w) && front + [p] <= passes
    ensures Follows(start, front, p, w)
    decreases |passes|
  {
    var n := |passes| - 1;
    LastFollows(start, passes, w);
    if |front| < n {
      FrontFollows(start, passes[..n], passes[n], w);
      FollowsAt(start, passes[..n], w, front, p);
    } else {
      assert passes[..n] == front && passes[n] == p;
    }
  }

  lemma FrontGoesOn(start: Point, front: seq<Pass>, p: Pass, w: World)
    requires Follows(start, front, p, w)
    ensures Result(front).None?
  {
  }

  lemma NotLast(start: Point, passes: seq<Pass>, w: World, i: nat)
    requires PassesFollow(start, passes, w) && i < |passes| - 1
    ensures Verdict(passes[i].heard, passes[i].turn).None?
  {
    FollowsAt(start, passes, w, passes[..i + 1], passes[i + 1]);
    FrontGoesOn(start, passes[..i + 1], passes[i + 1], w);
    assert passes[..i + 1][i] == passes[i];
  }

  /** What a pass of a run hears and does, on the response that arrives: a signal, an expired deadline,
      the end of the stream and an error each have their answer; an init packet with a user id is routed
      by it, whatever its IDE key, one without by its IDE key, and anything else ends the run. */
  lemma RunHears(start: Point, passes: seq<Pass>, w: World, i: nat)
    requires IsRun(start, passes, w) && i < |passes|
    ensures var from, p := Halt(start, passes[..i]), passes[i];
      var response := NextResponse(Visible(from), EndOf(from.feed)).0;
      if w.signals(i) then p.heard == End(Interrupted)
      else if response.TimedOut? then p.heard == Nothing
      else if response.Failed? then
        p.heard == End(if response.cause == Eof then PeerClosed else ReadError(response.cause))
      else
        var doc := w.decode(response.data);
        if doc.Element? && doc.root == "init" && doc.userId != "" then
          p.heard == InitPacket(response.data, doc.userId)
        else if doc.Element? && doc.root == "init" && doc.ideKey != "" then
          p.heard == InitPacket(response.data, doc.ideKey)
        else p.heard == End(NoKeyGiven)
    ensures passes[i].heard.End? ==> i == |passes| - 1 && Result(passes) == Text.Some(passes[i].heard.result)
  {
    FollowsAt(start, passes, w, passes[..i], passes[i]);
    if i < |passes| - 1 {
      NotLast(start, passes, w, i);
    }
  }

  /** The turn for an init packet: its key is looked up; a connection found under it is the one that is
      forwarded to, and without one the engine is told to detach; a forward that fails, and only such a
      one, is followed by a removal of the same key and a detach. */
  lemma RunRoutes(start: Point, passes: seq<Pass>, w: World, i: nat)
    requires IsRun(start, passes, w) && i < |passes|
    ensures passes[i].turn.Some? <==> passes[i].heard.InitPacket?
    ensures passes[i].turn.Some? ==>
      var t, key := passes[i].turn.value, passes[i].heard.key;
      && (t.Absent? <==> key !in t.found.table)
      && (!t.Absent? ==> t.forward.target == t.found.table[key])
      && (t.Clean? ==> t.forward.err == NoError)
      && (t.Spoiled? ==> t.forward.err != NoError && IsRemoval(t.failed, key, t.removed))
  {
    FollowsAt(start, passes, w, passes[..i], passes[i]);
  }

  // ----- A run ends with what arrives -----

  lemma {:induction false} FewerEvents(after: seq<Stream.Event>, before: seq<Stream.Event>)
    requires IsTail(after, before)
    ensures |Flatten(after)| <= |Flatten(before)|
  {
    if |after| < |before| {
      FewerEvents(after, before[1..]);
    }
  }

  lemma TurnShrinks(t: Turn, data: string, dial: Dial, before: Feed, after: Feed, decode: Decoder)
    requires TurnOnFeed(t, data, dial, before, after, decode)
    ensures |ItemsOf(after, true)| <= |ItemsOf(before, true)|
  {
    if after.events != before.events {
      var middle := if t.Absent? then before else t.forward.left;
      assert IsTail(middle.events, before.events) && IsTail(after.events, middle.events);
      TailOfTail(after.events, middle.events, before.events);
      FewerEvents(after.events, before.events);
    }
  }

  /** A pass that does not end the run leaves less to be seen. */
  lemma PassShrinks(from: Point, p: Pass, interrupted: bool, dial: Dial, decode: Decoder)
    requires IsPass(from, p, interrupted, dial, decode) && Verdict(p.heard, p.turn).None?
    ensures |Visible(p.next)| < |Visible(from)|
  {
    if p.turn.Some? {
      TurnShrinks(p.turn.value, p.heard.data, dial, p.read.feed, p.next.feed, decode);
    }
  }

  // ----- Conservation -----

  predicate IsClean(p: Pass) { p.turn.Some? && p.turn.value.Clean? }
  predicate IsSpoiled(p: Pass) { p.turn.Some? && p.turn.value.Spoiled? }
  predicate IsDetach(p: Pass) { p.turn.Some? && Detaches(p.turn.value) }

  function Count(passes: seq<Pass>, p: Pass -> bool): nat {
    if passes == [] then 0
    else Count(passes[..|passes| - 1], p) + if p(passes[|passes| - 1]) then 1 else 0
  }

  /** How many passes hear an init packet, by what arrives. */
  function InitsHeard(start: Point, passes: seq<Pass>, w: World): nat
    decreases |passes|
  {
    if passes == [] then 0
    else
      var front := passes[..|passes| - 1];
      InitsHeard(start, front, w) + if HeardAfter(start, front, w).InitPacket? then 1 else 0
  }

  lemma {:induction false} TurnsConserve(start: Point, passes: seq<Pass>, w: World)
    requires TurnsMatch(start, passes, w)
    ensures InitsHeard(start, passes, w) == Count(passes, IsClean) + Count(passes, IsDetach)
    ensures Count(passes, IsSpoiled) <= Count(passes, IsDetach)
    decreases |passes|
  {
    if passes != [] {
      TurnsConserve(start, passes[..|passes| - 1], w);
    }
  }

  /** In every run, the init packets that arrive and give a key are as many as the clean forwards and
      the detach attempts together, and every removal goes with such an attempt. */
  lemma {:induction false} RoutingConserves(start: Point, passes: seq<Pass>, w: World)
    requires IsRun(start, passes, w)
    ensures InitsHeard(start, passes, w) == Count(passes, IsClean) + Count(passes, IsDetach)
    ensures Count(passes, IsSpoiled) <= Count(passes, IsDetach)
  {
    TurnsConserve(start, passes, w);
  }

  /** A removal after a failed forward is of the key, which is absent right after its locked step; and
      that step takes away an entry other than the one that failed exactly if somebody else has come to
      hold the key since the lookup. */
  lemma {:induction false} FailedForwardRemoves(t: Turn, key: string, before: Reg<Connection>, after: Reg<Connection>)
    requires TurnOnRegistry(t, key, before, after) && t.Spoiled?
    ensures var unlinked := Apply(t.failed, Unlink(key));
      && Later(t.failed, unlinked) && key !in unlinked.table
      && ((exists k | k in t.failed.table :: t.failed.table[k] != t.forward.target && k !in unlinked.table)
          <==> key in t.failed.table && t.failed.table[key] != t.found.table[key])
  {
    StepIsLater(t.failed, Unlink(key));
    RemovalDisturbs(t.failed, key, t.forward.target);
  }

  // ----- The handler -----

  /** A command as a fresh client sends it. */
  function Sent(command: string): string {
    CommandLine.Rewrite(command, 1) + [Text.NUL]
  }

  /** What has been sent, with or without one more `text`. */
  function SentIf(more: bool, sent: string, text: string): string {
    if more then sent + text else sent
  }

  function Repeated(text: string, n: nat): string {
    if n == 0 then "" else Repeated(text, n - 1) + text
  }

  lemma AppendTwice(a: string, b: string, c: string)
    ensures a + b + c == a + (b + c)
  {
  }

  lemma DetachSnoc(passes: seq<Pass>, p: Pass, base: string, text: string)
    ensures base + Repeated(text, Count(passes + [p], IsDetach))
      == SentIf(IsDetach(p), base + Repeated(text, Count(passes, IsDetach)), text)
  {
    assert (passes + [p])[..|passes|] == passes;
    AppendTwice(base, Repeated(text, Count(passes, IsDetach)), text);
  }

  /** All that one more pass means for a run. */
  lemma OneMorePass(start: Point, passes: seq<Pass>, p: Pass, w: World, base: string, text: string)
    requires IsRun(start, passes, w) && Result(passes).None?
    requires IsPass(Halt(start, passes), p, w.signals(|passes|), w.dials(|passes|), w.decode)
    ensures IsRun(start, passes + [p], w) && Halt(start, passes + [p]) == p.next
    ensures Result(passes + [p]) == Verdict(p.heard, p.turn)
    ensures base + Repeated(text, Count(passes + [p], IsDetach))
      == SentIf(IsDetach(p), base + Repeated(text, Count(passes, IsDetach)), text)
    ensures Verdict(p.heard, p.turn).None? ==> |Visible(p.next)| < |Visible(Halt(start, passes))|
  {
    RunSnoc(start, passes, p, w);
    DetachSnoc(passes, p, base, text);
    if Verdict(p.heard, p.turn).None? {
      PassShrinks(Halt(start, passes), p, w.signals(|passes|), w.dials(|passes|), w.decode);
    }
  }

  class ServerHandler {
    const list: ConnectionList
    const decode: Decoder
    const detach: string

    constructor (list: ConnectionList, decode: Decoder)
      ensures this.list == list && this.decode == decode
      ensures detach == "detach -- \"dbgpProxy has no IDE connected to it\""
    {
      this.list, this.decode := list, decode;
      detach := "detach -- \"dbgpProxy has no IDE connected to it\"";
    }

    /** Others use the list while this goroutine is busy elsewhere. */
    method Wait()
      requires list.Valid()
      modifies list, list.known
      ensures list.Valid() && fresh(list.known - old(list.known)) && old(list.known) <= list.known
      ensures list.connections.Values * old(list.known) <= old(list.connections).Values
      ensures Later(old(list.view), list.view)
    {
      list.Interfere({});
    }

    /** `sendDetach`, through a client of its own. */
    method SendDetach(conn: Conn) returns (result: RunResult, ghost lost: string)
      modifies conn`sent, conn`pending, conn`deadline
      ensures IsReply(old(conn.Left()), conn.Left(), decode, Reply(result, lost))
      ensures conn.sent == old(conn.sent) + Sent(detach)
    {
      var client := new DbgpClient(conn, decode);
      assert client.reader.ItemsWith(false) == conn.ItemsWith(false);
      result := client.RunCommand(detach);
      lost := client.reader.buffer;
      AppendTwice(old(conn.sent), CommandLine.Rewrite(detach, 1), [Text.NUL]);
    }

    /** The removal after a failed forward, of whatever sits under the key by then. The connection that
        failed is stored no more in any case. */
    method RemoveFailed(key: string, target: Connection)
      returns (ghost failed: Reg<Connection>, ghost removed: Reg<Connection>)
      requires list.Valid() && target in list.known && target.ideKey == key
      modifies list, list.known
      ensures list.Valid() && fresh(list.known - old(list.known)) && target in list.known
      ensures Later(old(list.view), failed) && IsRemoval(failed, key, removed) && removed == list.view
      ensures target !in list.connections.Values
    {
      Wait();
      failed := list.view;
      list.StoredUnderOwnKey(target);
      var _ := list.RemoveByKey(key);
      removed := list.view;
    }

    /** What follows a forward that failed. */
    method GiveUp(conn: Conn, key: string, target: Connection, ghost found: Reg<Connection>, ghost forward: Attempt)
      returns (crashed: bool, ghost turn: Turn)
      requires list.Valid() && target in list.known && target.ideKey == key
      requires HasTold(forward)
      requires list.view == found && forward.err != NoError && IsForwardTo(forward, found, key)
      modifies conn`sent, conn`pending, conn`deadline, list, list.known
      ensures list.Valid() && fresh(list.known - old(list.known))
      ensures turn.Spoiled? && turn.found == found && turn.forward == forward
      ensures crashed <==> IsCrash(turn)
      ensures TurnOnRegistry(turn, key, found, list.view)
      ensures IsReply(old(conn.Left()), conn.Left(), decode, turn.reply)
      ensures target !in list.connections.Values && HasTold(forward)
      ensures conn.sent == old(conn.sent) + Sent(detach)
    {
      ghost var failed, removed := RemoveFailed(key, target);
      var result;
      ghost var lost;
      result, lost := SendDetach(conn);
      Wait();
      turn := Spoiled(found, forward, failed, removed, Reply(result, lost));
      crashed := result.Crashed?;
      LaterIsReflexive(found);
    }

    /** `setupForwarder`, with what it did taken down. */
    method TakeDown(conn: Conn, data: string, target: Connection, dial: Dial)
      returns (err: ForwardError, ghost forward: Attempt)
      modifies conn`pending, conn`deadline, conn`closed
      ensures IsAttemptOn(forward, data, dial, old(conn.Left()), decode)
      ensures forward.target == target && forward.err == err && forward.left == conn.Left()
      ensures HasTold(forward)
    {
      var ide, lost;
      ide, err, lost := SetupForwarder(conn, decode, data, target, dial);
      forward := Attempt(target, dial, ide, SentTo(ide), err, conn.Left(), lost);
    }

    /** What is done about an init packet whose key is registered. */
    method TryForward(conn: Conn, data: string, key: string, target: Connection, dial: Dial)
      returns (crashed: bool, ghost turn: Turn)
      requires list.Valid() && target in list.known && target.ideKey == key
      requires key in list.connections && list.connections[key] == target
      modifies conn, list, list.known
      ensures list.Valid() && fresh(list.known - old(list.known))
      ensures TurnOnFeed(turn, data, dial, old(conn.Left()), conn.Left(), decode)
      ensures TurnOnRegistry(turn, key, old(list.view), list.view)
      ensures !turn.Absent? && TurnHasTold(turn) && (crashed <==> IsCrash(turn))
      ensures turn.Spoiled? ==> turn.forward.target !in list.connections.Values
      ensures conn.sent == SentIf(Detaches(turn), old(conn.sent), Sent(detach))
    {
      ghost var found := list.view;
      var err;
      ghost var forward;
      err, forward := TakeDown(conn, data, target, dial);
      if err == NoError {
        crashed, turn := false, Clean(found, forward);
        LaterIsReflexive(found);
      } else {
        crashed, turn := GiveUp(conn, key, target, found, forward);
      }
    }

    /** What is done about an init packet whose key is not registered. */
    method TurnAway(conn: Conn, ghost data: string, key: string, ghost dial: Dial)
      returns (crashed: bool, ghost turn: Turn)
      requires list.Valid() && key !in list.connections
      modifies conn`sent, conn`pending, conn`deadline, list, list.known
      ensures list.Valid() && fresh(list.known - old(list.known))
      ensures turn.Absent? && (crashed <==> IsCrash(turn))
      ensures TurnOnRegistry(turn, key, old(list.view), list.view)
      ensures TurnOnFeed(turn, data, dial, old(conn.Left()), conn.Left(), decode)
      ensures conn.sent == old(conn.sent) + Sent(detach)
    {
      ghost var found := list.view;
      var result;
      ghost var lost;
      result, lost := SendDetach(conn);
      Wait();
      turn := Absent(found, Reply(result, lost));
      crashed := result.Crashed?;
      LaterIsReflexive(found);
    }

    /** What is done about one init packet. The lookup directly follows the wait in `Hear`. */
    method Route(conn: Conn, data: string, key: string, dial: Dial) returns (crashed: bool, ghost turn: Turn)
      requires list.Valid()
      modifies conn, list, list.known
      ensures list.Valid() && fresh(list.known - old(list.known))
      ensures TurnOnFeed(turn, data, dial, old(conn.Left()), conn.Left(), decode)
      ensures TurnOnRegistry(turn, key, old(list.view), list.view)
      ensures TurnHasTold(turn) && (crashed <==> IsCrash(turn))
      ensures turn.Spoiled? ==> turn.forward.target !in list.connections.Values
      ensures conn.sent == SentIf(Detaches(turn), old(conn.sent), Sent(detach))
    {
      var target := list.FindByKey(key);
      if target == null {
        crashed, turn := TurnAway(conn, data, key, dial);
      } else {
        crashed, turn := TryForward(conn, data, key, target, dial);
      }
    }

    ghost function Here(reader: DbgpClient): Point
      reads reader.reader, reader.conn, list
    {
      Point(reader.reader.buffer, reader.conn.Left(), list.view)
    }

    /** What the handler makes of a response: the user id first, then the IDE key. */
    method Interpret(response: Wire.Response, interrupted: bool) returns (heard: Heard)
      ensures heard == HeardOf(response, interrupted, decode)
      ensures interrupted ==> heard == End(Interrupted)
      ensures !interrupted && response.TimedOut? ==> heard == Nothing
      ensures !interrupted && response.Failed? ==>
        heard == End(if response.cause == Eof then PeerClosed else ReadError(response.cause))
      ensures !interrupted && response.Packet? ==>
        var doc := decode(response.data);
        heard ==
          if doc.Element? && doc.root == "init" && doc.userId != "" then InitPacket(response.data, doc.userId)
          else if doc.Element? && doc.root == "init" && doc.ideKey != "" then InitPacket(response.data, doc.ideKey)
          else End(NoKeyGiven)
    {
      if interrupted {
        return End(Interrupted);
      }
      match response {
        case TimedOut(_) => return Nothing;
        case Failed(cause) => return End(if cause.Eof? then PeerClosed else ReadError(cause));
        case Packet(data) =>
          var doc := decode(data);
          if InitUser(doc) != "" {
            return InitPacket(data, InitUser(doc));
          }
          if InitKey(doc) != "" {
            return InitPacket(data, InitKey(doc));
          }
          return End(NoKeyGiven);
      }
    }

    /** The read of one pass. Others use the list meanwhile. */
    method Hear(reader: DbgpClient) returns (response: Wire.Response)
      requires reader.Valid() && list.Valid()
      modifies reader.reader`buffer, reader.conn`pending, reader.conn`deadline, list, list.known
      ensures list.Valid() && fresh(list.known - old(list.known))
      ensures IsRead(old(Here(reader)), Here(reader))
      ensures response == NextResponse(Visible(old(Here(reader))), EndOf(old(Here(reader)).feed)).0
    {
      response := reader.ReadResponseWithTimeout();
      Wait();
    }

    /** What a pass does after its read. */
    method Respond(reader: DbgpClient, heard: Heard, dial: Dial)
      returns (verdict: Text.Option<HandleResult>, ghost turn: Text.Option<Turn>)
      requires list.Valid()
      modifies reader.conn, list, list.known
      ensures list.Valid() && fresh(list.known - old(list.known))
      ensures IsAnswer(heard, old(Here(reader)), turn, Here(reader), dial, decode)
      ensures verdict == Verdict(heard, turn)
      ensures turn.Some? ==> TurnHasTold(turn.value)
      ensures reader.conn.sent
        == SentIf(turn.Some? && Detaches(turn.value), old(reader.conn.sent), Sent(detach))
    {
      turn := Text.None;
      if heard.InitPacket? {
        var crashed;
        ghost var done;
        crashed, done := Route(reader.conn, heard.data, heard.key, dial);
        turn := Text.Some(done);
        verdict := if crashed then Text.Some(HandlerCrashed) else Text.None;
      } else {
        verdict := if heard.End? then Text.Some(heard.result) else Text.None;
      }
    }

    /** One reading of the handler's loop. */
    method Listen(reader: DbgpClient, interrupted: bool) returns (heard: Heard)
      requires reader.Valid() && reader.decode == decode && list.Valid()
      modifies reader.reader`buffer, reader.conn`pending, reader.conn`deadline, list, list.known
      ensures list.Valid() && fresh(list.known - old(list.known))
      ensures IsRead(old(Here(reader)), Here(reader)) && heard == HeardAt(old(Here(reader)), interrupted, decode)
    {
      var response := Hear(reader);
      heard := Interpret(response, interrupted);
    }

    /** One pass through the handler's loop. */
    method Step(reader: DbgpClient, interrupted: bool, dial: Dial)
      returns (verdict: Text.Option<HandleResult>, ghost pass: Pass)
      requires reader.Valid() && reader.decode == decode && list.Valid()
      modifies reader.reader, reader.conn, list, list.known
      ensures list.Valid() && fresh(list.known - old(list.known))
      ensures IsPass(old(Here(reader)), pass, interrupted, dial, decode) && Here(reader) == pass.next
      ensures verdict == Verdict(pass.heard, pass.turn)
      ensures PassHasTold(pass)
      ensures reader.conn.sent == SentIf(IsDetach(pass), old(reader.conn.sent), Sent(detach))
    {
      var heard := Listen(reader, interrupted);
      ghost var read := Here(reader);
      ghost var turn;
      verdict, turn := Respond(reader, heard, dial);
      pass := Pass(heard, read, turn, Here(reader));
    }

    /** `Step` leaves the sockets of earlier passes alone. */
    method StepOn(reader: DbgpClient, interrupted: bool, dial: Dial, ghost earlier: seq<Pass>)
      returns (verdict: Text.Option<HandleResult>, ghost pass: Pass)
      requires reader.Valid() && reader.decode == decode && list.Valid()
      requires forall i | 0 <= i < |earlier| :: PassHasTold(earlier[i])
      modifies reader.reader, reader.conn, list, list.known
      ensures list.Valid() && fresh(list.known - old(list.known))
      ensures IsPass(old(Here(reader)), pass, interrupted, dial, decode) && Here(reader) == pass.next
      ensures verdict == Verdict(pass.heard, pass.turn)
      ensures reader.conn.sent == SentIf(IsDetach(pass), old(reader.conn.sent), Sent(detach))
      ensures PassHasTold(pass)
      ensures forall i | 0 <= i < |earlier| :: PassHasTold(earlier[i])
    {
      verdict, pass := Step(reader, interrupted, dial);
      forall i | 0 <= i < |earlier| ensures PassHasTold(earlier[i]) {
        assert old(PassHasTold(earlier[i]));
      }
    }

    /** The reader stands where a run has come to, and what was sent is what its turns sent. */
    ghost predicate Stands(reader: DbgpClient, start: Point, passes: seq<Pass>, w: World, base: string)
      reads this, reader.reader, reader.conn, list
    {
      && IsRun(start, passes, w) && w.decode == decode
      && Here(reader) == Halt(start, passes)
      && reader.conn.sent == base + Repeated(Sent(detach), Count(passes, IsDetach))
    }

    /** One more pass of a run. */
    method Advance(reader: DbgpClient, interrupted: bool, dial: Dial,
                   ghost start: Point, ghost passes: seq<Pass>, ghost w: World, ghost base: string)
      returns (verdict: Text.Option<HandleResult>, ghost longer: seq<Pass>)
      requires reader.Valid() && reader.decode == decode && list.Valid()
      requires Stands(reader, start, passes, w, base) && Result(passes).None?
      requires interrupted == w.signals(|passes|) && dial == w.dials(|passes|)
      requires forall i | 0 <= i < |passes| :: PassHasTold(passes[i])
      modifies reader.reader, reader.conn, list, list.known
      ensures list.Valid() && fresh(list.known - old(list.known))
      ensures Stands(reader, start, longer, w, base) && |longer| == |passes| + 1
      ensures Result(longer) == verdict
      ensures forall i | 0 <= i < |longer| :: PassHasTold(longer[i])
      ensures verdict.None? ==> |Visible(Halt(start, longer))| < |Visible(Halt(start, passes))|
    {
      ghost var pass;
      verdict, pass := StepOn(reader, interrupted, dial, passes);
      longer := passes + [pass];
      OneMorePass(start, passes, pass, w, base, Sent(detach));
      forall i | 0 <= i < |longer| ensures PassHasTold(longer[i]) {
        assert longer[i] == if i < |passes| then passes[i] else pass;
      }
    }

    /** `ServerHandler.Handle`, for every schedule of what arrives, of signals and of dials. What it does
        is a run: every pass reads the next response that can be seen and does with it what it calls
        for, and the run ends with the first pass that ends it, for the reason that pass gives. The
        engine is sent one detach command for each turn that is no clean forward, and nothing else. */
    method Handle(conn: Conn, signals: nat -> bool, dials: nat -> Dial)
      returns (result: HandleResult, ghost start: Point, ghost passes: seq<Pass>)
      requires list.Valid()
      modifies conn, list, list.known
      ensures list.Valid()
      ensures start == Point("", old(conn.Left()), old(list.view))
      ensures var w := World(signals, dials, decode);
        && IsRun(start, passes, w) && Result(passes) == Text.Some(result)
      ensures forall i | 0 <= i < |passes| :: PassHasTold(passes[i])
      ensures conn.Left() == Halt(start, passes).feed && list.view == Halt(start, passes).registry
      ensures conn.sent == old(conn.sent) + Repeated(Sent(detach), Count(passes, IsDetach))
    {
      var reader := new DbgpClient(conn, decode);
      passes := [];
      start := Here(reader);
      ghost var w, base := World(signals, dials, decode), conn.sent;
      var n := 0;
      while true
        invariant reader.Valid() && fresh(reader.reader) && reader.conn == conn && reader.decode == decode
        invariant list.Valid() && fresh(list.known - old(list.known))
        invariant forall i | 0 <= i < |passes| :: PassHasTold(passes[i])
        invariant Stands(reader, start, passes, w, base) && n == |passes| && Result(passes).None?
        decreases |Visible(Halt(start, passes))|
      {
        var verdict;
        verdict, passes := Advance(reader, signals(n), dials(n), start, passes, w, base);
        if verdict.Some? {
          return verdict.value, start, passes;
        }
        n := n + 1;
      }
    }
  }
}
