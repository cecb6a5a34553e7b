/** The two goroutines of a forwarder and the unbuffered channel between them. The main one reads
    from the engine; the copier moves bytes from the IDE to the engine, reports how that ended on
    the channel and closes it. Whoever leaves the read loop closes the IDE socket and then waits
    for one receive. */
module ForwarderChannel {
  import opened Text

  datatype Main = Reading | ClosingIde | Receiving | Returned

  datatype Copier = Copying | Sending | ClosingChannel | Finished

  /** `sends`, `receives` and `closes` count what was done to the channel; `panicked` is set by a
      send on, or a second close of, a closed channel. */
  datatype State = State(
    main: Main, copier: Copier, ideClosed: bool, channelClosed: bool,
    sends: nat, receives: nat, closes: nat, panicked: bool)

  const START := State(Reading, Copying, false, false, 0, 0, 0, false)

  datatype Step =
    | ForwardPacket      // a packet arrives and is passed on
    | Poll               // a deadline expires; non-blocking receive
    | Leave              // closing packet or read error
    | CloseIde           // the deferred close ...
    | Receive            // ... and the deferred, blocking receive
    | CopyFails          // io.Copy returns an error
    | CopyEnds           // io.Copy returns without one
    | SendOnClosed       // the pending send meets a closed channel
    | CloseChannel

  /** A send and a receive on the unbuffered channel happen together. */
  function Meet(s: State, main: Main): State {
    s.(main := main, copier := ClosingChannel, sends := s.sends + 1, receives := s.receives + 1)
  }

  /** The state after a step, or `None` where the step cannot happen. */
  function Next(s: State, step: Step): Option<State> {
    if s.panicked then None
    else
      match step
      case ForwardPacket => if s.main.Reading? then Some(s) else None
      case Poll =>
        if !s.main.Reading? then None
        else if s.channelClosed then Some(s.(main := ClosingIde))
        else if s.copier.Sending? then Some(Meet(s, ClosingIde))
        else Some(s)
      case Leave => if s.main.Reading? then Some(s.(main := ClosingIde)) else None
      case CloseIde => if s.main.ClosingIde? then Some(s.(main := Receiving, ideClosed := true)) else None
      case Receive =>
        if !s.main.Receiving? then None
        else if s.channelClosed then Some(s.(main := Returned))
        else if s.copier.Sending? then Some(Meet(s, Returned))
        else None
      case CopyFails => if s.copier.Copying? then Some(s.(copier := Sending)) else None
      case CopyEnds => if s.copier.Copying? then Some(s.(copier := ClosingChannel)) else None
      case SendOnClosed =>
        if s.copier.Sending? && s.channelClosed then Some(s.(panicked := true)) else None
      case CloseChannel =>
        if !s.copier.ClosingChannel? then None
        else if s.channelClosed then Some(s.(closes := s.closes + 1, panicked := true))
        else Some(s.(copier := Finished, channelClosed := true, closes := s.closes + 1))
  }

  function Run(s: State, steps: seq<Step>): Option<State>
    decreases |steps|
  {
    if steps == [] then Some(s)
    else
      match Next(s, steps[0])
      case None => None
      case Some(s') => Run(s', steps[1..])
  }

  /** Steps that do happen sooner or later where they can. A copy need not return before the IDE
      socket is closed, but is assumed to return once it is. */
  predicate Obliged(s: State, step: Step) {
    match step
    case CopyFails => s.ideClosed
    case CopyEnds => false
    case ForwardPacket => false
    case Leave => false
    case _ => true
  }

  predicate IsFinal(s: State) {
    s.main.Returned? && s.copier.Finished?
  }

  ghost predicate Invariant(s: State) {
    && !s.panicked
    && (s.channelClosed <==> s.copier.Finished?)
    && s.closes == (if s.channelClosed then 1 else 0)
    && s.sends == s.receives <= 1
    && (s.copier.Copying? || s.copier.Sending? ==> s.sends == 0)
    && (s.ideClosed <==> s.main.Receiving? || s.main.Returned?)
    && (s.main.Returned? ==> s.copier.ClosingChannel? || s.copier.Finished?)
  }

  lemma {:induction false} RunKeeps(s: State, steps: seq<Step>)
    requires Invariant(s)
    ensures Run(s, steps).Some? ==> Invariant(Run(s, steps).value)
    decreases |steps|
  {
    if steps != [] {
      match Next(s, steps[0])
      case None =>
      case Some(s') => RunKeeps(s', steps[1..]);
    }
  }

  /** In no interleaving is there a send on, or a second close of, a closed channel; what was sent
      was received, and there was at most one message. */
  lemma ChannelSafety(steps: seq<Step>)
    requires Run(START, steps).Some?
    ensures var s := Run(START, steps).value;
      && !s.panicked && s.closes <= 1 && s.sends == s.receives <= 1
      && Next(s, SendOnClosed).None?
      && (s.copier.ClosingChannel? ==> !s.channelClosed)
  {
    RunKeeps(START, steps);
  }

  /** No reachable state is stuck short of the end. */
  lemma NoDeadlock(steps: seq<Step>)
    requires Run(START, steps).Some?
    ensures var s := Run(START, steps).value;
      IsFinal(s) <==> forall step :: !(Obliged(s, step) && Next(s, step).Some?)
  {
    RunKeeps(START, steps);
    var s := Run(START, steps).value;
    if !IsFinal(s) {
      var step := match s.main
        case Reading => Poll
        case ClosingIde => CloseIde
        case Receiving =>
          (match s.copier
           case Copying => CopyFails
           case Sending => Receive
           case ClosingChannel => CloseChannel
           case Finished => Receive)
        case Returned => CloseChannel;
      assert Obliged(s, step) && Next(s, step).Some?;
    }
  }

  function Rank(s: State): nat {
    (match s.main case Reading => 3 case ClosingIde => 2 case Receiving => 1 case Returned => 0)
    + (match s.copier case Copying => 3 case Sending => 2 case ClosingChannel => 1 case Finished => 0)
  }

  lemma {:induction false} RankBoundsRun(s: State, steps: seq<Step>)
    requires Invariant(s) && !s.main.Reading? && Run(s, steps).Some?
    ensures |steps| + Rank(Run(s, steps).value) <= Rank(s)
    ensures !Run(s, steps).value.main.Reading?
    decreases |steps|
  {
    if steps != [] {
      RankBoundsRun(Next(s, steps[0]).value, steps[1..]);
    }
  }

  lemma {:induction false} RunConcat(s: State, steps: seq<Step>, more: seq<Step>)
    requires Run(s, steps).Some?
    ensures Run(s, steps + more) == Run(Run(s, steps).value, more)
    decreases |steps|
  {
    if steps == [] {
      assert steps + more == more;
    } else {
      RunConcat(Next(s, steps[0]).value, steps[1..], more);
      assert (steps + more)[1..] == steps[1..] + more;
    }
  }

  /** Once the read loop is left, by whatever way, at most five more steps are taken; and when no
      obliged step is left, the call has returned with its receive satisfied, the copier is past its
      send, the IDE socket is closed, and the channel was closed once. */
  lemma ReturnWindsUp(steps: seq<Step>, more: seq<Step>)
    requires Run(START, steps).Some? && !Run(START, steps).value.main.Reading?
    requires Run(Run(START, steps).value, more).Some?
    ensures |more| <= 5
    ensures var s := Run(Run(START, steps).value, more).value;
      (forall step :: !(Obliged(s, step) && Next(s, step).Some?)) ==>
        && s.main.Returned? && s.copier.Finished?
        && s.ideClosed && s.channelClosed && s.closes == 1 && s.sends == s.receives
  {
    var s := Run(START, steps).value;
    RunKeeps(START, steps);
    RankBoundsRun(s, more);
    RunKeeps(s, more);
    RunConcat(START, steps, more);
    NoDeadlock(steps + more);
  }
}
