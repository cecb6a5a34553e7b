/** The connection registry as a transition system: each step is what one operation of
    `ConnectionList` does while it holds the lock, so a sequence of steps is an interleaving of
    operations by any number of goroutines. `RemoveByKey` is two steps: `Unlink`, under the lock,
    and `Notify`, after it. `C` is the identity of a connection. */
module Registry {
  import opened Text

  datatype Event<C> =
    | Registered(key: string, c: C)
    | Refused(key: string, c: C)
    | Displaced(key: string, held: C, c: C)  // forceAdd: the entry goes, the new one does not come
    | Removed(key: string, c: C)
    | NotRegistered(key: string)
    | Claimed(key: string, c: C)
    | ClaimRefused(key: string)
    | Unclaimed(key: string, c: C)
    | UnclaimRefused(key: string)
    | CloseSent(c: C)                       // a close-control message for a removed connection
    | LeftAlone(c: C)                       // a removed connection that was not claimed

  datatype Op<C> =
    | Add(key: string, c: C)
    | Unlink(key: string)
    | Notify(c: C)
    | Claim(key: string)
    | Unclaim(key: string)

  /** `keys` has every connection ever passed to `Add`, with its own key; `pending` those that were
      unlinked by a goroutine that has not yet looked whether they are claimed. */
  datatype Reg<C> = Reg(
    forceAdd: bool, table: map<string, C>, keys: map<C, string>,
    claimed: set<C>, pending: set<C>, log: seq<Event<C>>)

  function Start<C(==)>(forceAdd: bool): Reg<C> {
    Reg(forceAdd, map[], map[], {}, {}, [])
  }

  /** Every `Add` is for a new connection, and only removed connections are looked at afterwards. */
  predicate Enabled<C(==)>(s: Reg<C>, op: Op<C>) {
    match op
    case Add(_, c) => c !in s.keys
    case Notify(c) => c in s.pending
    case _ => true
  }

  /** What a step does to the log; the rest of the state follows from it. */
  function Outcome<C(==)>(s: Reg<C>, op: Op<C>): Event<C> {
    match op
    case Add(key, c) =>
      if key !in s.table then Registered(key, c)
      else if s.forceAdd then Displaced(key, s.table[key], c)
      else Refused(key, c)
    case Unlink(key) => if key in s.table then Removed(key, s.table[key]) else NotRegistered(key)
    case Notify(c) => if c in s.claimed then CloseSent(c) else LeftAlone(c)
    case Claim(key) =>
      if key in s.table && s.table[key] !in s.claimed then Claimed(key, s.table[key]) else ClaimRefused(key)
    case Unclaim(key) =>
      if key in s.table && s.table[key] in s.claimed then Unclaimed(key, s.table[key]) else UnclaimRefused(key)
  }

  function Record<C(==)>(s: Reg<C>, e: Event<C>): Reg<C> {
    var s' := s.(log := s.log + [e]);
    match e
    case Registered(key, c) => s'.(table := s.table[key := c], keys := s.keys[c := key])
    case Refused(key, c) => s'.(keys := s.keys[c := key])
    case Displaced(key, _, c) => s'.(table := s.table - {key}, keys := s.keys[c := key])
    case Removed(key, c) => s'.(table := s.table - {key}, pending := s.pending + {c})
    case Claimed(_, c) => s'.(claimed := s.claimed + {c})
    case Unclaimed(_, c) => s'.(claimed := s.claimed - {c})
    case CloseSent(c) => s'.(pending := s.pending - {c})
    case LeftAlone(c) => s'.(pending := s.pending - {c})
    case _ => s'
  }

  function Apply<C(==)>(s: Reg<C>, op: Op<C>): Reg<C> {
    Record(s, Outcome(s, op))
  }

  function Run<C(==)>(s: Reg<C>, ops: seq<Op<C>>): Reg<C>
    decreases |ops|
  {
    if ops == [] then s else Run(Apply(s, ops[0]), ops[1..])
  }

  predicate CanRun<C(==)>(s: Reg<C>, ops: seq<Op<C>>)
    decreases |ops|
  {
    ops == [] || (Enabled(s, ops[0]) && CanRun(Apply(s, ops[0]), ops[1..]))
  }

  // ----- From one state to a later one -----

  /** The step that an event records. */
  function OpOf<C(==)>(e: Event<C>): Op<C> {
    match e
    case Registered(key, c) => Add(key, c)
    case Refused(key, c) => Add(key, c)
    case Displaced(key, _, c) => Add(key, c)
    case Removed(key, _) => Unlink(key)
    case NotRegistered(key) => Unlink(key)
    case Claimed(key, _) => Claim(key)
    case ClaimRefused(key) => Claim(key)
    case Unclaimed(key, _) => Unclaim(key)
    case UnclaimRefused(key) => Unclaim(key)
    case CloseSent(c) => Notify(c)
    case LeftAlone(c) => Notify(c)
  }

  function OpsOf<C(==)>(log: seq<Event<C>>): seq<Op<C>> {
    seq(|log|, i requires 0 <= i < |log| => OpOf(log[i]))
  }

  lemma {:induction false} LogTellsOps<C>(s: Reg<C>, ops: seq<Op<C>>)
    ensures s.log <= Run(s, ops).log && OpsOf(Run(s, ops).log[|s.log|..]) == ops
    decreases |ops|
  {
    if ops != [] {
      var s' := Apply(s, ops[0]);
      LogTellsOps(s', ops[1..]);
      var log := Run(s', ops[1..]).log;
      assert log[|s.log|] == s'.log[|s.log|] == Outcome(s, ops[0]);
      assert log[|s.log|..] == [Outcome(s, ops[0])] + log[|s'.log|..];
      assert OpOf(Outcome(s, ops[0])) == ops[0];
    }
  }

  /** The steps between a state and a later one. The history tells which they were. */
  function Between<C(==)>(s: Reg<C>, s': Reg<C>): seq<Op<C>> {
    if |s.log| <= |s'.log| then OpsOf(s'.log[|s.log|..]) else []
  }

  /** A run of `ops` is possible and leads from `s` to `s'`. */
  predicate Leads<C(==)>(s: Reg<C>, ops: seq<Op<C>>, s': Reg<C>)
    decreases |ops|, 0
  {
    if ops == [] then s' == s else LeadsBy(s, ops[0], ops[1..], s')
  }

  predicate LeadsBy<C(==)>(s: Reg<C>, op: Op<C>, rest: seq<Op<C>>, s': Reg<C>)
    decreases |rest|, 1
  {
    Enabled(s, op) && Leads(Apply(s, op), rest, s')
  }

  lemma {:induction false} LeadsIsRun<C>(s: Reg<C>, ops: seq<Op<C>>, s': Reg<C>)
    ensures Leads(s, ops, s') <==> CanRun(s, ops) && s' == Run(s, ops)
    decreases |ops|
  {
    if ops != [] {
      LeadsIsRun(Apply(s, ops[0]), ops[1..], s');
    }
  }

  /** `s'` is reached from `s` by a run of steps, whoever takes them. */
  predicate Later<C(==)>(s: Reg<C>, s': Reg<C>) {
    Leads(s, Between(s, s'), s')
  }

  lemma {:induction false} LaterIsRun<C>(s: Reg<C>, s': Reg<C>)
    ensures Later(s, s') <==> CanRun(s, Between(s, s')) && s' == Run(s, Between(s, s'))
  {
    LeadsIsRun(s, Between(s, s'), s');
  }

  lemma {:induction false} RunIsLater<C>(s: Reg<C>, ops: seq<Op<C>>)
    requires CanRun(s, ops)
    ensures Between(s, Run(s, ops)) == ops && Later(s, Run(s, ops))
  {
    LogTellsOps(s, ops);
    LaterIsRun(s, Run(s, ops));
  }

  lemma {:induction false} LaterIsReflexive<C>(s: Reg<C>)
    ensures Later(s, s) && Between(s, s) == []
  {
    RunIsLater(s, []);
  }

  lemma {:induction false} RunConcat<C>(s: Reg<C>, a: seq<Op<C>>, b: seq<Op<C>>)
    ensures CanRun(s, a + b) <==> CanRun(s, a) && CanRun(Run(s, a), b)
    ensures Run(s, a + b) == Run(Run(s, a), b)
    decreases |a|
  {
    if a == [] {
      assert a + b == b;
    } else {
      assert (a + b)[1..] == a[1..] + b;
      RunConcat(Apply(s, a[0]), a[1..], b);
    }
  }

  lemma {:induction false} LaterIsTransitive<C>(a: Reg<C>, b: Reg<C>, c: Reg<C>)
    requires Later(a, b) && Later(b, c)
    ensures Later(a, c) && Between(a, c) == Between(a, b) + Between(b, c)
  {
    LaterIsRun(a, b);
    LaterIsRun(b, c);
    RunConcat(a, Between(a, b), Between(b, c));
    RunIsLater(a, Between(a, b) + Between(b, c));
  }

  lemma {:induction false} RunOne<C>(s: Reg<C>, op: Op<C>)
    ensures Run(s, [op]) == Apply(s, op) && (CanRun(s, [op]) <==> Enabled(s, op))
  {
    var none: seq<Op<C>> := [];
    assert [op][1..] == none;
    assert Run(Apply(s, op), none) == Apply(s, op) && CanRun(Apply(s, op), none);
  }

  lemma {:induction false} StepIsLater<C>(s: Reg<C>, op: Op<C>)
    requires Enabled(s, op)
    ensures Later(s, Apply(s, op)) && Between(s, Apply(s, op)) == [op]
  {
    RunOne(s, op);
    RunIsLater(s, [op]);
  }

  // ----- What every state of every run satisfies -----

  /** Stored connections sit under their own key, and removed ones are stored nowhere. */
  ghost predicate Valid<C>(s: Reg<C>) {
    && (forall k | k in s.table :: s.table[k] in s.keys && s.keys[s.table[k]] == k)
    && (forall k | k in s.table :: s.table[k] !in s.pending)
    && s.pending <= s.keys.Keys
    && s.claimed <= s.keys.Keys
  }

  lemma StepKeepsValid<C>(s: Reg<C>, op: Op<C>)
    requires Valid(s) && Enabled(s, op)
    ensures Valid(Apply(s, op))
  {
    match op
    case Add(_, _) =>
    case Unlink(_) =>
    case _ =>
  }

  lemma {:induction false} RunKeepsValid<C>(s: Reg<C>, ops: seq<Op<C>>)
    requires Valid(s) && CanRun(s, ops)
    ensures Valid(Run(s, ops)) && Run(s, ops).forceAdd == s.forceAdd
    decreases |ops|
  {
    if ops != [] {
      StepKeepsValid(s, ops[0]);
      RunKeepsValid(Apply(s, ops[0]), ops[1..]);
    }
  }

  // ----- The life of one key -----

  /** Who holds a key, by the last event that put an entry there or took it away. */
  function Holder<C(==)>(log: seq<Event<C>>, key: string): Option<C> {
    if log == [] then None
    else
      var last := log[|log| - 1];
      if last.Registered? && last.key == key then Some(last.c)
      else if (last.Removed? || last.Displaced?) && last.key == key then None
      else Holder(log[..|log| - 1], key)
  }

  function Change<C(==)>(e: Event<C>, key: string): int {
    if e.Registered? && e.key == key then 1
    else if (e.Removed? || e.Displaced?) && e.key == key then -1
    else 0
  }

  /** Registrations of a key minus its removals, of either kind. */
  function Balance<C(==)>(log: seq<Event<C>>, key: string): int {
    if log == [] then 0
    else
      var last := log[|log| - 1];
      Balance(log[..|log| - 1], key) + Change(last, key)
  }

  /** Registrations and removals of a key alternate, a registration first. */
  ghost predicate Alternates<C>(log: seq<Event<C>>, key: string) {
    forall i: nat | i <= |log| :: 0 <= Balance(log[..i], key) <= 1
  }

  ghost predicate KeyAgrees<C>(s: Reg<C>, key: string) {
    && Holder(s.log, key) == (if key in s.table then Some(s.table[key]) else None)
    && Balance(s.log, key) == (if key in s.table then 1 else 0)
    && Alternates(s.log, key)
  }

  lemma SnocKey<C>(log: seq<Event<C>>, e: Event<C>, key: string)
    ensures Balance(log + [e], key) == Balance(log, key) + Change(e, key)
    ensures Holder(log + [e], key)
      == if Change(e, key) == 0 then Holder(log, key) else if e.Registered? then Some(e.c) else None
    ensures Alternates(log + [e], key) <==> Alternates(log, key) && 0 <= Balance(log + [e], key) <= 1
  {
    var longer := log + [e];
    assert longer[..|log|] == log && longer[..|longer|] == longer;
    forall i: nat | i <= |log| ensures longer[..i] == log[..i] {
    }
    if Alternates(longer, key) {
      forall i: nat | i <= |log| ensures 0 <= Balance(log[..i], key) <= 1 {
        assert longer[..i] == log[..i];
      }
    }
  }

  lemma StepOnTable<C>(s: Reg<C>, op: Op<C>, key: string)
    ensures var e, s' := Outcome(s, op), Apply(s, op);
      && s'.log == s.log + [e]
      && (Change(e, key) == 0 ==> (key in s'.table <==> key in s.table)
                                  && (key in s.table ==> s'.table[key] == s.table[key]))
      && (Change(e, key) == 1 ==> e.Registered? && key !in s.table && key in s'.table && s'.table[key] == e.c)
      && (Change(e, key) == -1 ==> key in s.table && key !in s'.table)
  {
    match op
    case Add(_, _) =>
    case Unlink(_) =>
    case _ =>
  }

  lemma StepKeepsKey<C>(s: Reg<C>, op: Op<C>, key: string)
    requires KeyAgrees(s, key)
    ensures KeyAgrees(Apply(s, op), key)
  {
    StepOnTable(s, op, key);
    SnocKey(s.log, Outcome(s, op), key);
  }

  lemma {:induction false} RunKeepsKey<C>(s: Reg<C>, ops: seq<Op<C>>, key: string)
    requires KeyAgrees(s, key)
    ensures KeyAgrees(Run(s, ops), key)
    decreases |ops|
  {
    if ops != [] {
      StepKeepsKey(s, ops[0], key);
      RunKeepsKey(Apply(s, ops[0]), ops[1..], key);
    }
  }

  /** The table is a fold of the history: in every interleaving the entry of a key is the one last
      registered and not removed since, the key is present exactly when there is one more
      registration than removals, and the two alternate. Stored connections carry the key they
      are stored under. */
  lemma TableIsHistory<C>(forceAdd: bool, ops: seq<Op<C>>, key: string)
    requires CanRun(Start(forceAdd), ops)
    ensures var s := Run(Start<C>(forceAdd), ops);
      && Holder(s.log, key) == (if key in s.table then Some(s.table[key]) else None)
      && (key in s.table <==> Balance(s.log, key) == 1)
      && Alternates(s.log, key)
      && (key in s.table ==> s.table[key] in s.keys && s.keys[s.table[key]] == key)
  {
    var start := Start<C>(forceAdd);
    RunKeepsKey(start, ops, key);
    RunKeepsValid(start, ops);
  }

  ghost predicate NoneDisplaced<C>(log: seq<Event<C>>) {
    forall i | 0 <= i < |log| :: !log[i].Displaced?
  }

  /** Without forceAdd nothing is ever displaced, so removals are removals by key. */
  lemma {:induction false} NothingDisplaced<C>(s: Reg<C>, ops: seq<Op<C>>)
    requires !s.forceAdd && NoneDisplaced(s.log)
    ensures NoneDisplaced(Run(s, ops).log)
    decreases |ops|
  {
    if ops != [] {
      NothingDisplaced(Apply(s, ops[0]), ops[1..]);
    }
  }

  // ----- The life of one connection -----

  /** `Gone` connections were removed by key while claimed or not; `Told` ones were dealt with
      after that, with a close message or without. */
  datatype Phase = Unused | Rejected | Free | Busy | Gone(claimed: bool) | Told(closed: bool) | Dropped | Broken

  function NextPhase<C(==)>(phase: Phase, e: Event<C>, c: C): Phase {
    match e
    case Registered(_, c') => if c' != c then phase else if phase.Unused? then Free else Broken
    case Refused(_, c') => if c' != c then phase else if phase.Unused? then Rejected else Broken
    case Displaced(_, held, c') =>
      if held == c then (if c' != c && (phase.Free? || phase.Busy?) then Dropped else Broken)
      else if c' != c then phase
      else if phase.Unused? then Rejected else Broken
    case Removed(_, c') =>
      if c' != c then phase else if phase.Free? then Gone(false) else if phase.Busy? then Gone(true) else Broken
    case Claimed(_, c') => if c' != c then phase else if phase.Free? then Busy else Broken
    case Unclaimed(_, c') => if c' != c then phase else if phase.Busy? then Free else Broken
    case CloseSent(c') => if c' != c then phase else if phase == Gone(true) then Told(true) else Broken
    case LeftAlone(c') => if c' != c then phase else if phase == Gone(false) then Told(false) else Broken
    case _ => phase
  }

  function Life<C(==)>(log: seq<Event<C>>, c: C): Phase {
    if log == [] then Unused else NextPhase(Life(log[..|log| - 1], c), log[|log| - 1], c)
  }

  ghost predicate IsStored<C>(s: Reg<C>, c: C) {
    c in s.keys && s.keys[c] in s.table && s.table[s.keys[c]] == c
  }

  /** The state of the registry says about a connection what its history says. */
  ghost predicate LifeAgrees<C>(s: Reg<C>, c: C) {
    var phase := Life(s.log, c);
    && !phase.Broken?
    && (c !in s.keys <==> phase.Unused?)
    && (IsStored(s, c) <==> phase.Free? || phase.Busy?)
    && (c in s.pending <==> phase.Gone?)
    && (phase.Free? ==> c !in s.claimed)
    && (phase.Busy? ==> c in s.claimed)
    && (phase.Gone? ==> (c in s.claimed) == phase.claimed)
  }

  lemma SnocLife<C>(log: seq<Event<C>>, e: Event<C>, c: C)
    ensures Life(log + [e], c) == NextPhase(Life(log, c), e, c)
  {
    assert (log + [e])[..|log|] == log;
  }

  /** The connections an event is about. */
  function Subjects<C(==)>(e: Event<C>): set<C> {
    match e
    case Registered(_, c) => {c}
    case Refused(_, c) => {c}
    case Displaced(_, held, c) => {held, c}
    case Removed(_, c) => {c}
    case Claimed(_, c) => {c}
    case Unclaimed(_, c) => {c}
    case CloseSent(c) => {c}
    case LeftAlone(c) => {c}
    case _ => {}
  }

  ghost predicate SameFor<C>(s: Reg<C>, s': Reg<C>, c: C) {
    && (c in s.keys <==> c in s'.keys)
    && (IsStored(s, c) <==> IsStored(s', c))
    && (c in s.claimed <==> c in s'.claimed)
    && (c in s.pending <==> c in s'.pending)
  }

  lemma OthersUntouched<C>(s: Reg<C>, op: Op<C>, c: C)
    requires Valid(s) && Enabled(s, op) && c !in Subjects(Outcome(s, op))
    ensures SameFor(s, Apply(s, op), c)
    ensures NextPhase(Life(s.log, c), Outcome(s, op), c) == Life(s.log, c)
  {
    match op
    case Add(_, _) =>
    case Unlink(_) =>
    case _ =>
  }

  lemma {:induction false} NewKeepsLife<C>(s: Reg<C>, key: string, c: C)
    requires Valid(s) && c !in s.keys && LifeAgrees(s, c)
    ensures LifeAgrees(Apply(s, Add(key, c)), c)
  {
    SnocLife(s.log, Outcome(s, Add(key, c)), c);
  }

  lemma {:induction false} HeldKeepsLife<C>(s: Reg<C>, key: string, c': C, c: C)
    requires Valid(s) && c' !in s.keys && LifeAgrees(s, c)
    requires s.forceAdd && key in s.table && s.table[key] == c
    ensures LifeAgrees(Apply(s, Add(key, c')), c)
  {
    SnocLife(s.log, Displaced(key, c, c'), c);
  }

  lemma UnlinkKeepsLife<C>(s: Reg<C>, key: string, c: C)
    requires Valid(s) && LifeAgrees(s, c)
    requires key in s.table && s.table[key] == c
    ensures LifeAgrees(Apply(s, Unlink(key)), c)
  {
    SnocLife(s.log, Removed(key, c), c);
  }

  lemma NotifyKeepsLife<C>(s: Reg<C>, c: C)
    requires Valid(s) && c in s.pending && LifeAgrees(s, c)
    ensures LifeAgrees(Apply(s, Notify(c)), c)
  {
    SnocLife(s.log, Outcome(s, Notify(c)), c);
  }

  lemma ClaimKeepsLife<C>(s: Reg<C>, op: Op<C>, c: C)
    requires op.Claim? || op.Unclaim?
    requires Valid(s) && LifeAgrees(s, c)
    requires op.key in s.table && s.table[op.key] == c
    ensures LifeAgrees(Apply(s, op), c)
  {
    SnocLife(s.log, Outcome(s, op), c);
  }

  lemma {:induction false} StepKeepsLife<C>(s: Reg<C>, op: Op<C>, c: C)
    requires Valid(s) && Enabled(s, op) && LifeAgrees(s, c)
    ensures LifeAgrees(Apply(s, op), c)
  {
    if c !in Subjects(Outcome(s, op)) {
      OthersUntouched(s, op, c);
      SnocLife(s.log, Outcome(s, op), c);
    } else {
      match op
      case Add(key, c') =>
        if c == c' {
          NewKeepsLife(s, key, c);
        } else {
          HeldKeepsLife(s, key, c', c);
        }
      case Unlink(key) => UnlinkKeepsLife(s, key, c);
      case Notify(_) => NotifyKeepsLife(s, c);
      case Claim(_) => ClaimKeepsLife(s, op, c);
      case Unclaim(_) => ClaimKeepsLife(s, op, c);
    }
  }

  lemma {:induction false} RunKeepsLife<C>(s: Reg<C>, ops: seq<Op<C>>, c: C)
    requires Valid(s) && CanRun(s, ops) && LifeAgrees(s, c)
    ensures LifeAgrees(Run(s, ops), c)
    decreases |ops|
  {
    if ops != [] {
      StepKeepsLife(s, ops[0], c);
      StepKeepsValid(s, ops[0]);
      RunKeepsLife(Apply(s, ops[0]), ops[1..], c);
    }
  }

  function ClaimChange<C(==)>(e: Event<C>, c: C): int {
    if e.Claimed? && e.c == c then 1 else if e.Unclaimed? && e.c == c then -1 else 0
  }

  function ClaimBalance<C(==)>(log: seq<Event<C>>, c: C): int {
    if log == [] then 0
    else
      var last := log[|log| - 1];
      ClaimBalance(log[..|log| - 1], c) + ClaimChange(last, c)
  }

  /** For every connection, stored, removed or displaced, `claimed` is claims minus unclaims. */
  ghost predicate ClaimsAgree<C>(s: Reg<C>, c: C) {
    ClaimBalance(s.log, c) == if c in s.claimed then 1 else 0
  }

  lemma {:induction false} SnocClaims<C>(log: seq<Event<C>>, e: Event<C>, c: C)
    ensures ClaimBalance(log + [e], c) == ClaimBalance(log, c) + ClaimChange(e, c)
  {
    assert (log + [e])[..|log|] == log;
  }

  lemma {:induction false} StepOnClaimed<C>(s: Reg<C>, op: Op<C>, c: C)
    ensures var e, s' := Outcome(s, op), Apply(s, op);
      && s'.log == s.log + [e]
      && (ClaimChange(e, c) == 0 ==> (c in s'.claimed <==> c in s.claimed))
      && (ClaimChange(e, c) == 1 ==> c !in s.claimed && c in s'.claimed)
      && (ClaimChange(e, c) == -1 ==> c in s.claimed && c !in s'.claimed)
  {
    match op
    case Claim(_) =>
    case Unclaim(_) =>
    case _ =>
  }

  lemma {:induction false} StepKeepsClaims<C>(s: Reg<C>, op: Op<C>, c: C)
    requires ClaimsAgree(s, c)
    ensures ClaimsAgree(Apply(s, op), c)
  {
    StepOnClaimed(s, op, c);
    SnocClaims(s.log, Outcome(s, op), c);
  }

  lemma {:induction false} RunKeepsClaims<C>(s: Reg<C>, ops: seq<Op<C>>, c: C)
    requires ClaimsAgree(s, c)
    ensures ClaimsAgree(Run(s, ops), c)
    decreases |ops|
  {
    if ops != [] {
      StepKeepsClaims(s, ops[0], c);
      RunKeepsClaims(Apply(s, ops[0]), ops[1..], c);
    }
  }

  /** The close messages a step sends to a connection. */
  function ClosesOf<C(==)>(e: Event<C>, c: C): nat {
    if e == CloseSent(c) then 1 else 0
  }

  function CloseCount<C(==)>(log: seq<Event<C>>, c: C): nat {
    if log == [] then 0
    else
      var last := log[|log| - 1];
      CloseCount(log[..|log| - 1], c) + ClosesOf(last, c)
  }

  ghost predicate NumbersFit(phase: Phase, balance: int, closes: nat) {
    && balance == (if phase.Busy? || (phase.Gone? && phase.claimed) || (phase.Told? && phase.closed)
                   || (phase.Dropped? && balance == 1) then 1 else 0)
    && closes == (if phase.Told? && phase.closed then 1 else 0)
  }

  /** What a lawful life means in numbers. */
  lemma {:induction false} LifeInNumbers<C>(log: seq<Event<C>>, c: C)
    requires !Life(log, c).Broken?
    ensures NumbersFit(Life(log, c), ClaimBalance(log, c), CloseCount(log, c))
  {
    if log != [] {
      LifeInNumbers(log[..|log| - 1], c);
    }
  }

  lemma {:induction false} LifeOfPrefix<C>(log: seq<Event<C>>, c: C, i: nat)
    requires !Life(log, c).Broken? && i <= |log|
    ensures !Life(log[..i], c).Broken?
  {
    if i < |log| {
      assert log[..|log| - 1][..i] == log[..i];
      LifeOfPrefix(log[..|log| - 1], c, i);
    } else {
      assert log[..i] == log;
    }
  }

  /** Claim exclusion over whole histories, in every interleaving and for every connection: successful
      claims and unclaims alternate, a claim first; `claimed` is their difference; at most one close
      message is ever sent to it, and only if it was claimed when it was removed. */
  lemma ClaimsAlternate<C>(forceAdd: bool, ops: seq<Op<C>>, c: C)
    requires CanRun(Start(forceAdd), ops)
    ensures var s := Run(Start<C>(forceAdd), ops);
      && (forall i: nat | i <= |s.log| :: 0 <= ClaimBalance(s.log[..i], c) <= 1)
      && (c in s.claimed <==> ClaimBalance(s.log, c) == 1)
      && CloseCount(s.log, c) <= 1
      && (CloseCount(s.log, c) == 1 ==> ClaimBalance(s.log, c) == 1 && !IsStored(s, c))
  {
    RunKeepsClaims(Start<C>(forceAdd), ops, c);
    RunKeepsLife(Start<C>(forceAdd), ops, c);
    var log := Run(Start<C>(forceAdd), ops).log;
    LifeInNumbers(log, c);
    forall i: nat | i <= |log| ensures 0 <= ClaimBalance(log[..i], c) <= 1 {
      LifeOfPrefix(log, c, i);
      LifeInNumbers(log[..i], c);
    }
  }

  // ----- The look at `claimed` after unlocking -----

  predicate IsNotifyOf<C(==)>(op: Op<C>, c: C) {
    op == Notify(c)
  }

  ghost predicate NoNotifyOf<C>(ops: seq<Op<C>>, c: C) {
    forall i | 0 <= i < |ops| :: !IsNotifyOf(ops[i], c)
  }

  /** While a removal is pending, no step of anybody else changes what it will find. */
  lemma {:induction false} PendingIsStable<C>(s: Reg<C>, ops: seq<Op<C>>, c: C)
    requires Valid(s) && CanRun(s, ops) && c in s.pending
    requires NoNotifyOf(ops, c)
    ensures c in Run(s, ops).pending
    ensures c in Run(s, ops).claimed <==> c in s.claimed
    decreases |ops|
  {
    if ops != [] {
      assert !IsNotifyOf(ops[0], c);
      StepKeepsValid(s, ops[0]);
      PendingIsStable(Apply(s, ops[0]), ops[1..], c);
    }
  }

  /** `RemoveByKey` with any interleaving between its two parts: the unlocked read of `claimed`
      gives the value at the moment of deletion, so the close message is sent exactly if the
      connection was claimed then. */
  lemma {:induction false} RemovalSeesClaimAtDeletion<C>(forceAdd: bool, before: seq<Op<C>>, key: string,
                                                         between: seq<Op<C>>)
    requires CanRun(Start(forceAdd), before)
    requires var s := Run(Start<C>(forceAdd), before);
      && key in s.table
      && CanRun(Apply(s, Unlink(key)), between)
      && NoNotifyOf(between, s.table[key])
    ensures var s := Run(Start<C>(forceAdd), before);
      var c, later := s.table[key], Run(Apply(s, Unlink(key)), between);
      && Enabled(later, Notify(c))
      && Outcome(later, Notify(c)) == (if c in s.claimed then CloseSent(c) else LeftAlone(c))
  {
    var s := Run(Start<C>(forceAdd), before);
    RunKeepsValid(Start<C>(forceAdd), before);
    StepKeepsValid(s, Unlink(key));
    PendingIsStable(Apply(s, Unlink(key)), between, s.table[key]);
  }

  /** The state a whole `RemoveByKey` of a stored connection was in before its last step. */
  function BeforeNotify<C(==)>(taken: Reg<C>, s': Reg<C>): Reg<C> {
    var ops := Between(taken, s');
    if ops == [] then taken else Run(taken, ops[..|ops| - 1])
  }

  /** A whole `RemoveByKey`: its part under the lock, the steps of everybody else while the lock is
      free, its part after unlocking. A missing key ends it after the first part. */
  ghost predicate IsRemoval<C>(s: Reg<C>, key: string, s': Reg<C>) {
    var taken := Apply(s, Unlink(key));
    if key in s.table then
      var c, last := s.table[key], BeforeNotify(taken, s');
      && Later(taken, last) && NoNotifyOf(Between(taken, last), c)
      && Enabled(last, Notify(c)) && s' == Apply(last, Notify(c))
    else s' == taken
  }

  lemma {:induction false} IsARemoval<C>(s: Reg<C>, key: string, last: Reg<C>, c: C)
    requires key in s.table && s.table[key] == c
    requires Later(Apply(s, Unlink(key)), last) && NoNotifyOf(Between(Apply(s, Unlink(key)), last), c)
    requires Enabled(last, Notify(c))
    ensures IsRemoval(s, key, Apply(last, Notify(c)))
  {
    var taken := Apply(s, Unlink(key));
    var others := Between(taken, last);
    StepIsLater(last, Notify(c));
    LaterIsTransitive(taken, last, Apply(last, Notify(c)));
    LaterIsRun(taken, last);
    var ops := others + [Notify(c)];
    assert ops[..|ops| - 1] == others;
  }

  /** Removing by key what was found under it earlier takes away somebody else's entry exactly if, at
      the step under the lock, the key is held by somebody else. */
  lemma {:induction false} RemovalDisturbs<C>(s: Reg<C>, key: string, found: C)
    ensures (exists k | k in s.table :: s.table[k] != found && k !in Apply(s, Unlink(key)).table)
      <==> key in s.table && s.table[key] != found
    ensures forall k | k in Apply(s, Unlink(key)).table :: k in s.table && Apply(s, Unlink(key)).table[k] == s.table[k]
    ensures key !in Apply(s, Unlink(key)).table
  {
    if key in s.table && s.table[key] != found {
      assert key !in Apply(s, Unlink(key)).table;
    }
  }

  /** Such a run: while a forward to connection 0 is on, its entry goes and 1 comes; the removal that is
      meant for 0 takes 1 away. */
  lemma LateRemovalDisturbs()
    ensures var found := Apply(Start<nat>(false), Add("k", 0));
      var failed := Apply(Apply(found, Unlink("k")), Add("k", 1));
      && Later(found, failed)
      && found.table == map["k" := 0] && failed.table == map["k" := 1]
      && Apply(failed, Unlink("k")).table == map[]
  {
    var found := Apply(Start<nat>(false), Add("k", 0));
    StepIsLater(found, Unlink("k"));
    StepIsLater(Apply(found, Unlink("k")), Add("k", 1));
    LaterIsTransitive(found, Apply(found, Unlink("k")), Apply(Apply(found, Unlink("k")), Add("k", 1)));
  }

  // ----- The invariants of a registry that lives in objects -----

  /** Reached from the start by some run; the history tells by which. */
  predicate IsReached<C(==)>(s: Reg<C>) {
    Later(Start(s.forceAdd), s)
  }

  lemma {:induction false} ReachedIsValid<C>(s: Reg<C>)
    requires IsReached(s)
    ensures Valid(s)
  {
    LaterIsRun(Start<C>(s.forceAdd), s);
    RunKeepsValid(Start<C>(s.forceAdd), Between(Start(s.forceAdd), s));
  }

  lemma {:induction false} ReachedHasLife<C>(s: Reg<C>, c: C)
    requires IsReached(s)
    ensures LifeAgrees(s, c) && NumbersFit(Life(s.log, c), ClaimBalance(s.log, c), CloseCount(s.log, c))
  {
    LaterIsRun(Start<C>(s.forceAdd), s);
    RunKeepsLife(Start<C>(s.forceAdd), Between(Start(s.forceAdd), s), c);
    LifeInNumbers(s.log, c);
  }

  lemma {:induction false} StepKeepsReached<C>(s: Reg<C>, op: Op<C>)
    requires IsReached(s) && Enabled(s, op)
    ensures IsReached(Apply(s, op))
  {
    StepIsLater(s, op);
    LaterIsTransitive(Start(s.forceAdd), s, Apply(s, op));
  }

  lemma {:induction false} StartIsReached<C>(forceAdd: bool)
    ensures IsReached(Start<C>(forceAdd))
  {
    LaterIsReflexive(Start<C>(forceAdd));
  }

  lemma {:induction false} ClosesAfter<C>(s: Reg<C>, op: Op<C>, c: C)
    ensures CloseCount(Apply(s, op).log, c) == CloseCount(s.log, c) + ClosesOf(Outcome(s, op), c)
  {
    assert Apply(s, op).log == s.log + [Outcome(s, op)];
    assert (s.log + [Outcome(s, op)])[..|s.log|] == s.log;
  }

  /** A connection that was not there before a step has been sent nothing after it. */
  lemma {:induction false} NewIsUnclosed<C>(s: Reg<C>, op: Op<C>, c: C)
    requires IsReached(s) && Enabled(s, op) && c !in s.keys
    ensures CloseCount(Apply(s, op).log, c) == 0
  {
    ClosesAfter(s, op, c);
    ReachedIsValid(s);
    ReachedHasLife(s, c);
  }
}
