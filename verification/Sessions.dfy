/** Cloud sessions over the registry. A session is one `cloudinit` command: it is opened, registers
    its connection once (`Handle` or `ActUponConnection`), and is closed once. `Close` is two steps,
    like the `RemoveByKey` it calls. Any other operations on the registry may come in between. */
module Sessions {
  import opened Registry

  datatype Stage = Opened | Active | Telling(c: nat) | Closed

  /** `needsRemoving` is true from the start; only a refused registration clears it. */
  datatype Session = Session(key: string, needsRemoving: bool, stage: Stage)

  /** Sessions are numbered, and a session's connection has the session's number. */
  datatype Sys = Sys(reg: Reg<nat>, sessions: map<nat, Session>)

  datatype SysOp =
    | Open(i: nat, key: string)
    | Register(i: nat)
    | CloseStart(i: nat)
    | CloseEnd(i: nat)
    | Other(op: Op<nat>)  // proxyinit, proxystop, cloudstop, claims

  function StartSys(forceAdd: bool): Sys {
    Sys(Start(forceAdd), map[])
  }

  predicate CanDo(s: Sys, op: SysOp) {
    match op
    case Open(i, _) => i !in s.sessions && i !in s.reg.keys
    case Register(i) => i in s.sessions && s.sessions[i].stage.Opened? && i !in s.reg.keys
    case CloseStart(i) => i in s.sessions && (s.sessions[i].stage.Opened? || s.sessions[i].stage.Active?)
    case CloseEnd(i) => i in s.sessions && s.sessions[i].stage.Telling? && s.sessions[i].stage.c in s.reg.pending
    case Other(op') =>
      && Enabled(s.reg, op')
      && (op'.Add? ==> op'.c !in s.sessions)
      && (op'.Notify? ==> forall i | i in s.sessions :: s.sessions[i].stage != Telling(op'.c))
  }

  function Do(s: Sys, op: SysOp): Sys
    requires CanDo(s, op)
  {
    match op
    case Open(i, key) => s.(sessions := s.sessions[i := Session(key, true, Opened)])
    case Register(i) =>
      var session := s.sessions[i];
      var e := Outcome(s.reg, Add(session.key, i));
      Sys(Record(s.reg, e),
          s.sessions[i := session.(stage := Active, needsRemoving := session.needsRemoving && !e.Refused?)])
    case CloseStart(i) =>
      var session := s.sessions[i];
      if !session.needsRemoving then s.(sessions := s.sessions[i := session.(stage := Closed)])
      else
        var e := Outcome(s.reg, Unlink(session.key));
        Sys(Record(s.reg, e),
            s.sessions[i := session.(stage := if e.Removed? then Telling(e.c) else Closed)])
    case CloseEnd(i) =>
      Sys(Apply(s.reg, Notify(s.sessions[i].stage.c)), s.sessions[i := s.sessions[i].(stage := Closed)])
    case Other(op') => s.(reg := Apply(s.reg, op'))
  }

  predicate CanRunSys(s: Sys, ops: seq<SysOp>)
    decreases |ops|
  {
    ops == [] || (CanDo(s, ops[0]) && CanRunSys(Do(s, ops[0]), ops[1..]))
  }

  function RunSys(s: Sys, ops: seq<SysOp>): Sys
    requires CanRunSys(s, ops)
    decreases |ops|
  {
    if ops == [] then s else RunSys(Do(s, ops[0]), ops[1..])
  }

  predicate Stores(s: Sys, key: string, c: nat) {
    key in s.reg.table && s.reg.table[key] == c
  }

  /** A session that registered successfully and has not begun to close. */
  predicate IsLive(s: Sys, i: nat) {
    i in s.sessions && s.sessions[i].stage.Active? && s.sessions[i].needsRemoving
  }

  // ----- No entry outlives its session -----

  ghost predicate Outlived(s: Sys) {
    && Valid(s.reg)
    && (forall i | i in s.sessions && i in s.reg.keys :: s.reg.keys[i] == s.sessions[i].key)
    && (forall i | i in s.sessions && s.sessions[i].stage.Opened? :: i !in s.reg.keys && s.sessions[i].needsRemoving)
    && (forall key | key in s.reg.table && s.reg.table[key] in s.sessions :: IsLive(s, s.reg.table[key]))
  }

  lemma RegisterKeepsOutlived(s: Sys, i: nat)
    requires Outlived(s) && CanDo(s, Register(i))
    ensures Outlived(Do(s, Register(i)))
  {
    StepKeepsValid(s.reg, Add(s.sessions[i].key, i));
  }

  lemma CloseStartKeepsOutlived(s: Sys, i: nat)
    requires Outlived(s) && CanDo(s, CloseStart(i))
    ensures Outlived(Do(s, CloseStart(i)))
  {
    StepKeepsValid(s.reg, Unlink(s.sessions[i].key));
  }

  lemma AddKeepsOutlived(s: Sys, key: string, c: nat)
    requires Outlived(s) && CanDo(s, Other(Add(key, c)))
    ensures Outlived(Do(s, Other(Add(key, c))))
  {
    StepKeepsValid(s.reg, Add(key, c));
  }

  lemma OtherKeepsOutlived(s: Sys, op: Op<nat>)
    requires Outlived(s) && CanDo(s, Other(op)) && !op.Add?
    ensures Outlived(Do(s, Other(op)))
  {
    StepKeepsValid(s.reg, op);
  }

  lemma CloseEndKeepsOutlived(s: Sys, i: nat)
    requires Outlived(s) && CanDo(s, CloseEnd(i))
    ensures Outlived(Do(s, CloseEnd(i)))
  {
    StepKeepsValid(s.reg, Notify(s.sessions[i].stage.c));
  }

  lemma {:induction false} DoKeepsOutlived(s: Sys, op: SysOp)
    requires Outlived(s) && CanDo(s, op)
    ensures Outlived(Do(s, op))
  {
    match op
    case Open(_, _) =>
    case Register(i) => RegisterKeepsOutlived(s, i);
    case CloseStart(i) => CloseStartKeepsOutlived(s, i);
    case CloseEnd(i) => CloseEndKeepsOutlived(s, i);
    case Other(op') =>
      if op'.Add? {
        AddKeepsOutlived(s, op'.key, op'.c);
      } else {
        OtherKeepsOutlived(s, op');
      }
  }

  lemma {:induction false} RunKeepsOutlived(s: Sys, ops: seq<SysOp>)
    requires Outlived(s) && CanRunSys(s, ops)
    ensures Outlived(RunSys(s, ops))
    decreases |ops|
  {
    if ops != [] {
      DoKeepsOutlived(s, ops[0]);
      RunKeepsOutlived(Do(s, ops[0]), ops[1..]);
    }
  }

  /** In every run, with cloudstop and proxy steps in between and either value of forceAdd, an entry
      of a session's connection sits under the session's key, and the session has registered it and
      has not begun, let alone completed, its `Close`. */
  lemma NoEntryOutlivesItsSession(forceAdd: bool, ops: seq<SysOp>, key: string, i: nat)
    requires CanRunSys(StartSys(forceAdd), ops)
    ensures var s := RunSys(StartSys(forceAdd), ops);
      Stores(s, key, i) && i in s.sessions ==> s.sessions[i].key == key && IsLive(s, i)
  {
    RunKeepsOutlived(StartSys(forceAdd), ops);
  }

  // ----- The exact invariant -----

  /** Sessions are closed only after they have registered, and nobody else removes entries. */
  predicate IsOrderly(s: Sys, op: SysOp) {
    && (op.CloseStart? ==> op.i in s.sessions && !s.sessions[op.i].stage.Opened?)
    && (op.Other? ==> !op.op.Unlink?)
  }

  predicate IsOrderlyRun(s: Sys, ops: seq<SysOp>)
    requires CanRunSys(s, ops)
    decreases |ops|
  {
    ops == [] || (IsOrderly(s, ops[0]) && IsOrderlyRun(Do(s, ops[0]), ops[1..]))
  }

  ghost predicate Exact(s: Sys) {
    && Outlived(s)
    && !s.reg.forceAdd
    && (forall i | IsLive(s, i) :: Stores(s, s.sessions[i].key, i))
    && (forall i | i in s.sessions && s.sessions[i].stage.Telling? :: s.sessions[i].stage.c == i)
  }

  lemma {:induction false} DoKeepsExact(s: Sys, op: SysOp)
    requires Exact(s) && CanDo(s, op) && IsOrderly(s, op)
    ensures Exact(Do(s, op))
  {
    DoKeepsOutlived(s, op);
    match op
    case Register(_) =>
    case CloseStart(_) =>
    case Other(_) =>
    case _ =>
  }

  lemma {:induction false} CloseSpares(s: Sys, i: nat)
    requires Exact(s) && CanDo(s, CloseStart(i)) && IsOrderly(s, CloseStart(i))
    ensures forall key, c :: Stores(s, key, c) && c != i ==> Stores(Do(s, CloseStart(i)), key, c)
  {
  }

  lemma {:induction false} RunKeepsExact(s: Sys, ops: seq<SysOp>)
    requires Exact(s) && CanRunSys(s, ops) && IsOrderlyRun(s, ops)
    ensures Exact(RunSys(s, ops))
    decreases |ops|
  {
    if ops != [] {
      DoKeepsExact(s, ops[0]);
      RunKeepsExact(Do(s, ops[0]), ops[1..]);
    }
  }

  /** With forceAdd off, in every interleaving of sessions that register before they close, and with
      no other removals: a key maps to a session's connection if and only if the session has that
      key, registered successfully and has not begun to close. No `Close`, of a refused session or
      any other, takes away somebody else's entry. */
  lemma SessionsExact(ops: seq<SysOp>, key: string, i: nat)
    requires CanRunSys(StartSys(false), ops) && IsOrderlyRun(StartSys(false), ops)
    requires i in RunSys(StartSys(false), ops).sessions
    ensures var s := RunSys(StartSys(false), ops);
      && (Stores(s, key, i) <==> IsLive(s, i) && s.sessions[i].key == key)
      && (CanDo(s, CloseStart(i)) && s.sessions[i].stage.Active? ==>
            forall key', c :: Stores(s, key', c) && c != i ==> Stores(Do(s, CloseStart(i)), key', c))
  {
    var s := RunSys(StartSys(false), ops);
    RunKeepsExact(StartSys(false), ops);
    if CanDo(s, CloseStart(i)) && s.sessions[i].stage.Active? {
      CloseSpares(s, i);
    }
  }

  // ----- Each assumption is needed -----

  /** In any state, closing a session takes away another's entry exactly if the session still means
      to remove and its key is held by somebody else. */
  lemma CloseDisturbs(s: Sys, i: nat)
    requires Outlived(s) && CanDo(s, CloseStart(i))
    ensures (exists key, c :: Stores(s, key, c) && c != i && !Stores(Do(s, CloseStart(i)), key, c))
      <==> s.sessions[i].needsRemoving && s.sessions[i].key in s.reg.table && s.reg.table[s.sessions[i].key] != i
  {
    var key := s.sessions[i].key;
    if s.sessions[i].needsRemoving && key in s.reg.table && s.reg.table[key] != i {
      assert Stores(s, key, s.reg.table[key]);
    }
  }

  lemma RunOneOp(s: Sys, op: SysOp)
    requires CanDo(s, op)
    ensures CanRunSys(s, [op]) && RunSys(s, [op]) == Do(s, op)
  {
    assert [op][1..] == [];
    assert RunSys(Do(s, op), [op][1..]) == Do(s, op);
  }

  lemma RunFour(s: Sys, a: SysOp, b: SysOp, c: SysOp, d: SysOp)
    requires CanDo(s, a) && CanDo(Do(s, a), b) && CanDo(Do(Do(s, a), b), c) && CanDo(Do(Do(Do(s, a), b), c), d)
    ensures CanRunSys(s, [a, b, c, d]) && RunSys(s, [a, b, c, d]) == Do(Do(Do(Do(s, a), b), c), d)
    ensures
      (&& IsOrderly(s, a) && IsOrderly(Do(s, a), b) && IsOrderly(Do(Do(s, a), b), c)
       && IsOrderly(Do(Do(Do(s, a), b), c), d)) ==> IsOrderlyRun(s, [a, b, c, d])
  {
    var s1 := Do(s, a);
    var s2 := Do(s1, b);
    var s3 := Do(s2, c);
    assert [a, b, c, d][1..] == [b, c, d] && [b, c, d][1..] == [c, d] && [c, d][1..] == [d] && [d][1..] == [];
    RunOneOp(s3, d);
    assert CanRunSys(s2, [c, d]) && RunSys(s2, [c, d]) == Do(s3, d);
    assert CanRunSys(s1, [b, c, d]) && RunSys(s1, [b, c, d]) == Do(s3, d);
    if IsOrderly(s, a) && IsOrderly(s1, b) && IsOrderly(s2, c) && IsOrderly(s3, d) {
      assert IsOrderlyRun(s3, [d]);
      assert IsOrderlyRun(s2, [c, d]);
      assert IsOrderlyRun(s1, [b, c, d]);
    }
  }

  /** With forceAdd on, a second registration of a key succeeds, the first session is still live, and
      yet neither connection is stored. */
  lemma ForceAddLosesBoth()
    ensures var ops := [Open(0, "k"), Register(0), Open(1, "k"), Register(1)];
      && CanRunSys(StartSys(true), ops) && IsOrderlyRun(StartSys(true), ops)
      && IsLive(RunSys(StartSys(true), ops), 0) && IsLive(RunSys(StartSys(true), ops), 1)
      && "k" !in RunSys(StartSys(true), ops).reg.table
  {
    var s0 := StartSys(true);
    var s1 := Do(s0, Open(0, "k"));
    var s2 := Do(s1, Register(0));
    var s3 := Do(s2, Open(1, "k"));
    var s4 := Do(s3, Register(1));
    RunFour(s0, Open(0, "k"), Register(0), Open(1, "k"), Register(1));
  }

  /** A session that is closed without having registered takes away the entry of one that has. */
  lemma UnregisteredCloseDisturbs()
    ensures var ops := [Open(0, "k"), Register(0), Open(1, "k"), CloseStart(1)];
      && CanRunSys(StartSys(false), ops)
      && IsLive(RunSys(StartSys(false), ops), 0)
      && "k" !in RunSys(StartSys(false), ops).reg.table
  {
    var s0 := StartSys(false);
    var s1 := Do(s0, Open(0, "k"));
    var s2 := Do(s1, Register(0));
    var s3 := Do(s2, Open(1, "k"));
    RunFour(s0, Open(0, "k"), Register(0), Open(1, "k"), CloseStart(1));
  }

  /** After a cloudstop has removed a session's entry and another session has taken the key, the
      first one's `Close` removes the second one's entry. */
  lemma StopThenCloseDisturbs()
    ensures CanRunSys(StartSys(false), [Open(0, "k"), Open(1, "k")])
    ensures var s := RunSys(StartSys(false), [Open(0, "k"), Open(1, "k")]);
      var ops := [Register(0), Other(Unlink("k")), Register(1), CloseStart(0)];
      && CanRunSys(s, ops)
      && IsLive(RunSys(s, ops), 1)
      && "k" !in RunSys(s, ops).reg.table
  {
    var start := StartSys(false);
    var s := Do(Do(start, Open(0, "k")), Open(1, "k"));
    assert [Open(0, "k"), Open(1, "k")][1..] == [Open(1, "k")];
    assert CanRunSys(Do(start, Open(0, "k")), [Open(1, "k")]);
    assert RunSys(Do(start, Open(0, "k")), [Open(1, "k")]) == s;
    var s1 := Do(s, Register(0));
    var s2 := Do(s1, Other(Unlink("k")));
    var s3 := Do(s2, Register(1));
    RunFour(s, Register(0), Other(Unlink("k")), Register(1), CloseStart(0));
  }
}
