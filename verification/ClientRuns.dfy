/**
 Runs of one client, step by step, and how they make up runs of the whole system: for
 exhibiting runs that end in a given state.
 */
module ClientRuns {
  import opened Bytes
  import opened Messages
  import opened Pipeline

  ghost predicate CanAll(l: Local, ops: seq<Op>)
    decreases |ops|
  {
    ops == [] || (Can(l, ops[0]) && CanAll(Do(l, ops[0]), ops[1..]))
  }

  ghost function DoAll(l: Local, ops: seq<Op>): Local
    requires CanAll(l, ops)
    decreases |ops|
  {
    if ops == [] then l else DoAll(Do(l, ops[0]), ops[1..])
  }

  lemma {:induction false} JoinOps(l: Local, a: seq<Op>, b: seq<Op>)
    requires CanAll(l, a) && CanAll(DoAll(l, a), b)
    ensures CanAll(l, a + b) && DoAll(l, a + b) == DoAll(DoAll(l, a), b)
    decreases |a|
  {
    hide Do, Can;
    if a == [] {
      assert a + b == b;
    } else {
      assert (a + b)[1..] == a[1..] + b;
      JoinOps(Do(l, a[0]), a[1..], b);
    }
  }

  /** One more step at the end of a run that has got to l'. */
  lemma Extend(l: Local, ops: seq<Op>, l': Local, op: Op)
    requires CanAll(l, ops) && DoAll(l, ops) == l' && Can(l', op)
    ensures CanAll(l, ops + [op]) && DoAll(l, ops + [op]) == Do(l', op)
  {
    hide Do, Can;
    assert [op][1..] == [];
    assert CanAll(l', [op]) && DoAll(l', [op]) == Do(l', op);
    JoinOps(l, ops, [op]);
  }

  lemma NoOps(l: Local)
    ensures CanAll(l, []) && DoAll(l, []) == l
  {
  }

  // ---- In the whole system ----

  function By(i: nat, ops: seq<Op>): (acts: seq<Action>)
    ensures |acts| == |ops|
    ensures forall k :: 0 <= k < |acts| ==> acts[k] == Action(i, ops[k])
  {
    if ops == [] then [] else [Action(i, ops[0])] + By(i, ops[1..])
  }

  /** The state with client i, its source and the globals as in l. */
  function With(s: State, i: nat, l: Local): State
    requires WellTyped(s) && i < |s.clients|
  {
    State(s.clients[i := l.c], s.sources[s.clients[i].source := l.d], l.g)
  }

  lemma {:induction false} Lift(s: State, i: nat, ops: seq<Op>)
    requires WellTyped(s) && i < |s.clients| && CanAll(At(s, i), ops)
    ensures Runs(s, By(i, ops)) && After(s, By(i, ops)) == With(s, i, DoAll(At(s, i), ops))
    ensures DoAll(At(s, i), ops).c.source == s.clients[i].source
    ensures WellTyped(After(s, By(i, ops)))
    decreases |ops|
  {
    hide Do, Can;
    if ops == [] {
      assert With(s, i, At(s, i)) == s;
    } else {
      var l, op := At(s, i), ops[0];
      SourceKept(l, op);
      StaysWellTyped(s, i, op);
      var t := Next(s, i, op);
      assert At(t, i) == Do(l, op);
      Lift(t, i, ops[1..]);
      assert By(i, ops)[1..] == By(i, ops[1..]);
      assert With(t, i, DoAll(At(t, i), ops[1..])) == With(s, i, DoAll(l, ops));
    }
  }

  lemma {:induction false} JoinRuns(s: State, a: seq<Action>, b: seq<Action>)
    requires Runs(s, a) && Runs(After(s, a), b)
    ensures Runs(s, a + b) && After(s, a + b) == After(After(s, a), b)
    decreases |a|
  {
    hide Next, Enabled;
    if a == [] {
      assert a + b == b;
    } else {
      assert (a + b)[1..] == a[1..] + b;
      JoinRuns(Next(s, a[0].client, a[0].op), a[1..], b);
    }
  }

  // ---- Building blocks ----

  const NO_STATS := Stats(0, 0, 0, 0, 0, 0, 0)

  function Beginning(source: nat): Client {
    Client(source, 0, 0, Unbound, NO_SMI, Run(0, 0), 0, [], [], [], Quiet)
  }

  const EMPTY_SOURCE := Source([], [], [], [], false)

  const NOTHING_YET := Globals(0, NO_STATS, [], [], [], [], [], [])

  /** At the head of the loop with an empty slot, nothing expired, and no lock held by anyone. */
  predicate Steady(l: Local) {
    && l.c.phase == Top && l.c.slot.content == [] && l.c.hold == [] && l.c.recv == Quiet
    && l.c.ackTimeout == [] && l.d.delivering == [] && !l.d.busy && l.g.clock == 0
    && forall k :: 0 <= k < |l.c.waiting| ==> l.c.waiting[k].submitTime == 0
  }

  /** Neither accepts nor drains. */
  predicate NoApi(ops: seq<Op>) {
    forall k :: 0 <= k < |ops| ==> !ops[k].Accept? && !ops[k].Drain?
  }

  function InPhase(l: Local, phase: Phase): Local {
    l.(c := l.c.(phase := phase, start := 0))
  }

  lemma NeverExpired(since: nat, limit: nat)
    ensures since == 0 ==> !Expired(0, since, limit)
  {
  }

  /** A round of sweeps over lists in which nothing expires. */
  lemma ThroughSweeps(l: Local) returns (ops: seq<Op>)
    requires Steady(l)
    ensures CanAll(l, ops) && DoAll(l, ops) == InPhase(l, Ready) && NoApi(ops)
  {
    hide CanAll, DoAll, Expired;
    NoOps(l);
    Extend(l, [], l, StartSweeps);
    ops := [] + [StartSweeps];
    var l1 := Do(l, StartSweeps);
    Extend(l, ops, l1, Sweep);
    ops := ops + [Sweep];
    assert Do(l1, Sweep) == InPhase(l, WaitSweep(0));
    var pos: nat := 0;
    while pos < |l.c.waiting|
      invariant pos <= |l.c.waiting|
      invariant CanAll(l, ops) && DoAll(l, ops) == InPhase(l, WaitSweep(pos)) && NoApi(ops)
    {
      NeverExpired(l.c.waiting[pos].submitTime, l.c.ackLimit);
      Extend(l, ops, InPhase(l, WaitSweep(pos)), Sweep);
      ops, pos := ops + [Sweep], pos + 1;
    }
    Extend(l, ops, InPhase(l, WaitSweep(pos)), Sweep);
    ops := ops + [Sweep];
    Extend(l, ops, InPhase(l, TimeoutSweep(0)), Sweep);
    ops := ops + [Sweep];
  }

  /** The state with the front of the queue in the worker's hands. */
  function HeadTaken(l: Local): Local
    requires l.d.toSubmit != []
  {
    var m := l.d.toSubmit[0];
    l.(c := l.c.(phase := InHand, start := 0, slot := m, last := Run(m.total, m.index)),
       d := l.d.(toSubmit := l.d.toSubmit[1..]),
       g := l.g.(stats := l.g.stats.(submit := l.g.stats.submit + 1)))
  }

  lemma TakeHead(l: Local) returns (ops: seq<Op>)
    requires Steady(l) && l.d.toSubmit != [] && (|l.c.waiting| < 8 || MidLong(l.c))
    ensures CanAll(l, ops) && DoAll(l, ops) == HeadTaken(l) && NoApi(ops)
  {
    hide CanAll, DoAll;
    ops := ThroughSweeps(l);
    var ready := InPhase(l, Ready);
    Extend(l, ops, ready, Check);
    ops := ops + [Check];
    Extend(l, ops, Do(ready, Check), Get);
    ops := ops + [Get];
  }

  /** The state with the front of the queue written, and the worker back at the head of the loop. */
  function HeadSent(l: Local): Local
    requires l.d.toSubmit != []
  {
    var t := HeadTaken(l);
    t.(c := t.c.(phase := Top, slot := l.d.toSubmit[0].(submitTime := 0, content := []),
                 waiting := l.c.waiting + [l.d.toSubmit[0].(submitTime := 0)]))
  }

  lemma SendHead(l: Local) returns (ops: seq<Op>)
    requires Steady(l) && l.d.toSubmit != [] && (|l.c.waiting| < 8 || MidLong(l.c))
    ensures CanAll(l, ops) && DoAll(l, ops) == HeadSent(l) && NoApi(ops) && Steady(HeadSent(l))
  {
    hide CanAll, DoAll;
    ops := TakeHead(l);
    var t := HeadTaken(l);
    Extend(l, ops, t, Encode(true));
    ops := ops + [Encode(true)];
    Extend(l, ops, Do(t, Encode(true)), Write(true));
    ops := ops + [Write(true)];
  }
}
