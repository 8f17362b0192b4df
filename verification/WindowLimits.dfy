/**
 Why the in-flight window needs its two conditions: runs from the initial state that exceed
 any bound, once with a queue drained in the middle of long messages, once with two clients on
 one source. Long messages have three parts and are always accepted whole.
 */
module WindowLimits {
  import opened Bytes
  import opened Messages
  import opened Pipeline
  import opened ClientRuns
  import opened Window

  function Part(k: u8): Smi {
    Smi(k, [1], 3, k, 0, 0, [])
  }

  /** A message of three parts. */
  function Three(): seq<Smi> {
    [Part(1), Part(2), Part(3)]
  }

  lemma ThreeIsWhole()
    ensures Chain(Run(0, 0), Three()) && NoLonger(Three(), 3)
  {
    assert Three()[1..] == [Part(2), Part(3)] && [Part(2), Part(3)][1..] == [Part(3)] && [Part(3)][1..] == [];
    assert Chain(Run(3, 3), []);
    assert Chain(Run(3, 2), [Part(3)]);
    assert Chain(Run(3, 1), [Part(2), Part(3)]);
  }

  predicate WholeOp(op: Op) {
    op.Accept? ==> Chain(Run(0, 0), op.smis) && NoLonger(op.smis, 3)
  }

  predicate AllWhole(acts: seq<Action>) {
    forall k :: 0 <= k < |acts| ==> WholeOp(acts[k].op)
  }

  predicate NoDrain(acts: seq<Action>) {
    forall k :: 0 <= k < |acts| ==> !acts[k].op.Drain?
  }

  // ---- Draining ----

  const LONELY := State([Beginning(0)], [EMPTY_SOURCE], NOTHING_YET)

  /** k messages wait, and the slot says that a long message is not through. */
  predicate Begun(s: State, k: nat) {
    && Dedicated(s, 0) && Steady(At(s, 0)) && |s.clients[0].waiting| == k
    && (k > 0 ==> MidLong(s.clients[0]))
  }

  /** Drain what is left of the last message, accept a new one, and send its first part. */
  lemma DrainRound(l: Local) returns (ops: seq<Op>)
    requires Steady(l) && (|l.c.waiting| > 0 ==> MidLong(l.c))
    ensures CanAll(l, ops) && var l' := DoAll(l, ops);
            Steady(l') && |l'.c.waiting| == |l.c.waiting| + 1 && MidLong(l'.c)
    ensures forall k :: 0 <= k < |ops| ==> WholeOp(ops[k])
  {
    hide CanAll, DoAll, Chain, NoLonger;
    ThreeIsWhole();
    NoOps(l);
    Extend(l, [], l, Drain);
    Extend(l, [] + [Drain], Do(l, Drain), Accept(Three()));
    var l1 := Do(Do(l, Drain), Accept(Three()));
    assert [] + Three() == Three();
    var send := SendHead(l1);
    JoinOps(l, [] + [Drain] + [Accept(Three())], send);
    ops := [] + [Drain] + [Accept(Three())] + send;
  }

  lemma {:induction false} DrainRounds(s: State, k: nat, b: nat) returns (acts: seq<Action>)
    requires Begun(s, k) && k <= b + 1
    ensures Runs(s, acts) && AllWhole(acts) && |After(s, acts).clients| == |s.clients| > 0
    ensures |After(s, acts).clients[0].waiting| == b + 1
    decreases b + 1 - k
  {
    hide CanAll, DoAll, Steady, WholeOp;
    if k == b + 1 {
      acts := [];
    } else {
      var ops := DrainRound(At(s, 0));
      Lift(s, 0, ops);
      var t := After(s, By(0, ops));
      assert At(t, 0) == DoAll(At(s, 0), ops);
      var rest := DrainRounds(t, k + 1, b);
      JoinRuns(s, By(0, ops), rest);
      acts := By(0, ops) + rest;
    }
  }

  /** With drains in the middle of long messages, more messages wait than any bound allows. */
  lemma DrainingBreaksBound(b: nat) returns (acts: seq<Action>)
    ensures Init(LONELY) && Dedicated(LONELY, 0) && Runs(LONELY, acts) && AllWhole(acts)
    ensures |After(LONELY, acts).clients| == 1 && |After(LONELY, acts).clients[0].waiting| > b
  {
    hide Runs, After, CanAll, DoAll;
    NoOps(At(LONELY, 0));
    Extend(At(LONELY, 0), [], At(LONELY, 0), Bind);
    Lift(LONELY, 0, [] + [Bind]);
    var t := After(LONELY, By(0, [] + [Bind]));
    var rest := DrainRounds(t, 0, b);
    JoinRuns(LONELY, By(0, [] + [Bind]), rest);
    acts := By(0, [] + [Bind]) + rest;
  }

  // ---- Sharing ----

  const PAIR := State([Beginning(0), Beginning(0)], [EMPTY_SOURCE], NOTHING_YET)

  /** k messages of the first client wait, none of the second, and the queue is empty. */
  predicate Shared(s: State, k: nat) {
    && |s.clients| == 2 && |s.sources| == 1 && s.clients[0].source == 0 && s.clients[1].source == 0
    && Steady(At(s, 0)) && Steady(At(s, 1)) && s.sources[0].toSubmit == []
    && |s.clients[0].waiting| == k && (k > 0 ==> MidLong(s.clients[0])) && s.clients[1].waiting == []
  }

  lemma FindOnly(m: Smi)
    ensures FindSn([m], m.sn) == 0 && Erase([m], 0) == []
  {
  }

  /** The front of the queue is sent and answered at once. */
  lemma SendAndSettle(l: Local) returns (ops: seq<Op>)
    requires Steady(l) && l.c.waiting == [] && l.d.toSubmit != []
    ensures CanAll(l, ops) && var l' := DoAll(l, ops);
            Steady(l') && l'.c.waiting == [] && l'.d.toSubmit == l.d.toSubmit[1..]
    ensures NoApi(ops)
  {
    hide CanAll, DoAll;
    ops := SendHead(l);
    var t := HeadSent(l);
    var sn := l.d.toSubmit[0].sn;
    assert t.c.waiting == [l.d.toSubmit[0].(submitTime := 0)];
    FindOnly(t.c.waiting[0]);
    Extend(l, ops, t, AckLook(sn));
    ops := ops + [AckLook(sn)];
    Extend(l, ops, Do(t, AckLook(sn)), AckPut(false, []));
    ops := ops + [AckPut(false, [])];
  }

  /** One client's steps, as far as the other conditions on the run go. */
  lemma ByWhole(i: nat, ops: seq<Op>)
    requires NoApi(ops)
    ensures AllWhole(By(i, ops)) && NoDrain(By(i, ops))
  {
  }

  lemma WholeJoin(a: seq<Action>, b: seq<Action>)
    requires AllWhole(a) && NoDrain(a) && AllWhole(b) && NoDrain(b)
    ensures AllWhole(a + b) && NoDrain(a + b)
  {
    hide WholeOp;
  }

  /** A message is accepted through the first client, which sends its first part. */
  lemma FirstPart(s: State, k: nat) returns (acts: seq<Action>)
    requires Shared(s, k)
    ensures Runs(s, acts) && AllWhole(acts) && NoDrain(acts)
    ensures var t := After(s, acts);
            && |t.clients| == 2 && |t.sources| == 1 && t.clients[0].source == 0 && t.clients[1].source == 0
            && Steady(At(t, 0)) && Steady(At(t, 1)) && t.sources[0].toSubmit == [Part(2), Part(3)]
            && |t.clients[0].waiting| == k + 1 && MidLong(t.clients[0]) && t.clients[1].waiting == []
            && t.clients[0].last == Run(3, 1)
  {
    hide CanAll, DoAll, Runs, After, Chain, NoLonger;
    ThreeIsWhole();
    var l := At(s, 0);
    NoOps(l);
    Extend(l, [], l, Accept(Three()));
    var l1 := Do(l, Accept(Three()));
    assert l1.d.toSubmit == Three() && Three()[1..] == [Part(2), Part(3)];
    var send := SendHead(l1);
    JoinOps(l, [] + [Accept(Three())], send);
    var ops := [] + [Accept(Three())] + send;
    Lift(s, 0, ops);
    acts := By(0, ops);
  }

  /** The second client takes the front of the queue out of the first one's way. */
  lemma OtherParts(s: State, k: nat) returns (acts: seq<Action>)
    requires |s.clients| == 2 && |s.sources| == 1 && s.clients[0].source == 0 && s.clients[1].source == 0
    requires Steady(At(s, 0)) && Steady(At(s, 1)) && s.sources[0].toSubmit != []
    requires |s.clients[0].waiting| == k + 1 && MidLong(s.clients[0]) && s.clients[1].waiting == []
    ensures Runs(s, acts) && AllWhole(acts) && NoDrain(acts)
    ensures var t := After(s, acts);
            && |t.clients| == 2 && |t.sources| == 1 && t.clients[0] == s.clients[0] && t.clients[1].source == 0
            && Steady(At(t, 0)) && Steady(At(t, 1)) && t.sources[0].toSubmit == s.sources[0].toSubmit[1..]
            && t.clients[1].waiting == []
  {
    hide CanAll, DoAll, Runs, After;
    var ops := SendAndSettle(At(s, 1));
    Lift(s, 1, ops);
    ByWhole(1, ops);
    acts := By(1, ops);
  }

  lemma SharedRound(s: State, k: nat) returns (acts: seq<Action>)
    requires Shared(s, k)
    ensures Runs(s, acts) && AllWhole(acts) && NoDrain(acts) && Shared(After(s, acts), k + 1)
  {
    hide CanAll, DoAll, Runs, After, Steady, AllWhole, NoDrain;
    var a := FirstPart(s, k);
    var s1 := After(s, a);
    assert [Part(2), Part(3)][1..] == [Part(3)] && [Part(3)][1..] == [];
    var b := OtherParts(s1, k);
    var s2 := After(s1, b);
    var c := OtherParts(s2, k);
    JoinRuns(s, a, b);
    JoinRuns(s, a + b, c);
    WholeJoin(a, b);
    WholeJoin(a + b, c);
    acts := a + b + c;
  }

  lemma {:induction false} SharedRounds(s: State, k: nat, b: nat) returns (acts: seq<Action>)
    requires Shared(s, k) && k <= b + 1
    ensures Runs(s, acts) && AllWhole(acts) && NoDrain(acts) && Shared(After(s, acts), b + 1)
    decreases b + 1 - k
  {
    if k == b + 1 {
      acts := [];
    } else {
      hide Shared, AllWhole, NoDrain, Runs, After;
      var first := SharedRound(s, k);
      var rest := SharedRounds(After(s, first), k + 1, b);
      JoinRuns(s, first, rest);
      WholeJoin(first, rest);
      acts := first + rest;
    }
  }

  /** Both clients bind. */
  lemma ToShared() returns (acts: seq<Action>)
    ensures Init(PAIR) && Runs(PAIR, acts) && AllWhole(acts) && NoDrain(acts) && Shared(After(PAIR, acts), 0)
  {
    hide Runs, After, CanAll, DoAll, AllWhole, NoDrain;
    NoOps(At(PAIR, 0));
    Extend(At(PAIR, 0), [], At(PAIR, 0), Bind);
    var bind := [] + [Bind];
    Lift(PAIR, 0, bind);
    var s1 := After(PAIR, By(0, bind));
    NoOps(At(s1, 1));
    Extend(At(s1, 1), [], At(s1, 1), Bind);
    Lift(s1, 1, bind);
    JoinRuns(PAIR, By(0, bind), By(1, bind));
    ByWhole(0, bind);
    ByWhole(1, bind);
    WholeJoin(By(0, bind), By(1, bind));
    acts := By(0, bind) + By(1, bind);
  }

  /** With a second client on the source, more messages wait than any bound allows, without any drain. */
  lemma SharingBreaksBound(b: nat) returns (acts: seq<Action>)
    ensures Init(PAIR) && Runs(PAIR, acts) && AllWhole(acts) && NoDrain(acts)
    ensures |After(PAIR, acts).clients| == 2 && |After(PAIR, acts).clients[0].waiting| > b
  {
    hide Runs, After, AllWhole, NoDrain;
    var bind := ToShared();
    var rest := SharedRounds(After(PAIR, bind), 0, b);
    JoinRuns(PAIR, bind, rest);
    WholeJoin(bind, rest);
    acts := bind + rest;
  }

  /** Once the second client has taken a part, what is queued does not go on where the first left off. */
  lemma SharingBreaksOrder() returns (acts: seq<Action>)
    ensures Init(PAIR) && Runs(PAIR, acts) && AllWhole(acts) && NoDrain(acts)
    ensures WellTyped(After(PAIR, acts)) && |After(PAIR, acts).clients| == 2
    ensures var l := At(After(PAIR, acts), 0); !Chain(l.c.last, l.d.toSubmit)
  {
    hide Runs, After, Steady, AllWhole, NoDrain;
    var bind := ToShared();
    var s := After(PAIR, bind);
    var a := FirstPart(s, 0);
    var b := OtherParts(After(s, a), 0);
    JoinRuns(PAIR, bind, a);
    JoinRuns(PAIR, bind + a, b);
    WholeJoin(bind, a);
    WholeJoin(bind + a, b);
    acts := bind + a + b;
    assert [Part(2), Part(3)][1..] == [Part(3)];
  }
}
