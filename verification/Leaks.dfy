/**
 Runs of the pipeline, from its initial state, at whose end a message is gone or in two
 places: each way of losing or doubling one happens, to any message.
 */
module Leaks {
  import opened Bytes
  import opened Messages
  import opened Pipeline
  import opened Conservation
  import opened ClientRuns

  /** One client on one source. */
  function Solo(l: Local): State {
    State([l.c], [l.d], l.g)
  }

  const START := Local(Beginning(0), EMPTY_SOURCE, NOTHING_YET)

  lemma SoloStarts()
    ensures Init(Solo(START)) && WellTyped(Solo(START)) && At(Solo(START), 0) == START
  {
  }

  /** The message was accepted, and is in the hands of the worker. */
  function Handed(m: Smi): Local {
    Local(Beginning(0).(phase := InHand, slot := m, last := Run(m.total, m.index)), EMPTY_SOURCE,
          NOTHING_YET.(accepted := [m], stats := NO_STATS.(received := 1, submit := 1)))
  }

  lemma ToHand(m: Smi) returns (ops: seq<Op>)
    ensures CanAll(START, ops) && DoAll(START, ops) == Handed(m)
  {
    hide CanAll, DoAll;
    NoOps(START);
    Extend(START, [], START, Accept([m]));
    var l1 := Do(START, Accept([m]));
    Extend(START, [] + [Accept([m])], l1, Bind);
    var l2 := Do(l1, Bind);
    assert l2.d.toSubmit == [m] && l2.d.toSubmit[1..] == [];
    assert l2.g.accepted == [m];
    ops := TakeHead(l2);
    JoinOps(START, [] + [Accept([m])] + [Bind], ops);
    ops := [] + [Accept([m])] + [Bind] + ops;
  }

  lemma CopiesOf(l: Local, sn: u32)
    ensures Copies(Solo(l), sn)
         == InClient(l.c, sn) + InSource(l.d, sn) + Count(l.g.pulled, sn) + Count(l.g.drained, sn)
  {
    hide InClient, InSource, Count;
    assert [l.c][1..] == [] && [l.d][1..] == [];
    assert AllClients([], sn) == 0 && AllSources([], sn) == 0;
    assert AllClients([l.c], sn) == InClient(l.c, sn) && AllSources([l.d], sn) == InSource(l.d, sn);
  }

  /** The run is there, and it ends in l. */
  lemma SoloRun(ops: seq<Op>, l: Local)
    requires CanAll(START, ops) && DoAll(START, ops) == l
    ensures Runs(Solo(START), By(0, ops)) && After(Solo(START), By(0, ops)) == Solo(l)
  {
    hide CanAll, DoAll, Runs, After;
    SoloStarts();
    Lift(Solo(START), 0, ops);
    assert With(Solo(START), 0, l) == Solo(l);
  }

  /** The message as it is written. */
  function Stamped(m: Smi): Smi {
    m.(submitTime := 0)
  }

  /** The message waits for its answer, the write is under way. */
  function OnTheWay(m: Smi): Local {
    var l := Handed(m);
    l.(c := l.c.(phase := Sent(false), slot := Stamped(m), waiting := [Stamped(m)]))
  }

  lemma ToWrite(m: Smi) returns (ops: seq<Op>)
    ensures CanAll(START, ops) && DoAll(START, ops) == OnTheWay(m)
  {
    hide CanAll, DoAll;
    ops := ToHand(m);
    Extend(START, ops, Handed(m), Encode(true));
    ops := ops + [Encode(true)];
  }

  lemma OnlyOne(m: Smi)
    ensures FindSn([m], m.sn) == 0 && Erase([m], 0) == []
  {
  }

  /** The four ends, without the common part. */
  function Ended(m: Smi, c: Client, lost: seq<Smi>, doubled: seq<Smi>): Local {
    OnTheWay(m).(c := c, g := OnTheWay(m).g.(lost := lost, doubled := doubled))
  }

  /** Two more steps. */
  lemma Extend2(l: Local, ops: seq<Op>, l': Local, a: Op, b: Op) returns (more: seq<Op>)
    requires CanAll(l, ops) && DoAll(l, ops) == l' && Can(l', a) && Can(Do(l', a), b)
    ensures CanAll(l, more) && DoAll(l, more) == Do(Do(l', a), b)
  {
    hide CanAll, DoAll, Can, Do;
    Extend(l, ops, l', a);
    Extend(l, ops + [a], Do(l', a), b);
    more := ops + [a] + [b];
  }

  /** A run that ends in l, and what is counted there. */
  lemma EndOfRun(m: Smi, ops: seq<Op>, c: Client, lost: seq<Smi>, doubled: seq<Smi>) returns (acts: seq<Action>)
    requires CanAll(START, ops) && DoAll(START, ops) == Ended(m, c, lost, doubled)
    ensures Init(Solo(START)) && Runs(Solo(START), acts)
    ensures var t := After(Solo(START), acts);
            && Count(t.g.accepted, m.sn) == 1 && Copies(t, m.sn) == InClient(c, m.sn)
            && t.g.lost == lost && t.g.doubled == doubled
  {
    hide CanAll, DoAll, Runs, After, Copies, InClient;
    SoloStarts();
    SoloRun(ops, Ended(m, c, lost, doubled));
    acts := By(0, ops);
    CopiesOf(Ended(m, c, lost, doubled), m.sn);
    CountOne(m, m.sn);
    PushNone(m.sn);
  }

  lemma Alone(c: Client, sn: u32)
    requires c.hold == [] && c.ackTimeout == []
    ensures InClient(c, sn) == Count(c.waiting, sn) + InReceiver(c.recv, sn) + InSlot(c, sn)
    ensures Count([], sn) == 0
  {
  }

  /** The write fails, the bind after it is not answered, and the slot is declared anew. */
  lemma PendingIsLost(m: Smi) returns (acts: seq<Action>)
    requires m.content != []
    ensures Init(Solo(START)) && Runs(Solo(START), acts)
    ensures var t := After(Solo(START), acts);
            Count(t.g.accepted, m.sn) == 1 && Copies(t, m.sn) == 0 && t.g.lost == [Stamped(m)]
  {
    hide CanAll, DoAll, Runs, After, Copies, InClient;
    OnlyOne(Stamped(m));
    var ops := ToWrite(m);
    ops := Extend2(START, ops, OnTheWay(m), Write(false), BindTimeout);
    var c := OnTheWay(m).c.(phase := Unbound, slot := NO_SMI, waiting := []);
    assert [] + [Stamped(m)] == [Stamped(m)];
    acts := EndOfRun(m, ops, c, [Stamped(m)], []);
    Alone(c, m.sn);
  }

  /** A write that fails is not tried again when the content is empty. */
  lemma EmptyIsNotRetried(m: Smi) returns (acts: seq<Action>)
    requires m.content == []
    ensures Init(Solo(START)) && Runs(Solo(START), acts)
    ensures var t := After(Solo(START), acts);
            Count(t.g.accepted, m.sn) == 1 && Copies(t, m.sn) == 0 && t.g.lost == [Stamped(m)]
  {
    hide CanAll, DoAll, Runs, After, Copies, InClient;
    OnlyOne(Stamped(m));
    var ops := ToWrite(m);
    Extend(START, ops, OnTheWay(m), Write(false));
    ops := ops + [Write(false)];
    var c := OnTheWay(m).c.(phase := Unbound, waiting := []);
    assert [] + [Stamped(m)] == [Stamped(m)];
    acts := EndOfRun(m, ops, c, [Stamped(m)], []);
    Alone(c, m.sn);
  }

  /** The answer comes before the write is reported as failed: the answered message is sent again. */
  lemma AnsweredIsDoubled(m: Smi) returns (acts: seq<Action>)
    requires m.content != []
    ensures Init(Solo(START)) && Runs(Solo(START), acts)
    ensures var t := After(Solo(START), acts);
            Count(t.g.accepted, m.sn) == 1 && Copies(t, m.sn) == 2 && t.g.doubled == [Stamped(m)]
  {
    hide CanAll, DoAll, Runs, After, Copies, InClient;
    OnlyOne(Stamped(m));
    var ops := ToWrite(m);
    ops := Extend2(START, ops, OnTheWay(m), AckLook(m.sn), Write(false));
    var c := OnTheWay(m).c.(phase := Unbound, waiting := [], recv := Got(Stamped(m)));
    assert [] + [Stamped(m)] == [Stamped(m)];
    acts := EndOfRun(m, ops, c, [], [Stamped(m)]);
    Alone(c, m.sn);
  }

  /** stop_all drops a client whose message has not been answered. */
  lemma UnansweredIsDropped(m: Smi) returns (acts: seq<Action>)
    ensures Init(Solo(START)) && Runs(Solo(START), acts)
    ensures var t := After(Solo(START), acts);
            Count(t.g.accepted, m.sn) == 1 && Copies(t, m.sn) == 0 && t.g.lost == [Stamped(m)]
  {
    hide CanAll, DoAll, Runs, After, Copies, InClient;
    var ops := ToWrite(m);
    Extend(START, ops, OnTheWay(m), Write(true));
    var l := Do(OnTheWay(m), Write(true));
    ops := Extend2(START, ops + [Write(true)], l, Stop, Destroy);
    var c := OnTheWay(m).c.(phase := Stopped, slot := NO_SMI, waiting := []);
    assert [] + ([Stamped(m)] + []) == [Stamped(m)];
    acts := EndOfRun(m, ops, c, [Stamped(m)], []);
    Alone(c, m.sn);
  }
}
