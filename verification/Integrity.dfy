/** What is under way, handed out or drained is what was accepted: nothing rewrites a message. */
module Integrity {
  import opened Bytes
  import opened Messages
  import opened Pipeline
  import opened Conservation

  /** The part of a message that its sender gave. */
  datatype Core = Core(sn: u32, content: seq<u8>, total: u8, index: u8)

  function CoreOf(m: Smi): Core {
    Core(m.sn, m.content, m.total, m.index)
  }

  ghost function Cores(list: seq<Smi>): set<Core> {
    set m | m in list :: CoreOf(m)
  }

  lemma CoresAppend(a: seq<Smi>, b: seq<Smi>)
    ensures Cores(a + b) == Cores(a) + Cores(b)
  {
    assert forall m :: m in a + b <==> m in a || m in b;
  }

  lemma CoresOne(m: Smi)
    ensures Cores([m]) == {CoreOf(m)}
  {
  }

  lemma CoresIn(list: seq<Smi>, i: nat)
    requires i < |list|
    ensures CoreOf(list[i]) in Cores(list) && Cores(Erase(list, i)) <= Cores(list)
  {
    assert list[i] in list;
    assert forall m :: m in Erase(list, i) ==> m in list;
  }

  lemma CoresPart(list: seq<Smi>, n: nat)
    requires n <= |list|
    ensures Cores(list[..n]) <= Cores(list) && Cores(list[n..]) <= Cores(list)
  {
    CoresAppend(list[..n], list[n..]);
    assert list == list[..n] + list[n..];
  }

  lemma NoCores()
    ensures Cores([]) == {}
  {
  }

  ghost function ReceiverCores(r: Receiver): set<Core> {
    if r.Got? || r.Matched? then {CoreOf(r.smi)} else {}
  }

  ghost function SlotCores(c: Client): set<Core> {
    if Owns(c) || c.phase.Sent? then {CoreOf(c.slot)} else {}
  }

  ghost function ClientCores(c: Client): set<Core> {
    Cores(c.waiting) + Cores(c.ackTimeout) + Cores(c.hold) + ReceiverCores(c.recv) + SlotCores(c)
  }

  ghost function SourceCores(d: Source): set<Core> {
    Cores(d.toSubmit) + Cores(d.delivering) + Cores(d.delivered)
  }

  ghost predicate Genuine(l: Local) {
    ClientCores(l.c) + SourceCores(l.d) + Cores(l.g.pulled) + Cores(l.g.drained) <= Cores(l.g.accepted)
  }

  lemma ApiGenuine(l: Local, op: Op)
    requires Can(l, op) && Genuine(l)
    requires op.Tick? || op.Accept? || op.Reject? || op.Drain? || op.Pull? || op.MoArrives? || op.PullMos?
    ensures Genuine(Do(l, op))
  {
    hide Cores, CoreOf, Taken;
    match op
    case Accept(smis) =>
      CoresAppend(l.d.toSubmit, smis);
      CoresAppend(l.g.accepted, smis);
    case Reject(m) =>
      CoresAppend(l.d.delivered, [m]);
      CoresAppend(l.g.accepted, [m]);
    case Drain =>
      CoresAppend(l.g.drained, l.d.toSubmit);
      NoCores();
    case Pull(toGet) =>
      var n := Taken(|l.d.delivered|, toGet);
      CoresPart(l.d.delivered, n);
      CoresAppend(l.g.pulled, l.d.delivered[..n]);
    case _ =>
  }

  lemma SweepGenuine(l: Local)
    requires Can(l, Sweep) && Genuine(l) && Sound(l.c)
    ensures Genuine(Do(l, Sweep))
  {
    hide Cores, CoreOf, Expired;
    var pos := l.c.phase.pos;
    NoCores();
    if l.c.hold != [] {
      assert l.c.hold == [l.c.hold[0]] && l.c.hold[1..] == [];
      CoresAppend(l.d.delivered, l.c.hold);
      CoresAppend(l.c.ackTimeout, l.c.hold);
    } else if l.c.phase.DlrSweep? && pos < |l.d.delivering| {
      CoresIn(l.d.delivering, pos);
      CoresOne(l.d.delivering[pos]);
    } else if l.c.phase.WaitSweep? && pos < |l.c.waiting| {
      CoresIn(l.c.waiting, pos);
      CoresOne(l.c.waiting[pos]);
    } else if l.c.phase.TimeoutSweep? && pos < |l.c.ackTimeout| {
      CoresIn(l.c.ackTimeout, pos);
      CoresOne(l.c.ackTimeout[pos]);
    }
  }

  lemma SubmitGenuine(l: Local, op: Op)
    requires Can(l, op) && Genuine(l) && (op.Get? || op.Encode? || op.Write?)
    ensures Genuine(Do(l, op))
  {
    hide Cores;
    match op
    case Get =>
      if l.d.toSubmit != [] {
        CoresIn(l.d.toSubmit, 0);
        CoresPart(l.d.toSubmit, 1);
      }
    case Encode(_) =>
      CoresAppend(l.c.waiting, [l.c.slot.(submitTime := l.g.clock)]);
      CoresOne(l.c.slot.(submitTime := l.g.clock));
    case Write(_) =>
      var i := FindSn(l.c.waiting, l.c.slot.sn);
      if i < |l.c.waiting| {
        CoresIn(l.c.waiting, i);
      }
    case _ =>
  }

  lemma ReceiverGenuine(l: Local, op: Op)
    requires Can(l, op) && Genuine(l) && (op.AckLook? || op.AckLookAgain? || op.AckPut?)
    ensures Genuine(Do(l, op))
  {
    hide Cores;
    match op
    case AckLook(sn) =>
      var i := FindSn(l.c.waiting, sn);
      if i < |l.c.waiting| {
        CoresIn(l.c.waiting, i);
      }
    case AckLookAgain =>
      var i := FindSn(l.c.ackTimeout, l.c.recv.sn);
      if i < |l.c.ackTimeout| {
        CoresIn(l.c.ackTimeout, i);
      }
    case AckPut(_, id) =>
      var m := l.c.recv.smi.(messageId := id);
      var m' := m.(deliveringTime := l.g.clock);
      CoresOne(m);
      CoresOne(m');
      CoresAppend(l.d.delivered, [m]);
      CoresAppend(l.d.delivering, [m']);
    case _ =>
  }

  lemma DlrGenuine(l: Local, op: Op)
    requires Can(l, op) && Genuine(l) && (op.DlrTake? || op.DlrPut?)
    ensures Genuine(Do(l, op))
  {
    hide Cores;
    match op
    case DlrTake(id) =>
      var i := FindId(l.d.delivering, id);
      if i < |l.d.delivering| {
        CoresIn(l.d.delivering, i);
      }
    case DlrPut =>
      CoresOne(l.c.recv.smi);
      CoresAppend(l.d.delivered, [l.c.recv.smi]);
    case _ =>
  }

  lemma OtherGenuine(l: Local, op: Op)
    requires Can(l, op) && Genuine(l)
    requires op.Bind? || op.BindTimeout? || op.Stop? || op.Destroy? || op.Reconnect? || op.StartSweeps? || op.NotAble? || op.Resend? || op.Check?
    ensures Genuine(Do(l, op))
  {
    hide Cores;
    NoCores();
  }

  lemma GenuineKept(l: Local, op: Op)
    requires Can(l, op) && Genuine(l) && Sound(l.c)
    ensures Genuine(Do(l, op))
  {
    hide Genuine, Do, Can;
    if op.Tick? || op.Accept? || op.Reject? || op.Drain? || op.Pull? || op.MoArrives? || op.PullMos? {
      ApiGenuine(l, op);
    } else if op.Sweep? {
      SweepGenuine(l);
    } else if op.Get? || op.Encode? || op.Write? {
      SubmitGenuine(l, op);
    } else if op.AckLook? || op.AckLookAgain? || op.AckPut? {
      ReceiverGenuine(l, op);
    } else if op.DlrTake? || op.DlrPut? {
      DlrGenuine(l, op);
    } else {
      OtherGenuine(l, op);
    }
  }

  lemma AcceptedGrows(l: Local, op: Op)
    requires Can(l, op)
    ensures Cores(l.g.accepted) <= Cores(Do(l, op).g.accepted)
  {
    hide Cores, FindSn, FindId, Expired, Taken, Erase;
    if op.Accept? {
      CoresAppend(l.g.accepted, op.smis);
    } else if op.Reject? {
      CoresAppend(l.g.accepted, [op.smi]);
    }
  }

  ghost predicate AllGenuine(s: State) {
    WellTyped(s) && forall i :: 0 <= i < |s.clients| ==> Genuine(At(s, i)) && Sound(s.clients[i])
  }

  lemma Mixing(l: Local, m: Local)
    requires Genuine(l) && Genuine(m) && Cores(l.g.accepted) <= Cores(m.g.accepted)
    ensures Genuine(Local(l.c, l.d, m.g)) && Genuine(Local(l.c, m.d, m.g))
  {
    hide Cores, ClientCores, SourceCores;
  }

  lemma StepGenuine(s: State, i: nat, op: Op)
    requires Enabled(s, i, op) && AllGenuine(s)
    ensures AllGenuine(Next(s, i, op))
  {
    hide Do, Can, Genuine, Sound;
    var l := At(s, i);
    GenuineKept(l, op);
    SoundKept(l, op);
    SourceKept(l, op);
    AcceptedGrows(l, op);
    StaysWellTyped(s, i, op);
    var t := Next(s, i, op);
    forall k | 0 <= k < |t.clients|
      ensures Genuine(At(t, k)) && Sound(t.clients[k])
    {
      Mixing(At(s, k), Do(l, op));
    }
  }

  lemma {:induction false} RunGenuine(s: State, acts: seq<Action>)
    requires Runs(s, acts) && AllGenuine(s)
    ensures AllGenuine(After(s, acts))
    decreases |acts|
  {
    hide Next, Enabled, AllGenuine;
    if acts != [] {
      StepGenuine(s, acts[0].client, acts[0].op);
      RunGenuine(Next(s, acts[0].client, acts[0].op), acts[1..]);
    }
  }

  /**
   In every reachable state, each message a source or client holds, and each status handed
   out, has the number, content and part fields of an accepted message.
   */
  lemma NothingRewritten(s: State, acts: seq<Action>, i: nat)
    requires Init(s) && Runs(s, acts) && i < |After(s, acts).clients|
    ensures WellTyped(After(s, acts)) && Genuine(At(After(s, acts), i))
    ensures Cores(After(s, acts).g.pulled) <= Cores(After(s, acts).g.accepted)
  {
    hide Runs, After;
    NoCores();
    assert AllGenuine(s);
    RunGenuine(s, acts);
    assert Genuine(At(After(s, acts), i));
  }
}
