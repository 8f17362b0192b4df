/**
 The two lists of unanswered messages under the race between the worker's sweeps and the
 receiver's two lookups, each list behind its own lock.
 */
module AckRaces {
  import opened Bytes
  import opened Messages
  import opened Pipeline
  import opened Conservation

  /** Messages that were written and not answered, the one between the two lists included. */
  function InFlight(c: Client, sn: u32): nat {
    Count(c.waiting, sn) + Count(c.ackTimeout, sn) + if c.phase.WaitSweep? then Count(c.hold, sn) else 0
  }

  // ---- Times lie behind the clock ----

  predicate NotAhead(list: seq<Smi>, clock: nat) {
    forall i :: 0 <= i < |list| ==> list[i].submitTime <= clock
  }

  /** Whatever is unanswered was submitted at some time before. */
  predicate Timed(c: Client, clock: nat) {
    && clock < 0x8000_0000
    && NotAhead(c.waiting, clock) && NotAhead(c.ackTimeout, clock)
    && (c.phase.WaitSweep? ==> NotAhead(c.hold, clock))
  }

  lemma TimedKept(l: Local, op: Op)
    requires Can(l, op) && Timed(l.c, l.g.clock)
    ensures Timed(Do(l, op).c, Do(l, op).g.clock) && l.g.clock <= Do(l, op).g.clock
  {
    hide FindSn, FindId, Taken, Expired, Erase;
    ErasedNotAhead(l.c.waiting, l.g.clock);
    ErasedNotAhead(l.c.ackTimeout, l.g.clock);
  }

  lemma ErasedNotAhead(list: seq<Smi>, clock: nat)
    ensures forall i: nat :: i < |list| && NotAhead(list, clock) ==> NotAhead(Erase(list, i), clock)
  {
  }

  ghost predicate AllTimed(s: State) {
    WellTyped(s) && s.g.clock < 0x8000_0000 && forall i :: 0 <= i < |s.clients| ==> Timed(s.clients[i], s.g.clock)
  }

  lemma StepTimed(s: State, i: nat, op: Op)
    requires Enabled(s, i, op) && AllTimed(s)
    ensures AllTimed(Next(s, i, op))
  {
    hide Do, Can;
    StaysWellTyped(s, i, op);
    TimedKept(At(s, i), op);
  }

  lemma {:induction false} RunTimed(s: State, acts: seq<Action>)
    requires Runs(s, acts) && AllTimed(s)
    ensures AllTimed(After(s, acts))
    decreases |acts|
  {
    hide Next, Enabled, AllTimed;
    if acts != [] {
      StepTimed(s, acts[0].client, acts[0].op);
      RunTimed(Next(s, acts[0].client, acts[0].op), acts[1..]);
    }
  }

  // ---- An answer finds its message ----

  /** The first lookup finds the message, or leaves it in the other list. */
  lemma FirstLook(l: Local, sn: u32)
    requires Can(l, AckLook(sn)) && InFlight(l.c, sn) > 0
    ensures var c := Do(l, AckLook(sn)).c;
            (c.recv.Got? && c.recv.smi.sn == sn) || (c.recv == Missed(sn, true, false) && Count(c.ackTimeout, sn) > 0)
  {
    FoundIffCounted(l.c.waiting, sn);
    FoundIffCounted(l.c.ackTimeout, sn);
  }

  /** What was in the other list stays there until the second lookup, unless it expired. */
  predicate StillThere(c: Client) {
    c.recv.Missed? && c.recv.there && !c.recv.gone ==> Count(c.ackTimeout, c.recv.sn) > 0
  }

  lemma StillThereKept(l: Local, op: Op)
    requires Can(l, op) && StillThere(l.c)
    ensures StillThere(Do(l, op).c)
  {
    hide Count, FindId, Taken, Erase, Expired;
    match op
    case Sweep =>
      if l.c.phase.WaitSweep? && l.c.hold != [] && l.c.recv.Missed? {
        CountPush(l.c.ackTimeout, l.c.hold[0], l.c.recv.sn);
      } else if l.c.phase.TimeoutSweep? && l.c.recv.Missed? && l.c.phase.pos < |l.c.ackTimeout| {
        CountErase(l.c.ackTimeout, l.c.phase.pos, l.c.recv.sn);
      }
    case AckLook(sn) =>
      FoundIffCounted(l.c.ackTimeout, sn);
    case _ =>
  }

  /** Only the receiver moves on from a miss, and the one step that marks the message as expired is such a sweep. */
  lemma MissStays(l: Local, op: Op)
    requires Can(l, op) && l.c.recv.Missed? && op != AckLookAgain && Timed(l.c, l.g.clock)
    ensures Do(l, op).c.recv
         == if op == Sweep && ExpiredNow(l, l.c.recv.sn) then l.c.recv.(gone := true) else l.c.recv
  {
    hide FindSn, FindId, Taken, Erase, Expired;
    var pos := if l.c.phase.TimeoutSweep? then l.c.phase.pos else 0;
    if pos < |l.c.ackTimeout| {
      ExpiredIff(l.g.clock, l.c.ackTimeout[pos].submitTime, l.c.ackLimit * 5);
    }
  }

  /** The sweep is about to fail a message with this number, more than five times the limit old. */
  predicate ExpiredNow(l: Local, sn: u32) {
    && l.c.phase.TimeoutSweep? && l.c.hold == [] && l.c.phase.pos < |l.c.ackTimeout|
    && l.c.ackTimeout[l.c.phase.pos].sn == sn
    && l.g.clock - l.c.ackTimeout[l.c.phase.pos].submitTime > 5 * l.c.ackLimit
  }

  /** Some step of the run is the timeout sweep of client i failing a message with this number. */
  predicate ExpiresIn(s: State, i: nat, sn: u32, acts: seq<Action>)
    requires WellTyped(s) && i < |s.clients| && Runs(s, acts)
    decreases |acts|
  {
    acts != [] &&
    ((acts[0] == Action(i, Sweep) && ExpiredNow(At(s, i), sn)) ||
     (StaysWellTyped(s, acts[0].client, acts[0].op);
      ExpiresIn(Next(s, acts[0].client, acts[0].op), i, sn, acts[1..])))
  }

  predicate LeavesMiss(i: nat, acts: seq<Action>) {
    forall k :: 0 <= k < |acts| ==> acts[k] != Action(i, AckLookAgain)
  }

  lemma {:induction false} MissOverRun(s: State, i: nat, acts: seq<Action>)
    requires AllTimed(s) && i < |s.clients| && Runs(s, acts) && LeavesMiss(i, acts)
    requires s.clients[i].recv.Missed? && StillThere(s.clients[i])
    ensures i < |After(s, acts).clients|
    ensures var c := After(s, acts).clients[i];
            && c.recv.Missed? && c.recv.sn == s.clients[i].recv.sn && c.recv.there == s.clients[i].recv.there
            && (c.recv.gone <==> s.clients[i].recv.gone || ExpiresIn(s, i, c.recv.sn, acts))
            && StillThere(c)
    decreases |acts|
  {
    hide Do, Can;
    if acts != [] {
      var k, op := acts[0].client, acts[0].op;
      StepTimed(s, k, op);
      if k == i {
        assert acts[0] != Action(i, AckLookAgain);
        StillThereKept(At(s, i), op);
        MissStays(At(s, i), op);
      }
      MissOverRun(Next(s, k, op), i, acts[1..]);
    }
  }

  /**
   In every reachable state an answer to a message in flight finds it: in the waiting-ack
   list, or, whatever the other threads do between the two lookups, in the ack-timeout list,
   unless one of the steps in between is this client's timeout sweep failing it, when more
   than five times the limit has passed since it was submitted.
   */
  lemma AckFinds(s0: State, past: seq<Action>, i: nat, sn: u32, acts: seq<Action>)
    requires Init(s0) && Runs(s0, past) && Enabled(After(s0, past), i, AckLook(sn))
    requires InFlight(After(s0, past).clients[i], sn) > 0
    requires var s1 := Next(After(s0, past), i, AckLook(sn)); Runs(s1, acts) && LeavesMiss(i, acts)
    ensures WellTyped(Next(After(s0, past), i, AckLook(sn)))
    ensures var s1 := Next(After(s0, past), i, AckLook(sn));
            (s1.clients[i].recv.Got? && s1.clients[i].recv.smi.sn == sn) ||
            (s1.clients[i].recv.Missed? && FindsAgain(s1, i, sn, acts))
  {
    hide Runs, After, Count, ExpiresIn, Timed;
    assert AllTimed(s0) by {
      TimedAtFirst(s0);
    }
    RunTimed(s0, past);
    var s := After(s0, past);
    FirstLook(At(s, i), sn);
    StepTimed(s, i, AckLook(sn));
    var s1 := Next(s, i, AckLook(sn));
    if s1.clients[i].recv.Missed? {
      MissOverRun(s1, i, acts);
      var c := After(s1, acts).clients[i];
      FoundIffCounted(c.ackTimeout, sn);
    }
  }

  /** After these steps the receiver is still looking for the number, and its second lookup finds it, if it had not expired. */
  ghost predicate FindsAgain(s: State, i: nat, sn: u32, acts: seq<Action>)
    requires WellTyped(s) && i < |s.clients| && Runs(s, acts)
  {
    var t := After(s, acts);
    && i < |t.clients| && t.clients[i].recv.Missed? && t.clients[i].recv.sn == sn
    && (!ExpiresIn(s, i, sn, acts) && Enabled(t, i, AckLookAgain) ==>
          var r := Next(t, i, AckLookAgain).clients[i].recv; r.Got? && r.smi.sn == sn)
  }

  lemma TimedAtFirst(s: State)
    requires Init(s)
    ensures AllTimed(s)
  {
  }

  // ---- What a round of sweeps leaves behind ----

  predicate Young(list: seq<Smi>, n: nat, start: nat, limit: nat)
    requires n <= |list|
  {
    forall k :: 0 <= k < n ==> start - list[k].submitTime <= limit
  }

  /** start is when the round of sweeps began. */
  predicate Swept(c: Client) {
    && (c.phase.WaitSweep? ==> c.phase.pos <= |c.waiting| && Young(c.waiting, c.phase.pos, c.start, c.ackLimit))
    && (c.phase.TimeoutSweep? ==> c.phase.pos <= |c.ackTimeout| && Young(c.ackTimeout, c.phase.pos, c.start, 5 * c.ackLimit)
                                  && Young(c.waiting, |c.waiting|, c.start, c.ackLimit))
    && (c.phase == Ready || c.phase.Checked? ==> AllYoung(c))
  }

  predicate AllYoung(c: Client) {
    Young(c.waiting, |c.waiting|, c.start, c.ackLimit) && Young(c.ackTimeout, |c.ackTimeout|, c.start, 5 * c.ackLimit)
  }

  predicate Timely(l: Local) {
    l.g.clock < 0x8000_0000 && l.c.start <= l.g.clock
  }

  lemma NotExpired(now: nat, since: nat, start: nat, limit: nat)
    requires start <= now < 0x8000_0000 && !Expired(now, since, limit)
    ensures start - since <= limit
  {
    if since <= now {
      assert Int32(now - since) == now - since;
    }
  }

  lemma YoungErase(list: seq<Smi>, i: nat, start: nat, limit: nat)
    requires i < |list| && Young(list, |list|, start, limit)
    ensures Young(Erase(list, i), |list| - 1, start, limit)
  {
  }

  lemma YoungEraseAt(list: seq<Smi>, i: nat, start: nat, limit: nat)
    requires i < |list| && Young(list, i, start, limit)
    ensures Young(Erase(list, i), i, start, limit)
  {
  }

  lemma SweptKept(l: Local, op: Op)
    requires Can(l, op) && Swept(l.c) && Timely(l)
    ensures Swept(Do(l, op).c) && Timely(Do(l, op))
  {
    if op == Sweep {
      SweepSwept(l);
    } else if op.AckLook? {
      LookSwept(l, op.ackSn);
    } else if op == AckLookAgain {
      LookAgainSwept(l);
    } else {
      OtherSwept(l, op);
    }
  }

  lemma LookSwept(l: Local, sn: u32)
    requires Can(l, AckLook(sn)) && Swept(l.c) && Timely(l)
    ensures Swept(DoAckLook(l, sn).c) && Timely(DoAckLook(l, sn))
  {
    hide Erase, Young;
    var i := FindSn(l.c.waiting, sn);
    if i < |l.c.waiting| && Young(l.c.waiting, |l.c.waiting|, l.c.start, l.c.ackLimit) {
      YoungErase(l.c.waiting, i, l.c.start, l.c.ackLimit);
    }
  }

  lemma LookAgainSwept(l: Local)
    requires Can(l, AckLookAgain) && Swept(l.c) && Timely(l)
    ensures Swept(DoAckLookAgain(l).c) && Timely(DoAckLookAgain(l))
  {
    hide Erase, Young;
    var i := FindSn(l.c.ackTimeout, l.c.recv.sn);
    if i < |l.c.ackTimeout| && Young(l.c.ackTimeout, |l.c.ackTimeout|, l.c.start, 5 * l.c.ackLimit) {
      YoungErase(l.c.ackTimeout, i, l.c.start, 5 * l.c.ackLimit);
    }
  }

  lemma SweepSwept(l: Local)
    requires Can(l, Sweep) && Swept(l.c) && Timely(l)
    ensures Swept(Do(l, Sweep).c) && Timely(Do(l, Sweep))
  {
    if l.c.phase.DlrSweep? {
      hide Expired, Erase;
    } else {
      WaitOrTimeoutSwept(l);
    }
  }

  lemma WaitOrTimeoutSwept(l: Local)
    requires (l.c.phase.WaitSweep? || l.c.phase.TimeoutSweep?) && Swept(l.c) && Timely(l)
    ensures Swept(Do(l, Sweep).c) && Timely(Do(l, Sweep))
  {
    hide Expired, Erase;
    var pos := l.c.phase.pos;
    if l.c.phase.WaitSweep? && pos < |l.c.waiting| {
      YoungEraseAt(l.c.waiting, pos, l.c.start, l.c.ackLimit);
      if !Expired(l.g.clock, l.c.waiting[pos].submitTime, l.c.ackLimit) {
        NotExpired(l.g.clock, l.c.waiting[pos].submitTime, l.c.start, l.c.ackLimit);
      }
    } else if l.c.phase.TimeoutSweep? && pos < |l.c.ackTimeout| {
      YoungEraseAt(l.c.ackTimeout, pos, l.c.start, 5 * l.c.ackLimit);
      if !Expired(l.g.clock, l.c.ackTimeout[pos].submitTime, l.c.ackLimit * 5) {
        NotExpired(l.g.clock, l.c.ackTimeout[pos].submitTime, l.c.start, 5 * l.c.ackLimit);
      }
    }
  }

  lemma OtherSwept(l: Local, op: Op)
    requires Can(l, op) && Swept(l.c) && Timely(l)
    requires op != Sweep && !op.AckLook? && op != AckLookAgain
    ensures Swept(Do(l, op).c) && Timely(Do(l, op))
  {
    hide FindSn, FindId, Expired, Taken, Erase, Young;
  }

  ghost predicate AllSwept(s: State) {
    WellTyped(s) && forall i :: 0 <= i < |s.clients| ==> Swept(s.clients[i]) && Timely(At(s, i))
  }

  lemma StepSwept(s: State, i: nat, op: Op)
    requires Enabled(s, i, op) && AllSwept(s)
    ensures AllSwept(Next(s, i, op))
  {
    hide Do, Can, Swept;
    StaysWellTyped(s, i, op);
    SweptKept(At(s, i), op);
    ClockRuns(At(s, i), op);
  }

  lemma ClockRuns(l: Local, op: Op)
    requires Can(l, op)
    ensures l.g.clock <= Do(l, op).g.clock
  {
    hide FindSn, FindId, Expired, Taken, Erase;
  }

  lemma {:induction false} RunSwept(s: State, acts: seq<Action>)
    requires Runs(s, acts) && AllSwept(s)
    ensures AllSwept(After(s, acts))
    decreases |acts|
  {
    hide Next, Enabled, AllSwept;
    if acts != [] {
      StepSwept(s, acts[0].client, acts[0].op);
      RunSwept(Next(s, acts[0].client, acts[0].op), acts[1..]);
    }
  }

  /**
   In every reachable state where a client's worker is through its sweeps, nothing in its
   waiting-ack list was older than the limit when they began, and nothing in its ack-timeout
   list older than five times that.
   */
  lemma SweepsBound(s: State, acts: seq<Action>, i: nat)
    requires Init(s) && Runs(s, acts) && i < |After(s, acts).clients|
    ensures After(s, acts).clients[i].phase == Ready ==> AllYoung(After(s, acts).clients[i])
  {
    hide Runs, After;
    assert AllSwept(s);
    RunSwept(s, acts);
  }
}
