/**
 The in-flight window: the worker stops at eight unanswered messages, except that it finishes
 a long message it has begun.
 */
module Window {
  import opened Bytes
  import opened Messages
  import opened Pipeline
  import opened Conservation

  /** The part number of a long message, 1 for any other. */
  function Weight(r: Run): nat {
    if r.total > 1 then r.index else 1
  }

  predicate Done(r: Run) {
    r.total <= 1 || r.index == r.total
  }

  function RunOf(m: Smi): Run {
    Run(m.total, m.index)
  }

  /** After a finished message a new one begins; within a long message the next part follows. */
  predicate Follows(prev: Run, m: Smi) {
    if Done(prev) then m.total > 1 ==> m.index == 1
    else m.total == prev.total && m.index == prev.index + 1
  }

  /** The queue goes on where prev ended, part after part, and ends with a whole message. */
  predicate Chain(prev: Run, q: seq<Smi>)
    decreases |q|
  {
    if q == [] then Done(prev) else Follows(prev, q[0]) && Chain(RunOf(q[0]), q[1..])
  }

  lemma {:induction false} ChainAppend(prev: Run, q: seq<Smi>, r: seq<Smi>)
    requires Chain(prev, q) && Chain(Run(0, 0), r)
    ensures Chain(prev, q + r)
    decreases |q|
  {
    if q == [] {
      assert q + r == r;
    } else {
      assert (q + r)[1..] == q[1..] + r;
      ChainAppend(RunOf(q[0]), q[1..], r);
    }
  }

  /** Whatever is appended to an orderly queue must itself be whole messages. */
  lemma {:induction false} ChainAppendIff(prev: Run, q: seq<Smi>, r: seq<Smi>)
    requires Chain(prev, q)
    ensures Chain(prev, q + r) <==> Chain(Run(0, 0), r)
    decreases |q|
  {
    if q == [] {
      assert q + r == r;
    } else {
      assert (q + r)[1..] == q[1..] + r;
      ChainAppendIff(RunOf(q[0]), q[1..], r);
    }
  }

  predicate NoLonger(list: seq<Smi>, n: nat) {
    forall k :: 0 <= k < |list| ==> list[k].total <= n
  }

  /** The queue, and what the slot remembers of the last message taken off it. */
  predicate InOrder(c: Client, d: Source, n: nat) {
    && Chain(c.last, d.toSubmit) && NoLonger(d.toSubmit, n) && c.last.total <= n
    && (c.last.total > 1 ==> 1 <= c.last.index <= c.last.total)
    && (RunOf(c.slot) == c.last || c.slot.total == 0)
    && (Owns(c) || c.phase.Sent? ==> RunOf(c.slot) == c.last)
  }

  /** With part k of a long message out, at most 7 + k; and one less while the slot is still to go. */
  predicate InWindow(c: Client) {
    && |c.waiting| <= 7 + Weight(c.last)
    && (c.phase == Checked(false) ==> |c.waiting| <= 7)
    && (Owns(c) || c.phase == Sent(true) ==> |c.waiting| + 1 <= 7 + Weight(c.last))
    && UnansweredWaits(c)
  }

  /** Long messages are accepted whole, and the queue is not drained in the middle of one. */
  predicate Tame(l: Local, op: Op, n: nat) {
    match op
    case Accept(smis) => Chain(Run(0, 0), smis) && NoLonger(smis, n)
    case Drain => Done(l.c.last)
    case _ => true
  }

  lemma GetInOrder(l: Local, n: nat)
    requires l.c.phase.Checked? && InOrder(l.c, l.d, n) && InWindow(l.c)
    ensures InOrder(DoGet(l).c, DoGet(l).d, n) && InWindow(DoGet(l).c)
  {
    hide Count;
  }

  /**
   The worker with nothing in hand looks at its window and then at the queue: it takes the
   front exactly when there is one and either fewer than eight messages wait for their
   answer or the last message sent was a part with others to follow.
   */
  lemma TakesExactly(l: Local)
    requires Can(l, Check)
    ensures Can(Do(l, Check), Get)
    ensures var r := Do(Do(l, Check), Get);
            && r.c.waiting == l.c.waiting && r.c.ackTimeout == l.c.ackTimeout
            && if l.d.toSubmit != []
                  && (|l.c.waiting| < 8 || (l.c.slot.total > 1 && l.c.slot.total != l.c.slot.index))
               then r.c.phase == InHand && [r.c.slot] + r.d.toSubmit == l.d.toSubmit
               else r.c.phase == Top && r.c.slot == l.c.slot && r.d == l.d
  {
  }

  lemma AcceptInOrder(l: Local, smis: seq<Smi>, n: nat)
    requires InOrder(l.c, l.d, n) && Tame(l, Accept(smis), n)
    ensures InOrder(l.c, DoAccept(l, smis).d, n)
  {
    ChainAppend(l.c.last, l.d.toSubmit, smis);
  }

  lemma InOrderKept(l: Local, op: Op, n: nat)
    requires Can(l, op) && Tame(l, op, n) && InOrder(l.c, l.d, n) && InWindow(l.c)
    ensures InOrder(Do(l, op).c, Do(l, op).d, n)
  {
    hide InWindow;
    if op == Get {
      GetInOrder(l, n);
    } else if op.Accept? {
      AcceptInOrder(l, op.smis, n);
    } else {
      OtherInOrder(l, op, n);
    }
  }

  lemma OtherInOrder(l: Local, op: Op, n: nat)
    requires Can(l, op) && Tame(l, op, n) && InOrder(l.c, l.d, n) && op != Get && !op.Accept?
    ensures InOrder(Do(l, op).c, Do(l, op).d, n)
  {
    hide FindSn, FindId, Expired, Taken, Erase, Expire;
    if op == Drain {
      assert Chain(l.c.last, []);
    } else {
      hide Chain, NoLonger;
    }
  }

  /** Order is kept exactly by tame steps: a drain or an addition that is not tame breaks it at once. */
  lemma OrderKeptExactly(l: Local, op: Op, n: nat)
    requires Can(l, op) && InOrder(l.c, l.d, n) && InWindow(l.c)
    ensures InOrder(Do(l, op).c, Do(l, op).d, n) <==> Tame(l, op, n)
  {
    hide InWindow;
    if Tame(l, op, n) {
      InOrderKept(l, op, n);
    } else if op.Accept? {
      hide Chain;
      ChainAppendIff(l.c.last, l.d.toSubmit, op.smis);
      NoLongerPart(l.d.toSubmit, op.smis, n);
    } else {
      assert !Chain(l.c.last, []);
    }
  }

  lemma NoLongerPart(q: seq<Smi>, r: seq<Smi>, n: nat)
    ensures NoLonger(q + r, n) ==> NoLonger(r, n)
  {
    if NoLonger(q + r, n) {
      forall k | 0 <= k < |r|
        ensures r[k].total <= n
      {
        assert (q + r)[|q| + k] == r[k];
      }
    }
  }

  lemma InWindowKept(l: Local, op: Op, n: nat)
    requires Can(l, op) && InOrder(l.c, l.d, n) && InWindow(l.c)
    ensures InWindow(Do(l, op).c)
  {
    hide InOrder, Weight;
    UnansweredKept(l, op);
    if op == Get {
      GetInOrder(l, n);
    } else if op.Write? {
      WriteInWindow(l, op.written);
    } else {
      hide FindSn, FindId, Expired, Taken, Erase, Count;
    }
  }

  lemma WriteInWindow(l: Local, written: bool)
    requires l.c.phase.Sent? && InWindow(l.c)
    ensures InWindow(DoWrite(l, written).c)
  {
    hide Count, Erase, Weight;
    FoundIffCounted(l.c.waiting, l.c.slot.sn);
  }

  // ---- Runs ----

  /** No other client works on client i's source. */
  predicate Dedicated(s: State, i: nat) {
    && WellTyped(s) && i < |s.clients|
    && forall k :: 0 <= k < |s.clients| && k != i ==> s.clients[k].source != s.clients[i].source
  }

  ghost predicate TameRun(s: State, acts: seq<Action>, i: nat, n: nat)
    requires Runs(s, acts)
    decreases |acts|
  {
    acts == [] || ((acts[0].client == i ==> Tame(At(s, i), acts[0].op, n))
                   && TameRun(Next(s, acts[0].client, acts[0].op), acts[1..], i, n))
  }

  predicate Windowed(s: State, i: nat, n: nat) {
    Dedicated(s, i) && InOrder(At(s, i).c, At(s, i).d, n) && InWindow(s.clients[i])
  }

  lemma StepWindowed(s: State, k: nat, op: Op, i: nat, n: nat)
    requires Enabled(s, k, op) && Windowed(s, i, n) && (k == i ==> Tame(At(s, i), op, n))
    ensures Windowed(Next(s, k, op), i, n)
  {
    hide Do, Can, InOrder, InWindow, Tame;
    StaysWellTyped(s, k, op);
    SourceKept(At(s, k), op);
    if k == i {
      InOrderKept(At(s, i), op, n);
      InWindowKept(At(s, i), op, n);
    }
  }

  lemma {:induction false} RunWindowed(s: State, acts: seq<Action>, i: nat, n: nat)
    requires Runs(s, acts) && TameRun(s, acts, i, n) && Windowed(s, i, n)
    ensures Windowed(After(s, acts), i, n)
    decreases |acts|
  {
    hide Next, Enabled, Windowed, Tame;
    if acts != [] {
      StepWindowed(s, acts[0].client, acts[0].op, i, n);
      RunWindowed(Next(s, acts[0].client, acts[0].op), acts[1..], i, n);
    }
  }

  /**
   Over all runs, resends and reconnects included, at most 7 + n messages wait for an answer,
   n the parts of the longest message; eight if there are no long ones.
   */
  lemma WindowBound(s: State, acts: seq<Action>, i: nat, n: nat)
    requires Init(s) && Dedicated(s, i) && Runs(s, acts) && TameRun(s, acts, i, n)
    ensures i < |After(s, acts).clients|
    ensures |After(s, acts).clients[i].waiting| <= 7 + if n > 1 then n else 1
  {
    hide Runs, TameRun, After;
    assert NewClient(s.clients[i]) && s.sources[s.clients[i].source] == Source([], [], [], [], false);
    RunWindowed(s, acts, i, n);
  }
}
