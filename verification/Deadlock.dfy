/**
 Lock order. Every scoped_lock of the pipeline opens a block, so a thread's code is a tree of
 locked regions; what is left of it is a list of code still to run and locks still to release.
 Threads run these codes in any interleaving; stop_all joins threads while it holds a lock.
 */
module Deadlock {

  /** c numbers the clients, d the data sources. */
  datatype Lock =
    | Clients
    | Waiting(c: nat) | AckTimeout(c: nat)
    | Registry
    | ToSubmit(d: nat) | Delivering(d: nat) | MoList(d: nat)
    | Delivered(d: nat)
    | Statistic | DlrDb | MoDb
    | Logger

  /** Joining a thread counts as waiting at rank 1. */
  const JOIN_RANK := 1

  function Rank(l: Lock): (r: int)
    ensures 0 <= r <= 8
  {
    match l
    case Clients => 0
    case Waiting(_) => 2
    case AckTimeout(_) => 3
    case Registry => 4
    case ToSubmit(_) => 5
    case Delivering(_) => 5
    case MoList(_) => 5
    case Delivered(_) => 6
    case Statistic => 7
    case DlrDb => 7
    case MoDb => 7
    case Logger => 8
  }

  datatype Code = Skip | Locked(l: Lock, body: Code) | Then(a: Code, b: Code) | Join(thread: nat)

  // ---- The code of each thread, as far as locks go ----

  function Log(): Code {
    Locked(Logger, Skip)
  }

  /** get_instance, then a counter method: the same mutex twice. */
  function Stat(): Code {
    Then(Locked(Statistic, Skip), Locked(Statistic, Skip))
  }

  function GetDataSource(): Code {
    Locked(Registry, Skip)
  }

  function SubmitFailed(d: nat): Code {
    Locked(Delivered(d), Then(Stat(), Log()))
  }

  function Times(k: nat, c: Code): Code {
    if k == 0 then Skip else Then(c, Times(k - 1, c))
  }

  function ForEach(ds: seq<nat>, delivered: bool): Code {
    if ds == [] then Skip
    else Then(Then(GetDataSource(), Locked(if delivered then Delivered(ds[0]) else MoList(ds[0]), Then(Log(), Stat()))),
              ForEach(ds[1..], delivered))
  }

  /** The unbind of stop may log a failure; then the joins. */
  function JoinAll(threads: seq<nat>): Code {
    if threads == [] then Skip else Then(Then(Log(), Then(Join(threads[0]), Log())), JoinAll(threads[1..]))
  }

  /** The destructors of the clients. */
  function DestroyAll(cs: seq<nat>): Code {
    if cs == [] then Skip
    else Then(Then(Locked(Waiting(cs[0]), Skip), Locked(AckTimeout(cs[0]), Skip)), DestroyAll(cs[1..]))
  }

  datatype Kind = Worker(c: nat, d: nat) | Receiver(c: nat, d: nat) | Api

  /** k expired messages, ds the sources of the clients in order, cs the clients that go. */
  datatype Task =
    | SweepDlrs(k: nat) | SweepWaiting(k: nat) | SweepTimeouts(k: nat) | CheckWindow | Fetch | Submit(failed: bool)
    | Answer(success: bool) | Report | MoIn
    | Add | SubmitTo(d: nat) | RejectTo(d: nat, k: nat) | Statuses(ds: seq<nat>) | Mos(ds: seq<nat>)
    | StopAll(threads: seq<nat>, cs: seq<nat>) | QueryDlrs | QueryMos

  function WorkerCode(c: nat, d: nat, task: Task): Code {
    match task
    case SweepDlrs(k) => Then(GetDataSource(), Locked(Delivering(d), Times(k, Then(Log(), SubmitFailed(d)))))
    case SweepWaiting(k) => Locked(Waiting(c), Times(k, Then(Log(), Locked(AckTimeout(c), Skip))))
    case SweepTimeouts(k) => Locked(AckTimeout(c), Times(k, Then(Log(), Then(GetDataSource(), SubmitFailed(d)))))
    case CheckWindow => Locked(Waiting(c), Skip)
    case Fetch => Then(GetDataSource(), Locked(ToSubmit(d), Stat()))
    case Submit(failed) =>
      Then(Then(Locked(Waiting(c), Skip), Log()), if failed then Locked(Waiting(c), Skip) else Skip)
    case _ => Skip
  }

  function ReceiverCode(c: nat, d: nat, task: Task): Code {
    match task
    case Answer(success) =>
      Then(Then(Locked(Waiting(c), Skip), Locked(AckTimeout(c), Log())),
           Then(GetDataSource(), if success then Locked(Delivering(d), Log()) else SubmitFailed(d)))
    case Report =>
      Then(GetDataSource(),
           Locked(Delivering(d), Then(Log(), Then(Locked(Delivered(d), Then(Stat(), Locked(DlrDb, Skip))), Log()))))
    case MoIn => Then(GetDataSource(), Locked(MoList(d), Then(Stat(), Then(Locked(MoDb, Skip), Log()))))
    case _ => Skip
  }

  function ApiCode(task: Task): Code {
    match task
    case Add => Locked(Clients, Then(GetDataSource(), Log()))
    case SubmitTo(d) => Locked(Clients, Then(GetDataSource(), Locked(ToSubmit(d), Stat())))
    case RejectTo(d, k) => Locked(Clients, Times(k, Then(GetDataSource(), SubmitFailed(d))))
    case Statuses(ds) => Locked(Clients, ForEach(ds, true))
    case Mos(ds) => Locked(Clients, ForEach(ds, false))
    case StopAll(threads, cs) => Locked(Clients, Then(JoinAll(threads), DestroyAll(cs)))
    case QueryDlrs => Locked(DlrDb, Skip)
    case QueryMos => Locked(MoDb, Skip)
    case _ => Skip
  }

  function CodeOf(kind: Kind, task: Task): Code {
    match kind
    case Worker(c, d) => WorkerCode(c, d, task)
    case Receiver(c, d) => ReceiverCode(c, d, task)
    case Api => ApiCode(task)
  }

  // ---- Lock order ----

  /** Run by a thread whose locks all rank r or lower, the code takes every lock above what it holds. */
  predicate Safe(r: int, c: Code, kinds: seq<Kind>)
    decreases c
  {
    match c
    case Skip => true
    case Locked(l, body) => r < Rank(l) && Safe(Rank(l), body, kinds)
    case Then(a, b) => Safe(r, a, kinds) && Safe(r, b, kinds)
    case Join(u) => r < JOIN_RANK && u < |kinds| && !kinds[u].Api?
  }

  /** A joined thread must not wait at rank 1 or lower itself. */
  function Base(kind: Kind): int {
    if kind.Api? then -1 else JOIN_RANK
  }

  predicate Allowed(task: Task, kinds: seq<Kind>) {
    task.StopAll? ==> ClientThreads(task.threads, kinds)
  }

  predicate ClientThreads(threads: seq<nat>, kinds: seq<Kind>) {
    forall i :: 0 <= i < |threads| ==> threads[i] < |kinds| && !kinds[threads[i]].Api?
  }

  lemma {:induction false} TimesSafe(k: nat, r: int, c: Code, kinds: seq<Kind>)
    requires Safe(r, c, kinds)
    ensures Safe(r, Times(k, c), kinds)
  {
    if k > 0 {
      TimesSafe(k - 1, r, c, kinds);
    }
  }

  lemma {:induction false} ForEachSafe(ds: seq<nat>, delivered: bool, r: int, kinds: seq<Kind>)
    requires r < 4
    ensures Safe(r, ForEach(ds, delivered), kinds)
  {
    if ds != [] {
      ForEachSafe(ds[1..], delivered, r, kinds);
      var l := if delivered then Delivered(ds[0]) else MoList(ds[0]);
      SmallSafe(Rank(l), 0, kinds);
      assert Safe(Rank(l), Then(Log(), Stat()), kinds);
      assert Safe(r, GetDataSource(), kinds);
      assert Safe(r, Locked(l, Then(Log(), Stat())), kinds);
    }
  }

  lemma {:induction false} JoinAllSafe(threads: seq<nat>, r: int, kinds: seq<Kind>)
    requires r < JOIN_RANK && ClientThreads(threads, kinds)
    ensures Safe(r, JoinAll(threads), kinds)
  {
    if threads != [] {
      JoinAllSafe(threads[1..], r, kinds);
      assert Safe(r, Log(), kinds);
      assert Safe(r, Then(Join(threads[0]), Log()), kinds);
    }
  }

  lemma {:induction false} DestroyAllSafe(cs: seq<nat>, r: int, kinds: seq<Kind>)
    requires r < 2
    ensures Safe(r, DestroyAll(cs), kinds)
  {
    if cs != [] {
      DestroyAllSafe(cs[1..], r, kinds);
      JustLocked(r, Waiting(cs[0]), kinds);
      JustLocked(r, AckTimeout(cs[0]), kinds);
    }
  }

  lemma SmallSafe(r: int, d: nat, kinds: seq<Kind>)
    ensures r < 8 ==> Safe(r, Log(), kinds)
    ensures r < 7 ==> Safe(r, Stat(), kinds)
    ensures r < 6 ==> Safe(r, SubmitFailed(d), kinds)
  {
    assert Safe(6, Locked(Statistic, Skip), kinds) && Safe(6, Log(), kinds);
    assert r < 7 ==> Safe(r, Locked(Statistic, Skip), kinds);
  }

  lemma WorkerSafe(c: nat, d: nat, task: Task, kinds: seq<Kind>)
    ensures Safe(JOIN_RANK, WorkerCode(c, d, task), kinds)
  {
    hide Log, Stat, SubmitFailed, Times;
    match task
    case SweepDlrs(k) =>
      SmallSafe(5, d, kinds);
      TimesSafe(k, 5, Then(Log(), SubmitFailed(d)), kinds);
      assert Safe(JOIN_RANK, GetDataSource(), kinds);
    case SweepWaiting(k) =>
      SmallSafe(2, d, kinds);
      TimesSafe(k, 2, Then(Log(), Locked(AckTimeout(c), Skip)), kinds);
    case SweepTimeouts(k) =>
      SmallSafe(3, d, kinds);
      assert Safe(3, GetDataSource(), kinds);
      assert Safe(3, Then(GetDataSource(), SubmitFailed(d)), kinds);
      TimesSafe(k, 3, Then(Log(), Then(GetDataSource(), SubmitFailed(d))), kinds);
    case Fetch =>
      SmallSafe(5, d, kinds);
    case Submit(failed) =>
      SmallSafe(JOIN_RANK, d, kinds);
      JustLocked(JOIN_RANK, Waiting(c), kinds);
      assert Safe(JOIN_RANK, Then(Locked(Waiting(c), Skip), Log()), kinds);
      assert Safe(JOIN_RANK, if failed then Locked(Waiting(c), Skip) else Skip, kinds);
    case _ =>
  }

  lemma ThenSafe(r: int, a: Code, b: Code, kinds: seq<Kind>)
    requires Safe(r, a, kinds) && Safe(r, b, kinds)
    ensures Safe(r, Then(a, b), kinds)
  {
  }

  lemma LockedSafe(r: int, l: Lock, body: Code, kinds: seq<Kind>)
    requires r < Rank(l) && Safe(Rank(l), body, kinds)
    ensures Safe(r, Locked(l, body), kinds)
  {
  }

  lemma JustLocked(r: int, l: Lock, kinds: seq<Kind>)
    requires r < Rank(l)
    ensures Safe(r, Locked(l, Skip), kinds)
  {
  }

  lemma ReceiverSafe(c: nat, d: nat, task: Task, kinds: seq<Kind>)
    ensures Safe(JOIN_RANK, ReceiverCode(c, d, task), kinds)
  {
    hide Safe, Log, Stat, SubmitFailed;
    SmallSafe(JOIN_RANK, d, kinds);
    SmallSafe(3, d, kinds);
    SmallSafe(5, d, kinds);
    SmallSafe(6, d, kinds);
    JustLocked(JOIN_RANK, Registry, kinds);
    match task
    case Answer(success) =>
      JustLocked(JOIN_RANK, Waiting(c), kinds);
      LockedSafe(JOIN_RANK, AckTimeout(c), Log(), kinds);
      LockedSafe(JOIN_RANK, Delivering(d), Log(), kinds);
      ThenSafe(JOIN_RANK, Locked(Waiting(c), Skip), Locked(AckTimeout(c), Log()), kinds);
      var last := if success then Locked(Delivering(d), Log()) else SubmitFailed(d);
      ThenSafe(JOIN_RANK, GetDataSource(), last, kinds);
      ThenSafe(JOIN_RANK, Then(Locked(Waiting(c), Skip), Locked(AckTimeout(c), Log())), Then(GetDataSource(), last), kinds);
    case Report =>
      JustLocked(6, DlrDb, kinds);
      ThenSafe(6, Stat(), Locked(DlrDb, Skip), kinds);
      var put := Locked(Delivered(d), Then(Stat(), Locked(DlrDb, Skip)));
      LockedSafe(5, Delivered(d), Then(Stat(), Locked(DlrDb, Skip)), kinds);
      ThenSafe(5, put, Log(), kinds);
      ThenSafe(5, Log(), Then(put, Log()), kinds);
      LockedSafe(JOIN_RANK, Delivering(d), Then(Log(), Then(put, Log())), kinds);
      ThenSafe(JOIN_RANK, GetDataSource(), Locked(Delivering(d), Then(Log(), Then(put, Log()))), kinds);
    case MoIn =>
      JustLocked(5, MoDb, kinds);
      ThenSafe(5, Locked(MoDb, Skip), Log(), kinds);
      ThenSafe(5, Stat(), Then(Locked(MoDb, Skip), Log()), kinds);
      LockedSafe(JOIN_RANK, MoList(d), Then(Stat(), Then(Locked(MoDb, Skip), Log())), kinds);
      ThenSafe(JOIN_RANK, GetDataSource(), Locked(MoList(d), Then(Stat(), Then(Locked(MoDb, Skip), Log()))), kinds);
    case _ =>
      SkipSafe(JOIN_RANK, kinds);
  }

  lemma SkipSafe(r: int, kinds: seq<Kind>)
    ensures Safe(r, Skip, kinds)
  {
  }

  lemma ApiSafe(task: Task, kinds: seq<Kind>)
    requires Allowed(task, kinds)
    ensures Safe(-1, ApiCode(task), kinds)
  {
    hide Log, Stat, SubmitFailed, Times, ForEach, JoinAll, DestroyAll;
    assert Safe(0, GetDataSource(), kinds);
    match task
    case Add =>
      SmallSafe(0, 0, kinds);
    case SubmitTo(d) =>
      SmallSafe(5, d, kinds);
      assert Safe(0, Locked(ToSubmit(d), Stat()), kinds);
    case RejectTo(d, k) =>
      SmallSafe(0, d, kinds);
      TimesSafe(k, 0, Then(GetDataSource(), SubmitFailed(d)), kinds);
    case Statuses(ds) =>
      ForEachSafe(ds, true, 0, kinds);
    case Mos(ds) =>
      ForEachSafe(ds, false, 0, kinds);
    case StopAll(threads, cs) =>
      JoinAllSafe(threads, 0, kinds);
      DestroyAllSafe(cs, 0, kinds);
    case _ =>
  }

  /** Every call of every thread respects the order. */
  lemma CodeSafe(kind: Kind, task: Task, kinds: seq<Kind>)
    requires Allowed(task, kinds)
    ensures Safe(Base(kind), CodeOf(kind, task), kinds)
  {
    hide Safe, WorkerCode, ReceiverCode, ApiCode, Allowed;
    match kind
    case Worker(c, d) => WorkerSafe(c, d, task, kinds);
    case Receiver(c, d) => ReceiverSafe(c, d, task, kinds);
    case Api => ApiSafe(task, kinds);
  }

  // ---- Threads ----

  datatype Item = Run(code: Code) | Unlock(l: Lock)

  datatype Thread = Thread(kind: Kind, todo: seq<Item>, alive: bool)

  predicate Holds(t: Thread, l: Lock) {
    Unlock(l) in t.todo
  }

  /** The rank of the innermost lock still to be released. */
  function Top(base: int, todo: seq<Item>): int {
    if todo == [] then base
    else if todo[0].Unlock? then Rank(todo[0].l)
    else Top(base, todo[1..])
  }

  predicate Orderly(base: int, todo: seq<Item>, kinds: seq<Kind>) {
    if todo == [] then true
    else
      && Orderly(base, todo[1..], kinds)
      && match todo[0]
         case Unlock(l) => Top(base, todo[1..]) < Rank(l)
         case Run(c) => Safe(Top(base, todo[1..]), c, kinds)
  }

  function Kinds(ts: seq<Thread>): (ks: seq<Kind>)
    ensures |ks| == |ts| && forall i :: 0 <= i < |ts| ==> ks[i] == ts[i].kind
  {
    seq(|ts|, i requires 0 <= i < |ts| => ts[i].kind)
  }

  datatype Step = Begin(task: Task) | Fire | Exit

  predicate Wants(t: Thread, l: Lock) {
    t.todo != [] && t.todo[0].Run? && t.todo[0].code.Locked? && t.todo[0].code.l == l
  }

  predicate Joins(t: Thread, u: nat) {
    t.todo != [] && t.todo[0].Run? && t.todo[0].code == Join(u)
  }

  /** Thread i cannot go on before thread k does: k holds the lock i wants, or i joins k. */
  ghost predicate WaitsFor(ts: seq<Thread>, i: nat, k: nat)
    requires i < |ts| && k < |ts|
  {
    || (exists l :: Wants(ts[i], l) && Holds(ts[k], l))
    || (Joins(ts[i], k) && ts[k].alive)
  }

  ghost predicate Blocked(ts: seq<Thread>, i: nat)
    requires i < |ts|
  {
    exists k :: 0 <= k < |ts| && WaitsFor(ts, i, k)
  }

  ghost predicate Can(ts: seq<Thread>, i: nat, step: Step) {
    && i < |ts| && ts[i].alive && !Blocked(ts, i)
    && match step
       case Begin(task) => ts[i].todo == [] && Allowed(task, Kinds(ts))
       case Fire => ts[i].todo != []
       case Exit => ts[i].todo == []
  }

  function Rest(todo: seq<Item>): seq<Item>
    requires todo != []
  {
    match todo[0]
    case Unlock(_) => todo[1..]
    case Run(Skip) => todo[1..]
    case Run(Join(_)) => todo[1..]
    case Run(Then(a, b)) => [Run(a), Run(b)] + todo[1..]
    case Run(Locked(l, body)) => [Run(body), Unlock(l)] + todo[1..]
  }

  ghost function Next(ts: seq<Thread>, i: nat, step: Step): (ts': seq<Thread>)
    requires Can(ts, i, step)
    ensures |ts'| == |ts|
  {
    var t := ts[i];
    ts[i := match step
            case Begin(task) => t.(todo := [Run(CodeOf(t.kind, task))])
            case Fire => t.(todo := Rest(t.todo))
            case Exit => t.(alive := false)]
  }

  /** A thread that has ended has nothing left to do. */
  predicate AllOrderly(ts: seq<Thread>) {
    forall i :: 0 <= i < |ts| ==>
      Orderly(Base(ts[i].kind), ts[i].todo, Kinds(ts)) && (ts[i].alive || ts[i].todo == [])
  }

  lemma RestOrderly(base: int, todo: seq<Item>, kinds: seq<Kind>)
    requires todo != [] && Orderly(base, todo, kinds)
    ensures Orderly(base, Rest(todo), kinds)
  {
    var tail := todo[1..];
    match todo[0]
    case Run(Then(a, b)) =>
      assert ([Run(a), Run(b)] + tail)[1..] == [Run(b)] + tail;
      assert ([Run(b)] + tail)[1..] == tail;
    case Run(Locked(l, body)) =>
      assert ([Run(body), Unlock(l)] + tail)[1..] == [Unlock(l)] + tail;
      assert ([Unlock(l)] + tail)[1..] == tail;
    case _ =>
  }

  lemma StepOrderly(ts: seq<Thread>, i: nat, step: Step)
    requires Can(ts, i, step) && AllOrderly(ts)
    ensures AllOrderly(Next(ts, i, step))
  {
    hide Orderly, CodeOf, Rest, Blocked;
    var ts' := Next(ts, i, step);
    assert Kinds(ts') == Kinds(ts);
    match step
    case Begin(task) =>
      CodeSafe(ts[i].kind, task, Kinds(ts));
      OneOrderly(Base(ts[i].kind), CodeOf(ts[i].kind, task), Kinds(ts));
    case Fire =>
      RestOrderly(Base(ts[i].kind), ts[i].todo, Kinds(ts));
    case Exit =>
  }

  lemma OneOrderly(base: int, c: Code, kinds: seq<Kind>)
    requires Safe(base, c, kinds)
    ensures Orderly(base, [Run(c)], kinds)
  {
    assert [Run(c)][1..] == [];
  }

  // ---- No circular wait ----

  /** Locks held rank no higher than the innermost one. */
  lemma {:induction false} HeldBelowTop(base: int, todo: seq<Item>, l: Lock, kinds: seq<Kind>)
    requires Orderly(base, todo, kinds) && Unlock(l) in todo
    ensures Rank(l) <= Top(base, todo)
  {
    if todo[0] != Unlock(l) {
      assert Unlock(l) in todo[1..];
      HeldBelowTop(base, todo[1..], l, kinds);
    }
  }

  lemma {:induction false} TopAboveBase(base: int, todo: seq<Item>, kinds: seq<Kind>)
    requires Orderly(base, todo, kinds)
    ensures base <= Top(base, todo)
  {
    if todo != [] {
      TopAboveBase(base, todo[1..], kinds);
    }
  }

  /** The rank at which a thread waits. */
  function WaitRank(t: Thread): int {
    if t.todo != [] && t.todo[0].Run? && t.todo[0].code.Locked? then Rank(t.todo[0].code.l) else JOIN_RANK
  }

  /** A thread that waits holds only locks below the rank it waits at, and is at least at its base. */
  lemma WaiterHoldsLess(ts: seq<Thread>, k: nat, l: Lock)
    requires AllOrderly(ts) && k < |ts| && Blocked(ts, k)
    ensures Holds(ts[k], l) ==> Rank(l) < WaitRank(ts[k])
    ensures Base(ts[k].kind) < WaitRank(ts[k])
  {
    var todo, base := ts[k].todo, Base(ts[k].kind);
    TopAboveBase(base, todo[1..], Kinds(ts));
    if Holds(ts[k], l) {
      assert Unlock(l) in todo[1..];
      HeldBelowTop(base, todo[1..], l, Kinds(ts));
    }
  }

  /** Along a chain of waiting threads the ranks rise. */
  lemma RanksRise(ts: seq<Thread>, i: nat, k: nat)
    requires AllOrderly(ts) && i < |ts| && k < |ts| && WaitsFor(ts, i, k) && Blocked(ts, k)
    ensures WaitRank(ts[i]) < WaitRank(ts[k])
  {
    if l :| Wants(ts[i], l) && Holds(ts[k], l) {
      WaiterHoldsLess(ts, k, l);
    } else {
      WaiterHoldsLess(ts, k, Clients);
      assert Orderly(Base(ts[i].kind), ts[i].todo, Kinds(ts));
    }
  }

  ghost predicate Chain(ts: seq<Thread>, path: seq<nat>) {
    && path != []
    && (forall j :: 0 <= j < |path| ==> path[j] < |ts|)
    && forall j :: 0 <= j < |path| - 1 ==> WaitsFor(ts, path[j], path[j + 1])
  }

  /** No thread waits, over any number of others, for itself. */
  lemma NoCircularWait(ts: seq<Thread>, path: seq<nat>)
    requires AllOrderly(ts) && Chain(ts, path) && |path| >= 2
    ensures path[0] != path[|path| - 1]
  {
    if path[0] == path[|path| - 1] {
      assert WaitsFor(ts, path[0], path[1]);
      assert Blocked(ts, path[|path| - 1]);
      RanksAlong(ts, path, |path| - 1);
    }
  }

  lemma {:induction false} RanksAlong(ts: seq<Thread>, path: seq<nat>, j: nat)
    requires AllOrderly(ts) && Chain(ts, path) && 1 <= j < |path| && Blocked(ts, path[j])
    ensures WaitRank(ts[path[0]]) < WaitRank(ts[path[j]])
  {
    assert WaitsFor(ts, path[j - 1], path[j - 1 + 1]);
    RanksRise(ts, path[j - 1], path[j]);
    if j > 1 {
      RanksAlong(ts, path, j - 1);
    }
  }

  /** Every thread that cannot go on waits, directly or not, for one that can. */
  lemma {:induction false} SomeoneGoesOn(ts: seq<Thread>, i: nat) returns (path: seq<nat>)
    requires AllOrderly(ts) && i < |ts|
    ensures Chain(ts, path) && path[0] == i && !Blocked(ts, path[|path| - 1])
    ensures |path| > 1 ==> Can(ts, path[|path| - 1], Fire) || Can(ts, path[|path| - 1], Exit)
    decreases 9 - WaitRank(ts[i])
  {
    path := [i];
    if Blocked(ts, i) {
      var k :| 0 <= k < |ts| && WaitsFor(ts, i, k);
      var rest: seq<nat>;
      if Blocked(ts, k) {
        RanksRise(ts, i, k);
        rest := SomeoneGoesOn(ts, k);
      } else {
        rest := [k];
      }
      path := [i] + rest;
      assert forall j :: 0 < j < |path| ==> path[j] == rest[j - 1];
      forall j | 0 <= j < |path| - 1
        ensures WaitsFor(ts, path[j], path[j + 1])
      {
        if j > 0 {
          assert WaitsFor(ts, rest[j - 1], rest[j - 1 + 1]);
        }
      }
    }
  }

  // ---- Runs ----

  datatype Action = Action(thread: nat, step: Step)

  ghost predicate Runs(ts: seq<Thread>, acts: seq<Action>)
    decreases |acts|
  {
    acts == [] || (Can(ts, acts[0].thread, acts[0].step) && Runs(Next(ts, acts[0].thread, acts[0].step), acts[1..]))
  }

  ghost function After(ts: seq<Thread>, acts: seq<Action>): seq<Thread>
    requires Runs(ts, acts)
    decreases |acts|
  {
    if acts == [] then ts else After(Next(ts, acts[0].thread, acts[0].step), acts[1..])
  }

  lemma {:induction false} RunOrderly(ts: seq<Thread>, acts: seq<Action>)
    requires Runs(ts, acts) && AllOrderly(ts)
    ensures AllOrderly(After(ts, acts))
    decreases |acts|
  {
    hide Can, Next, AllOrderly;
    if acts != [] {
      StepOrderly(ts, acts[0].thread, acts[0].step);
      RunOrderly(Next(ts, acts[0].thread, acts[0].step), acts[1..]);
    }
  }

  /** In no reachable state is there a circular wait, joins included. */
  lemma DeadlockFree(ts: seq<Thread>, acts: seq<Action>, path: seq<nat>)
    requires Runs(ts, acts) && forall i :: 0 <= i < |ts| ==> ts[i].todo == []
    requires Chain(After(ts, acts), path) && |path| >= 2
    ensures path[0] != path[|path| - 1]
  {
    hide Runs, After, Chain;
    RunOrderly(ts, acts);
    NoCircularWait(After(ts, acts), path);
  }

  /** In every reachable state a thread that cannot go on waits, directly or not, for one that can. */
  lemma Progress(ts: seq<Thread>, acts: seq<Action>, i: nat) returns (path: seq<nat>)
    requires Runs(ts, acts) && forall k :: 0 <= k < |ts| ==> ts[k].todo == []
    requires i < |After(ts, acts)|
    ensures Chain(After(ts, acts), path) && path[0] == i && !Blocked(After(ts, acts), path[|path| - 1])
    ensures |path| > 1 ==> var last := path[|path| - 1];
                           Can(After(ts, acts), last, Fire) || Can(After(ts, acts), last, Exit)
  {
    hide Runs, After, Chain, Can, Blocked;
    RunOrderly(ts, acts);
    path := SomeoneGoesOn(After(ts, acts), i);
  }
}
