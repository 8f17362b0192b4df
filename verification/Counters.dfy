/** The global counters agree with the lists of all sources, in every reachable state. */
module Counters {
  import opened Messages
  import opened Pipeline

  /** What a counter law is about in one source. */
  datatype Law = Statuses | Queue | MobileOriginated

  function Listed(d: Source, law: Law): nat {
    match law
    case Statuses => |d.delivered|
    case Queue => |d.toSubmit|
    case MobileOriginated => |d.mos|
  }

  /** Counted in, less counted out. */
  function Counted(g: Globals, law: Law): int {
    match law
    case Statuses => g.stats.delivered + g.stats.submitFailed - g.stats.pushedDlrs
    case Queue => g.stats.received - g.stats.submit - |g.drained|
    case MobileOriginated => g.stats.mos - g.stats.pushedMos
  }

  lemma StepCounts(l: Local, op: Op, law: Law)
    requires Can(l, op)
    ensures Counted(Do(l, op).g, law) - Listed(Do(l, op).d, law) == Counted(l.g, law) - Listed(l.d, law)
  {
    hide Do, Can, Counted, Listed;
    match law
    case Statuses => StatusesStep(l, op);
    case Queue => QueueStep(l, op);
    case MobileOriginated => MoStep(l, op);
  }

  lemma StatusesStep(l: Local, op: Op)
    requires Can(l, op)
    ensures Counted(Do(l, op).g, Statuses) - Listed(Do(l, op).d, Statuses) == Counted(l.g, Statuses) - Listed(l.d, Statuses)
  {
    hide FindSn, FindId, Expired, Taken, Erase;
  }

  lemma QueueStep(l: Local, op: Op)
    requires Can(l, op)
    ensures Counted(Do(l, op).g, Queue) - Listed(Do(l, op).d, Queue) == Counted(l.g, Queue) - Listed(l.d, Queue)
  {
    hide FindSn, FindId, Expired, Taken, Erase;
  }

  lemma MoStep(l: Local, op: Op)
    requires Can(l, op)
    ensures Counted(Do(l, op).g, MobileOriginated) - Listed(Do(l, op).d, MobileOriginated) == Counted(l.g, MobileOriginated) - Listed(l.d, MobileOriginated)
  {
    hide FindSn, FindId, Expired, Taken, Erase;
  }

  function AllListed(ds: seq<Source>, law: Law): nat {
    if ds == [] then 0 else Listed(ds[0], law) + AllListed(ds[1..], law)
  }

  lemma {:induction false} ListedUpdate(ds: seq<Source>, j: nat, d: Source, law: Law)
    requires j < |ds|
    ensures AllListed(ds[j := d], law) + Listed(ds[j], law) == AllListed(ds, law) + Listed(d, law)
  {
    hide Listed;
    if j > 0 {
      assert ds[j := d][1..] == ds[1..][j - 1 := d];
      ListedUpdate(ds[1..], j - 1, d, law);
    } else {
      assert ds[j := d][1..] == ds[1..];
    }
  }

  lemma {:induction false} NothingListed(ds: seq<Source>, law: Law)
    requires forall j :: 0 <= j < |ds| ==> ds[j] == Source([], [], [], [], false)
    ensures AllListed(ds, law) == 0
  {
    if ds != [] {
      NothingListed(ds[1..], law);
    }
  }

  lemma {:induction false} RunCounts(s: State, acts: seq<Action>, law: Law)
    requires Runs(s, acts)
    ensures Counted(After(s, acts).g, law) - AllListed(After(s, acts).sources, law)
         == Counted(s.g, law) - AllListed(s.sources, law)
    decreases |acts|
  {
    hide Do, Can, Counted, Listed, AllListed;
    if acts != [] {
      var i, op := acts[0].client, acts[0].op;
      var l := At(s, i);
      StepCounts(l, op, law);
      ListedUpdate(s.sources, s.clients[i].source, Do(l, op).d, law);
      RunCounts(Next(s, i, op), acts[1..], law);
    }
  }

  /**
   Statuses handed out or failed are listed or pushed; received messages are queued, taken
   for submission or drained; mobile originated messages are listed or pushed.
   */
  lemma CountersAgree(s: State, acts: seq<Action>)
    requires Init(s) && Runs(s, acts)
    ensures var t := After(s, acts);
            && t.g.stats.delivered + t.g.stats.submitFailed
               == AllListed(t.sources, Statuses) + t.g.stats.pushedDlrs
            && t.g.stats.received == AllListed(t.sources, Queue) + t.g.stats.submit + |t.g.drained|
            && t.g.stats.mos == AllListed(t.sources, MobileOriginated) + t.g.stats.pushedMos
  {
    hide AllListed, Runs;
    RunCounts(s, acts, Statuses);
    RunCounts(s, acts, Queue);
    RunCounts(s, acts, MobileOriginated);
    NothingListed(s.sources, Statuses);
    NothingListed(s.sources, Queue);
    NothingListed(s.sources, MobileOriginated);
  }
}
