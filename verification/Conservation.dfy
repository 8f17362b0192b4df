/** No run loses or multiplies a message, except where the history says so; and exactly when that is. */
module Conservation {
  import opened Bytes
  import opened Messages
  import opened Pipeline

  // ---- How many copies of a message there are ----

  function InReceiver(r: Receiver, sn: u32): nat {
    match r
    case Quiet => 0
    case Missed(_, _, _) => 0
    case Got(m) => One(m, sn)
    case Matched(m) => One(m, sn)
  }

  function InSlot(c: Client, sn: u32): nat {
    if Owns(c) then One(c.slot, sn) else 0
  }

  /** Slot, waiting-ack, ack-timeout, the sweep's copy and the receiver's copy. */
  function InClient(c: Client, sn: u32): nat {
    Count(c.waiting, sn) + Count(c.ackTimeout, sn) + Count(c.hold, sn) + InReceiver(c.recv, sn) + InSlot(c, sn)
  }

  function InSource(d: Source, sn: u32): nat {
    Count(d.toSubmit, sn) + Count(d.delivering, sn) + Count(d.delivered, sn)
  }

  /** Copies that left the system or were lost, less what came in or was doubled. */
  function Outside(g: Globals, sn: u32): int {
    Count(g.pulled, sn) + Count(g.drained, sn) + Count(g.lost, sn) - Count(g.accepted, sn) - Count(g.doubled, sn)
  }

  function Balance(l: Local, sn: u32): int {
    InClient(l.c, sn) + InSource(l.d, sn) + Outside(l.g, sn)
  }

  /** The sweep's copy is there during a sweep only, and it is one message. */
  predicate Sound(c: Client) {
    && |c.hold| <= 1
    && (c.hold != [] ==> c.phase.DlrSweep? || c.phase.WaitSweep? || c.phase.TimeoutSweep?)
  }

  lemma SoundKept(l: Local, op: Op)
    requires Can(l, op) && Sound(l.c)
    ensures Sound(Do(l, op).c)
  {
  }

  lemma PushNone(sn: u32)
    ensures Count([], sn) == 0
  {
  }

  lemma AcceptBalance(l: Local, smis: seq<Smi>, sn: u32)
    ensures Balance(DoAccept(l, smis), sn) == Balance(l, sn)
  {
    hide Count;
    CountAppend(l.d.toSubmit, smis, sn);
    CountAppend(l.g.accepted, smis, sn);
  }

  lemma RejectBalance(l: Local, m: Smi, sn: u32)
    ensures Balance(DoReject(l, m), sn) == Balance(l, sn)
  {
    hide Count;
    CountPush(l.d.delivered, m, sn);
    CountPush(l.g.accepted, m, sn);
  }

  lemma DrainBalance(l: Local, sn: u32)
    ensures Balance(DoDrain(l), sn) == Balance(l, sn)
  {
    hide Count;
    CountAppend(l.g.drained, l.d.toSubmit, sn);
    PushNone(sn);
  }

  lemma PullBalance(l: Local, toGet: int, sn: u32)
    ensures Balance(DoPull(l, toGet), sn) == Balance(l, sn)
  {
    hide Count;
    var n := Taken(|l.d.delivered|, toGet);
    CountSplit(l.d.delivered, n, sn);
    CountAppend(l.g.pulled, l.d.delivered[..n], sn);
  }

  lemma BindTimeoutBalance(l: Local, sn: u32)
    requires l.c.phase == Unbound
    ensures Balance(DoBindTimeout(l), sn) == Balance(l, sn)
  {
    hide Count;
    CountPush(l.g.lost, l.c.slot, sn);
  }

  lemma StopBalance(l: Local, sn: u32)
    requires l.c.phase == Unbound || l.c.phase == Top
    ensures Balance(DoStop(l), sn) == Balance(l, sn)
  {
    hide Count;
    CountPush(l.g.lost, l.c.slot, sn);
  }

  lemma DestroyBalance(l: Local, sn: u32)
    ensures Balance(DoDestroy(l), sn) == Balance(l, sn)
  {
    hide Count;
    CountAppend(l.c.waiting, l.c.ackTimeout, sn);
    CountAppend(l.g.lost, l.c.waiting + l.c.ackTimeout, sn);
    PushNone(sn);
  }

  lemma HoldIsOne(c: Client, sn: u32)
    requires Sound(c) && c.hold != []
    ensures Count(c.hold, sn) == One(c.hold[0], sn) && c.hold[1..] == [] && Count([], sn) == 0
  {
    assert c.hold == [c.hold[0]];
    CountOne(c.hold[0], sn);
  }

  lemma DlrSweepBalance(l: Local, sn: u32)
    requires l.c.phase.DlrSweep? && Sound(l.c)
    ensures Balance(DoDlrSweep(l), sn) == Balance(l, sn)
  {
    hide Count, Expired;
    var pos := l.c.phase.pos;
    PushNone(sn);
    if l.c.hold != [] {
      HoldIsOne(l.c, sn);
      CountPush(l.d.delivered, l.c.hold[0], sn);
    } else if pos < |l.d.delivering| {
      CountErase(l.d.delivering, pos, sn);
      CountOne(l.d.delivering[pos], sn);
    }
  }

  lemma WaitSweepBalance(l: Local, sn: u32)
    requires l.c.phase.WaitSweep? && Sound(l.c)
    ensures Balance(DoWaitSweep(l), sn) == Balance(l, sn)
  {
    hide Count, Expired;
    var pos := l.c.phase.pos;
    PushNone(sn);
    if l.c.hold != [] {
      HoldIsOne(l.c, sn);
      CountPush(l.c.ackTimeout, l.c.hold[0], sn);
    } else if pos < |l.c.waiting| {
      CountErase(l.c.waiting, pos, sn);
      CountOne(l.c.waiting[pos], sn);
    }
  }

  lemma TimeoutSweepBalance(l: Local, sn: u32)
    requires l.c.phase.TimeoutSweep? && Sound(l.c)
    ensures Balance(DoTimeoutSweep(l), sn) == Balance(l, sn)
  {
    hide Count, Expired;
    var pos := l.c.phase.pos;
    PushNone(sn);
    if l.c.hold != [] {
      HoldIsOne(l.c, sn);
      CountPush(l.d.delivered, l.c.hold[0], sn);
    } else if pos < |l.c.ackTimeout| {
      CountErase(l.c.ackTimeout, pos, sn);
      CountOne(l.c.ackTimeout[pos], sn);
    }
  }

  lemma GetBalance(l: Local, sn: u32)
    requires l.c.phase.Checked? && Sound(l.c)
    requires l.c.slot.content == []
    ensures Balance(DoGet(l), sn) == Balance(l, sn)
  {
    hide Count;
    if l.d.toSubmit != [] {
      CountSplit(l.d.toSubmit, 1, sn);
      CountOne(l.d.toSubmit[0], sn);
      assert l.d.toSubmit[..1] == [l.d.toSubmit[0]];
    }
  }

  lemma EncodeBalance(l: Local, encoded: bool, sn: u32)
    requires l.c.phase == InHand
    ensures Balance(DoEncode(l, encoded), sn) == Balance(l, sn)
  {
    hide Count;
    CountPush(l.c.waiting, l.c.slot.(submitTime := l.g.clock), sn);
    CountPush(l.g.lost, l.c.slot, sn);
  }

  lemma WriteBalance(l: Local, written: bool, sn: u32)
    requires l.c.phase.Sent?
    ensures Balance(DoWrite(l, written), sn) == Balance(l, sn)
  {
    hide Count;
    var i := FindSn(l.c.waiting, l.c.slot.sn);
    if i < |l.c.waiting| {
      CountErase(l.c.waiting, i, sn);
    }
    CountPush(l.g.lost, l.c.slot, sn);
    CountPush(l.g.doubled, l.c.slot, sn);
  }

  lemma AckLookBalance(l: Local, y: u32, sn: u32)
    requires l.c.recv == Quiet && !l.c.phase.WaitSweep?
    ensures Balance(DoAckLook(l, y), sn) == Balance(l, sn)
  {
    hide Count;
    var i := FindSn(l.c.waiting, y);
    if i < |l.c.waiting| {
      CountErase(l.c.waiting, i, sn);
    }
  }

  lemma AckLookAgainBalance(l: Local, sn: u32)
    requires l.c.recv.Missed?
    ensures Balance(DoAckLookAgain(l), sn) == Balance(l, sn)
  {
    hide Count;
    var i := FindSn(l.c.ackTimeout, l.c.recv.sn);
    if i < |l.c.ackTimeout| {
      CountErase(l.c.ackTimeout, i, sn);
    }
  }

  lemma AckPutBalance(l: Local, success: bool, id: seq<u8>, sn: u32)
    requires l.c.recv.Got?
    ensures Balance(DoAckPut(l, success, id), sn) == Balance(l, sn)
  {
    hide Count;
    var m := l.c.recv.smi.(messageId := id);
    CountPush(l.d.delivering, m.(deliveringTime := l.g.clock), sn);
    CountPush(l.d.delivered, m, sn);
  }

  lemma DlrTakeBalance(l: Local, id: seq<u8>, sn: u32)
    requires l.c.recv == Quiet
    ensures Balance(DoDlrTake(l, id), sn) == Balance(l, sn)
  {
    hide Count;
    var i := FindId(l.d.delivering, id);
    if i < |l.d.delivering| {
      CountErase(l.d.delivering, i, sn);
    }
  }

  lemma DlrPutBalance(l: Local, sn: u32)
    requires l.c.recv.Matched?
    ensures Balance(DoDlrPut(l), sn) == Balance(l, sn)
  {
    hide Count;
    CountPush(l.d.delivered, l.c.recv.smi, sn);
  }

  /** In the phases between two submits the worker only looks at the queue with an empty slot. */
  predicate SlotEmptyToGet(c: Client) {
    c.phase.Checked? ==> c.slot.content == []
  }

  /** No step changes the balance. */
  lemma BalanceKept(l: Local, op: Op, sn: u32)
    requires Can(l, op) && Sound(l.c) && SlotEmptyToGet(l.c)
    ensures Balance(Do(l, op), sn) == Balance(l, sn)
  {
    hide Count, DoAccept, DoReject, DoDrain, DoPull, DoBindTimeout, DoStop, DoDestroy, DoDlrSweep, DoWaitSweep, DoTimeoutSweep;
    hide DoGet, DoEncode, DoWrite, DoAckLook, DoAckLookAgain, DoAckPut, DoDlrTake, DoDlrPut;
    match op
    case Tick(_) =>
    case Accept(smis) => AcceptBalance(l, smis, sn);
    case Reject(m) => RejectBalance(l, m, sn);
    case Drain => DrainBalance(l, sn);
    case Pull(toGet) => PullBalance(l, toGet, sn);
    case MoArrives(_) =>
    case PullMos =>
    case Bind =>
    case BindTimeout => BindTimeoutBalance(l, sn);
    case Stop => StopBalance(l, sn);
    case Destroy => DestroyBalance(l, sn);
    case Reconnect =>
    case StartSweeps =>
    case Sweep =>
      if l.c.phase.DlrSweep? {
        DlrSweepBalance(l, sn);
      } else if l.c.phase.WaitSweep? {
        WaitSweepBalance(l, sn);
      } else {
        TimeoutSweepBalance(l, sn);
      }
    case NotAble =>
    case Resend =>
    case Check =>
    case Get => GetBalance(l, sn);
    case Encode(encoded) => EncodeBalance(l, encoded, sn);
    case Write(written) => WriteBalance(l, written, sn);
    case AckLook(y) => AckLookBalance(l, y, sn);
    case AckLookAgain => AckLookAgainBalance(l, sn);
    case AckPut(success, id) => AckPutBalance(l, success, id, sn);
    case DlrTake(id) => DlrTakeBalance(l, id, sn);
    case DlrPut => DlrPutBalance(l, sn);
  }

  lemma SlotEmptyKept(l: Local, op: Op)
    requires Can(l, op) && SlotEmptyToGet(l.c)
    ensures SlotEmptyToGet(Do(l, op).c)
  {
  }

  // ---- Sums over all clients and all sources ----

  function AllClients(cs: seq<Client>, sn: u32): nat {
    if cs == [] then 0 else InClient(cs[0], sn) + AllClients(cs[1..], sn)
  }

  function AllSources(ds: seq<Source>, sn: u32): nat {
    if ds == [] then 0 else InSource(ds[0], sn) + AllSources(ds[1..], sn)
  }

  lemma {:induction false} ClientsUpdate(cs: seq<Client>, i: nat, c: Client, sn: u32)
    requires i < |cs|
    ensures AllClients(cs[i := c], sn) + InClient(cs[i], sn) == AllClients(cs, sn) + InClient(c, sn)
  {
    hide InClient;
    if i > 0 {
      assert cs[i := c][1..] == cs[1..][i - 1 := c];
      ClientsUpdate(cs[1..], i - 1, c, sn);
    } else {
      assert cs[i := c][1..] == cs[1..];
    }
  }

  lemma {:induction false} SourcesUpdate(ds: seq<Source>, j: nat, d: Source, sn: u32)
    requires j < |ds|
    ensures AllSources(ds[j := d], sn) + InSource(ds[j], sn) == AllSources(ds, sn) + InSource(d, sn)
  {
    hide InSource;
    if j > 0 {
      assert ds[j := d][1..] == ds[1..][j - 1 := d];
      SourcesUpdate(ds[1..], j - 1, d, sn);
    } else {
      assert ds[j := d][1..] == ds[1..];
    }
  }

  /** Every copy inside the system. */
  function Inside(s: State, sn: u32): nat {
    AllClients(s.clients, sn) + AllSources(s.sources, sn)
  }

  predicate AllSound(s: State) {
    forall i :: 0 <= i < |s.clients| ==> Sound(s.clients[i]) && SlotEmptyToGet(s.clients[i])
  }

  lemma StepConserves(s: State, i: nat, op: Op, sn: u32)
    requires Enabled(s, i, op) && AllSound(s)
    ensures AllSound(Next(s, i, op))
    ensures Inside(Next(s, i, op), sn) + Outside(Next(s, i, op).g, sn) == Inside(s, sn) + Outside(s.g, sn)
  {
    hide Do, Can, InClient, InSource, Outside, AllClients, AllSources;
    var l := At(s, i);
    var l' := Do(l, op);
    SoundKept(l, op);
    SlotEmptyKept(l, op);
    BalanceKept(l, op, sn);
    ClientsUpdate(s.clients, i, l'.c, sn);
    SourcesUpdate(s.sources, s.clients[i].source, l'.d, sn);
    BalanceIs(l, sn);
    BalanceIs(l', sn);
  }

  lemma BalanceIs(l: Local, sn: u32)
    ensures Balance(l, sn) == InClient(l.c, sn) + InSource(l.d, sn) + Outside(l.g, sn)
  {
  }

  lemma {:induction false} InitialBalance(s: State, sn: u32)
    requires Init(s)
    ensures AllSound(s) && Inside(s, sn) + Outside(s.g, sn) == 0
  {
    EmptyClients(s.clients, sn);
    EmptySources(s.sources, sn);
  }

  lemma {:induction false} EmptyClients(cs: seq<Client>, sn: u32)
    requires forall i :: 0 <= i < |cs| ==> NewClient(cs[i])
    ensures AllClients(cs, sn) == 0
  {
    if cs != [] {
      EmptyClients(cs[1..], sn);
    }
  }

  lemma {:induction false} EmptySources(ds: seq<Source>, sn: u32)
    requires forall j :: 0 <= j < |ds| ==> ds[j] == Source([], [], [], [], false)
    ensures AllSources(ds, sn) == 0
  {
    if ds != [] {
      EmptySources(ds[1..], sn);
    }
  }

  lemma {:induction false} RunConserves(s: State, acts: seq<Action>, sn: u32)
    requires Runs(s, acts) && AllSound(s)
    ensures Inside(After(s, acts), sn) + Outside(After(s, acts).g, sn) == Inside(s, sn) + Outside(s.g, sn)
    decreases |acts|
  {
    hide Next, Enabled, Inside, Outside, AllSound;
    if acts != [] {
      StepConserves(s, acts[0].client, acts[0].op, sn);
      RunConserves(Next(s, acts[0].client, acts[0].op), acts[1..], sn);
    }
  }

  /**
   In every interleaving, the copies of a message in the system, pulled, drained or lost are
   as many as were accepted, plus those a failed write doubled.
   */
  lemma Conserved(s: State, acts: seq<Action>, sn: u32)
    requires Init(s) && Runs(s, acts)
    ensures Copies(After(s, acts), sn) + Count(After(s, acts).g.lost, sn)
         == Count(After(s, acts).g.accepted, sn) + Count(After(s, acts).g.doubled, sn)
  {
    InitialBalance(s, sn);
    RunConserves(s, acts, sn);
  }

  /** Inside the system, handed out as a status, or drained. */
  function Copies(s: State, sn: u32): nat {
    Inside(s, sn) + Count(s.g.pulled, sn) + Count(s.g.drained, sn)
  }

  // ---- The leaks, and the one way to double ----

  /** A message that is written and not answered is in the waiting-ack list. */
  predicate UnansweredWaits(c: Client) {
    c.phase == Sent(false) ==> Count(c.waiting, c.slot.sn) > 0
  }

  lemma UnansweredKept(l: Local, op: Op)
    requires Can(l, op) && UnansweredWaits(l.c)
    ensures UnansweredWaits(Do(l, op).c)
  {
    hide Count, FindId, Expired, Taken;
    match op
    case Encode(_) =>
      CountPush(l.c.waiting, l.c.slot.(submitTime := l.g.clock), l.c.slot.sn);
    case AckLook(sn) =>
      var i := FindSn(l.c.waiting, sn);
      if i < |l.c.waiting| {
        CountErase(l.c.waiting, i, l.c.slot.sn);
      }
    case _ =>
  }

  predicate HasContent(list: seq<Smi>) {
    forall i :: 0 <= i < |list| ==> list[i].content != []
  }

  /** A message in the worker's hands has content. */
  predicate FullHands(c: Client) {
    c.phase == InHand || c.phase.Sent? ==> c.slot.content != []
  }

  /**
   The environment the design counts on: accepted messages have content, a bind response
   arrives in time or nothing is pending, no answer comes for a write that fails, and clients
   are stopped with nothing unanswered.
   */
  predicate Careful(l: Local, op: Op) {
    match op
    case Accept(smis) => HasContent(smis)
    case BindTimeout => l.c.slot.content == []
    case Stop => l.c.slot.content == []
    case Destroy => l.c.waiting == [] && l.c.ackTimeout == []
    case Write(written) => written || l.c.phase == Sent(false)
    case _ => true
  }

  /**
   The step makes messages disappear: a pending slot is declared anew or given up, a submit
   fails and the content is empty, or a client is dropped with messages unanswered.
   */
  predicate Loses(l: Local, op: Op) {
    match op
    case BindTimeout => l.c.slot.content != []
    case Stop => l.c.slot.content != []
    case Destroy => l.c.waiting != [] || l.c.ackTimeout != []
    case Encode(encoded) => !encoded && l.c.slot.content == []
    case Write(written) => !written && l.c.slot.content == [] && FindSn(l.c.waiting, l.c.slot.sn) < |l.c.waiting|
    case _ => false
  }

  /** The step leaves a message in two places: its write failed, but its waiting-ack entry is gone. */
  predicate Doubles(l: Local, op: Op) {
    op == Write(false) && l.c.slot.content != [] && FindSn(l.c.waiting, l.c.slot.sn) == |l.c.waiting|
  }

  lemma LosesExactly(l: Local, op: Op)
    requires Can(l, op)
    ensures Do(l, op).g.lost != l.g.lost <==> Loses(l, op)
    ensures Loses(l, op) ==> |l.g.lost| < |Do(l, op).g.lost|
  {
    hide FindSn, FindId, Expired, Taken, Erase;
    if op.Destroy? {
      assert |Do(l, op).g.lost| == |l.g.lost| + |l.c.waiting| + |l.c.ackTimeout|;
    }
  }

  lemma DoublesExactly(l: Local, op: Op)
    requires Can(l, op)
    ensures Do(l, op).g.doubled != l.g.doubled <==> Doubles(l, op)
    ensures Doubles(l, op) ==> |l.g.doubled| < |Do(l, op).g.doubled|
  {
    hide FindSn, FindId, Expired, Taken, Erase;
  }

  /** The entry of a message that is being written is gone only if its answer was taken. */
  lemma DoublesAfterAnswer(l: Local, op: Op)
    requires Can(l, op) && UnansweredWaits(l.c) && Doubles(l, op)
    ensures l.c.phase == Sent(true)
  {
    FoundIffCounted(l.c.waiting, l.c.slot.sn);
  }

  /** Some step of the run makes messages disappear. */
  ghost predicate EverLoses(s: State, acts: seq<Action>)
    requires Runs(s, acts)
    decreases |acts|
  {
    acts != [] && (Loses(At(s, acts[0].client), acts[0].op)
                   || EverLoses(Next(s, acts[0].client, acts[0].op), acts[1..]))
  }

  ghost predicate EverDoubles(s: State, acts: seq<Action>)
    requires Runs(s, acts)
    decreases |acts|
  {
    acts != [] && (Doubles(At(s, acts[0].client), acts[0].op)
                   || EverDoubles(Next(s, acts[0].client, acts[0].op), acts[1..]))
  }

  /** Something is lost, or doubled, in a run exactly when one of its steps does it. */
  lemma {:induction false} RunHarmsExactly(s: State, acts: seq<Action>)
    requires Runs(s, acts)
    ensures |s.g.lost| <= |After(s, acts).g.lost| && |s.g.doubled| <= |After(s, acts).g.doubled|
    ensures After(s, acts).g.lost != s.g.lost <==> EverLoses(s, acts)
    ensures After(s, acts).g.doubled != s.g.doubled <==> EverDoubles(s, acts)
    decreases |acts|
  {
    hide Do, Can, Loses, Doubles;
    if acts != [] {
      var l, op := At(s, acts[0].client), acts[0].op;
      LosesExactly(l, op);
      DoublesExactly(l, op);
      RunHarmsExactly(Next(s, acts[0].client, op), acts[1..]);
    }
  }

  /** A message accepted once is in exactly one place exactly when it was lost as often as doubled. */
  lemma OnePlaceExactly(s: State, acts: seq<Action>, sn: u32)
    requires Init(s) && Runs(s, acts) && Count(After(s, acts).g.accepted, sn) == 1
    ensures Copies(After(s, acts), sn) == 1
       <==> Count(After(s, acts).g.lost, sn) == Count(After(s, acts).g.doubled, sn)
    ensures !EverLoses(s, acts) && !EverDoubles(s, acts) ==> Copies(After(s, acts), sn) == 1
  {
    hide Runs, After, Copies, EverLoses, EverDoubles;
    Conserved(s, acts, sn);
    RunHarmsExactly(s, acts);
  }

  predicate Unharmed(l: Local) {
    && Sound(l.c) && SlotEmptyToGet(l.c) && UnansweredWaits(l.c) && FullHands(l.c)
    && HasContent(l.d.toSubmit) && l.g.lost == [] && l.g.doubled == []
  }

  lemma FullHandsKept(l: Local, op: Op)
    requires Can(l, op) && Careful(l, op) && FullHands(l.c) && HasContent(l.d.toSubmit)
    ensures FullHands(Do(l, op).c) && HasContent(Do(l, op).d.toSubmit)
  {
    hide FindSn, FindId, Expired, Taken, Erase;
  }

  lemma UnharmedKept(l: Local, op: Op)
    requires Can(l, op) && Careful(l, op) && Unharmed(l)
    ensures Unharmed(Do(l, op))
  {
    hide Do, Can, Sound, SlotEmptyToGet, UnansweredWaits, HasContent;
    SoundKept(l, op);
    SlotEmptyKept(l, op);
    UnansweredKept(l, op);
    LosesExactly(l, op);
    DoublesExactly(l, op);
    FullHandsKept(l, op);
    CarefulIsHarmless(l, op);
  }

  lemma CarefulIsHarmless(l: Local, op: Op)
    requires Can(l, op) && Careful(l, op) && FullHands(l.c) && UnansweredWaits(l.c)
    ensures !Loses(l, op) && !Doubles(l, op)
  {
    FoundIffCounted(l.c.waiting, l.c.slot.sn);
  }

  ghost predicate AllUnharmed(s: State) {
    WellTyped(s) && forall i :: 0 <= i < |s.clients| ==> Unharmed(At(s, i))
  }

  ghost predicate CarefulRun(s: State, acts: seq<Action>)
    requires Runs(s, acts)
    decreases |acts|
  {
    acts == [] || (Careful(At(s, acts[0].client), acts[0].op)
                   && CarefulRun(Next(s, acts[0].client, acts[0].op), acts[1..]))
  }

  lemma StepUnharmed(s: State, i: nat, op: Op)
    requires Enabled(s, i, op) && Careful(At(s, i), op) && AllUnharmed(s)
    ensures AllUnharmed(Next(s, i, op))
  {
    hide Do, Can, Careful, Unharmed;
    var l := At(s, i);
    assert Unharmed(l);
    UnharmedKept(l, op);
    SourceKept(l, op);
    StaysWellTyped(s, i, op);
    var t := Next(s, i, op);
    forall k | 0 <= k < |t.clients|
      ensures Unharmed(At(t, k))
    {
      assert Unharmed(At(s, k));
      Mixed(At(s, k), Do(l, op));
    }
  }

  /** The conditions on client, source and globals do not depend on each other. */
  lemma Mixed(l: Local, m: Local)
    requires Unharmed(l) && Unharmed(m)
    ensures Unharmed(Local(l.c, l.d, m.g)) && Unharmed(Local(l.c, m.d, m.g)) && Unharmed(Local(m.c, l.d, m.g))
  {
  }

  lemma {:induction false} RunUnharmed(s: State, acts: seq<Action>)
    requires Runs(s, acts) && CarefulRun(s, acts) && AllUnharmed(s)
    ensures AllUnharmed(After(s, acts))
    decreases |acts|
  {
    hide Next, Enabled, AllUnharmed, Careful;
    if acts != [] {
      StepUnharmed(s, acts[0].client, acts[0].op);
      RunUnharmed(Next(s, acts[0].client, acts[0].op), acts[1..]);
    }
  }

  /**
   In a careful run a message that was accepted once is in exactly one place: on the way
   inside the system, handed out, or drained.
   */
  lemma ExactlyOnePlace(s: State, acts: seq<Action>, sn: u32)
    requires Init(s) && s.clients != [] && Runs(s, acts) && CarefulRun(s, acts)
    ensures After(s, acts).g.lost == [] && After(s, acts).g.doubled == []
    ensures Count(After(s, acts).g.accepted, sn) == 1 ==> Copies(After(s, acts), sn) == 1
  {
    hide Runs, CarefulRun, Copies;
    Conserved(s, acts, sn);
    forall i | 0 <= i < |s.clients|
      ensures Unharmed(At(s, i))
    {
    }
    RunUnharmed(s, acts);
    ClientsStay(s, acts);
    assert Unharmed(At(After(s, acts), 0));
    PushNone(sn);
  }

  lemma {:induction false} ClientsStay(s: State, acts: seq<Action>)
    requires Runs(s, acts)
    ensures |After(s, acts).clients| == |s.clients| && |After(s, acts).sources| == |s.sources|
    decreases |acts|
  {
    if acts != [] {
      ClientsStay(Next(s, acts[0].client, acts[0].op), acts[1..]);
    }
  }
}
