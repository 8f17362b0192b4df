/**
 The delivery pipeline as a state machine. Every critical section is one step, and a step
 that runs between two locks leaves the message in the local variable that holds it: the
 worker's slot, the sweep's copy, the receiver's copy. Any number of clients, each with a
 worker and a receiver thread, and of data sources, which clients may share.
 */
module Pipeline {
  import opened Bytes
  import opened Messages

  /** Where the worker is. */
  datatype Phase =
    | Unbound                  // connecting, binding, or waiting for the bind response
    | Top                      // at the head of the sending loop
    | DlrSweep(pos: nat)       // holds the delivering lock of its source
    | WaitSweep(pos: nat)      // holds the waiting-ack lock
    | TimeoutSweep(pos: nat)   // holds the ack-timeout lock
    | Ready                    // sweeps done
    | Checked(tooMany: bool)   // has looked at the size of the waiting-ack list
    | InHand                   // about to submit the slot
    | Sent(acked: bool)        // in the waiting-ack list, write under way; was the answer taken already?
    | Stopped

  /** Where the receiver is. */
  datatype Receiver =
    | Quiet
    | Missed(sn: u32, there: bool, gone: bool) // not in waiting-ack: was it in ack-timeout, did it expire since?
    | Got(smi: Smi)            // set_ack's copy
    | Matched(smi: Smi)        // sm_is_delivered's copy, delivering lock held

  /** The part number of the last message taken off the queue. */
  datatype Run = Run(total: u8, index: u8)

  datatype Client = Client(source: nat, ackLimit: nat, dlrLimit: int,
                           phase: Phase, slot: Smi, last: Run, start: nat,
                           waiting: seq<Smi>, ackTimeout: seq<Smi>, hold: seq<Smi>, recv: Receiver)

  /** busy: some thread holds the delivering lock between two steps. */
  datatype Source = Source(toSubmit: seq<Smi>, delivering: seq<Smi>, delivered: seq<Smi>, mos: seq<Smi>, busy: bool)

  datatype Stats = Stats(received: nat, submit: nat, delivered: nat, submitFailed: nat,
                         pushedDlrs: nat, mos: nat, pushedMos: nat)

  /**
   The clock, the counters, and the history of the system: what was accepted, what left it
   through the API, what was lost, and what got into two places.
   */
  datatype Globals = Globals(clock: nat, stats: Stats, accepted: seq<Smi>, pulled: seq<Smi>, drained: seq<Smi>,
                             lost: seq<Smi>, doubled: seq<Smi>, pulledMos: seq<Smi>)

  datatype State = State(clients: seq<Client>, sources: seq<Source>, g: Globals)

  /** One client, its source and the globals: all that a step of one of its threads touches. */
  datatype Local = Local(c: Client, d: Source, g: Globals)

  datatype Op =
    | Tick(dt: nat)
    | Accept(smis: seq<Smi>) | Reject(smi: Smi) | Drain | Pull(toGet: int) | MoArrives(mo: Smi) | PullMos
    | Bind | BindTimeout | Stop | Destroy | Reconnect
    | StartSweeps | Sweep | NotAble | Resend | Check | Get | Encode(encoded: bool) | Write(written: bool)
    | AckLook(ackSn: u32) | AckLookAgain | AckPut(success: bool, id: seq<u8>)
    | DlrTake(dlrId: seq<u8>) | DlrPut

  // ---- The API: cb_client_api callers ----

  function DoAccept(l: Local, smis: seq<Smi>): Local {
    l.(d := l.d.(toSubmit := l.d.toSubmit + smis),
       g := l.g.(accepted := l.g.accepted + smis,
                 stats := l.g.stats.(received := l.g.stats.received + |smis|)))
  }

  /** submit_smis with a failure reason: the message goes straight to the delivered list. */
  function DoReject(l: Local, m: Smi): Local {
    Failed(l.(g := l.g.(accepted := l.g.accepted + [m])), m)
  }

  /** client_data_source::submit_failed. */
  function Failed(l: Local, m: Smi): Local {
    l.(d := l.d.(delivered := l.d.delivered + [m]),
       g := l.g.(stats := l.g.stats.(submitFailed := l.g.stats.submitFailed + 1)))
  }

  function DoDrain(l: Local): Local {
    l.(d := l.d.(toSubmit := []), g := l.g.(drained := l.g.drained + l.d.toSubmit))
  }

  /** How many statuses get_global_status hands out: at least one, if there is any. */
  function Taken(size: nat, toGet: int): (n: nat)
    ensures n <= size
  {
    if size == 0 then 0 else if toGet <= 1 then 1 else if toGet <= size then toGet else size
  }

  function DoPull(l: Local, toGet: int): Local {
    var n := Taken(|l.d.delivered|, toGet);
    l.(d := l.d.(delivered := l.d.delivered[n..]),
       g := l.g.(pulled := l.g.pulled + l.d.delivered[..n],
                 stats := l.g.stats.(pushedDlrs := l.g.stats.pushedDlrs + n)))
  }

  function DoMo(l: Local, mo: Smi): Local {
    l.(d := l.d.(mos := l.d.mos + [mo]), g := l.g.(stats := l.g.stats.(mos := l.g.stats.mos + 1)))
  }

  function DoPullMos(l: Local): Local {
    l.(d := l.d.(mos := []),
       g := l.g.(pulledMos := l.g.pulledMos + l.d.mos,
                 stats := l.g.stats.(pushedMos := l.g.stats.pushedMos + |l.d.mos|)))
  }

  // ---- The worker thread ----

  /** The slot holds a message that is nowhere else. */
  predicate Owns(c: Client) {
    c.phase == InHand || (!c.phase.Sent? && c.slot.content != [])
  }

  /** The slot is declared anew: a pending message is gone. */
  function DoBindTimeout(l: Local): Local {
    l.(c := l.c.(slot := NO_SMI), g := if Owns(l.c) then l.g.(lost := l.g.lost + [l.c.slot]) else l.g)
  }

  function DoStop(l: Local): Local {
    l.(c := l.c.(phase := Stopped, slot := NO_SMI),
       g := if Owns(l.c) then l.g.(lost := l.g.lost + [l.c.slot]) else l.g)
  }

  /** stop_all drops a stopped client, and with it what was still unanswered. */
  function DoDestroy(l: Local): Local {
    l.(c := l.c.(waiting := [], ackTimeout := []),
       g := l.g.(lost := l.g.lost + (l.c.waiting + l.c.ackTimeout)))
  }

  function DoStartSweeps(l: Local): Local {
    l.(c := l.c.(phase := DlrSweep(0), start := l.g.clock), d := l.d.(busy := true))
  }

  function DoDlrSweep(l: Local): Local
    requires l.c.phase.DlrSweep?
  {
    var pos := l.c.phase.pos;
    if l.c.hold != [] then Failed(l.(c := l.c.(hold := l.c.hold[1..])), l.c.hold[0])
    else if |l.d.delivering| <= pos then l.(c := l.c.(phase := WaitSweep(0)), d := l.d.(busy := false))
    else if Expired(l.g.clock, l.d.delivering[pos].deliveringTime, l.c.dlrLimit)
    then l.(c := l.c.(hold := [l.d.delivering[pos]]), d := l.d.(delivering := Erase(l.d.delivering, pos)))
    else l.(c := l.c.(phase := DlrSweep(pos + 1)))
  }

  function DoWaitSweep(l: Local): Local
    requires l.c.phase.WaitSweep?
  {
    var pos := l.c.phase.pos;
    if l.c.hold != [] then l.(c := l.c.(hold := l.c.hold[1..], ackTimeout := l.c.ackTimeout + [l.c.hold[0]]))
    else if |l.c.waiting| <= pos then l.(c := l.c.(phase := TimeoutSweep(0)))
    else if Expired(l.g.clock, l.c.waiting[pos].submitTime, l.c.ackLimit)
    then l.(c := l.c.(hold := [l.c.waiting[pos]], waiting := Erase(l.c.waiting, pos)))
    else l.(c := l.c.(phase := WaitSweep(pos + 1)))
  }

  function DoTimeoutSweep(l: Local): Local
    requires l.c.phase.TimeoutSweep?
  {
    var pos := l.c.phase.pos;
    if l.c.hold != [] then Failed(l.(c := l.c.(hold := l.c.hold[1..])), l.c.hold[0])
    else if |l.c.ackTimeout| <= pos then l.(c := l.c.(phase := Ready))
    else if Expired(l.g.clock, l.c.ackTimeout[pos].submitTime, l.c.ackLimit * 5)
    then l.(c := l.c.(hold := [l.c.ackTimeout[pos]], ackTimeout := Erase(l.c.ackTimeout, pos),
                      recv := Expire(l.c.recv, l.c.ackTimeout[pos].sn)))
    else l.(c := l.c.(phase := TimeoutSweep(pos + 1)))
  }

  function Expire(r: Receiver, sn: u32): Receiver {
    if r.Missed? && r.sn == sn then r.(gone := true) else r
  }

  function DoCheck(l: Local): Local {
    l.(c := l.c.(phase := Checked(|l.c.waiting| >= 8)))
  }

  /** The slot still says that a long message is not through. */
  predicate MidLong(c: Client) {
    c.slot.total > 1 && c.slot.total != c.slot.index
  }

  function DoGet(l: Local): Local
    requires l.c.phase.Checked?
  {
    if (l.c.phase.tooMany && !MidLong(l.c)) || l.d.toSubmit == [] then l.(c := l.c.(phase := Top))
    else
      var m := l.d.toSubmit[0];
      l.(c := l.c.(phase := InHand, slot := m, last := Run(m.total, m.index)),
         d := l.d.(toSubmit := l.d.toSubmit[1..]),
         g := l.g.(stats := l.g.stats.(submit := l.g.stats.submit + 1)))
  }

  /** submit up to add_waiting_ack_smi. When encoding throws, nothing was added. */
  function DoEncode(l: Local, encoded: bool): Local {
    if encoded then
      var m := l.c.slot.(submitTime := l.g.clock);
      l.(c := l.c.(phase := Sent(false), slot := m, waiting := l.c.waiting + [m]))
    else Retry(l)
  }

  /** Back to binding; a slot with empty content will not be looked at again. */
  function Retry(l: Local): Local {
    l.(c := l.c.(phase := Unbound),
       g := if l.c.slot.content == [] then l.g.(lost := l.g.lost + [l.c.slot]) else l.g)
  }

  /** The rest of submit, and what worker does with its answer. */
  function DoWrite(l: Local, written: bool): Local {
    var i := FindSn(l.c.waiting, l.c.slot.sn);
    if written then l.(c := l.c.(phase := Top, slot := l.c.slot.(content := [])))
    else if i < |l.c.waiting| then Retry(l.(c := l.c.(waiting := Erase(l.c.waiting, i))))
    else if l.c.slot.content == [] then l.(c := l.c.(phase := Unbound))
    else l.(c := l.c.(phase := Unbound), g := l.g.(doubled := l.g.doubled + [l.c.slot]))
  }

  // ---- The receiver thread ----

  /** get_waiting_ack_smi of set_ack. */
  function DoAckLook(l: Local, sn: u32): Local {
    var i := FindSn(l.c.waiting, sn);
    if i < |l.c.waiting| then
      l.(c := l.c.(waiting := Erase(l.c.waiting, i), recv := Got(l.c.waiting[i]),
                   phase := if l.c.phase.Sent? && l.c.slot.sn == sn then Sent(true) else l.c.phase))
    else l.(c := l.c.(recv := Missed(sn, FindSn(l.c.ackTimeout, sn) < |l.c.ackTimeout|, false)))
  }

  /** get_ack_timeout_smi of set_ack. */
  function DoAckLookAgain(l: Local): Local
    requires l.c.recv.Missed?
  {
    var i := FindSn(l.c.ackTimeout, l.c.recv.sn);
    if i < |l.c.ackTimeout| then
      l.(c := l.c.(ackTimeout := Erase(l.c.ackTimeout, i), recv := Got(l.c.ackTimeout[i])))
    else l.(c := l.c.(recv := Quiet))
  }

  function DoAckPut(l: Local, success: bool, id: seq<u8>): Local
    requires l.c.recv.Got?
  {
    var m := l.c.recv.smi.(messageId := id);
    var l' := l.(c := l.c.(recv := Quiet));
    if success then l'.(d := l.d.(delivering := l.d.delivering + [m.(deliveringTime := l.g.clock)]))
    else Failed(l', m)
  }

  /** sm_is_delivered up to the erase; it keeps the delivering lock. */
  function DoDlrTake(l: Local, id: seq<u8>): Local {
    var i := FindId(l.d.delivering, id);
    if i < |l.d.delivering| then
      l.(c := l.c.(recv := Matched(l.d.delivering[i])),
         d := l.d.(delivering := Erase(l.d.delivering, i), busy := true))
    else l
  }

  function DoDlrPut(l: Local): Local
    requires l.c.recv.Matched?
  {
    l.(c := l.c.(recv := Quiet), d := l.d.(delivered := l.d.delivered + [l.c.recv.smi], busy := false),
       g := l.g.(stats := l.g.stats.(delivered := l.g.stats.delivered + 1)))
  }

  // ---- The machine ----

  /** When a step can happen: the thread is there, and the locks it needs are free. */
  predicate Can(l: Local, op: Op) {
    match op
    case Tick(dt) => l.g.clock + dt < 0x8000_0000
    case Accept(_) => true
    case Reject(_) => true
    case Drain => true
    case Pull(_) => true
    case MoArrives(_) => true
    case PullMos => true
    case Bind => l.c.phase == Unbound
    case BindTimeout => l.c.phase == Unbound
    case Stop => l.c.phase == Unbound || l.c.phase == Top
    case Destroy => l.c.phase == Stopped && l.c.recv == Quiet
    case Reconnect => l.c.phase == Top
    case StartSweeps => l.c.phase == Top && !l.d.busy
    case Sweep => l.c.phase.DlrSweep? || l.c.phase.WaitSweep? || l.c.phase.TimeoutSweep?
    case NotAble => l.c.phase == Ready
    case Resend => l.c.phase == Ready && l.c.slot.content != []
    case Check => l.c.phase == Ready && l.c.slot.content == []
    case Get => l.c.phase.Checked?
    case Encode(_) => l.c.phase == InHand
    case Write(_) => l.c.phase.Sent?
    case AckLook(_) => l.c.recv == Quiet && !l.c.phase.WaitSweep?
    case AckLookAgain => l.c.recv.Missed? && !l.c.phase.TimeoutSweep?
    case AckPut(success, _) => l.c.recv.Got? && (success ==> !l.d.busy)
    case DlrTake(_) => l.c.recv == Quiet && !l.d.busy
    case DlrPut => l.c.recv.Matched?
  }

  function Do(l: Local, op: Op): Local
    requires Can(l, op)
  {
    match op
    case Tick(dt) => l.(g := l.g.(clock := l.g.clock + dt))
    case Accept(smis) => DoAccept(l, smis)
    case Reject(m) => DoReject(l, m)
    case Drain => DoDrain(l)
    case Pull(toGet) => DoPull(l, toGet)
    case MoArrives(mo) => DoMo(l, mo)
    case PullMos => DoPullMos(l)
    case Bind => l.(c := l.c.(phase := Top))
    case BindTimeout => DoBindTimeout(l)
    case Stop => DoStop(l)
    case Destroy => DoDestroy(l)
    case Reconnect => l.(c := l.c.(phase := Unbound))
    case StartSweeps => DoStartSweeps(l)
    case Sweep =>
      if l.c.phase.DlrSweep? then DoDlrSweep(l)
      else if l.c.phase.WaitSweep? then DoWaitSweep(l)
      else DoTimeoutSweep(l)
    case NotAble => l.(c := l.c.(phase := Top))
    case Resend => l.(c := l.c.(phase := InHand))
    case Check => DoCheck(l)
    case Get => DoGet(l)
    case Encode(encoded) => DoEncode(l, encoded)
    case Write(written) => DoWrite(l, written)
    case AckLook(sn) => DoAckLook(l, sn)
    case AckLookAgain => DoAckLookAgain(l)
    case AckPut(success, id) => DoAckPut(l, success, id)
    case DlrTake(id) => DoDlrTake(l, id)
    case DlrPut => DoDlrPut(l)
  }

  predicate WellTyped(s: State) {
    forall i :: 0 <= i < |s.clients| ==> s.clients[i].source < |s.sources|
  }

  function At(s: State, i: nat): Local
    requires WellTyped(s) && i < |s.clients|
  {
    Local(s.clients[i], s.sources[s.clients[i].source], s.g)
  }

  /** A step of some thread of client i, or of an API caller that works through it. */
  predicate Enabled(s: State, i: nat, op: Op) {
    WellTyped(s) && i < |s.clients| && Can(At(s, i), op)
  }

  function Next(s: State, i: nat, op: Op): State
    requires Enabled(s, i, op)
  {
    var l := Do(At(s, i), op);
    State(s.clients[i := l.c], s.sources[s.clients[i].source := l.d], l.g)
  }

  predicate NewClient(c: Client) {
    c.phase == Unbound && c.slot == NO_SMI && c.last == Run(0, 0) && c.start == 0 &&
    c.waiting == [] && c.ackTimeout == [] && c.hold == [] && c.recv == Quiet
  }

  predicate Init(s: State) {
    && WellTyped(s)
    && (forall i :: 0 <= i < |s.clients| ==> NewClient(s.clients[i]))
    && (forall j :: 0 <= j < |s.sources| ==> s.sources[j] == Source([], [], [], [], false))
    && s.g == Globals(s.g.clock, Stats(0, 0, 0, 0, 0, 0, 0), [], [], [], [], [], [])
    && s.g.clock < 0x8000_0000
  }

  datatype Action = Action(client: nat, op: Op)

  predicate Runs(s: State, acts: seq<Action>)
    decreases |acts|
  {
    acts == [] || (Enabled(s, acts[0].client, acts[0].op) && Runs(Next(s, acts[0].client, acts[0].op), acts[1..]))
  }

  function After(s: State, acts: seq<Action>): State
    requires Runs(s, acts)
    decreases |acts|
  {
    if acts == [] then s else After(Next(s, acts[0].client, acts[0].op), acts[1..])
  }

  lemma SourceKept(l: Local, op: Op)
    requires Can(l, op)
    ensures Do(l, op).c.source == l.c.source
  {
  }

  lemma StaysWellTyped(s: State, i: nat, op: Op)
    requires Enabled(s, i, op)
    ensures WellTyped(Next(s, i, op))
  {
    hide Do, Can;
    SourceKept(At(s, i), op);
  }
}
