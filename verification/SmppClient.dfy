/**
 The client object: its two lists of unanswered messages, the receiver's set_ack and the
 worker's submit, proved against the steps of the pipeline machine; and the sweeps as loops,
 proved to be what the machine's sweep steps add up to when nobody interferes.
 */
module SmppClient {
  import opened Bytes
  import opened Messages
  import opened Pipeline
  import opened DataSource
  import opened DeliveryIds

  class Unanswered {
    const source: ClientDataSource
    const ackLimit: nat
    var waiting: seq<Smi>
    var ackTimeout: seq<Smi>

    /** The machine's view of this client, its threads being where the arguments say. */
    function AsClient(phase: Phase, slot: Smi, recv: Receiver): Client
      reads this
    {
      Client(0, ackLimit, 0, phase, slot, Run(0, 0), 0, waiting, ackTimeout, [], recv)
    }

    ghost predicate ShowsLists(l: Local)
      reads this
    {
      l.c.waiting == waiting && l.c.ackTimeout == ackTimeout
    }

    constructor (source: ClientDataSource, ackLimit: nat)
      ensures this.source == source && this.ackLimit == ackLimit && waiting == [] && ackTimeout == []
    {
      this.source := source;
      this.ackLimit := ackLimit;
      waiting, ackTimeout := [], [];
    }

    method Find(list: seq<Smi>, sn: u32) returns (i: nat)
      ensures i == FindSn(list, sn)
    {
      i := 0;
      while i < |list| && list[i].sn != sn
        invariant i <= FindSn(list, sn)
      {
        i := i + 1;
      }
    }

    method GetWaitingAckSmi(sn: u32) returns (found: bool, smi: Smi)
      modifies this`waiting
      ensures var i := FindSn(old(waiting), sn);
              && found == (i < |old(waiting)|)
              && (found ==> smi == old(waiting)[i] && waiting == Erase(old(waiting), i))
              && (!found ==> waiting == old(waiting))
      ensures found == Holds(old(waiting), sn)
      ensures found ==> smi.sn == sn && FirstLeaves(old(waiting), smi, waiting)
    {
      FindSnHolds(waiting, sn);
      if FindSn(waiting, sn) < |waiting| {
        ErasedLeaves(waiting, sn);
      }
      hide Holds, FirstLeaves;
      smi := NO_SMI;
      var i := Find(waiting, sn);
      found := i < |waiting|;
      if found {
        smi := waiting[i];
        waiting := Erase(waiting, i);
      }
    }

    method GetAckTimeoutSmi(sn: u32) returns (found: bool, smi: Smi)
      modifies this`ackTimeout
      ensures var i := FindSn(old(ackTimeout), sn);
              && found == (i < |old(ackTimeout)|)
              && (found ==> smi == old(ackTimeout)[i] && ackTimeout == Erase(old(ackTimeout), i))
              && (!found ==> ackTimeout == old(ackTimeout))
      ensures found == Holds(old(ackTimeout), sn)
      ensures found ==> smi.sn == sn && FirstLeaves(old(ackTimeout), smi, ackTimeout)
    {
      FindSnHolds(ackTimeout, sn);
      if FindSn(ackTimeout, sn) < |ackTimeout| {
        ErasedLeaves(ackTimeout, sn);
      }
      hide Holds, FirstLeaves;
      smi := NO_SMI;
      var i := Find(ackTimeout, sn);
      found := i < |ackTimeout|;
      if found {
        smi := ackTimeout[i];
        ackTimeout := Erase(ackTimeout, i);
      }
    }

    method TooManyWaitingAckSmis() returns (tooMany: bool)
      ensures DoCheck(source.Shot(AsClient(Ready, NO_SMI, Quiet), 0)).c.phase == Checked(tooMany)
      ensures tooMany == (|waiting| >= 8)
    {
      tooMany := |waiting| >= 8;
    }

    /** Takes the message from whichever list has it, and files it by the answer. */
    method SetAck(sn: u32, id: seq<u8>, success: bool, now: nat)
      modifies this`waiting, this`ackTimeout, source`delivering, source`delivered, source.stats`submitFailed
      ensures var l := Answered(old(source.Shot(AsClient(Top, NO_SMI, Quiet), now)), sn, id, success);
              ShowsLists(l) && source.Shows(l)
      ensures Holds(old(waiting), sn) ==>
                exists m: Smi :: m.sn == sn && FirstLeaves(old(waiting), m, waiting) && ackTimeout == old(ackTimeout)
                                 && AnswerFiled(m, id, success, now, old(source.delivering), old(source.delivered),
                                                source.delivering, source.delivered)
      ensures !Holds(old(waiting), sn) && Holds(old(ackTimeout), sn) ==>
                exists m: Smi :: m.sn == sn && FirstLeaves(old(ackTimeout), m, ackTimeout) && waiting == old(waiting)
                                 && AnswerFiled(m, id, success, now, old(source.delivering), old(source.delivered),
                                                source.delivering, source.delivered)
      ensures !Holds(old(waiting), sn) && !Holds(old(ackTimeout), sn) ==>
                && waiting == old(waiting) && ackTimeout == old(ackTimeout)
                && source.delivering == old(source.delivering) && source.delivered == old(source.delivered)
    {
      hide FindSn, Erase, Holds, FirstLeaves;
      var found, smi := GetWaitingAckSmi(sn);
      if !found {
        found, smi := GetAckTimeoutSmi(sn);
      }
      if found {
        smi := smi.(messageId := id);
        if success {
          source.SmIsDelivering(smi, now);
        } else {
          source.SubmitFailed(smi);
        }
      }
    }

    /** Builds the PDU, files the message as waiting, writes, and takes it back if that fails. */
    method Submit(smi: Smi, encoded: bool, written: bool, now: nat) returns (ok: bool, slot: Smi)
      modifies this`waiting
      ensures var l := Submitted(old(source.Shot(AsClient(InHand, smi, Quiet), now)), encoded, written);
              && ok == (encoded && written) && ShowsLists(l)
              && slot.(content := if ok then [] else slot.content) == l.c.slot
      ensures slot == if encoded then smi.(submitTime := now) else smi
      ensures !encoded ==> waiting == old(waiting)
      ensures ok ==> waiting == old(waiting) + [slot]
      ensures encoded && !written ==> exists m: Smi :: m.sn == smi.sn && FirstLeaves(old(waiting) + [slot], m, waiting)
    {
      hide FindSn, Erase, FirstLeaves;
      slot := smi;
      if !encoded {
        return false, slot;
      }
      slot := slot.(submitTime := now);
      waiting := waiting + [slot];
      ok := written;
      if !written {
        assert waiting[|waiting| - 1].sn == slot.sn;
        var found, copy := GetWaitingAckSmi(slot.sn);
      }
    }

    /** Moves what has waited too long to the other list. */
    method ProcessWaitingAckSmis(now: nat)
      modifies this`waiting, this`ackTimeout
      ensures waiting == Kept(old(waiting), now, false, ackLimit)
      ensures ackTimeout == old(ackTimeout) + Dropped(old(waiting), now, false, ackLimit)
      ensures SweptOver(old(waiting), waiting, old(ackTimeout), ackTimeout, now, false, ackLimit)
    {
      SweepMeans(waiting, ackTimeout, now, false, ackLimit);
      hide Kept, Dropped, Expired, Erase, SweptOver;
      var it := 0;
      ghost var out: seq<Smi> := [];
      assert waiting[0..] == waiting && waiting[..0] == [];
      while it < |waiting|
        invariant 0 <= it <= |waiting|
        invariant waiting[..it] + Kept(waiting[it..], now, false, ackLimit) == Kept(old(waiting), now, false, ackLimit)
        invariant out + Dropped(waiting[it..], now, false, ackLimit) == Dropped(old(waiting), now, false, ackLimit)
        invariant ackTimeout == old(ackTimeout) + out
        decreases |waiting| - it
      {
        SweepStep(waiting, it, now, false, ackLimit);
        var m := waiting[it];
        if Expired(now, m.submitTime, ackLimit) {
          waiting := Erase(waiting, it);
          out := out + [m];
          ackTimeout := ackTimeout + [m];
        } else {
          it := it + 1;
        }
      }
      NothingToSweep(now, false, ackLimit);
      assert waiting[it..] == [] && waiting[..it] == waiting;
    }

    /** Fails what has waited five times as long. */
    method ProcessAckTimeoutSmis(now: nat)
      modifies this`ackTimeout, source`delivered, source.stats`submitFailed
      ensures ackTimeout == Kept(old(ackTimeout), now, false, ackLimit * 5)
      ensures source.delivered == old(source.delivered) + Dropped(old(ackTimeout), now, false, ackLimit * 5)
      ensures source.stats.submitFailed
           == old(source.stats.submitFailed) + |Dropped(old(ackTimeout), now, false, ackLimit * 5)|
      ensures SweptOver(old(ackTimeout), ackTimeout, old(source.delivered), source.delivered, now, false, ackLimit * 5)
    {
      var limit := ackLimit * 5;
      hide *;
      var it := 0;
      ghost var out: seq<Smi> := [];
      assert ackTimeout[0..] == ackTimeout && ackTimeout[..0] == [];
      while it < |ackTimeout|
        invariant 0 <= it <= |ackTimeout|
        invariant ackTimeout[..it] + Kept(ackTimeout[it..], now, false, limit)
               == Kept(old(ackTimeout), now, false, limit)
        invariant out + Dropped(ackTimeout[it..], now, false, limit)
               == Dropped(old(ackTimeout), now, false, limit)
        invariant source.delivered == old(source.delivered) + out
        invariant source.stats.submitFailed == old(source.stats.submitFailed) + |out|
        decreases |ackTimeout| - it
      {
        SweepStep(ackTimeout, it, now, false, limit);
        var m := ackTimeout[it];
        SinceSubmit(m);
        if Expired(now, m.submitTime, limit) {
          ackTimeout := Erase(ackTimeout, it);
          out := out + [m];
          source.SubmitFailed(m);
        } else {
          it := it + 1;
        }
      }
      NothingToSweep(now, false, limit);
      assert ackTimeout[it..] == [] && ackTimeout[..it] == ackTimeout;
      SweepMeans(old(ackTimeout), old(source.delivered), now, false, limit);
    }
  }

  /** The answered message gets its id and goes to the end of one list, with the time if it is under way. */
  predicate AnswerFiled(m: Smi, id: seq<u8>, success: bool, now: nat, delivering: seq<Smi>, delivered: seq<Smi>,
                        delivering': seq<Smi>, delivered': seq<Smi>) {
    if success then delivering' == delivering + [m.(messageId := id, deliveringTime := now)] && delivered' == delivered
    else delivering' == delivering && delivered' == delivered + [m.(messageId := id)]
  }

  /**
   An unanswered message is acknowledged under an id, and a report comes in for that id and
   for no other message under way: the report finds it, and it ends as delivered.
   */
  method AckThenReport(u: Unanswered, sn: u32, id: seq<u8>, now: nat, reported: seq<u8>, usingHex: bool, wraps: bool)
    returns (found: bool)
    requires Holds(u.waiting, sn) || Holds(u.ackTimeout, sn)
    requires IsFor(reported, id, usingHex, wraps)
    requires forall i :: 0 <= i < |u.source.delivering| ==>
               !IsFor(reported, u.source.delivering[i].messageId, usingHex, wraps)
    modifies u`waiting, u`ackTimeout, u.source`delivering, u.source`delivered,
             u.source.stats`submitFailed, u.source.stats`delivered
    ensures found && u.source.delivering == old(u.source.delivering)
    ensures exists m: Smi :: m.sn == sn && (m in old(u.waiting) || m in old(u.ackTimeout))
                             && u.source.delivered == old(u.source.delivered) + [m.(messageId := id, deliveringTime := now)]
  {
    hide IsFor, Holds;
    u.SetAck(sn, id, true, now);
    ghost var list := u.source.delivering;
    assert list[|list| - 1].messageId == id;
    found := u.source.SmIsDelivered(reported, usingHex, wraps);
  }

  lemma SinceSubmit(m: Smi)
    ensures Since(m, false) == m.submitTime
  {
  }

  /** The receiver's three steps in a row. */
  function Answered(l: Local, sn: u32, id: seq<u8>, success: bool): Local {
    var looked := DoAckLook(l, sn);
    var again := if looked.c.recv.Missed? then DoAckLookAgain(looked) else looked;
    if again.c.recv.Got? then DoAckPut(again, success, id) else again
  }

  /** The worker's two steps in a row. */
  function Submitted(l: Local, encoded: bool, written: bool): Local {
    if encoded then DoWrite(DoEncode(l, true), written) else DoEncode(l, false)
  }

  // ---- The machine's sweeps, run to their end ----

  /** How much of the current sweep is left. */
  function Left(l: Local): nat {
    match l.c.phase
    case DlrSweep(pos) => if pos <= |l.d.delivering| then 2 * (|l.d.delivering| - pos) + |l.c.hold| else |l.c.hold|
    case WaitSweep(pos) => if pos <= |l.c.waiting| then 2 * (|l.c.waiting| - pos) + |l.c.hold| else |l.c.hold|
    case TimeoutSweep(pos) => if pos <= |l.c.ackTimeout| then 2 * (|l.c.ackTimeout| - pos) + |l.c.hold| else |l.c.hold|
    case _ => 0
  }

  function RunDlrSweep(l: Local): Local
    requires l.c.phase.DlrSweep?
    decreases Left(l)
  {
    var l' := DoDlrSweep(l);
    if l'.c.phase.DlrSweep? then RunDlrSweep(l') else l'
  }

  function RunWaitSweep(l: Local): Local
    requires l.c.phase.WaitSweep?
    decreases Left(l)
  {
    var l' := DoWaitSweep(l);
    if l'.c.phase.WaitSweep? then RunWaitSweep(l') else l'
  }

  function RunTimeoutSweep(l: Local): Local
    requires l.c.phase.TimeoutSweep?
    decreases Left(l)
  {
    var l' := DoTimeoutSweep(l);
    if l'.c.phase.TimeoutSweep? then RunTimeoutSweep(l') else l'
  }

  lemma {:induction false} WaitSweepIs(l: Local)
    requires l.c.phase.WaitSweep? && l.c.hold == [] && l.c.phase.pos <= |l.c.waiting|
    ensures var r, pos, now, limit := RunWaitSweep(l), l.c.phase.pos, l.g.clock, l.c.ackLimit;
            && r.c.waiting == l.c.waiting[..pos] + Kept(l.c.waiting[pos..], now, false, limit)
            && r.c.ackTimeout == l.c.ackTimeout + Dropped(l.c.waiting[pos..], now, false, limit)
            && r.c.phase == TimeoutSweep(0) && r.c.hold == [] && r.d == l.d && r.g == l.g
    decreases Left(l)
  {
    hide Kept, Dropped, Expired, Erase;
    var pos, now, limit := l.c.phase.pos, l.g.clock, l.c.ackLimit;
    if pos == |l.c.waiting| {
      NothingToSweep(now, false, limit);
      assert l.c.waiting[pos..] == [] && l.c.waiting[..pos] == l.c.waiting;
    } else {
      SweepStep(l.c.waiting, pos, now, false, limit);
      var l' := DoWaitSweep(l);
      if Expired(now, l.c.waiting[pos].submitTime, limit) {
        assert DoWaitSweep(l').c.hold == [];
        WaitSweepIs(DoWaitSweep(l'));
      } else {
        WaitSweepIs(l');
      }
    }
  }

  /** The front of what is left to look at has been failed. */
  function TimeoutFailed(l: Local): Local
    requires l.c.phase.TimeoutSweep? && l.c.phase.pos < |l.c.ackTimeout|
  {
    var m := l.c.ackTimeout[l.c.phase.pos];
    Failed(l.(c := l.c.(ackTimeout := Erase(l.c.ackTimeout, l.c.phase.pos), recv := Expire(l.c.recv, m.sn))), m)
  }

  /** One turn of the sweep: the end, or one message. */
  lemma TimeoutTurn(l: Local)
    requires l.c.phase.TimeoutSweep? && l.c.hold == [] && l.c.phase.pos <= |l.c.ackTimeout|
    ensures var pos := l.c.phase.pos;
            if pos == |l.c.ackTimeout| then RunTimeoutSweep(l) == l.(c := l.c.(phase := Ready))
            else if Expired(l.g.clock, l.c.ackTimeout[pos].submitTime, l.c.ackLimit * 5)
            then RunTimeoutSweep(l) == RunTimeoutSweep(TimeoutFailed(l))
            else RunTimeoutSweep(l) == RunTimeoutSweep(l.(c := l.c.(phase := TimeoutSweep(pos + 1))))
  {
    hide Expired, Erase, Expire;
    var l' := DoTimeoutSweep(l);
    if l'.c.hold != [] {
      assert DoTimeoutSweep(l') == TimeoutFailed(l);
    }
  }

  lemma {:induction false} TimeoutSweepIs(l: Local)
    requires l.c.phase.TimeoutSweep? && l.c.hold == [] && l.c.phase.pos <= |l.c.ackTimeout|
    ensures var r, pos, now, limit := RunTimeoutSweep(l), l.c.phase.pos, l.g.clock, l.c.ackLimit * 5;
            && r.c.ackTimeout == l.c.ackTimeout[..pos] + Kept(l.c.ackTimeout[pos..], now, false, limit)
            && r.d == l.d.(delivered := l.d.delivered + Dropped(l.c.ackTimeout[pos..], now, false, limit))
            && r.g.stats.submitFailed
               == l.g.stats.submitFailed + |Dropped(l.c.ackTimeout[pos..], now, false, limit)|
            && r.c.phase == Ready && r.c.hold == [] && r.c.waiting == l.c.waiting
    decreases Left(l)
  {
    hide Kept, Dropped, Expired, Erase, Expire, RunTimeoutSweep, DoTimeoutSweep;
    TimeoutTurn(l);
    var pos, now, limit := l.c.phase.pos, l.g.clock, l.c.ackLimit * 5;
    if pos == |l.c.ackTimeout| {
      NothingToSweep(now, false, limit);
      assert l.c.ackTimeout[pos..] == [] && l.c.ackTimeout[..pos] == l.c.ackTimeout;
    } else {
      SweepStep(l.c.ackTimeout, pos, now, false, limit);
      if Expired(now, l.c.ackTimeout[pos].submitTime, limit) {
        TimeoutSweepIs(TimeoutFailed(l));
      } else {
        TimeoutSweepIs(l.(c := l.c.(phase := TimeoutSweep(pos + 1))));
      }
    }
  }

  function DlrFailed(l: Local): Local
    requires l.c.phase.DlrSweep? && l.c.phase.pos < |l.d.delivering|
  {
    var m := l.d.delivering[l.c.phase.pos];
    Failed(l.(d := l.d.(delivering := Erase(l.d.delivering, l.c.phase.pos))), m)
  }

  lemma DlrTurn(l: Local)
    requires l.c.phase.DlrSweep? && l.c.hold == [] && l.c.phase.pos <= |l.d.delivering|
    ensures var pos := l.c.phase.pos;
            if pos == |l.d.delivering|
            then RunDlrSweep(l) == l.(c := l.c.(phase := WaitSweep(0)), d := l.d.(busy := false))
            else if Expired(l.g.clock, l.d.delivering[pos].deliveringTime, l.c.dlrLimit)
            then RunDlrSweep(l) == RunDlrSweep(DlrFailed(l))
            else RunDlrSweep(l) == RunDlrSweep(l.(c := l.c.(phase := DlrSweep(pos + 1))))
  {
    hide Expired, Erase;
    var l' := DoDlrSweep(l);
    if l'.c.hold != [] {
      assert DoDlrSweep(l') == DlrFailed(l);
    }
  }

  lemma {:induction false} DlrSweepIs(l: Local)
    requires l.c.phase.DlrSweep? && l.c.hold == [] && l.c.phase.pos <= |l.d.delivering|
    ensures var r, pos, now, limit := RunDlrSweep(l), l.c.phase.pos, l.g.clock, l.c.dlrLimit;
            && r.d.delivering == l.d.delivering[..pos] + Kept(l.d.delivering[pos..], now, true, limit)
            && r.d.delivered == l.d.delivered + Dropped(l.d.delivering[pos..], now, true, limit)
            && r.g.stats.submitFailed
               == l.g.stats.submitFailed + |Dropped(l.d.delivering[pos..], now, true, limit)|
            && r.c == l.c.(phase := WaitSweep(0)) && !r.d.busy
    decreases Left(l)
  {
    hide Kept, Dropped, Expired, Erase, RunDlrSweep, DoDlrSweep;
    DlrTurn(l);
    var pos, now, limit := l.c.phase.pos, l.g.clock, l.c.dlrLimit;
    if pos == |l.d.delivering| {
      NothingToSweep(now, true, limit);
      assert l.d.delivering[pos..] == [] && l.d.delivering[..pos] == l.d.delivering;
    } else {
      SweepStep(l.d.delivering, pos, now, true, limit);
      if Expired(now, l.d.delivering[pos].deliveringTime, limit) {
        DlrSweepIs(DlrFailed(l));
      } else {
        DlrSweepIs(l.(c := l.c.(phase := DlrSweep(pos + 1))));
      }
    }
  }
}
