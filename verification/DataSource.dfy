/**
 A client's data source and the global counters as objects. Each method is one critical
 section, proved against the step of the pipeline machine that stands for it.
 */
module DataSource {
  import opened Bytes
  import opened Messages
  import opened Pipeline
  import opened DeliveryIds

  // ---- Sweeping a list ----

  function Since(m: Smi, byDelivery: bool): nat {
    if byDelivery then m.deliveringTime else m.submitTime
  }

  /** What a sweep leaves in the list, and what it takes out, both in order. */
  function Kept(list: seq<Smi>, now: nat, byDelivery: bool, limit: int): (r: seq<Smi>)
    ensures forall m :: m in r ==> m in list && !Expired(now, Since(m, byDelivery), limit)
  {
    if list == [] then []
    else (if Expired(now, Since(list[0], byDelivery), limit) then [] else [list[0]])
         + Kept(list[1..], now, byDelivery, limit)
  }

  function Dropped(list: seq<Smi>, now: nat, byDelivery: bool, limit: int): (r: seq<Smi>)
    ensures forall m :: m in r ==> m in list && Expired(now, Since(m, byDelivery), limit)
  {
    if list == [] then []
    else (if Expired(now, Since(list[0], byDelivery), limit) then [list[0]] else [])
         + Dropped(list[1..], now, byDelivery, limit)
  }

  lemma {:induction false} KeptAndDropped(list: seq<Smi>, now: nat, byDelivery: bool, limit: int)
    ensures |Kept(list, now, byDelivery, limit)| + |Dropped(list, now, byDelivery, limit)| == |list|
    ensures multiset(Kept(list, now, byDelivery, limit)) + multiset(Dropped(list, now, byDelivery, limit)) == multiset(list)
  {
    if list != [] {
      KeptAndDropped(list[1..], now, byDelivery, limit);
      assert list == [list[0]] + list[1..];
    }
  }

  /** One element further into the list. */
  lemma SweepStep(list: seq<Smi>, i: nat, now: nat, byDelivery: bool, limit: int)
    requires i < |list|
    ensures var x, rest := Expired(now, Since(list[i], byDelivery), limit), list[i + 1..];
            && Kept(list[i..], now, byDelivery, limit)
               == (if x then [] else [list[i]]) + Kept(rest, now, byDelivery, limit)
            && Dropped(list[i..], now, byDelivery, limit)
               == (if x then [list[i]] else []) + Dropped(rest, now, byDelivery, limit)
            && Erase(list, i)[i..] == rest && Erase(list, i)[..i] == list[..i]
            && list[..i + 1] == list[..i] + [list[i]]
  {
    hide Expired, Since;
    assert list[i..][1..] == list[i + 1..];
  }

  lemma NothingToSweep(now: nat, byDelivery: bool, limit: int)
    ensures Kept([], now, byDelivery, limit) == [] && Dropped([], now, byDelivery, limit) == []
  {
  }

  /** Every message of the list is at most limit old, or came with a time that is still to be. */
  predicate NoneOlder(list: seq<Smi>, now: nat, byDelivery: bool, limit: int) {
    forall i :: 0 <= i < |list| ==>
      var since := if byDelivery then list[i].deliveringTime else list[i].submitTime;
      since <= now ==> now - since <= limit
  }

  predicate AllOlder(list: seq<Smi>, now: nat, byDelivery: bool, limit: int) {
    forall i :: 0 <= i < |list| ==>
      var since := if byDelivery then list[i].deliveringTime else list[i].submitTime;
      since <= now ==> now - since > limit
  }

  /** In plain arithmetic: what is kept is not past the limit, and what is taken is. */
  lemma SweptByAge(list: seq<Smi>, now: nat, byDelivery: bool, limit: int)
    requires now < 0x8000_0000
    ensures NoneOlder(Kept(list, now, byDelivery, limit), now, byDelivery, limit)
    ensures AllOlder(Dropped(list, now, byDelivery, limit), now, byDelivery, limit)
  {
    hide Expired;
    var kept, dropped := Kept(list, now, byDelivery, limit), Dropped(list, now, byDelivery, limit);
    forall m | (m in kept || m in dropped) && Since(m, byDelivery) <= now
      ensures Expired(now, Since(m, byDelivery), limit) <==> now - Since(m, byDelivery) > limit
    {
      ExpiredIff(now, Since(m, byDelivery), limit);
    }
    assert forall i :: 0 <= i < |kept| ==> kept[i] in kept;
    assert forall i :: 0 <= i < |dropped| ==> dropped[i] in dropped;
  }

  /**
   A sweep of a list over to the end of another one: nothing is lost or changed, and who goes
   is decided by the limit in plain arithmetic.
   */
  predicate SweptOver(list: seq<Smi>, kept: seq<Smi>, before: seq<Smi>, after: seq<Smi>,
                      now: nat, byDelivery: bool, limit: int) {
    && |before| <= |after| && after[..|before|] == before
    && multiset(kept) + multiset(after[|before|..]) == multiset(list)
    && (now < 0x8000_0000 ==>
          NoneOlder(kept, now, byDelivery, limit) && AllOlder(after[|before|..], now, byDelivery, limit))
  }

  lemma SweepMeans(list: seq<Smi>, before: seq<Smi>, now: nat, byDelivery: bool, limit: int)
    ensures SweptOver(list, Kept(list, now, byDelivery, limit), before,
                      before + Dropped(list, now, byDelivery, limit), now, byDelivery, limit)
  {
    hide Kept, Dropped, NoneOlder, AllOlder;
    var dropped := Dropped(list, now, byDelivery, limit);
    assert (before + dropped)[|before|..] == dropped;
    KeptAndDropped(list, now, byDelivery, limit);
    if now < 0x8000_0000 {
      SweptByAge(list, now, byDelivery, limit);
    }
  }

  lemma SweptHead(m: Smi, rest: seq<Smi>, now: nat, byDelivery: bool, limit: int)
    ensures Kept([m] + rest, now, byDelivery, limit)
         == (if Expired(now, Since(m, byDelivery), limit) then [] else [m]) + Kept(rest, now, byDelivery, limit)
    ensures Dropped([m] + rest, now, byDelivery, limit)
         == (if Expired(now, Since(m, byDelivery), limit) then [m] else []) + Dropped(rest, now, byDelivery, limit)
  {
    assert ([m] + rest)[1..] == rest;
  }

  /** A sweep looks at each message by itself: order is kept on either side. */
  lemma {:induction false} SweptInOrder(a: seq<Smi>, b: seq<Smi>, now: nat, byDelivery: bool, limit: int)
    ensures Kept(a + b, now, byDelivery, limit) == Kept(a, now, byDelivery, limit) + Kept(b, now, byDelivery, limit)
    ensures Dropped(a + b, now, byDelivery, limit)
         == Dropped(a, now, byDelivery, limit) + Dropped(b, now, byDelivery, limit)
  {
    hide Kept, Dropped, Expired, Since;
    if a == [] {
      NothingToSweep(now, byDelivery, limit);
      assert a + b == b;
    } else {
      var m, rest := a[0], a[1..];
      assert a == [m] + rest && a + b == [m] + (rest + b);
      SweptHead(m, rest, now, byDelivery, limit);
      SweptHead(m, rest + b, now, byDelivery, limit);
      SweptInOrder(rest, b, now, byDelivery, limit);
    }
  }

  // ---- The counters ----

  class ClientsStatistic {
    var received: nat
    var submit: nat
    var delivered: nat
    var submitFailed: nat
    var pushedDlrs: nat
    var mos: nat
    var pushedMos: nat

    function View(): Stats
      reads this
    {
      Stats(received, submit, delivered, submitFailed, pushedDlrs, mos, pushedMos)
    }

    constructor ()
      ensures View() == Stats(0, 0, 0, 0, 0, 0, 0)
    {
      received, submit, delivered, submitFailed, pushedDlrs, mos, pushedMos := 0, 0, 0, 0, 0, 0, 0;
    }

    method SmsReceived(n: nat)
      modifies this`received
      ensures received == old(received) + n
    {
      received := received + n;
    }

    method SubmitSms(n: nat)
      modifies this`submit
      ensures submit == old(submit) + n
    {
      submit := submit + n;
    }

    method SmIsDelivered()
      modifies this`delivered
      ensures delivered == old(delivered) + 1
    {
      delivered := delivered + 1;
    }

    method SubmitFailed()
      modifies this`submitFailed
      ensures submitFailed == old(submitFailed) + 1
    {
      submitFailed := submitFailed + 1;
    }

    method PushDlrs(n: nat)
      modifies this`pushedDlrs
      ensures pushedDlrs == old(pushedDlrs) + n
    {
      pushedDlrs := pushedDlrs + n;
    }

    method MoReceived()
      modifies this`mos
      ensures mos == old(mos) + 1
    {
      mos := mos + 1;
    }

    method PushMos(n: nat)
      modifies this`pushedMos
      ensures pushedMos == old(pushedMos) + n
    {
      pushedMos := pushedMos + n;
    }
  }

  // ---- The source ----

  /** Where the search stops: at the first message that the report is for. */
  lemma FindIdIsFor(list: seq<Smi>, reported: seq<u8>, usingHex: bool, wraps: bool)
    ensures var i := FindId(list, RealId(reported, usingHex, wraps));
            && (i < |list| ==> IsFor(reported, list[i].messageId, usingHex, wraps))
            && forall k :: 0 <= k < i ==> !IsFor(reported, list[k].messageId, usingHex, wraps)
  {
    hide IsFor, SameId, RealId;
    forall k | 0 <= k < |list|
      ensures SameId(list[k].messageId, RealId(reported, usingHex, wraps))
          <==> IsFor(reported, list[k].messageId, usingHex, wraps)
    {
      IsForIff(reported, list[k].messageId, usingHex, wraps);
    }
  }

  const NO_CLIENT := Client(0, 0, 0, Unbound, NO_SMI, Run(0, 0), 0, [], [], [], Quiet)

  class ClientDataSource {
    const stats: ClientsStatistic
    var toSubmit: seq<Smi>
    var delivering: seq<Smi>
    var delivered: seq<Smi>
    var mos: seq<Smi>

    function AsSource(): Source
      reads this
    {
      Source(toSubmit, delivering, delivered, mos, false)
    }

    /** The machine's view of this source, by client c at the given time, with an empty history. */
    function Shot(c: Client, now: nat): Local
      reads this, stats
    {
      Local(c, AsSource(), Globals(now, stats.View(), [], [], [], [], [], []))
    }

    ghost predicate Shows(l: Local)
      reads this, stats
    {
      l.d.(busy := false) == AsSource() && l.g.stats == stats.View()
    }

    constructor (stats: ClientsStatistic)
      ensures this.stats == stats && AsSource() == Source([], [], [], [], false)
    {
      this.stats := stats;
      toSubmit, delivering, delivered, mos := [], [], [], [];
    }

    method AddSmis(smis: seq<Smi>)
      modifies this`toSubmit, stats`received
      ensures Shows(DoAccept(old(Shot(NO_CLIENT, 0)), smis))
      ensures toSubmit == old(toSubmit) + smis && stats.received == old(stats.received) + |smis|
    {
      var i := 0;
      while i < |smis|
        invariant 0 <= i <= |smis|
        invariant toSubmit == old(toSubmit) + smis[..i] && stats.received == old(stats.received)
      {
        toSubmit := toSubmit + [smis[i]];
        i := i + 1;
      }
      assert smis[..i] == smis;
      stats.SmsReceived(|smis|);
    }

    /** The front of the queue; the worker asks with the phase in which it has just looked at its window. */
    method GetToSubmit() returns (found: bool, smi: Smi)
      modifies this`toSubmit, stats`submit
      ensures found == (old(toSubmit) != [])
      ensures var l := DoGet(old(Shot(NO_CLIENT.(phase := Checked(false)), 0)));
              Shows(l) && (found ==> l.c.phase == InHand && l.c.slot == smi)
      ensures found ==> old(toSubmit) == [smi] + toSubmit && stats.submit == old(stats.submit) + 1
    {
      smi := NO_SMI;
      found := toSubmit != [];
      if found {
        smi := toSubmit[0];
        toSubmit := toSubmit[1..];
        stats.SubmitSms(1);
      }
    }

    method SmIsDelivering(smi: Smi, now: nat)
      modifies this`delivering
      ensures Shows(DoAckPut(old(Shot(NO_CLIENT.(recv := Got(smi)), now)), true, smi.messageId))
      ensures delivering == old(delivering) + [smi.(deliveringTime := now)]
    {
      delivering := delivering + [smi.(deliveringTime := now)];
    }

    method SubmitFailed(smi: Smi)
      modifies this`delivered, stats`submitFailed
      ensures Shows(Failed(old(Shot(NO_CLIENT, 0)), smi))
      ensures delivered == old(delivered) + [smi] && stats.submitFailed == old(stats.submitFailed) + 1
    {
      delivered := delivered + [smi];
      stats.SubmitFailed();
    }

    /** Moves the first message with the id that the reported one stands for, letter case aside, to the delivered list. */
    method SmIsDelivered(reported: seq<u8>, usingHex: bool, wraps: bool) returns (found: bool)
      modifies this`delivering, this`delivered, stats`delivered
      ensures var id := RealId(reported, usingHex, wraps);
              var l := DoDlrTake(old(Shot(NO_CLIENT, 0)), id);
              && found == (FindId(old(delivering), id) < |old(delivering)|) == l.c.recv.Matched?
              && Shows(if found then DoDlrPut(l) else l)
      ensures found <==> exists i :: 0 <= i < |old(delivering)|
                                     && IsFor(reported, old(delivering)[i].messageId, usingHex, wraps)
      ensures !found ==> delivering == old(delivering) && delivered == old(delivered)
                         && stats.delivered == old(stats.delivered)
      ensures found ==>
                exists i :: 0 <= i < |old(delivering)|
                  && IsFor(reported, old(delivering)[i].messageId, usingHex, wraps)
                  && (forall k :: 0 <= k < i ==> !IsFor(reported, old(delivering)[k].messageId, usingHex, wraps))
                  && delivering == old(delivering)[..i] + old(delivering)[i + 1..]
                  && delivered == old(delivered) + [old(delivering)[i]] && stats.delivered == old(stats.delivered) + 1
    {
      FindIdIsFor(delivering, reported, usingHex, wraps);
      hide HexText, NumberOnly, IsFor, Extracted, SameId, FindId;
      var id := reported;
      if usingHex && NumberOnly(reported) {
        id := HexText(Extracted(reported, wraps));
      }
      var i := 0;
      while i < |delivering| && !SameId(delivering[i].messageId, id)
        invariant 0 <= i <= FindId(delivering, id)
      {
        i := i + 1;
      }
      found := i < |delivering|;
      if found {
        var smi := delivering[i];
        delivering := Erase(delivering, i);
        delivered := delivered + [smi];
        stats.SmIsDelivered();
      }
    }

    method MoReceived(mo: Smi)
      modifies this`mos, stats`mos
      ensures Shows(DoMo(old(Shot(NO_CLIENT, 0)), mo))
      ensures mos == old(mos) + [mo] && stats.mos == old(stats.mos) + 1
    {
      mos := mos + [mo];
      stats.MoReceived();
    }

    method GetMos() returns (smis: seq<Smi>)
      modifies this`mos, stats`pushedMos
      ensures var l := DoPullMos(old(Shot(NO_CLIENT, 0)));
              Shows(l) && smis == l.g.pulledMos
      ensures smis == old(mos) && mos == [] && stats.pushedMos == old(stats.pushedMos) + |smis|
    {
      smis := [];
      if mos == [] {
        return;
      }
      while mos != []
        invariant smis + mos == old(mos) && stats.pushedMos == old(stats.pushedMos)
        decreases |mos|
      {
        smis := smis + [mos[0]];
        mos := mos[1..];
      }
      stats.PushMos(|smis|);
    }

    /** Fails every message that has waited too long for its delivery report. */
    method ProcessWaitingDlrTimeout(now: nat, waitingTime: int)
      modifies this`delivering, this`delivered, stats`submitFailed
      ensures delivering == Kept(old(delivering), now, true, waitingTime)
      ensures delivered == old(delivered) + Dropped(old(delivering), now, true, waitingTime)
      ensures stats.submitFailed == old(stats.submitFailed) + |Dropped(old(delivering), now, true, waitingTime)|
      ensures SweptOver(old(delivering), delivering, old(delivered), delivered, now, true, waitingTime)
    {
      SweepMeans(delivering, delivered, now, true, waitingTime);
      hide Kept, Dropped, Expired, Erase, SweptOver;
      var it := 0;
      ghost var out: seq<Smi> := [];
      assert delivering[0..] == delivering && delivering[..0] == [];
      while it < |delivering|
        invariant 0 <= it <= |delivering|
        invariant delivering[..it] + Kept(delivering[it..], now, true, waitingTime)
               == Kept(old(delivering), now, true, waitingTime)
        invariant out + Dropped(delivering[it..], now, true, waitingTime)
               == Dropped(old(delivering), now, true, waitingTime)
        invariant delivered == old(delivered) + out && stats.submitFailed == old(stats.submitFailed) + |out|
        decreases |delivering| - it
      {
        SweepStep(delivering, it, now, true, waitingTime);
        var m := delivering[it];
        if Expired(now, m.deliveringTime, waitingTime) {
          delivering := Erase(delivering, it);
          out := out + [m];
          SubmitFailed(m);
        } else {
          it := it + 1;
        }
      }
      NothingToSweep(now, true, waitingTime);
      assert delivering[it..] == [] && delivering[..it] == delivering;
    }

    /** Hands out from the front, at least one if there is any. */
    method GetGlobalStatus(toGet: int) returns (smis: seq<Smi>)
      modifies this`delivered, stats`pushedDlrs
      ensures var l := DoPull(old(Shot(NO_CLIENT, 0)), toGet);
              Shows(l) && smis == l.g.pulled
      ensures smis + delivered == old(delivered) && stats.pushedDlrs == old(stats.pushedDlrs) + |smis|
      ensures |smis| == if |old(delivered)| <= toGet then |old(delivered)|
                        else if toGet >= 1 then toGet
                        else if old(delivered) == [] then 0 else 1
    {
      smis := [];
      if delivered == [] {
        return;
      }
      var count := 0;
      ghost var list := delivered;
      while delivered != []
        invariant 0 <= count <= |list| && smis == list[..count] && delivered == list[count..]
        invariant count > 0 ==> count < toGet
        invariant stats.pushedDlrs == old(stats.pushedDlrs)
        decreases |delivered|
      {
        smis := smis + [delivered[0]];
        delivered := delivered[1..];
        count := count + 1;
        if count >= toGet {
          break;
        }
      }
      assert count == Taken(|list|, toGet);
      stats.PushDlrs(|smis|);
    }

    method GetAllToSubmit(before: seq<Smi>) returns (smis: seq<Smi>)
      modifies this`toSubmit
      ensures var l := DoDrain(old(Shot(NO_CLIENT, 0)));
              Shows(l) && smis == before + l.g.drained
      ensures smis == before + old(toSubmit) && toSubmit == []
    {
      smis := before;
      var i := 0;
      while i < |toSubmit|
        invariant 0 <= i <= |toSubmit| && smis == before + toSubmit[..i]
      {
        smis := smis + [toSubmit[i]];
        i := i + 1;
      }
      assert toSubmit[..i] == toSubmit;
      toSubmit := [];
    }
  }

  /** Mobile originated messages are handed out in the order they came in, behind those still there. */
  method ReceiveThenGet(source: ClientDataSource, mos: seq<Smi>) returns (smis: seq<Smi>)
    modifies source`mos, source.stats`mos, source.stats`pushedMos
    ensures smis == old(source.mos) + mos && source.mos == []
  {
    assert source.mos + [] == source.mos;
    for i := 0 to |mos|
      invariant source.mos == old(source.mos) + mos[..i]
    {
      assert mos[..i + 1] == mos[..i] + [mos[i]];
      source.MoReceived(mos[i]);
    }
    assert mos[..|mos|] == mos;
    smis := source.GetMos();
  }
}
