/**
 The clients manager: which client gets a submission, and whose statuses are handed out.
 Clients are numbered; clients of the same account share a source.
 */
module Scheduling {
  import opened Bytes
  import opened Messages
  import opened Pipeline

  // ---- The cyclic scan ----

  /** The client k places after begin, going round. */
  function Turn(begin: nat, k: nat, n: nat): (i: nat)
    requires begin < n && k < n
    ensures i < n
  {
    if begin + k < n then begin + k else begin + k - n
  }

  /** Client Turn(begin, k) is able and none before it is. */
  predicate FirstAble(able: seq<bool>, begin: nat, k: nat) {
    && begin < |able| && k < |able| && able[Turn(begin, k, |able|)]
    && forall j :: 0 <= j < k ==> !able[Turn(begin, j, |able|)]
  }

  /** Of all able clients the one that counting up from begin, modulo their number, comes to first. */
  predicate ComesFirst(able: seq<bool>, begin: nat, chosen: nat) {
    && begin < |able| && chosen < |able| && able[chosen]
    && forall i :: 0 <= i < |able| && able[i] ==> (chosen - begin) % |able| <= (i - begin) % |able|
  }

  lemma FirstComes(able: seq<bool>, begin: nat, k: nat)
    requires FirstAble(able, begin, k)
    ensures ComesFirst(able, begin, Turn(begin, k, |able|))
  {
    var n := |able|;
    var chosen := Turn(begin, k, n);
    StepsAhead(begin, k, n);
    forall i | 0 <= i < n && able[i]
      ensures (chosen - begin) % n <= (i - begin) % n
    {
      var j := if i >= begin then i - begin else i - begin + n;
      assert Turn(begin, j, n) == i;
      StepsAhead(begin, j, n);
    }
  }

  lemma StepsAhead(begin: nat, k: nat, n: nat)
    requires begin < n && k < n
    ensures (Turn(begin, k, n) - begin) % n == k && Turn(begin, k, n) == (begin + k) % n
  {
    var i := Turn(begin, k, n);
    RoundTheCorner(i, n);
    RoundTheCorner(k, n);
    assert i - begin == if begin + k < n then k else k - n;
    assert begin + k == if begin + k < n then i else i + n;
  }

  lemma RoundTheCorner(x: nat, n: nat)
    requires x < n
    ensures x % n == x && (x - n) % n == x && (x + n) % n == x
  {
  }

  lemma AllSeen(able: seq<bool>, begin: nat)
    requires begin < |able|
    requires forall j :: 0 <= j < |able| ==> !able[Turn(begin, j, |able|)]
    ensures forall i :: 0 <= i < |able| ==> !able[i]
  {
    forall i | 0 <= i < |able|
      ensures !able[i]
    {
      var j := if i >= begin then i - begin else i - begin + |able|;
      assert Turn(begin, j, |able|) == i;
    }
  }

  /** Where submission i of a row starts its scan. */
  function Start(last: nat, n: nat, i: nat): (r: nat)
    requires n > 0
    ensures r < n
  {
    (last + 1 + i) % n
  }

  lemma StartIs(last: nat, n: nat, i: nat)
    requires n > 0
    ensures Start(last, n, i) == (last + i + 1) % n
  {
  }

  /** Submissions less than a round apart start from different clients. */
  lemma RoundIsDistinct(last: nat, n: nat, chosen: seq<nat>)
    requires n > 0 && forall i :: 0 <= i < |chosen| ==> chosen[i] == Start(last, n, i)
    ensures forall a, b :: 0 <= a < b < |chosen| && b - a < n ==> chosen[a] != chosen[b]
  {
    forall a, b | 0 <= a < b < |chosen| && b - a < n
      ensures chosen[a] != chosen[b]
    {
      StartsDiffer(last, n, a, b);
    }
  }

  lemma StartsAre(last: nat, n: nat, chosen: seq<nat>)
    requires n > 0 && forall i :: 0 <= i < |chosen| ==> chosen[i] == Start(last, n, i)
    ensures forall i :: 0 <= i < |chosen| ==> chosen[i] == (last + 1 + i) % n
  {
  }

  lemma StartsDiffer(last: nat, n: nat, a: nat, b: nat)
    requires a < b && b - a < n
    ensures Start(last, n, a) != Start(last, n, b)
  {
    if Start(last, n, a) == Start(last, n, b) {
      var qa, qb, r := (last + 1 + a) / n, (last + 1 + b) / n, (last + 1 + a) % n;
      Distribute(n, qa, qb);
      NoMultiple(n, qb - qa, b - a);
    }
  }

  lemma Distribute(n: nat, qa: int, qb: int)
    ensures n * (qb - qa) == n * qb - n * qa
  {
  }

  lemma NoMultiple(n: nat, k: int, d: nat)
    requires 0 < d < n
    ensures n * k != d
  {
    if k >= 1 {
      Grows(n, k);
    } else {
      Grows(n, -k);
      assert n * k == -(n * -k);
    }
  }

  lemma Grows(n: nat, k: nat)
    ensures n * k >= 0 && (k >= 1 ==> n * k >= n)
  {
  }

  /** The batches whose client has source d, in order. */
  function Dealt(source: seq<nat>, chosen: seq<nat>, batches: seq<seq<Smi>>, d: nat): seq<Smi>
    requires |chosen| == |batches| && forall i :: 0 <= i < |chosen| ==> chosen[i] < |source|
  {
    if batches == [] then []
    else
      var i := |batches| - 1;
      Dealt(source, chosen[..i], batches[..i], d) + if source[chosen[i]] == d then batches[i] else []
  }

  lemma DealtNone(source: seq<nat>)
    ensures forall d: nat :: Dealt(source, [], [], d) == []
  {
  }

  lemma DealtNext(source: seq<nat>, chosen: seq<nat>, batches: seq<seq<Smi>>, i: nat, c: nat)
    requires i < |batches| && |chosen| == i && (forall k :: 0 <= k < i ==> chosen[k] < |source|) && c < |source|
    ensures forall d: nat ::
              Dealt(source, chosen + [c], batches[..i + 1], d)
              == Dealt(source, chosen, batches[..i], d) + if source[c] == d then batches[i] else []
  {
    assert (chosen + [c])[..i] == chosen && batches[..i + 1][..i] == batches[..i];
  }

  // ---- Handing out statuses ----

  /** The clients from i on, each asked for what is still needed; before entries were there already. */
  function Collect(src: seq<nat>, st: seq<seq<Smi>>, i: nat, need: int, before: nat): (r: (seq<Smi>, seq<seq<Smi>>))
    requires i <= |src| && forall k :: 0 <= k < |src| ==> src[k] < |st|
    ensures |r.1| == |st|
    decreases |src| - i
  {
    if i == |src| then ([], st)
    else
      var list := st[src[i]];
      var n := Taken(|list|, need);
      var st' := st[src[i] := list[n..]];
      if before + n >= need then (list[..n], st')
      else var r := Collect(src, st', i + 1, need - n, before); (list[..n] + r.0, r.1)
  }

  /** What the sources of the clients from i on hold together, each source counted once. */
  function Held(src: seq<nat>, st: seq<seq<Smi>>, i: nat, j: nat): nat
    requires i <= |src| && j <= |st|
    decreases |st| - j
  {
    if j == |st| then 0 else (if j in src[i..] then |st[j]| else 0) + Held(src, st, i, j + 1)
  }

  /** Emptying the source of client i takes its share, and counts it for no later client. */
  lemma {:induction false} HeldNext(src: seq<nat>, st: seq<seq<Smi>>, i: nat, j: nat)
    requires i < |src| && j <= |st| && src[i] < |st|
    ensures Held(src, st, i, j)
         == (if j <= src[i] then |st[src[i]]| else 0) + Held(src, st[src[i] := []], i + 1, j)
    decreases |st| - j
  {
    if j < |st| {
      HeldNext(src, st, i, j + 1);
      assert src[i..] == [src[i]] + src[i + 1..];
    }
  }

  lemma {:induction false} HeldNone(src: seq<nat>, st: seq<seq<Smi>>, j: nat)
    requires j <= |st|
    ensures Held(src, st, |src|, j) == 0
    decreases |st| - j
  {
    if j < |st| {
      HeldNone(src, st, j + 1);
    }
  }

  lemma {:induction false} HeldAtLeast(src: seq<nat>, st: seq<seq<Smi>>, i: nat, j: nat, x: nat)
    requires i < |src| && j <= x < |st| && x in src[i..]
    ensures Held(src, st, i, j) >= |st[x]|
    decreases |st| - j
  {
    if j < x {
      HeldAtLeast(src, st, i, j + 1, x);
    }
  }

  /** Asked for at least one and with nothing collected before, exactly as many as there are, up to the number. */
  lemma {:induction false} CollectsExactly(src: seq<nat>, st: seq<seq<Smi>>, i: nat, need: int)
    requires i <= |src| && forall k :: 0 <= k < |src| ==> src[k] < |st|
    requires need >= 1
    ensures var total := Held(src, st, i, 0);
            |Collect(src, st, i, need, 0).0| == if total <= need then total else need
    decreases |src| - i
  {
    if i == |src| {
      HeldNone(src, st, 0);
    } else {
      var list := st[src[i]];
      var n := Taken(|list|, need);
      assert src[i..] == [src[i]] + src[i + 1..];
      HeldAtLeast(src, st, i, 0, src[i]);
      if n < need {
        assert list[n..] == [];
        HeldNext(src, st, i, 0);
        CollectsExactly(src, st[src[i] := []], i + 1, need - n);
      }
    }
  }

  /** With some collected before, clients are asked until there are enough together or none has any left. */
  lemma {:induction false} CollectsEnough(src: seq<nat>, st: seq<seq<Smi>>, i: nat, need: int, before: nat)
    requires i <= |src| && forall k :: 0 <= k < |src| ==> src[k] < |st|
    requires need >= 1
    ensures var got := |Collect(src, st, i, need, before).0|;
            got <= need && (before + got >= need || got == Held(src, st, i, 0))
    decreases |src| - i
  {
    if i == |src| {
      HeldNone(src, st, 0);
    } else {
      var list := st[src[i]];
      var n := Taken(|list|, need);
      if before + n < need {
        assert list[n..] == [];
        HeldNext(src, st, i, 0);
        CollectsEnough(src, st[src[i] := []], i + 1, need - n, before);
      }
    }
  }

  /** Client k's part of the answer: what its source gave, if no client before it has the same source. */
  function Share(src: seq<nat>, st: seq<seq<Smi>>, st': seq<seq<Smi>>, i: nat, k: nat): seq<Smi>
    requires i <= k < |src| && src[k] < |st| == |st'|
  {
    var given := |st[src[k]]| - |st'[src[k]]|;
    if src[k] in src[i..k] || given < 0 then [] else st[src[k]][..given]
  }

  function Shares(src: seq<nat>, st: seq<seq<Smi>>, st': seq<seq<Smi>>, i: nat, k: nat): seq<Smi>
    requires i <= k <= |src| && |st| == |st'| && forall x :: 0 <= x < |src| ==> src[x] < |st|
    decreases |src| - k
  {
    if k == |src| then [] else Share(src, st, st', i, k) + Shares(src, st, st', i, k + 1)
  }

  lemma {:induction false} CollectKeeps(src: seq<nat>, st: seq<seq<Smi>>, i: nat, need: int, j: nat)
    requires i <= |src| && (forall k :: 0 <= k < |src| ==> src[k] < |st|) && j < |st|
    ensures var left := Collect(src, st, i, need, 0).1[j];
            && |left| <= |st[j]| && left == st[j][|st[j]| - |left|..]
            && (j !in src[i..] ==> left == st[j])
    decreases |src| - i
  {
    if i < |src| {
      assert src[i..] == [src[i]] + src[i + 1..];
      var n := Taken(|st[src[i]]|, need);
      if n < need {
        CollectKeeps(src, st[src[i] := st[src[i]][n..]], i + 1, need - n, j);
      }
    }
  }

  lemma ShareAfter(src: seq<nat>, st: seq<seq<Smi>>, st': seq<seq<Smi>>, i: nat, k: nat)
    requires i < k < |src| && src[k] < |st| == |st'| && src[i] < |st| && st'[src[i]] == []
    ensures Share(src, st, st', i, k) == Share(src, st[src[i] := []], st', i + 1, k)
  {
    assert src[i..k] == [src[i]] + src[i + 1..k];
  }

  /** Before client i's turn, as seen once its source is empty. */
  lemma {:induction false} SharesAfter(src: seq<nat>, st: seq<seq<Smi>>, st': seq<seq<Smi>>, i: nat, k: nat)
    requires i < k <= |src| && |st| == |st'| && forall x :: 0 <= x < |src| ==> src[x] < |st|
    requires st'[src[i]] == []
    ensures Shares(src, st, st', i, k) == Shares(src, st[src[i] := []], st', i + 1, k)
    decreases |src| - k
  {
    hide Share;
    if k < |src| {
      SharesAfter(src, st, st', i, k + 1);
      ShareAfter(src, st, st', i, k);
    }
  }

  lemma NoShare(src: seq<nat>, st: seq<seq<Smi>>, st': seq<seq<Smi>>, i: nat, k: nat)
    requires i <= k < |src| && src[k] < |st| == |st'|
    requires src[k] in src[i..k] || st'[src[k]] == st[src[k]]
    ensures Share(src, st, st', i, k) == []
  {
  }

  lemma {:induction false} SharesEnd(src: seq<nat>, st: seq<seq<Smi>>, st': seq<seq<Smi>>, i: nat, k: nat)
    requires i < k <= |src| && |st| == |st'| && forall x :: 0 <= x < |src| ==> src[x] < |st|
    requires forall j :: 0 <= j < |st| && j != src[i] ==> st'[j] == st[j]
    ensures Shares(src, st, st', i, k) == []
    decreases |src| - k
  {
    hide Share;
    if k < |src| {
      SharesEnd(src, st, st', i, k + 1);
      assert src[i..k][0] == src[i];
      NoShare(src, st, st', i, k);
    }
  }

  /** The answer is a prefix of each source in turn, in client order. */
  lemma {:induction false} CollectsPrefixes(src: seq<nat>, st: seq<seq<Smi>>, i: nat, need: int)
    requires i <= |src| && forall k :: 0 <= k < |src| ==> src[k] < |st|
    requires need >= 1
    ensures Collect(src, st, i, need, 0).0 == Shares(src, st, Collect(src, st, i, need, 0).1, i, i)
    decreases |src| - i
  {
    if i < |src| {
      var list := st[src[i]];
      var n := Taken(|list|, need);
      var st' := Collect(src, st, i, need, 0).1;
      assert src[i..i] == [];
      if n >= need {
        assert |list| - |list[n..]| == n;
        SharesEnd(src, st, st', i, i + 1);
      } else {
        assert n == |list| && list[n..] == [] && list[..n] == list;
        CollectKeeps(src, st[src[i] := []], i + 1, need - n, src[i]);
        assert st'[src[i]] == [];
        SharesAfter(src, st, st', i, i + 1);
        CollectsPrefixes(src, st[src[i] := []], i + 1, need - n);
      }
    }
  }

  /** The statuses of the clients from i on, one client after the other. */
  function InTurn(src: seq<nat>, st: seq<seq<Smi>>, i: nat): seq<Smi>
    requires i <= |src| && forall k :: 0 <= k < |src| ==> src[k] < |st|
    decreases |src| - i
  {
    if i == |src| then [] else st[src[i]] + InTurn(src, st, i + 1)
  }

  lemma {:induction false} InTurnElsewhere(src: seq<nat>, st: seq<seq<Smi>>, i: nat, d: nat, list: seq<Smi>)
    requires i <= |src| && (forall k :: 0 <= k < |src| ==> src[k] < |st|) && d < |st|
    requires forall k :: i <= k < |src| ==> src[k] != d
    ensures InTurn(src, st[d := list], i) == InTurn(src, st, i)
    decreases |src| - i
  {
    if i < |src| {
      InTurnElsewhere(src, st, i + 1, d, list);
    }
  }

  /** Where no two clients share a source, the answer is the front of all statuses in turn, up to the number asked for. */
  lemma {:induction false} CollectsInTurn(src: seq<nat>, st: seq<seq<Smi>>, i: nat, need: int)
    requires i <= |src| && forall k :: 0 <= k < |src| ==> src[k] < |st|
    requires forall a, b :: i <= a < b < |src| ==> src[a] != src[b]
    requires need >= 1
    ensures var all := InTurn(src, st, i);
            Collect(src, st, i, need, 0).0 == if |all| <= need then all else all[..need]
    decreases |src| - i
  {
    if i < |src| {
      var list := st[src[i]];
      var n := Taken(|list|, need);
      if n < need {
        InTurnElsewhere(src, st, i + 1, src[i], list[n..]);
        CollectsInTurn(src, st[src[i] := list[n..]], i + 1, need - n);
      }
    }
  }

  /** Asked for none or fewer, the first client still gives one status if it has any. */
  lemma AskedForNone(src: seq<nat>, st: seq<seq<Smi>>, need: int)
    requires src != [] && (forall k :: 0 <= k < |src| ==> src[k] < |st|) && need <= 0
    ensures Collect(src, st, 0, need, 0).0 == if st[src[0]] == [] then [] else [st[src[0]][0]]
  {
  }

  class ClientsManager {
    var able: seq<bool>
    var source: seq<nat>
    var toSubmit: seq<seq<Smi>>
    var delivered: seq<seq<Smi>>
    var lastIndex: nat

    ghost predicate Valid()
      reads this
    {
      |able| == |source| && |toSubmit| == |delivered| && forall i :: 0 <= i < |source| ==> source[i] < |toSubmit|
    }

    constructor (able: seq<bool>, source: seq<nat>, sources: nat)
      requires |able| == |source| && forall i :: 0 <= i < |source| ==> source[i] < sources
      ensures Valid() && this.able == able && this.source == source && lastIndex == 0
    {
      this.able, this.source, lastIndex := able, source, 0;
      toSubmit, delivered := seq(sources, _ => []), seq(sources, _ => []);
    }

    /**
     Hands the messages to the next able client, or fails if there is none. With a reason for
     failure they are statuses from the start.
     */
    method SubmitSmis(smis: seq<Smi>, failed: bool) returns (ok: bool, chosen: nat)
      requires Valid()
      modifies this`toSubmit, this`delivered, this`lastIndex
      ensures Valid() && |toSubmit| == |old(toSubmit)| && ok == exists i :: 0 <= i < |able| && able[i]
      ensures lastIndex == if able == [] then old(lastIndex) else old(lastIndex) + 1
      ensures !ok ==> toSubmit == old(toSubmit) && delivered == old(delivered)
      ensures ok ==> chosen < |able|
      ensures ok ==> exists k :: FirstAble(able, lastIndex % |able|, k) && chosen == Turn(lastIndex % |able|, k, |able|)
      ensures ok ==> ComesFirst(able, lastIndex % |able|, chosen)
      ensures ok && !failed ==>
                var d := source[chosen];
                delivered == old(delivered) && toSubmit == old(toSubmit)[d := old(toSubmit)[d] + smis]
      ensures ok && failed ==>
                var d := source[chosen];
                toSubmit == old(toSubmit) && delivered == old(delivered)[d := old(delivered)[d] + smis]
    {
      if able == [] {
        return false, 0;
      }
      lastIndex := lastIndex + 1;
      ok, chosen := Scan(able, lastIndex % |able|);
      if ok {
        if failed {
          SubmitFailed(source[chosen], smis);
        } else {
          toSubmit := toSubmit[source[chosen] := toSubmit[source[chosen]] + smis];
        }
      }
    }

    /** submit_failed, message by message. */
    method SubmitFailed(d: nat, smis: seq<Smi>)
      requires Valid() && d < |delivered|
      modifies this`delivered
      ensures Valid() && delivered == old(delivered)[d := old(delivered)[d] + smis]
    {
      assert delivered[d] + [] == delivered[d];
      for i := 0 to |smis|
        invariant |delivered| == |old(delivered)| && delivered == old(delivered)[d := old(delivered)[d] + smis[..i]]
      {
        assert smis[..i + 1] == smis[..i] + [smis[i]];
        assert delivered[d] + [smis[i]] == old(delivered)[d] + smis[..i + 1];
        delivered := delivered[d := delivered[d] + [smis[i]]];
      }
      assert smis[..|smis|] == smis;
    }

    /**
     Submissions in a row while every client is able: they go round, so that as many as there
     are clients reach each of them once, and what the sources get is the batches in order.
     */
    method SubmitRound(batches: seq<seq<Smi>>) returns (chosen: seq<nat>)
      requires Valid() && able != [] && forall i :: 0 <= i < |able| ==> able[i]
      modifies this`toSubmit, this`delivered, this`lastIndex
      ensures Valid() && delivered == old(delivered) && lastIndex == old(lastIndex) + |batches|
      ensures |chosen| == |batches|
      ensures forall i :: 0 <= i < |chosen| ==> chosen[i] < |able| && chosen[i] == (old(lastIndex) + 1 + i) % |able|
      ensures forall a, b :: 0 <= a < b < |chosen| && b - a < |able| ==> chosen[a] != chosen[b]
      ensures |toSubmit| == |old(toSubmit)|
      ensures forall d :: 0 <= d < |toSubmit| ==> toSubmit[d] == old(toSubmit)[d] + Dealt(source, chosen, batches, d)
    {
      hide Start, Turn, Dealt, ComesFirst;
      chosen := [];
      DealtNone(source);
      for i := 0 to |batches|
        invariant Valid() && delivered == old(delivered) && lastIndex == old(lastIndex) + i && |chosen| == i
        invariant forall k :: 0 <= k < i ==> chosen[k] < |able| && chosen[k] == Start(old(lastIndex), |able|, k)
        invariant |toSubmit| == |old(toSubmit)|
        invariant forall d :: 0 <= d < |toSubmit| ==>
                    toSubmit[d] == old(toSubmit)[d] + Dealt(source, chosen, batches[..i], d)
      {
        assert able[0];
        var _, c := SubmitSmis(batches[i], false);
        ghost var k :| FirstAble(able, lastIndex % |able|, k) && c == Turn(lastIndex % |able|, k, |able|);
        StartIs(old(lastIndex), |able|, i);
        StartIsAble(able, lastIndex % |able|, k);
        DealtNext(source, chosen, batches, i, c);
        chosen := chosen + [c];
      }
      assert batches[..|batches|] == batches;
      RoundIsDistinct(old(lastIndex), |able|, chosen);
      StartsAre(old(lastIndex), |able|, chosen);
    }

    /** Once round, from begin. */
    static method Scan(able: seq<bool>, begin: nat) returns (ok: bool, index: nat)
      requires begin < |able|
      ensures ok == exists i :: 0 <= i < |able| && able[i]
      ensures ok ==> index < |able| && able[index]
                     && exists k :: FirstAble(able, begin, k) && index == Turn(begin, k, |able|)
      ensures ok ==> ComesFirst(able, begin, index)
    {
      index := begin;
      ghost var k := 0;
      while !able[index]
        invariant 0 <= k < |able| && index == Turn(begin, k, |able|)
        invariant forall j :: 0 <= j < k ==> !able[Turn(begin, j, |able|)]
        decreases |able| - k
      {
        index := if index + 1 == |able| then 0 else index + 1;
        k := k + 1;
        if index == begin {
          AllSeen(able, begin);
          return false, 0;
        }
      }
      assert FirstAble(able, begin, k);
      FirstComes(able, begin, k);
      ok := true;
    }

    /** Asks the clients in order until enough statuses have come together. */
    method GetGlobalStatus(toGet: int, before: seq<Smi>) returns (smis: seq<Smi>)
      requires Valid()
      modifies this`delivered
      ensures Valid()
      ensures var r := Collect(source, old(delivered), 0, toGet, |before|);
              smis == before + r.0 && delivered == r.1
    {
      hide Collect, Taken;
      smis := before;
      var remain := toGet;
      var i := 0;
      ghost var got: seq<Smi> := [];
      OntoNothing(Collect(source, delivered, 0, toGet, |before|));
      while i < |source|
        invariant 0 <= i <= |source| && Valid() && smis == before + got && remain == toGet - |got|
        invariant Collect(source, old(delivered), 0, toGet, |before|)
               == Onto(got, Collect(source, delivered, i, remain, |before|))
      {
        CollectStep(source, delivered, i, remain, |before|, got);
        var list := delivered[source[i]];
        var n := Taken(|list|, remain);
        delivered := delivered[source[i] := list[n..]];
        smis := smis + list[..n];
        got := got + list[..n];
        if |smis| >= toGet {
          return;
        }
        remain := remain - n;
        i := i + 1;
      }
      CollectEnd(source, delivered, remain, |before|);
    }
  }

  function Onto(got: seq<Smi>, r: (seq<Smi>, seq<seq<Smi>>)): (seq<Smi>, seq<seq<Smi>>) {
    (got + r.0, r.1)
  }

  lemma OntoNothing(r: (seq<Smi>, seq<seq<Smi>>))
    ensures Onto([], r) == r
  {
    assert [] + r.0 == r.0;
  }

  lemma CollectStep(src: seq<nat>, st: seq<seq<Smi>>, i: nat, need: int, before: nat, got: seq<Smi>)
    requires i < |src| && forall k :: 0 <= k < |src| ==> src[k] < |st|
    ensures var list := st[src[i]];
            var n := Taken(|list|, need);
            var st' := st[src[i] := list[n..]];
            Onto(got, Collect(src, st, i, need, before))
            == if before + n >= need then (got + list[..n], st')
               else Onto(got + list[..n], Collect(src, st', i + 1, need - n, before))
  {
    hide Taken;
    var list := st[src[i]];
    var n := Taken(|list|, need);
    var st' := st[src[i] := list[n..]];
    if before + n < need {
      var r := Collect(src, st', i + 1, need - n, before);
      assert got + (list[..n] + r.0) == got + list[..n] + r.0;
    }
  }

  lemma CollectEnd(src: seq<nat>, st: seq<seq<Smi>>, need: int, before: nat)
    requires forall k :: 0 <= k < |src| ==> src[k] < |st|
    ensures Collect(src, st, |src|, need, before) == ([], st)
  {
  }

  lemma StartIsAble(able: seq<bool>, begin: nat, k: nat)
    requires (forall i :: 0 <= i < |able| ==> able[i]) && FirstAble(able, begin, k)
    ensures Turn(begin, k, |able|) == begin
  {
    assert Turn(begin, 0, |able|) == begin;
  }
}
