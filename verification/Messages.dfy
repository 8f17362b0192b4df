/** Short messages under way, and the list operations of the delivery pipeline. */
module Messages {
  import opened Bytes

  /** What the pipeline looks at. Empty content doubles as "no message" in the worker's slot. */
  datatype Smi = Smi(sn: u32, content: seq<u8>, total: u8, index: u8,
                     submitTime: nat, deliveringTime: nat, messageId: seq<u8>)

  const NO_SMI := Smi(0, [], 0, 0, 0, 0, [])

  // ---- Counting and finding by sequence number ----

  function Count(list: seq<Smi>, sn: u32): nat {
    if list == [] then 0 else (if list[0].sn == sn then 1 else 0) + Count(list[1..], sn)
  }

  lemma {:induction false} CountAppend(a: seq<Smi>, b: seq<Smi>, sn: u32)
    ensures Count(a + b, sn) == Count(a, sn) + Count(b, sn)
  {
    if a == [] {
      assert a + b == b;
    } else {
      assert (a + b)[1..] == a[1..] + b;
      CountAppend(a[1..], b, sn);
    }
  }

  function One(m: Smi, sn: u32): nat {
    if m.sn == sn then 1 else 0
  }

  lemma CountOne(m: Smi, sn: u32)
    ensures Count([m], sn) == One(m, sn)
  {
    assert [m][1..] == [];
  }

  lemma CountPush(list: seq<Smi>, m: Smi, sn: u32)
    ensures Count(list + [m], sn) == Count(list, sn) + One(m, sn)
  {
    CountAppend(list, [m], sn);
    CountOne(m, sn);
  }

  /** std::list::erase. */
  function Erase(list: seq<Smi>, i: nat): (r: seq<Smi>)
    requires i < |list|
    ensures |r| == |list| - 1
  {
    list[..i] + list[i + 1..]
  }

  lemma CountErase(list: seq<Smi>, i: nat, sn: u32)
    requires i < |list|
    ensures Count(list, sn) == Count(Erase(list, i), sn) + One(list[i], sn)
  {
    hide Count;
    CountPush(list[..i], list[i], sn);
    CountAppend(list[..i] + [list[i]], list[i + 1..], sn);
    CountAppend(list[..i], list[i + 1..], sn);
    assert list == list[..i] + [list[i]] + list[i + 1..];
  }

  lemma CountSplit(list: seq<Smi>, n: nat, sn: u32)
    requires n <= |list|
    ensures Count(list, sn) == Count(list[..n], sn) + Count(list[n..], sn)
  {
    CountAppend(list[..n], list[n..], sn);
    assert list == list[..n] + list[n..];
  }

  /** Where the search for sn stops. */
  function FindSn(list: seq<Smi>, sn: u32): (i: nat)
    ensures i <= |list|
    ensures i < |list| ==> list[i].sn == sn
    ensures forall k :: 0 <= k < i ==> list[k].sn != sn
  {
    if list == [] || list[0].sn == sn then 0 else 1 + FindSn(list[1..], sn)
  }

  lemma {:induction false} FoundIffCounted(list: seq<Smi>, sn: u32)
    ensures FindSn(list, sn) < |list| <==> Count(list, sn) > 0
  {
    if list != [] && list[0].sn != sn {
      FoundIffCounted(list[1..], sn);
    }
  }

  predicate SameId(a: seq<u8>, b: seq<u8>) {
    |a| == |b| && forall i :: 0 <= i < |a| ==> Lower(a[i]) == Lower(b[i])
  }

  /** Where the search for a message id stops; letter case does not count. */
  function FindId(list: seq<Smi>, id: seq<u8>): (i: nat)
    ensures i <= |list|
    ensures i < |list| ==> SameId(list[i].messageId, id)
    ensures forall k :: 0 <= k < i ==> !SameId(list[k].messageId, id)
  {
    if list == [] || SameId(list[0].messageId, id) then 0 else 1 + FindId(list[1..], id)
  }

  // ---- Time limits ----

  /** The cast of a 64-bit difference to int. */
  function Int32(x: int): (r: int)
    ensures -0x8000_0000 <= r < 0x8000_0000
    ensures -0x8000_0000 <= x < 0x8000_0000 ==> r == x
  {
    var w := x % 0x1_0000_0000;
    if w < 0x8000_0000 then w else w - 0x1_0000_0000
  }

  predicate Expired(now: nat, since: nat, limit: int) {
    Int32(now - since) > limit
  }

  /** On a clock that is not past 2^31 seconds, expired means older than the limit. */
  lemma ExpiredIff(now: nat, since: nat, limit: int)
    requires since <= now < 0x8000_0000
    ensures Expired(now, since, limit) <==> now - since > limit
  {
    assert Int32(now - since) == now - since;
  }

  // ---- Taking a message out of a list ----

  predicate Holds(list: seq<Smi>, sn: u32) {
    exists i :: 0 <= i < |list| && list[i].sn == sn
  }

  /** m is the first message with its number; it leaves the list, and the others stay as they are. */
  predicate FirstLeaves(list: seq<Smi>, m: Smi, after: seq<Smi>) {
    exists i :: 0 <= i < |list| && list[i] == m && after == list[..i] + list[i + 1..]
                && forall k :: 0 <= k < i ==> list[k].sn != m.sn
  }

  lemma FindSnHolds(list: seq<Smi>, sn: u32)
    ensures FindSn(list, sn) < |list| <==> Holds(list, sn)
  {
  }

  lemma ErasedLeaves(list: seq<Smi>, sn: u32)
    requires FindSn(list, sn) < |list|
    ensures FirstLeaves(list, list[FindSn(list, sn)], Erase(list, FindSn(list, sn)))
  {
  }
}
