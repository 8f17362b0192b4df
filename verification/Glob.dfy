/**
 The backtracking matcher of the web server's configuration patterns. Pointers into
 the pattern and the string are indices into one octet sequence each; the string ends
 with an implicit zero, as does the memory after the pattern.
 */
module Glob {
  import opened Bytes

  const QUESTION: u8 := 63
  const DOLLAR: u8 := 36
  const STAR: u8 := 42
  const BAR: u8 := 124
  const SLASH: u8 := 47

  /** Where strcspn(s + j, "/") stops. */
  function SegmentEnd(s: seq<u8>, j: nat): (r: nat)
    requires j <= |s|
    ensures j <= r <= |s|
    ensures forall k :: j <= k < r ==> s[k] != SLASH
    ensures r < |s| ==> s[r] == SLASH
    decreases |s| - j
  {
    if j == |s| || s[j] == SLASH then j else SegmentEnd(s, j + 1)
  }

  predicate DoubleStar(p: seq<u8>, i: nat, hi: nat)
    requires i < hi <= |p|
  {
    i + 1 < hi && p[i + 1] == STAR
  }

  /** The pattern index after the star at i, and how far that star may run. */
  function AfterStar(p: seq<u8>, i: nat, hi: nat): (k: nat)
    requires i < hi <= |p|
    ensures i < k <= hi
  {
    if DoubleStar(p, i, hi) then i + 2 else i + 1
  }

  function Reach(p: seq<u8>, i: nat, hi: nat, s: seq<u8>, j: nat): (r: nat)
    requires i < hi <= |p| && j <= |s|
    ensures j <= r <= |s|
  {
    if DoubleStar(p, i, hi) then |s| else SegmentEnd(s, j)
  }

  /** The glob relation: pattern p[i..hi] can take the string from position j to position e. */
  ghost predicate Match(p: seq<u8>, i: nat, hi: nat, s: seq<u8>, j: nat, e: nat)
    requires i <= hi <= |p| && j <= |s|
    decreases hi - i
  {
    if i == hi then e == j
    else if p[i] == QUESTION then j < |s| && Match(p, i + 1, hi, s, j + 1, e)
    else if p[i] == DOLLAR then j == |s| && e == j
    else if p[i] == STAR then
      exists k: nat :: j <= k <= Reach(p, i, hi, s, j) && Match(p, AfterStar(p, i, hi), hi, s, k, e)
    else j < |s| && Lower(p[i]) == Lower(s[j]) && Match(p, i + 1, hi, s, j + 1, e)
  }

  lemma {:induction false} MatchEndsInside(p: seq<u8>, i: nat, hi: nat, s: seq<u8>, j: nat, e: nat)
    requires i <= hi <= |p| && j <= |s| && Match(p, i, hi, s, j, e)
    ensures j <= e <= |s|
    decreases hi - i
  {
    if i < hi && p[i] == STAR {
      var k: nat :| j <= k <= Reach(p, i, hi, s, j) && Match(p, AfterStar(p, i, hi), hi, s, k, e);
      MatchEndsInside(p, AfterStar(p, i, hi), hi, s, k, e);
    } else if i < hi && p[i] != DOLLAR {
      MatchEndsInside(p, i + 1, hi, s, j + 1, e);
    }
  }

  /**
   Two matches of one pattern cross: when the one that starts later ends no later, it
   can be rerouted to end where the earlier one ends.
   */
  lemma {:induction false} Cross(p: seq<u8>, i: nat, hi: nat, s: seq<u8>, j1: nat, j2: nat, e1: nat, e2: nat)
    requires i <= hi <= |p| && j1 <= j2 <= |s| && e2 <= e1
    requires Match(p, i, hi, s, j1, e1) && Match(p, i, hi, s, j2, e2)
    ensures Match(p, i, hi, s, j2, e1)
    decreases hi - i
  {
    if j1 == j2 || i == hi || p[i] == DOLLAR {
    } else if p[i] == STAR {
      var n := AfterStar(p, i, hi);
      var k1: nat :| j1 <= k1 <= Reach(p, i, hi, s, j1) && Match(p, n, hi, s, k1, e1);
      var k2: nat :| j2 <= k2 <= Reach(p, i, hi, s, j2) && Match(p, n, hi, s, k2, e2);
      if k1 <= k2 {
        Cross(p, n, hi, s, k1, k2, e1, e2);
      } else {
        assert j2 <= k1 <= Reach(p, i, hi, s, j2);
      }
    } else {
      Cross(p, i + 1, hi, s, j1 + 1, j2 + 1, e1, e2);
    }
  }

  lemma TrailingStar(p: seq<u8>, i: nat, hi: nat, s: seq<u8>, j: nat)
    requires i < hi <= |p| && j <= |s| && p[i] == STAR && AfterStar(p, i, hi) == hi
    ensures Match(p, i, hi, s, j, Reach(p, i, hi, s, j))
    ensures forall e: nat :: Match(p, i, hi, s, j, e) ==> e <= Reach(p, i, hi, s, j)
  {
    var r := Reach(p, i, hi, s, j);
    assert Match(p, AfterStar(p, i, hi), hi, s, r, r);
  }

  /** res is the length of the longest match of p[i..hi] from position j, or -1 when there is none. */
  ghost predicate Longest(p: seq<u8>, i: nat, hi: nat, s: seq<u8>, j: nat, res: int)
    requires i <= hi <= |p| && j <= |s|
  {
    && -1 <= res
    && (res == -1 ==> forall e: nat :: !Match(p, i, hi, s, j, e))
    && (res >= 0 ==> Match(p, i, hi, s, j, j + res))
    && (res >= 0 ==> forall e: nat :: Match(p, i, hi, s, j, e) ==> e <= j + res)
  }

  /** The first bar of p[lo..hi], or hi. */
  function FirstBar(p: seq<u8>, lo: nat, hi: nat): (b: nat)
    requires lo <= hi <= |p|
    ensures lo <= b <= hi && (b < hi ==> p[b] == BAR)
    ensures forall k :: lo <= k < b ==> p[k] != BAR
    decreases hi - lo
  {
    if lo == hi || p[lo] == BAR then lo else FirstBar(p, lo + 1, hi)
  }

  /** The alternatives are tried left to right until one matches something nonempty. */
  ghost predicate Outcome(p: seq<u8>, lo: nat, hi: nat, s: seq<u8>, j: nat, res: int)
    requires lo <= hi <= |p| && j <= |s|
    decreases hi - lo
  {
    var b := FirstBar(p, lo, hi);
    if b == hi then Longest(p, lo, hi, s, j, res)
    else exists r: int :: Longest(p, lo, b, s, j, r) && if r > 0 then res == r else Outcome(p, b + 1, hi, s, j, res)
  }

  lemma StarRun(p: seq<u8>, i: nat, hi: nat, s: seq<u8>, j: nat, e: nat) returns (l: nat)
    requires i < hi <= |p| && j <= |s| && p[i] == STAR && Match(p, i, hi, s, j, e)
    ensures j <= l <= Reach(p, i, hi, s, j) && Match(p, AfterStar(p, i, hi), hi, s, l, e)
  {
    l :| j <= l <= Reach(p, i, hi, s, j) && Match(p, AfterStar(p, i, hi), hi, s, l, e);
  }

  /** The star that starts at i makes its longest match at the largest k that works at all. */
  lemma StarIsGreedy(p: seq<u8>, i: nat, hi: nat, s: seq<u8>, j: nat, k: nat, res: int)
    requires i < hi <= |p| && j <= k <= |s| && p[i] == STAR && k <= Reach(p, i, hi, s, j)
    requires 0 <= res && Longest(p, AfterStar(p, i, hi), hi, s, k, res)
    requires forall l: nat, e: nat :: k < l <= Reach(p, i, hi, s, j) ==> !Match(p, AfterStar(p, i, hi), hi, s, l, e)
    ensures Longest(p, i, hi, s, j, k - j + res)
  {
    var n := AfterStar(p, i, hi);
    forall e: nat | Match(p, i, hi, s, j, e)
      ensures e <= k + res
    {
      var l := StarRun(p, i, hi, s, j, e);
      if e > k + res {
        assert l <= k;
        Cross(p, n, hi, s, l, k, e, k + res);
      }
    }
  }

  method MatchPrefix(p: seq<u8>, lo: nat, hi: nat, s: seq<u8>, at: nat) returns (res: int)
    requires lo <= hi <= |p| && at <= |s|
    requires hi < |p| ==> p[hi] != STAR
    requires 0 !in p && 0 !in s
    ensures Outcome(p, lo, hi, s, at, res)
    decreases hi - lo, 2
  {
    var orStr := FirstBar(p, lo, hi);
    if orStr < hi {
      res := MatchPrefix(p, lo, orStr, s, at);
      assert FirstBar(p, lo, orStr) == orStr;
      if res <= 0 {
        ghost var r := res;
        res := MatchPrefix(p, orStr + 1, hi, s, at);
        assert Longest(p, lo, orStr, s, at, r);
      }
      return;
    }
    res := MatchOne(p, lo, hi, s, at);
  }

  /** The part of the matcher after the search for a bar found none. */
  method MatchOne(p: seq<u8>, lo: nat, hi: nat, s: seq<u8>, at: nat) returns (res: int)
    requires lo <= hi <= |p| && at <= |s|
    requires hi < |p| ==> p[hi] != STAR
    requires FirstBar(p, lo, hi) == hi && 0 !in p && 0 !in s
    ensures Longest(p, lo, hi, s, at, res)
    decreases hi - lo, 1
  {
    var i, j := lo, at;
    while i < hi
      invariant lo <= i <= hi && at <= j <= |s|
      invariant forall e: nat :: Match(p, lo, hi, s, at, e) <==> Match(p, i, hi, s, j, e)
    {
      var c := if j < |s| then s[j] else 0;
      if p[i] == QUESTION && c != 0 {
      } else if p[i] == DOLLAR {
        return if c == 0 then j - at else -1;
      } else if p[i] == STAR {
        FirstBarLater(p, lo, i, hi);
        res := MatchStar(p, i, hi, s, j);
        return if res == -1 then -1 else j - at + res;
      } else if Lower(p[i]) != Lower(c) {
        return -1;
      }
      i, j := i + 1, j + 1;
    }
    return j - at;
  }

  /** From a star on: the star first runs as far as it may, then gives back one octet at a time. */
  method MatchStar(p: seq<u8>, star: nat, hi: nat, s: seq<u8>, j: nat) returns (res: int)
    requires star < hi <= |p| && j <= |s| && p[star] == STAR
    requires hi < |p| ==> p[hi] != STAR
    requires FirstBar(p, star, hi) == hi && 0 !in p && 0 !in s
    ensures Longest(p, star, hi, s, j, res)
    decreases hi - star, 0
  {
    var i := star + 1;
    var len;
    if i < |p| && p[i] == STAR {
      i := i + 1;
      len := |s| - j;
    } else {
      len := SegmentEnd(s, j) - j;
    }
    assert i == AfterStar(p, star, hi) && j + len == Reach(p, star, hi, s, j);
    if i == hi {
      TrailingStar(p, star, hi, s, j);
      return len;
    }
    FirstBarLater(p, star, i, hi);
    ghost var reach := j + len;
    res := MatchPrefix(p, i, hi, s, j + len);
    while res == -1 && len > 0
      invariant 0 <= len && j + len <= reach
      invariant Longest(p, i, hi, s, j + len, res)
      invariant forall l: nat, e: nat :: j + len < l <= reach ==> !Match(p, i, hi, s, l, e)
      decreases len
    {
      len := len - 1;
      res := MatchPrefix(p, i, hi, s, j + len);
    }
    if res == -1 {
      return -1;
    }
    StarIsGreedy(p, star, hi, s, j, j + len, res);
    return res + len;
  }

  lemma {:induction false} FirstBarLater(p: seq<u8>, lo: nat, i: nat, hi: nat)
    requires lo <= i <= hi <= |p| && FirstBar(p, lo, hi) == hi
    ensures FirstBar(p, i, hi) == hi
  {
  }

  /** p[a..b] is one of the alternatives of p[lo..hi]. */
  ghost predicate Alternative(p: seq<u8>, lo: nat, hi: nat, a: nat, b: nat)
    requires lo <= hi <= |p|
  {
    && lo <= a <= b <= hi
    && (a == lo || p[a - 1] == BAR)
    && (b == hi || p[b] == BAR)
    && forall k :: a <= k < b ==> p[k] != BAR
  }

  ghost predicate MatchAny(p: seq<u8>, lo: nat, hi: nat, s: seq<u8>, j: nat, e: nat)
    requires lo <= hi <= |p| && j <= |s|
  {
    exists a: nat, b: nat :: Alternative(p, lo, hi, a, b) && Match(p, a, b, s, j, e)
  }

  /** The alternatives after the first bar, plus the one before it, are all there are. */
  lemma AlternativesSplit(p: seq<u8>, lo: nat, hi: nat, a: nat, b: nat)
    requires lo <= hi <= |p| && FirstBar(p, lo, hi) < hi
    ensures Alternative(p, lo, hi, a, b)
       <==> (a == lo && b == FirstBar(p, lo, hi)) || Alternative(p, FirstBar(p, lo, hi) + 1, hi, a, b)
  {
    var f := FirstBar(p, lo, hi);
    if Alternative(p, lo, hi, a, b) {
      if a <= f {
        assert a == lo;
        assert p[f] == BAR;
        assert b <= f;
      }
    }
  }

  /** p[a..b] answers with its longest match, and no alternative before it takes anything nonempty. */
  ghost predicate Leads(p: seq<u8>, lo: nat, hi: nat, s: seq<u8>, j: nat, res: int, a: nat, b: nat)
    requires lo <= hi <= |p| && j <= |s|
  {
    && Alternative(p, lo, hi, a, b)
    && Longest(p, a, b, s, j, res)
    && forall a': nat, b': nat, e: nat ::
         Alternative(p, lo, hi, a', b') && a' < a && Match(p, a', b', s, j, e) ==> e <= j
  }

  ghost predicate First(p: seq<u8>, lo: nat, hi: nat, s: seq<u8>, j: nat, res: int)
    requires lo <= hi <= |p| && j <= |s|
  {
    exists a: nat, b: nat :: Leads(p, lo, hi, s, j, res, a, b)
  }

  /**
   What an answer tells the caller. A nonnegative one is the length of a prefix that some
   alternative takes; it is positive exactly when some alternative takes a nonempty
   prefix, and then it is the longest match of the first such alternative; zero or -1 is
   the last alternative's own answer.
   */
  ghost predicate Meaning(p: seq<u8>, lo: nat, hi: nat, s: seq<u8>, j: nat, res: int)
    requires lo <= hi <= |p| && j <= |s|
  {
    && -1 <= res
    && (res >= 0 ==> MatchAny(p, lo, hi, s, j, j + res))
    && (res > 0 <==> exists e: nat :: j < e && MatchAny(p, lo, hi, s, j, e))
    && (res > 0 ==> First(p, lo, hi, s, j, res))
    && (res <= 0 ==> exists a: nat :: Alternative(p, lo, hi, a, hi) && Longest(p, a, hi, s, j, res))
  }

  lemma {:induction false} OutcomeMeaning(p: seq<u8>, lo: nat, hi: nat, s: seq<u8>, j: nat, res: int)
    requires lo <= hi <= |p| && j <= |s| && Outcome(p, lo, hi, s, j, res)
    ensures Meaning(p, lo, hi, s, j, res)
    decreases hi - lo
  {
    var f := FirstBar(p, lo, hi);
    if f == hi {
      OneAlternative(p, lo, hi, s, j, res);
    } else {
      var r: int :| Longest(p, lo, f, s, j, r) && if r > 0 then res == r else Outcome(p, f + 1, hi, s, j, res);
      if r > 0 {
        FirstWins(p, lo, hi, s, j, res);
      } else {
        OutcomeMeaning(p, f + 1, hi, s, j, res);
        LaterAnswers(p, lo, hi, s, j, r, res);
      }
    }
  }

  lemma FirstWins(p: seq<u8>, lo: nat, hi: nat, s: seq<u8>, j: nat, res: int)
    requires lo <= hi <= |p| && j <= |s| && FirstBar(p, lo, hi) < hi
    requires res > 0 && Longest(p, lo, FirstBar(p, lo, hi), s, j, res)
    ensures MatchAny(p, lo, hi, s, j, j + res)
    ensures First(p, lo, hi, s, j, res)
  {
    var f := FirstBar(p, lo, hi);
    assert Alternative(p, lo, hi, lo, f);
    assert Match(p, lo, f, s, j, j + res);
    assert Leads(p, lo, hi, s, j, res, lo, f);
  }

  lemma LaterAnswers(p: seq<u8>, lo: nat, hi: nat, s: seq<u8>, j: nat, r: int, res: int)
    requires lo <= hi <= |p| && j <= |s| && FirstBar(p, lo, hi) < hi && -1 <= res
    requires r <= 0 && Longest(p, lo, FirstBar(p, lo, hi), s, j, r)
    requires Meaning(p, FirstBar(p, lo, hi) + 1, hi, s, j, res)
    ensures Meaning(p, lo, hi, s, j, res)
  {
    var f := FirstBar(p, lo, hi);
    forall a: nat, b: nat
      ensures Alternative(p, lo, hi, a, b) <==> (a == lo && b == f) || Alternative(p, f + 1, hi, a, b)
    {
      AlternativesSplit(p, lo, hi, a, b);
    }
    forall e: nat | j < e
      ensures MatchAny(p, lo, hi, s, j, e) <==> MatchAny(p, f + 1, hi, s, j, e)
    {
      if MatchAny(p, lo, hi, s, j, e) {
        var a: nat, b: nat :| Alternative(p, lo, hi, a, b) && Match(p, a, b, s, j, e);
        assert Alternative(p, f + 1, hi, a, b);
      }
      if MatchAny(p, f + 1, hi, s, j, e) {
        var a: nat, b: nat :| Alternative(p, f + 1, hi, a, b) && Match(p, a, b, s, j, e);
        assert Alternative(p, lo, hi, a, b);
      }
    }
    if res == 0 {
      var a: nat, b: nat :| Alternative(p, f + 1, hi, a, b) && Match(p, a, b, s, j, j);
      assert Alternative(p, lo, hi, a, b);
    }
    if res > 0 {
      var a: nat, b: nat :| Leads(p, f + 1, hi, s, j, res, a, b);
      forall a': nat, b': nat, e: nat | Alternative(p, lo, hi, a', b') && a' < a && Match(p, a', b', s, j, e)
        ensures e <= j
      {
      }
      assert Leads(p, lo, hi, s, j, res, a, b);
    }
  }

  lemma OneAlternative(p: seq<u8>, lo: nat, hi: nat, s: seq<u8>, j: nat, res: int)
    requires lo <= hi <= |p| && j <= |s| && FirstBar(p, lo, hi) == hi && Longest(p, lo, hi, s, j, res)
    ensures Meaning(p, lo, hi, s, j, res)
  {
    assert Alternative(p, lo, hi, lo, hi);
    assert forall a: nat, b: nat :: Alternative(p, lo, hi, a, b) ==> a == lo && b == hi;
    if res > 0 {
      assert Leads(p, lo, hi, s, j, res, lo, hi);
    }
  }

  // ---- What each sign of a pattern stands for ----

  predicate Special(c: u8) {
    c == QUESTION || c == DOLLAR || c == STAR
  }

  /** Without special signs a pattern takes its own text, letter case aside. */
  lemma {:induction false} PlainText(p: seq<u8>, i: nat, hi: nat, s: seq<u8>, j: nat, e: nat)
    requires i <= hi <= |p| && j <= |s| && forall k :: i <= k < hi ==> !Special(p[k])
    ensures Match(p, i, hi, s, j, e) <==> e == j + (hi - i) <= |s| && SameText(p[i..hi], s[j..e])
    decreases hi - i
  {
    if i < hi && j < |s| {
      PlainText(p, i + 1, hi, s, j + 1, e);
      LowerIsSame(p[i], s[j]);
      if e == j + (hi - i) <= |s| {
        assert p[i..hi] == [p[i]] + p[i + 1..hi] && s[j..e] == [s[j]] + s[j + 1..e];
        SameTextHead(p[i], p[i + 1..hi], s[j], s[j + 1..e]);
      }
    }
  }

  lemma LowerIsSame(x: u8, y: u8)
    ensures Lower(x) == Lower(y) <==> SameLetter(x, y)
  {
  }

  lemma SameTextHead(x: u8, a: seq<u8>, y: u8, b: seq<u8>)
    ensures SameText([x] + a, [y] + b) <==> SameLetter(x, y) && SameText(a, b)
  {
    hide SameLetter;
    if SameText([x] + a, [y] + b) {
      assert SameLetter(([x] + a)[0], ([y] + b)[0]);
      forall i | 0 <= i < |a|
        ensures SameLetter(a[i], b[i])
      {
        assert SameLetter(([x] + a)[i + 1], ([y] + b)[i + 1]);
      }
    }
  }

  /** ? takes any one octet, $ the end of the string, * what has no slash in it, ** anything. */
  lemma EachSign(s: seq<u8>, j: nat, e: nat)
    requires j <= |s|
    ensures Match([QUESTION], 0, 1, s, j, e) <==> e == j + 1 <= |s|
    ensures Match([DOLLAR], 0, 1, s, j, e) <==> e == j == |s|
    ensures Match([STAR], 0, 1, s, j, e) <==> j <= e <= |s| && SLASH !in s[j..e]
    ensures Match([STAR, STAR], 0, 2, s, j, e) <==> j <= e <= |s|
  {
    var one, two := [STAR], [STAR, STAR];
    StarStops(s, j, e);
    if j <= e <= Reach(one, 0, 1, s, j) {
      assert Match(one, AfterStar(one, 0, 1), 1, s, e, e);
    }
    if j <= e <= |s| {
      assert Match(two, AfterStar(two, 0, 2), 2, s, e, e);
    }
  }

  lemma StarStops(s: seq<u8>, j: nat, e: nat)
    requires j <= |s|
    ensures j <= e <= SegmentEnd(s, j) <==> j <= e <= |s| && SLASH !in s[j..e]
  {
    if j <= e <= |s| && e > SegmentEnd(s, j) {
      assert s[j..e][SegmentEnd(s, j) - j] == SLASH;
    }
  }

  /** A pattern is matched part by part, wherever it is cut, save inside ** and behind $. */
  lemma {:induction false} PartByPart(p: seq<u8>, i: nat, m: nat, hi: nat, s: seq<u8>, j: nat, e: nat)
    requires i <= m <= hi <= |p| && j <= |s| && (forall k :: i <= k < m ==> p[k] != DOLLAR)
    requires i < m < hi && p[m - 1] == STAR ==> p[m] != STAR
    ensures Match(p, i, hi, s, j, e) <==> Meets(p, i, m, hi, s, j, e)
    decreases m - i
  {
    if i == m {
      assert Match(p, i, m, s, j, j);
    } else if p[i] == STAR {
      StarPart(p, i, m, hi, s, j, e);
    } else if j < |s| {
      PartByPart(p, i + 1, m, hi, s, j + 1, e);
      forall c: nat
        ensures Match(p, i, m, s, j, c)
           <==> (p[i] == QUESTION || Lower(p[i]) == Lower(s[j])) && Match(p, i + 1, m, s, j + 1, c)
      {
      }
    }
  }

  /** Some position between is where the first part ends and the second begins. */
  ghost predicate Meets(p: seq<u8>, i: nat, m: nat, hi: nat, s: seq<u8>, j: nat, e: nat)
    requires i <= m <= hi <= |p| && j <= |s|
  {
    exists c: nat :: c <= |s| && Match(p, i, m, s, j, c) && Match(p, m, hi, s, c, e)
  }

  lemma {:induction false} StarPart(p: seq<u8>, i: nat, m: nat, hi: nat, s: seq<u8>, j: nat, e: nat)
    requires i < m <= hi <= |p| && j <= |s| && p[i] == STAR && (forall k :: i <= k < m ==> p[k] != DOLLAR)
    requires m < hi && p[m - 1] == STAR ==> p[m] != STAR
    ensures Match(p, i, hi, s, j, e) <==> Meets(p, i, m, hi, s, j, e)
    decreases m - i, 0
  {
    var n := AfterStar(p, i, hi);
    assert n == AfterStar(p, i, m) <= m && Reach(p, i, hi, s, j) == Reach(p, i, m, s, j);
    if Match(p, i, hi, s, j, e) {
      var k := StarRun(p, i, hi, s, j, e);
      PartByPart(p, n, m, hi, s, k, e);
      var c: nat :| c <= |s| && Match(p, n, m, s, k, c) && Match(p, m, hi, s, c, e);
      assert Match(p, i, m, s, j, c);
    }
    if Meets(p, i, m, hi, s, j, e) {
      var c: nat :| c <= |s| && Match(p, i, m, s, j, c) && Match(p, m, hi, s, c, e);
      var k := StarRun(p, i, m, s, j, c);
      PartByPart(p, n, m, hi, s, k, e);
    }
  }
}
