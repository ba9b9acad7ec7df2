/**
 * The two ordered-map lookups that both revisions of `get` perform on the
 * control-point store: the greatest key at or below a query position and the
 * least key at or above it (both bounds inclusive).
 */
module Bracket {
  import opened Wrappers

  /** `k` is the greatest key of `m` that is `<= at`. */
  predicate IsFloor<V>(m: map<int, V>, at: int, k: int)
  {
    k in m && k <= at && forall j :: j in m && j <= at ==> j <= k
  }

  /** `k` is the least key of `m` that is `>= at`. */
  predicate IsCeil<V>(m: map<int, V>, at: int, k: int)
  {
    k in m && at <= k && forall j :: j in m && at <= j ==> k <= j
  }

  /** Some key of `m` lies at or below `at`. */
  predicate HasKeyAtOrBelow<V>(m: map<int, V>, at: int)
  {
    exists k :: k in m && k <= at
  }

  /** Some key of `m` lies at or above `at`. */
  predicate HasKeyAtOrAbove<V>(m: map<int, V>, at: int)
  {
    exists k :: k in m && at <= k
  }

  /**
   * `at` lies in the inclusive domain of the function stored in `m`: there is
   * a key on each side of it.
   */
  predicate InDomain<V>(m: map<int, V>, at: int)
  {
    HasKeyAtOrBelow(m, at) && HasKeyAtOrAbove(m, at)
  }

  /** Every non-empty finite set of integers has a largest element. */
  lemma {:induction false} MaxExists(s: set<int>, x: int)
    requires x in s
    ensures exists k :: k in s && forall j :: j in s ==> j <= k
    decreases |s|
  {
    if y :| y in s && y != x {
      var rest := s - {x};
      MaxExists(rest, y);
      var k :| k in rest && forall j :: j in rest ==> j <= k;
      var best := if x <= k then k else x;
      forall j | j in s
        ensures j <= best
      {
        if j != x {
          assert j in rest;
        }
      }
      assert best in s;
    } else {
      assert forall j :: j in s ==> j <= x;
    }
  }

  /** Every non-empty finite set of integers has a smallest element. */
  lemma {:induction false} MinExists(s: set<int>, x: int)
    requires x in s
    ensures exists k :: k in s && forall j :: j in s ==> k <= j
    decreases |s|
  {
    if y :| y in s && y != x {
      var rest := s - {x};
      MinExists(rest, y);
      var k :| k in rest && forall j :: j in rest ==> k <= j;
      var best := if k <= x then k else x;
      forall j | j in s
        ensures best <= j
      {
        if j != x {
          assert j in rest;
        }
      }
      assert best in s;
    } else {
      assert forall j :: j in s ==> x <= j;
    }
  }

  lemma FloorExists<V>(m: map<int, V>, at: int)
    requires HasKeyAtOrBelow(m, at)
    ensures exists k :: k in m && IsFloor(m, at, k)
  {
    var w :| w in m && w <= at;
    var below := set k | k in m && k <= at;
    MaxExists(below, w);
    var k :| k in below && forall j :: j in below ==> j <= k;
    forall j | j in m && j <= at
      ensures j <= k
    {
      assert j in below;
    }
    assert k in m && IsFloor(m, at, k);
  }

  lemma CeilExists<V>(m: map<int, V>, at: int)
    requires HasKeyAtOrAbove(m, at)
    ensures exists k :: k in m && IsCeil(m, at, k)
  {
    var w :| w in m && at <= w;
    var above := set k | k in m && at <= k;
    MinExists(above, w);
    var k :| k in above && forall j :: j in above ==> k <= j;
    forall j | j in m && at <= j
      ensures k <= j
    {
      assert j in above;
    }
    assert k in m && IsCeil(m, at, k);
  }

  /**
   * The last entry of `range(Unbounded, Included(at))`: the greatest key at
   * or below `at`, or None when every key lies above `at`.
   */
  function Floor<V>(m: map<int, V>, at: int): (r: Option<int>)
    ensures r.Some? <==> HasKeyAtOrBelow(m, at)
    ensures r.Some? ==> IsFloor(m, at, r.value)
    ensures r.None? ==> forall k :: k in m ==> at < k
  {
    if HasKeyAtOrBelow(m, at) then
      FloorExists(m, at);
      var f :| f in m && IsFloor(m, at, f);
      Some(f)
    else
      None
  }

  /**
   * The first entry of `range(Included(at), Unbounded)`: the least key at or
   * above `at`, or None when every key lies below `at`.
   */
  function Ceil<V>(m: map<int, V>, at: int): (r: Option<int>)
    ensures r.Some? <==> HasKeyAtOrAbove(m, at)
    ensures r.Some? ==> IsCeil(m, at, r.value)
    ensures r.None? ==> forall k :: k in m ==> k < at
  {
    if HasKeyAtOrAbove(m, at) then
      CeilExists(m, at);
      var c :| c in m && IsCeil(m, at, c);
      Some(c)
    else
      None
  }

  /** Both lookups are inclusive: a key at `at` is found by each of them. */
  lemma LookupsMeetAtKey<V>(m: map<int, V>, at: int)
    requires at in m
    ensures Floor(m, at) == Some(at) && Ceil(m, at) == Some(at)
  {
    var f, c := Floor(m, at), Ceil(m, at);
    assert HasKeyAtOrBelow(m, at) && HasKeyAtOrAbove(m, at);
    assert IsFloor(m, at, f.value) && IsCeil(m, at, c.value);
  }

  /** `lo < hi` are keys of `m` with no key strictly between them. */
  predicate Adjacent<V>(m: map<int, V>, lo: int, hi: int)
  {
    lo in m && hi in m && lo < hi && forall k :: k in m ==> !(lo < k < hi)
  }

  /**
   * Strictly inside the segment of two adjacent keys, the lookups return
   * exactly those two keys.
   */
  lemma LookupsInSegment<V>(m: map<int, V>, lo: int, hi: int, at: int)
    requires Adjacent(m, lo, hi) && lo < at < hi
    ensures Floor(m, at) == Some(lo) && Ceil(m, at) == Some(hi)
  {
    assert HasKeyAtOrBelow(m, at) by { assert lo in m && lo <= at; }
    assert HasKeyAtOrAbove(m, at) by { assert hi in m && at <= hi; }
    var f, c := Floor(m, at).value, Ceil(m, at).value;
    assert lo <= f && c <= hi;
    assert !(lo < f < hi) && !(lo < c < hi);
  }

  /** Outside a query that hits no key, the two lookups bracket it strictly. */
  lemma LookupsBracket<V>(m: map<int, V>, at: int)
    requires at !in m && HasKeyAtOrBelow(m, at) && HasKeyAtOrAbove(m, at)
    ensures Adjacent(m, Floor(m, at).value, Ceil(m, at).value)
    ensures Floor(m, at).value < at < Ceil(m, at).value
  {
    var f, c := Floor(m, at).value, Ceil(m, at).value;
    assert IsFloor(m, at, f) && IsCeil(m, at, c);
    forall k | k in m
      ensures !(f < k < c)
    {
      if k <= at { assert k <= f; } else { assert c <= k; }
    }
  }

  /** The smallest key of a non-empty map. */
  ghost function MinKey<V>(m: map<int, V>): (k: int)
    requires exists k :: k in m
    ensures k in m && forall j :: j in m ==> k <= j
  {
    var w :| w in m;
    MinExists(m.Keys, w);
    var k :| k in m && forall j :: j in m ==> k <= j; k
  }

  /** The largest key of a non-empty map. */
  ghost function MaxKey<V>(m: map<int, V>): (k: int)
    requires exists k :: k in m
    ensures k in m && forall j :: j in m ==> j <= k
  {
    var w :| w in m;
    MaxExists(m.Keys, w);
    var k :| k in m && forall j :: j in m ==> j <= k; k
  }

  /**
   * For a non-empty map, a position has a key on both sides (inclusively)
   * exactly when it lies between the smallest and the largest key.
   */
  lemma BothSidesIffWithinKeys<V>(m: map<int, V>, at: int)
    requires exists k :: k in m
    ensures HasKeyAtOrBelow(m, at) && HasKeyAtOrAbove(m, at)
            <==> MinKey(m) <= at <= MaxKey(m)
  {
    var lo, hi := MinKey(m), MaxKey(m);
    if lo <= at <= hi {
      assert lo in m && hi in m;
    }
    if HasKeyAtOrBelow(m, at) {
      var k :| k in m && k <= at;
      assert lo <= k;
    }
    if HasKeyAtOrAbove(m, at) {
      var k :| k in m && at <= k;
      assert k <= hi;
    }
  }
}
