/**
 * The earlier revision of the piecewise-linear function (src/lib.rs): only a
 * constructor and a read-only `get`. Its lookups and case split are those of
 * the current revision, but strictly between two keys it returns
 * `left_y + dy / dx`, with no factor for how far `at` lies into the segment.
 */
module PwLineEarly {
  import opened Wrappers
  import opened Bracket

  /**
   * The interior value of the earlier revision: the left value plus the
   * segment's slope. It never leaves the range spanned by the two values,
   * because the keys are integers and so `dx >= 1`.
   */
  function Step(lx: int, ly: real, rx: int, ry: real): (r: real)
    requires lx < rx
    ensures ly <= ry ==> ly <= r <= ry
    ensures ry <= ly ==> ry <= r <= ly
  {
    var dx: real := (rx - lx) as real;
    QuotientWithinDividend(ry - ly, dx);
    ly + (ry - ly) / dx
  }

  /** Dividing by at least one moves a number towards zero without crossing it. */
  lemma QuotientWithinDividend(dy: real, dx: real)
    requires dx >= 1.0
    ensures 0.0 <= dy ==> 0.0 <= dy / dx <= dy
    ensures dy <= 0.0 ==> dy <= dy / dx <= 0.0
  {
    var q := dy / dx;
    assert q * dx == dy;
    if 0.0 <= dy {
      assert 0.0 <= q;
      assert q * 1.0 <= q * dx;
    } else {
      assert q <= 0.0;
      assert q * dx <= q * 1.0;
    }
  }

  /** The function as a value: its control points and nothing else. */
  datatype PwLine = PwLine(points: map<int, real>) {

    /**
     * `get(at)`: None outside the inclusive domain, the stored value at a key,
     * and `Step` of the bracketing keys strictly between two keys.
     */
    function Get(at: int): (r: Option<real>)
      ensures r.None? <==> !InDomain(points, at)
      ensures at in points ==> r == Some(points[at])
      ensures r.Some? && at !in points ==>
                exists lo, hi :: Adjacent(points, lo, hi) && lo < at < hi &&
                  r.value == Step(lo, points[lo], hi, points[hi])
    {
      match Floor(points, at)
      case None => None
      case Some(lx) =>
        match Ceil(points, at)
        case None => None
        case Some(rx) =>
          if at == lx then
            Some(points[lx])
          else
            LookupsBracket(points, at);
            Some(Step(lx, points[lx], rx, points[rx]))
    }
  }

  /** `PwLine::new`: no control points, so `get` is None everywhere. */
  function New(): (pl: PwLine)
    ensures pl.points == map[]
    ensures forall at :: pl.Get(at) == None
  {
    PwLine(map[])
  }

  /**
   * Strictly inside the segment of two adjacent keys, `get` is the same
   * value at every position: it does not depend on `at`.
   */
  lemma ConstantWithinSegment(pl: PwLine, lo: int, hi: int, a: int, b: int)
    requires Adjacent(pl.points, lo, hi) && lo < a < hi && lo < b < hi
    ensures pl.Get(a) == pl.Get(b) == Some(Step(lo, pl.points[lo], hi, pl.points[hi]))
  {
    LookupsInSegment(pl.points, lo, hi, a);
    LookupsInSegment(pl.points, lo, hi, b);
  }
}
