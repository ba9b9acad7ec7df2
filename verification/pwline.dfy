/**
 * The current revision of the piecewise-linear function (src/pwline.rs):
 * a control-point store that `add_pt` updates in place, the evaluator `get`,
 * and the consecutive cursor returned by `get_consec`.
 *
 * The domain type is modelled as `int` and the range type as `real`, so the
 * conversions of domain differences into the range type are exact.
 */
module PwLineCurrent {
  import opened Wrappers
  import opened Bracket

  /**
   * The value at `at` of the straight line through (lx, ly) and (rx, ry),
   * computed as `left_y + x_off * dy / dx`. The caller guarantees
   * `lx < at < rx`, so `dx` is positive and the division is defined.
   */
  function Interpolate(lx: int, ly: real, rx: int, ry: real, at: int): (r: real)
    requires lx < at < rx
    ensures (r - ly) * (rx - lx) as real == (at - lx) as real * (ry - ly)
    ensures ly <= ry ==> ly <= r <= ry
    ensures ry <= ly ==> ry <= r <= ly
    ensures ly != ry ==> r != ly && r != ry
  {
    var dx: real := (rx - lx) as real;
    var dy := ry - ly;
    var xOff: real := (at - lx) as real;
    ly + xOff * dy / dx
  }

  /**
   * `get(at)`: None unless some key lies at or below `at` and some key at or
   * above it; the stored value when `at` is itself a key; otherwise the
   * straight line between the two keys that bracket `at`.
   */
  function Evaluate(points: map<int, real>, at: int): (r: Option<real>)
    ensures r.None? <==> !InDomain(points, at)
    ensures at in points ==> r == Some(points[at])
    ensures r.Some? && at !in points ==>
              exists lo, hi :: Adjacent(points, lo, hi) && lo < at < hi &&
                r.value == Interpolate(lo, points[lo], hi, points[hi], at)
  {
    match Floor(points, at)
    case None => None
    case Some(lx) =>
      match Ceil(points, at)
      case None => None
      case Some(rx) =>
        if at == lx then
          Some(points[lx])
        else
          LookupsBracket(points, at);
          Some(Interpolate(lx, points[lx], rx, points[rx], at))
  }

  /**
   * For a store with at least one key, `get` is None exactly outside the
   * closed interval from the smallest to the largest key.
   */
  lemma UndefinedExactlyOutsideKeys(points: map<int, real>, at: int)
    requires exists k :: k in points
    ensures Evaluate(points, at).None? <==> at < MinKey(points) || MaxKey(points) < at
  {
    BothSidesIffWithinKeys(points, at);
  }

  /**
   * Strictly between two adjacent keys, `get` is the linear interpolation of
   * their values, and so lies between those two values.
   */
  lemma SegmentValue(points: map<int, real>, lo: int, hi: int, at: int)
    requires Adjacent(points, lo, hi) && lo < at < hi
    ensures Evaluate(points, at) == Some(Interpolate(lo, points[lo], hi, points[hi], at))
    ensures points[lo] <= points[hi] ==> points[lo] <= Evaluate(points, at).value <= points[hi]
    ensures points[hi] <= points[lo] ==> points[hi] <= Evaluate(points, at).value <= points[lo]
  {
    LookupsInSegment(points, lo, hi, at);
  }

  /**
   * The values a cursor started at `at` produces in its first `n` steps: each
   * step evaluates at the current position, then moves it on by one.
   */
  function Run(points: map<int, real>, at: int, n: nat): (ys: seq<Option<real>>)
    ensures |ys| == n
    decreases n
  {
    if n == 0 then [] else [Evaluate(points, at)] + Run(points, at + 1, n - 1)
  }

  /** The k-th value of a cursor started at `at` is `get(at + k)`. */
  lemma {:induction false} RunAt(points: map<int, real>, at: int, n: nat, k: nat)
    requires k < n
    ensures Run(points, at, n)[k] == Evaluate(points, at + k)
    decreases n
  {
    if k > 0 {
      assert Run(points, at, n)[k] == Run(points, at + 1, n - 1)[k - 1];
      RunAt(points, at + 1, n - 1, k - 1);
    }
  }

  /** Once the cursor's position is past every key, it only yields None. */
  lemma RunPastLastKey(points: map<int, real>, at: int, n: nat)
    requires forall k :: k in points ==> k < at
    ensures forall j :: 0 <= j < n ==> Run(points, at, n)[j] == None
  {
    forall j | 0 <= j < n
      ensures Run(points, at, n)[j] == None
    {
      RunAt(points, at, n, j);
    }
  }

  /** The piecewise-linear function, owning its control-point store. */
  class PwLine {
    var points: map<int, real>

    /** `PwLine::new`: no control points, so undefined everywhere. */
    constructor ()
      ensures points == map[]
      ensures forall at :: Get(at) == None
    {
      points := map[];
    }

    /** `PwLine::add_pt`: insert a control point, overwriting an existing key. */
    method AddPt(x: int, y: real)
      modifies this
      ensures points == old(points)[x := y]
      ensures Get(x) == Some(y)
      ensures forall k :: k in old(points) && k != x ==> Get(k) == old(Get(k))
    {
      points := points[x := y];
    }

    /** `PwLine::get`: evaluate at one position, without changing the store. */
    function Get(at: int): (r: Option<real>)
      reads this
      ensures r.None? <==> !InDomain(points, at)
      ensures at in points ==> r == Some(points[at])
    {
      Evaluate(points, at)
    }

    /** `PwLine::get_consec`: a cursor over this function starting at `at`. */
    method GetConsec(at: int) returns (it: PwLineIter)
      ensures fresh(it) && it.Valid()
      ensures it.pw == this && it.x == at && it.start == at && it.steps == 0
    {
      it := new PwLineIter(this, at);
    }
  }

  /**
   * `PwLineIter`: a read-only reference to a function and the next position
   * to query. `start` and `steps` record where it began and how many values
   * it has produced.
   */
  class PwLineIter {
    const pw: PwLine
    var x: int
    ghost const start: int
    ghost var steps: nat

    ghost predicate Valid()
      reads this
    {
      x == start + steps
    }

    constructor (pw: PwLine, at: int)
      ensures Valid()
      ensures this.pw == pw && x == at && start == at && steps == 0
    {
      this.pw := pw;
      x := at;
      start := at;
      steps := 0;
    }

    /**
     * `Iterator::next`: the value of the function at the current position,
     * after which the position moves on by one. The k-th call (from 0)
     * yields `get(start + k)`; the store is left as it was.
     */
    method Next() returns (res: Option<real>)
      requires Valid()
      modifies this
      ensures Valid() && steps == old(steps) + 1 && x == old(x) + 1
      ensures res == Evaluate(pw.points, start + old(steps))
      ensures pw.points == old(pw.points)
    {
      res := pw.Get(x);
      x := x + 1;
      steps := steps + 1;
    }

    /**
     * `n` explicit calls of `next`, `None`s included: the values are `Run`
     * from the cursor's position, which moves on by `n`.
     */
    method NextN(n: nat) returns (ys: seq<Option<real>>)
      requires Valid()
      modifies this
      ensures Valid() && steps == old(steps) + n && x == old(x) + n
      ensures ys == Run(pw.points, old(x), n)
      ensures pw.points == old(pw.points)
    {
      ghost var m, from := pw.points, x;
      ys := [];
      var i := 0;
      while i < n
        invariant 0 <= i <= n
        invariant Valid() && x == from + i && steps == old(steps) + i
        invariant pw.points == m
        invariant |ys| == i
        invariant forall j :: 0 <= j < i ==> ys[j] == Evaluate(m, from + j)
      {
        var y := Next();
        ys := ys + [y];
        i := i + 1;
      }
      forall j | 0 <= j < n
        ensures ys[j] == Run(m, from, n)[j]
      {
        RunAt(m, from, n, j);
      }
    }
  }
}
