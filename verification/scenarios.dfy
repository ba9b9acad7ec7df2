/**
 * Concrete facts about both revisions, with f32 read as exact real
 * arithmetic: the functions exercised by src/tests.rs, the values a cursor
 * produces on a small function, and how the earlier revision's interior
 * value compares with the current one.
 */
module Scenarios {
  import opened Wrappers
  import opened Bracket
  import opened PwLineCurrent
  import PwLineEarly

  /** `test_const`: (0, 2.0) and (20, 2.0) give 2.0 on all of [0, 20]. */
  lemma FlatSegment(at: int)
    requires 0 <= at <= 20
    ensures Evaluate(map[0 := 2.0, 20 := 2.0], at) == Some(2.0)
  {
    var points := map[0 := 2.0, 20 := 2.0];
    if 0 < at < 20 {
      SegmentValue(points, 0, 20, at);
    }
  }

  /**
   * The cursor does not stop at the first None: started at -1 over the single
   * point (0, 1.0) it yields None, then 1.0, then None again.
   */
  lemma CursorNotFused()
    ensures Run(map[0 := 1.0], -1, 3) == [None, Some(1.0), None]
  {
    var points := map[0 := 1.0];
    assert Run(points, -1, 3) == [Evaluate(points, -1), Evaluate(points, 0), Evaluate(points, 1)];
    assert forall k :: k in points ==> k == 0;
  }

  /** `test_oob`: with keys -10 and 20, positions outside [-10, 20] are None. */
  lemma OutOfBounds()
    ensures var points := map[-10 := 2.0, 20 := -2.0];
      Evaluate(points, -11) == None && Evaluate(points, 21) == None &&
      Evaluate(points, -999) == None && Evaluate(points, 999) == None
  {
    var points := map[-10 := 2.0, 20 := -2.0];
    assert forall k :: k in points ==> -10 <= k <= 20;
  }

  /** `test_two_seg`: keys 0, 20, 40 with values 2.0, 4.0, 3.0. */
  lemma TwoSegments(points: map<int, real>)
    requires points == map[0 := 2.0, 20 := 4.0, 40 := 3.0]
    ensures Evaluate(points, 0) == Some(2.0) && Evaluate(points, 5) == Some(2.5)
    ensures Evaluate(points, 10) == Some(3.0) && Evaluate(points, 15) == Some(3.5)
    ensures Evaluate(points, 20) == Some(4.0) && Evaluate(points, 25) == Some(3.75)
    ensures Evaluate(points, 30) == Some(3.5) && Evaluate(points, 35) == Some(3.25)
    ensures Evaluate(points, 40) == Some(3.0)
  {
    assert Adjacent(points, 0, 20) && Adjacent(points, 20, 40);
    SegmentValue(points, 0, 20, 5);
    SegmentValue(points, 0, 20, 10);
    SegmentValue(points, 0, 20, 15);
    SegmentValue(points, 20, 40, 25);
    SegmentValue(points, 20, 40, 30);
    SegmentValue(points, 20, 40, 35);
  }

  /** Past the last key of `test_two_seg`, `get` is None. */
  lemma TwoSegmentsEndAtLastKey(points: map<int, real>, at: int)
    requires points == map[0 := 2.0, 20 := 4.0, 40 := 3.0] && 40 < at
    ensures Evaluate(points, at) == None
  {
    assert forall k :: k in points ==> k < at;
  }

  /**
   * A cursor started at 1 over (0, 2.0), (2, 4.0), (4, 3.0), (6, 0.0) yields
   * 3.0, 4.0, 3.5, 3.0, 1.5, 0.0 and then None for ever.
   */
  lemma CursorOverThreeSegments(n: nat)
    ensures var points := map[0 := 2.0, 2 := 4.0, 4 := 3.0, 6 := 0.0];
      Run(points, 1, 6) == [Some(3.0), Some(4.0), Some(3.5), Some(3.0), Some(1.5), Some(0.0)] &&
      forall j :: 0 <= j < n ==> Run(points, 7, n)[j] == None
  {
    var points := map[0 := 2.0, 2 := 4.0, 4 := 3.0, 6 := 0.0];
    assert Adjacent(points, 0, 2) && Adjacent(points, 2, 4) && Adjacent(points, 4, 6);
    SegmentValue(points, 0, 2, 1);
    SegmentValue(points, 2, 4, 3);
    SegmentValue(points, 4, 6, 5);
    assert Run(points, 1, 6) == [Evaluate(points, 1), Evaluate(points, 2), Evaluate(points, 3),
                                 Evaluate(points, 4), Evaluate(points, 5), Evaluate(points, 6)];
    RunPastLastKey(points, 7, n);
  }

  /**
   * The earlier revision disagrees with `test_two_seg`: at 5 it returns
   * 2.0 + 2.0 / 20 = 2.1, where the line through (0, 2.0) and (20, 4.0) and
   * the current revision give 2.5.
   */
  lemma EarlyRevisionMissesTwoSegments()
    ensures var points := map[0 := 2.0, 20 := 4.0, 40 := 3.0];
      PwLineEarly.PwLine(points).Get(5) == Some(2.1) &&
      Evaluate(points, 5) == Some(2.5)
  {
    var points := map[0 := 2.0, 20 := 4.0, 40 := 3.0];
    assert Adjacent(points, 0, 20);
    PwLineEarly.ConstantWithinSegment(PwLineEarly.PwLine(points), 0, 20, 5, 5);
    SegmentValue(points, 0, 20, 5);
  }

  /**
   * On a segment whose two values differ, the earlier revision's interior
   * value lies on the line between the two control points only one step to
   * the right of the left key; everywhere else in the segment it is off the
   * line that the current revision follows.
   */
  lemma EarlyRevisionOnLineOnlyOneStepIn(points: map<int, real>, lo: int, hi: int, at: int)
    requires Adjacent(points, lo, hi) && lo < at < hi && points[lo] != points[hi]
    ensures PwLineEarly.PwLine(points).Get(at) == Evaluate(points, at) <==> at == lo + 1
  {
    PwLineEarly.ConstantWithinSegment(PwLineEarly.PwLine(points), lo, hi, at, at);
    SegmentValue(points, lo, hi, at);
    StepMeetsLineOnlyOneStepIn(lo, points[lo], hi, points[hi], at);
  }

  /** The two interior formulas agree, on a rising or falling segment, only at `lx + 1`. */
  lemma StepMeetsLineOnlyOneStepIn(lx: int, ly: real, rx: int, ry: real, at: int)
    requires lx < at < rx && ly != ry
    ensures PwLineEarly.Step(lx, ly, rx, ry) == Interpolate(lx, ly, rx, ry, at) <==> at == lx + 1
  {
    var dx: real := (rx - lx) as real;
    var dy := ry - ly;
    var xOff: real := (at - lx) as real;
    var q := dy / dx;
    assert xOff * dy / dx == xOff * q;
    assert q != 0.0;
    assert xOff * q == q <==> xOff == 1.0;
    assert PwLineEarly.Step(lx, ly, rx, ry) == ly + q;
    assert Interpolate(lx, ly, rx, ry, at) == ly + xOff * q;
    assert xOff == 1.0 <==> at == lx + 1;
    if at == lx + 1 {
      assert xOff * q == q;
    } else {
      assert xOff * q != q;
      assert ly + q != ly + xOff * q;
    }
  }

  /**
   * `test_two_seg` through the object interface: build the function with
   * `new` and `add_pt`, query it with `get`, and draw two values from a
   * cursor started at the last key.
   */
  method TwoSegmentsThroughPwLine() returns (at5: Option<real>, at25: Option<real>, tail: seq<Option<real>>)
    ensures at5 == Some(2.5) && at25 == Some(3.75)
    ensures tail == [Some(3.0), None]
  {
    var pl := new PwLine();
    pl.AddPt(0, 2.0);
    pl.AddPt(20, 4.0);
    pl.AddPt(40, 3.0);
    TwoSegments(pl.points);
    at5 := pl.Get(5);
    at25 := pl.Get(25);
    var it := pl.GetConsec(40);
    var first := it.Next();
    var second := it.Next();
    TwoSegmentsEndAtLastKey(pl.points, 41);
    tail := [first, second];
  }
}
