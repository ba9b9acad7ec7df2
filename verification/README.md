# rust-pwline in Dafny

A model of a small piecewise-linear function library. A function is a store of
control points, an ordered map from domain keys to range values. It is queried
by `get(at)`, which finds the nearest key at or below `at` and the nearest key at
or above it and interpolates linearly between them, and by a cursor
(`get_consec`) that evaluates `get` at `at`, `at + 1`, `at + 2`, … one step per
`next` call. Two revisions of the evaluator are modelled:

- `src/pwline.rs`, the current revision (`PwLineCurrent`). `PwLine` is a class whose
  `points: map<int, real>` field `AddPt` updates in place. `get` is the pure
  function `Evaluate` over that map. `PwLineIter` is a class holding a read-only
  reference to the function and the next position `x`, which `Next` advances.
- `src/lib.rs`, the earlier revision (`PwLineEarly`). It is a value (`datatype PwLine`)
  with `New` and `Get` only. Strictly between two keys it returns
  `left_y + dy/dx`, which does not depend on `at` (see Findings).

Both revisions share the two inclusive ordered-map lookups (`Bracket.Floor`,
`Bracket.Ceil`), which stand for `range(Unbounded, Included(at)).rev().next()` and
`range(Included(at), Unbounded).next()`. The domain type `X` is `int` and the range
type `Y` is `real`, so converting a domain difference into the range type is exact.

Neither `src/pwline.rs` nor `src/lib.rs` clamps outside the domain, returns zero
for an empty function, or has a constant constructor. Both return `None` outside
the inclusive domain, and for an empty function at every position.

Files: `wrappers.dfy` (`Option`), `bracket.dfy` (lookups), `pwline.dfy` (current
revision), `pwline_lib.dfy` (earlier revision), `scenarios.dfy` (the functions
of `src/tests.rs`, facts about the cursor, and the comparison of the two revisions).

## Model

| member | source | states |
|---|---|---|
| `Bracket.Floor` | src/pwline.rs:40-43 | the greatest key at or below `at` (inclusive); None exactly when every key is above `at` |
| `Bracket.Ceil` | src/pwline.rs:41-46 | the least key at or above `at` (inclusive); None exactly when every key is below `at` |
| `Bracket.LookupsMeetAtKey` | src/pwline.rs:40-41 | when `at` is a key, both inclusive lookups return `at` itself |
| `Bracket.LookupsInSegment` | src/pwline.rs:40-47 | strictly between two adjacent keys, the lookups return exactly those two keys |
| `Bracket.LookupsBracket` | src/pwline.rs:49-54 | when `at` is not a key but both lookups succeed, they return adjacent keys with `left_x < at < right_x`, so `dx > 0` |
| `Bracket.BothSidesIffWithinKeys` | src/pwline.rs:34-35 | for a non-empty store, a key exists on both sides of `at` exactly when `min key <= at <= max key` |
| `PwLineCurrent.Interpolate` | src/pwline.rs:55-58 | `left_y + x_off*dy/dx` lies on the line through both points (`(r - ly)*dx == x_off*dy`), between the two values, and strictly between them when they differ |
| `PwLineCurrent.Evaluate` | src/pwline.rs:37-64 | None exactly outside the inclusive domain; the stored value, with no arithmetic, when `at` is a key; otherwise the interpolation between two adjacent keys that strictly bracket `at` |
| `PwLineCurrent.UndefinedExactlyOutsideKeys` | src/pwline.rs:34-47 | for a non-empty store, `get(at)` is None exactly when `at < min key` or `at > max key` |
| `PwLineCurrent.SegmentValue` | src/pwline.rs:48-58 | strictly between adjacent keys, `get(at)` is `left_y + (at-left_x)*(right_y-left_y)/(right_x-left_x)` and lies between `left_y` and `right_y` |
| `PwLineCurrent.Run` | src/pwline.rs:82-85 | the first `n` values of a cursor, one per step |
| `PwLineCurrent.RunAt` | src/pwline.rs:82-85 | the k-th value of a cursor started at `at` is `get(at + k)` |
| `PwLineCurrent.RunPastLastKey` | src/pwline.rs:41-46 | once the cursor's position is past every key, every later value is None |
| `PwLineCurrent.PwLine.constructor` | src/pwline.rs:26-30 | a new function has no points, and `get` is None at every position |
| `PwLineCurrent.PwLine.AddPt` | src/pwline.rs:31-33 | the store becomes `old(points)[x := y]` (last write wins): `get(x) == Some(y)`, and `get` at every other old key is unchanged |
| `PwLineCurrent.PwLine.Get` | src/pwline.rs:34-37 | reads the store only; None exactly outside the inclusive domain; the stored value at a key |
| `PwLineCurrent.PwLine.GetConsec` | src/pwline.rs:70-77 | a fresh cursor over this function, positioned at `at`, with no steps taken |
| `PwLineCurrent.PwLineIter.constructor` | src/pwline.rs:73-76 | the cursor refers to the given function and starts at `at` (its fields are those of the struct at src/pwline.rs:19-23) |
| `PwLineCurrent.PwLineIter.Next` | src/pwline.rs:82-86 | the k-th call returns `get(start + k)` and moves `x` on by exactly one (`x == start + steps`); the function's store is unchanged |
| `PwLineCurrent.PwLineIter.NextN` | src/pwline.rs:82-86 | `n` explicit `next` calls, `None`s included, yield `Run` from the cursor's position and move it on by `n`; the store is unchanged |
| `PwLineEarly.Step` | src/lib.rs:45 | `left_y + dy/dx` stays between the two values, because integer keys give `dx >= 1` |
| `PwLineEarly.PwLine.Get` | src/lib.rs:25-51 | None exactly outside the inclusive domain; the stored value at a key; otherwise `Step` of two adjacent keys that strictly bracket `at` |
| `PwLineEarly.New` | src/lib.rs:20-24 | a new function has no points, and `get` is None at every position |
| `PwLineEarly.ConstantWithinSegment` | src/lib.rs:41-45 | strictly inside a segment, `get` gives the same value at every position |
| `Scenarios.FlatSegment` | src/tests.rs:4-15 | with points (0, 2.0) and (20, 2.0), `get` is 2.0 everywhere on [0, 20], endpoints included |
| `Scenarios.TwoSegmentsEndAtLastKey` | src/pwline.rs:41-46 | with the points of `test_two_seg`, `get` is None at every position past 40 |
| `Scenarios.TwoSegmentsThroughPwLine` | src/tests.rs:33-44 | a function built by `new` and three `add_pt` calls gives 2.5 at 5 and 3.75 at 25, and a cursor started at 40 yields 3.0 and then None |
| `Scenarios.CursorNotFused` | src/pwline.rs:82-86 | the cursor is not fused: from -1 over the single point (0, 1.0) it yields None, then 1.0, then None |
| `Scenarios.OutOfBounds` | src/tests.rs:18-30 | with keys -10 and 20, `get` at -11, 21, -999 and 999 is None |
| `Scenarios.TwoSegments` | src/tests.rs:33-48 | with points (0, 2.0), (20, 4.0), (40, 3.0), `get` at 0, 5, …, 40 is 2.0, 2.5, 3.0, 3.5, 4.0, 3.75, 3.5, 3.25, 3.0 |
| `Scenarios.CursorOverThreeSegments` | src/pwline.rs:80-86 | a cursor from 1 over (0, 2.0), (2, 4.0), (4, 3.0), (6, 0.0) yields 3.0, 4.0, 3.5, 3.0, 1.5, 0.0, and from 7 on only None |
| `Scenarios.EarlyRevisionMissesTwoSegments` | src/lib.rs:45 | on the points of `test_two_seg`, the earlier revision gives 2.1 at 5, where the current one gives the 2.5 that src/tests.rs:40 expects |
| `Scenarios.EarlyRevisionOnLineOnlyOneStepIn` | src/lib.rs:41-45 | on a segment whose values differ, the earlier revision agrees with the current one exactly at `left_x + 1` |
| `Scenarios.StepMeetsLineOnlyOneStepIn` | src/lib.rs:45 | `left_y + dy/dx` equals `left_y + x_off*dy/dx` exactly when `x_off == 1` (for `dy != 0`) |

## Left out

- Floating point: `Y` is `f32` in the tests and `real` here. The equalities of src/tests.rs:40-46 are read as exact rational equalities.
- The failure of `num::cast(...).unwrap()` (src/pwline.rs:55, 57; src/lib.rs:45) is not modelled. The conversion from `int` to `real` is exact and never fails.
- `PwLineCurrent.PwLineIter.Next`: does not model overflow of `self.x += One::one()` (src/pwline.rs:84) for a bounded integer `X`. `x` is an unbounded `int`.
- `PwLineCurrent.Interpolate`: the key differences `right_x - left_x` and `at - left_x` (src/pwline.rs:55, 57) are exact `int` subtractions. For a bounded `X` whose key span exceeds the type's range, they panic (debug build) or wrap (release build), and the wrapped result can leave the range between the two values. Neither outcome is modelled.
- `PwLineEarly.Step`: the key difference `right_x - left_x` (src/lib.rs:45) is an exact `int` subtraction. The panic or wrap-around of a bounded `X` there is not modelled.
- BTreeMap internals: O(log n) lookups, the two `range` calls versus one (the TODO at src/pwline.rs:39), and the O(n + log k) cursor (the TODO at src/pwline.rs:71-72). These affect cost, not results.
- `#[derive(Clone)]`, lifetimes, generic trait bounds and the `#![feature]` flags of src/lib.rs:1-2 have no counterpart.
- The borrow discipline (the cursor holds `&PwLine`, `get` takes `&self`) appears only as frames. `Get` reads the object, and `Next` and `NextN` modify only the cursor.
- Rust consumers of the cursor stop at the first `None`: `next` returns `Option<Y>` as `Iterator::next`, so a `for` loop or `collect()` over `get_consec(at)` or `get_consec(at).take(n)` ends at the first position outside the domain and yields unwrapped `Y` values. The model does not capture this. `PwLineCurrent.PwLineIter.NextN` makes `n` explicit `next` calls and keeps every `Option`, and no Rust `Iterator` adapter is modelled.
- Clamping outside the domain, zero for an empty function and a constant constructor are not in the code, so they are not modelled.

## Findings

| source | as written | input that shows it | evidently intended | confidence | as-written member | corrected member |
|---|---|---|---|---|---|---|
| src/lib.rs:45 | strictly between two keys, returns `left_y + dy/dx`, which does not depend on `at` | points (0, 2.0), (20, 4.0), (40, 3.0) at 5: returns 2.1 | `left_y + x_off*dy/dx` = 2.5, as src/tests.rs:40 expects and src/pwline.rs:55-58 computes | high; not executed | `Scenarios.EarlyRevisionMissesTwoSegments` (on `PwLineEarly.PwLine.Get`) | `PwLineCurrent.SegmentValue` (on `PwLineCurrent.Evaluate`) |
