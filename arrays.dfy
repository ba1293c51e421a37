/**
 * The small pieces of Python and numpy behaviour that the rest of the model
 * is written in: `range`, `np.zeros`, `abs`, two-dimensional arrays as
 * sequences of rows.
 */
module Arrays {

  /** `np.zeros(n)` */
  function Zeros(n: nat): (z: seq<real>)
    ensures |z| == n
    ensures forall i :: 0 <= i < n ==> z[i] == 0.0
  {
    seq(n, _ => 0.0)
  }

  /** numpy `abs` of one sample */
  function Abs(v: real): real
  {
    if v < 0.0 then -v else v
  }

  function Max(a: int, b: int): int
  {
    if a < b then b else a
  }

  /** The elements of `s` in reverse order. */
  function Reversed(s: seq<real>): (r: seq<real>)
    ensures |r| == |s|
  {
    seq(|s|, i requires 0 <= i < |s| => s[|s| - 1 - i])
  }

  /** `shape[1]` of a two-dimensional array (0 when it has no rows). */
  function Width(m: seq<seq<real>>): nat
  {
    if |m| == 0 then 0 else |m[0]|
  }

  /** A numpy two-dimensional array, given as its rows, has rows of one width. */
  ghost predicate Rectangular(m: seq<seq<real>>)
  {
    forall i :: 0 <= i < |m| ==> |m[i]| == Width(m)
  }

  /** The array has shape `(rows, cols)`. */
  ghost predicate HasShape(m: seq<seq<real>>, rows: nat, cols: nat)
  {
    |m| == rows && forall c :: 0 <= c < |m| ==> |m[c]| == cols
  }

  /** Number of elements of Python's `range(start, stop, step)` for `step > 0`. */
  function RangeLength(start: int, stop: int, step: nat): nat
    requires step > 0
  {
    if start < stop then (stop - start + step - 1) / step else 0
  }

  /**
   * Python's `range(start, stop, step)` for a positive step: the arithmetic
   * progression from `start` with difference `step` of every value below `stop`.
   */
  function Range(start: int, stop: int, step: nat): (r: seq<int>)
    requires step > 0
    ensures |r| == RangeLength(start, stop, step)
    ensures forall k :: 0 <= k < |r| ==> r[k] == start + k * step
    ensures forall k :: 0 <= k < |r| ==> start <= r[k] < stop
    ensures start + |r| * step >= stop
  {
    var r := seq(RangeLength(start, stop, step), k => start + k * step);
    RangeBounds(start, stop, step);
    r
  }

  /** The last element of a range lies below `stop` and one more step reaches it. */
  lemma RangeBounds(start: int, stop: int, step: nat)
    requires step > 0
    ensures forall k :: 0 <= k < RangeLength(start, stop, step) ==> start + k * step < stop
    ensures start + RangeLength(start, stop, step) * step >= stop
  {
    var n := RangeLength(start, stop, step);
    if start < stop {
      var len := stop - start;
      var rem := (len + step - 1) % step;
      assert len + step - 1 == n * step + rem;
      forall k | 0 <= k < n ensures start + k * step < stop {
        assert k * step <= (n - 1) * step by {
          MulMonotone(k, n - 1, step);
        }
      }
    }
  }

  lemma MulMonotone(a: int, b: int, c: nat)
    requires a <= b
    ensures a * c <= b * c
  {
    assert b * c - a * c == (b - a) * c;
  }

  /** Integer division is determined by quotient and remainder. */
  lemma DivUnique(a: int, s: nat, q: int, r: int)
    requires s > 0 && 0 <= r < s && a == q * s + r
    ensures a / s == q && a % s == r
  {
    var k := q - a / s;
    assert a == (a / s) * s + a % s;
    assert k * s == a % s - r;
    if k >= 1 {
      MulMonotone(1, k, s);
    } else if k <= -1 {
      MulMonotone(k, -1, s);
    }
  }

  lemma DivModOf(a: int, s: nat)
    requires s > 0
    ensures a == (a / s) * s + a % s && 0 <= a % s < s
  {
  }
}
