/**
 * The threshold-crossing rule of `decide_trgigger` and the commands it sends
 * to the actuator: 'H' when the level rises to true, 'L' when it falls to false.
 */
module Trigger {

  /** numpy `where(mask)[0]`: the indices at which `mask` holds, ascending. */
  function Where(mask: seq<bool>): (r: seq<nat>)
    ensures forall k :: 0 <= k < |r| ==> r[k] < |mask| && mask[r[k]]
    ensures forall k, l :: 0 <= k < l < |r| ==> r[k] < r[l]
    decreases |mask|
  {
    if mask == [] then []
    else
      var n := |mask| - 1;
      Where(mask[..n]) + (if mask[n] then [n] else [])
  }

  /** `where` misses no index at which the mask holds. */
  lemma {:induction false} WhereComplete(mask: seq<bool>, i: nat)
    requires i < |mask| && mask[i]
    ensures i in Where(mask)
    decreases |mask|
  {
    var n := |mask| - 1;
    if i < n {
      WhereComplete(mask[..n], i);
    }
  }

  /** The element-wise comparison `signal >= t`. */
  function AtOrAbove(signal: seq<real>, t: real): (m: seq<bool>)
    ensures |m| == |signal|
    ensures forall i :: 0 <= i < |signal| ==> (m[i] <==> signal[i] >= t)
  {
    seq(|signal|, i requires 0 <= i < |signal| => signal[i] >= t)
  }

  /** The element-wise comparison `signal < t`. */
  function Below(signal: seq<real>, t: real): (m: seq<bool>)
    ensures |m| == |signal|
    ensures forall i :: 0 <= i < |signal| ==> (m[i] <==> signal[i] < t)
  {
    seq(|signal|, i requires 0 <= i < |signal| => signal[i] < t)
  }

  /** `above_thr`: indices of samples at or above the threshold. */
  function AboveThr(signal: seq<real>, t: real): (above: seq<nat>)
    ensures forall k :: 0 <= k < |above| ==> above[k] < |signal| && signal[above[k]] >= t
  {
    Where(AtOrAbove(signal, t))
  }

  /** `below_thr`: indices of samples below the threshold. */
  function BelowThr(signal: seq<real>, t: real): (below: seq<nat>)
    ensures forall k :: 0 <= k < |below| ==> below[k] < |signal| && signal[below[k]] < t
  {
    Where(Below(signal, t))
  }

  /** Every index of the signal lies in exactly one of the two classes. */
  lemma Partition(signal: seq<real>, t: real, i: nat)
    requires i < |signal|
    ensures i in AboveThr(signal, t) <==> signal[i] >= t
    ensures i in BelowThr(signal, t) <==> signal[i] < t
    ensures (i in AboveThr(signal, t)) != (i in BelowThr(signal, t))
  {
    var above, below := AboveThr(signal, t), BelowThr(signal, t);
    if signal[i] >= t {
      WhereComplete(AtOrAbove(signal, t), i);
    } else {
      WhereComplete(Below(signal, t), i);
    }
    if i in above {
      var k :| 0 <= k < |above| && above[k] == i;
      assert AtOrAbove(signal, t)[above[k]];
    }
    if i in below {
      var k :| 0 <= k < |below| && below[k] == i;
      assert Below(signal, t)[below[k]];
    }
  }

  /** When the last mask entry holds, the last index `where` yields is that entry. */
  lemma WhereLast(mask: seq<bool>)
    requires |mask| > 0
    ensures mask[|mask| - 1] ==> |Where(mask)| > 0 && Where(mask)[|Where(mask)| - 1] == |mask| - 1
    ensures !mask[|mask| - 1] ==> forall k :: 0 <= k < |Where(mask)| ==> Where(mask)[k] < |mask| - 1
  {
    var r := Where(mask);
    if !mask[|mask| - 1] {
      forall k | 0 <= k < |r| ensures r[k] < |mask| - 1 {
        assert mask[r[k]];
      }
    }
  }

  /**
   * The trigger level decided from the last index of each class. The rule
   * collapses to a test of the newest sample: an empty signal triggers, and
   * otherwise the level is whether the last sample reaches `t`.
   */
  function Level(signal: seq<real>, t: real): (level: bool)
    ensures level == (|signal| == 0 || signal[|signal| - 1] >= t)
  {
    var above := AboveThr(signal, t);
    var below := BelowThr(signal, t);
    var level :=
      if |below| == 0 then true
      else if |above| == 0 || above[|above| - 1] < below[|below| - 1] then false
      else true;
    if |signal| > 0 then
      WhereLast(AtOrAbove(signal, t));
      WhereLast(Below(signal, t));
      level
    else level
  }

  /** The command character for a new level. */
  function Command(level: bool): char
  {
    if level then 'H' else 'L'
  }

  /** What one evaluation writes to the port, given the stored level. */
  function Emit(last: bool, level: bool): (out: seq<char>)
    ensures |out| <= 1
    ensures out == [] <==> level == last
    ensures out != [] ==> out[0] == Command(level)
  {
    if level != last then [Command(level)] else []
  }

  /** What a run of evaluations writes to the port, starting from the stored level `last`. */
  function Emissions(last: bool, levels: seq<bool>): (out: seq<char>)
    ensures |out| <= |levels|
    ensures forall k :: 0 <= k < |out| ==> out[k] == 'H' || out[k] == 'L'
    decreases |levels|
  {
    if levels == [] then []
    else Emit(last, levels[0]) + Emissions(levels[0], levels[1..])
  }

  /** The stored level after a run of evaluations. */
  function LastLevel(last: bool, levels: seq<bool>): bool
  {
    if levels == [] then last else levels[|levels| - 1]
  }

  /** How often consecutive levels differ, counting from `last`. */
  function Changes(last: bool, levels: seq<bool>): nat
    decreases |levels|
  {
    if levels == [] then 0
    else (if levels[0] != last then 1 else 0) + Changes(levels[0], levels[1..])
  }

  /** The port output alternates, starting with 'H'. */
  ghost predicate Alternating(out: seq<char>)
  {
    forall k :: 0 <= k < |out| ==> out[k] == Command(k % 2 == 0)
  }

  /** Appending the command for the level opposite to the parity keeps the output alternating. */
  lemma AlternatingSnoc(out: seq<char>, level: bool)
    requires Alternating(out) && level == (|out| % 2 == 0)
    ensures Alternating(out + [Command(level)])
    ensures |out + [Command(level)]| % 2 == 1 <==> level
  {
  }

  /**
   * Over any run of evaluations, one character is written per change of
   * level, the characters alternate starting with the opposite of `last`,
   * and the parity of the number written tells the final level.
   */
  lemma {:induction false} EmissionsAlternate(last: bool, levels: seq<bool>)
    ensures |Emissions(last, levels)| == Changes(last, levels)
    ensures forall k :: 0 <= k < |Emissions(last, levels)| ==>
      Emissions(last, levels)[k] == Command(if k % 2 == 0 then !last else last)
    ensures LastLevel(last, levels) == (if |Emissions(last, levels)| % 2 == 0 then last else !last)
    decreases |levels|
  {
    if levels != [] {
      var l, rest := levels[0], levels[1..];
      EmissionsAlternate(l, rest);
      var tail := Emissions(l, rest);
      assert LastLevel(l, rest) == LastLevel(last, levels);
      if l != last {
        var out := Emissions(last, levels);
        assert out == [Command(l)] + tail;
        forall k | 0 <= k < |out|
          ensures out[k] == Command(if k % 2 == 0 then !last else last)
        {
          if k > 0 {
            assert out[k] == tail[k - 1];
          }
        }
      }
    }
  }

  /** From the initial level false the output alternates H, L, H, ... */
  lemma FromFalseAlternates(levels: seq<bool>)
    ensures Alternating(Emissions(false, levels))
    ensures |Emissions(false, levels)| == Changes(false, levels)
    ensures LastLevel(false, levels) == (|Emissions(false, levels)| % 2 == 1)
  {
    EmissionsAlternate(false, levels);
  }

  /** Concatenation of port output is associative. */
  lemma AppendAssoc(a: seq<char>, b: seq<char>, c: seq<char>)
    ensures a + (b + c) == (a + b) + c
  {
  }

  /** Evaluating one more level appends exactly what that evaluation writes. */
  lemma {:induction false} EmissionsSnoc(last: bool, levels: seq<bool>, level: bool)
    ensures Emissions(last, levels + [level]) == Emissions(last, levels) + Emit(LastLevel(last, levels), level)
    decreases |levels|
  {
    if levels != [] {
      var l, rest := levels[0], levels[1..];
      EmissionsSnoc(l, rest, level);
      var longer := levels + [level];
      assert longer[0] == l && longer[1..] == rest + [level];
      assert LastLevel(l, rest) == LastLevel(last, levels);
      var head, tail, next := Emit(last, l), Emissions(l, rest), Emit(LastLevel(l, rest), level);
      assert Emissions(last, longer) == head + Emissions(l, rest + [level]);
      assert Emissions(last, levels) == head + tail;
      AppendAssoc(head, tail, next);
    } else {
      assert Emissions(last, [level]) == Emit(last, level) + Emissions(level, []);
    }
  }

  /** The sequence of evaluations false, false, true, true, false writes "HL". */
  lemma RisingThenFalling()
    ensures Emissions(false, [false, false, true, true, false]) == "HL"
  {
    var levels := [false, false, true, true, false];
    assert levels[1..] == [false, true, true, false];
    assert levels[1..][1..] == [true, true, false];
    assert levels[1..][1..][1..] == [true, false];
    assert levels[1..][1..][1..][1..] == [false];
    assert Emissions(true, [false]) == "L";
    assert Emissions(true, [true, false]) == "L";
  }
}
