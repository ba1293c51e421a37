/**
 * The consuming side, class `Frontend`: a decimation counter over the
 * snapshots read from the pipe, the filter-trim-rectify-stride pipeline that
 * produces the visible trace, the fixed-length time axis, the trigger state
 * with the characters written to the serial port, and the threshold the
 * slider sets. Widgets, plotting and the serial device itself are outside the
 * model; the port is the sequence of characters written to it.
 */
module Frontend {
  import opened Wrappers
  import opened Arrays
  import Dsp
  import Trigger
  import Acquisition

  /** `maxvalue` of the threshold slider */
  const MaxValue: int := 2500
  /** `int(round(maxvalue * 0.9))`: the slider's initial value */
  const InitSliderValue: int := 2250

  /** Seconds between two points of the time axis: `s_down / sample_rate`. */
  const Tick: real := Acquisition.Downsampling as real / Dsp.SampleRate as real

  /** The counter and the number of processing cycles after `k` deliveries, counting from 0. */
  function Decimate(k: nat, sDown: nat): (state: (nat, nat))
    requires sDown >= 1
    ensures state.0 < sDown
  {
    if k == 0 then (0, 0)
    else
      var (count, cycles) := Decimate(k - 1, sDown);
      if count + 1 < sDown then (count + 1, cycles) else (0, cycles + 1)
  }

  /** One more delivery either advances the counter or completes a cycle. */
  lemma DecimateNext(k: nat, sDown: nat)
    requires sDown >= 1
    ensures Decimate(k, sDown).0 + 1 < sDown ==> Decimate(k + 1, sDown) == (Decimate(k, sDown).0 + 1, Decimate(k, sDown).1)
    ensures Decimate(k, sDown).0 + 1 >= sDown ==> Decimate(k + 1, sDown) == (0, Decimate(k, sDown).1 + 1)
  {
  }

  /**
   * In `k` deliveries exactly `k / sDown` processing cycles happen, and the
   * counter left between calls is `k % sDown`.
   */
  lemma {:induction false} DecimationCounts(k: nat, sDown: nat)
    requires sDown >= 1
    ensures Decimate(k, sDown) == (k % sDown, k / sDown)
  {
    if k > 0 {
      DecimationCounts(k - 1, sDown);
      NextDivMod(k - 1, sDown);
    }
  }

  /** How quotient and remainder move when the dividend grows by one. */
  lemma NextDivMod(a: nat, s: nat)
    requires s >= 1
    ensures a % s + 1 < s ==> (a + 1) % s == a % s + 1 && (a + 1) / s == a / s
    ensures a % s + 1 >= s ==> (a + 1) % s == 0 && (a + 1) / s == a / s + 1
  {
    var q, r := a / s, a % s;
    DivModOf(a, s);
    if r + 1 < s {
      DivUnique(a + 1, s, q, r + 1);
    } else {
      assert (q + 1) * s == q * s + s;
      DivUnique(a + 1, s, q + 1, 0);
    }
  }

  /** `m[:, leftEdge:]` */
  function Trim(m: seq<seq<real>>, leftEdge: nat): (r: seq<seq<real>>)
    ensures |r| == |m|
    ensures forall c :: 0 <= c < |m| && leftEdge <= |m[c]| ==>
      |r[c]| == |m[c]| - leftEdge && forall j :: 0 <= j < |r[c]| ==> r[c][j] == m[c][leftEdge + j]
  {
    seq(|m|, c requires 0 <= c < |m| => if leftEdge <= |m[c]| then m[c][leftEdge..] else [])
  }

  /** numpy `abs` of a two-dimensional array. */
  function Rectify(m: seq<seq<real>>): (r: seq<seq<real>>)
    ensures |r| == |m|
    ensures forall c :: 0 <= c < |m| ==> |r[c]| == |m[c]|
    ensures forall c, j :: 0 <= c < |m| && 0 <= j < |m[c]| ==> r[c][j] >= 0.0 && (r[c][j] == m[c][j] || r[c][j] == -m[c][j])
  {
    seq(|m|, c requires 0 <= c < |m| => seq(|m[c]|, j requires 0 <= j < |m[c]| => Abs(m[c][j])))
  }

  /** `m[0, idx]`: channel 0 read at the given indices. */
  function Pick(m: seq<seq<real>>, idx: seq<int>): (r: seq<real>)
    requires |m| > 0
    requires forall k :: 0 <= k < |idx| ==> 0 <= idx[k] < |m[0]|
    ensures |r| == |idx|
    ensures forall k :: 0 <= k < |idx| ==> r[k] == m[0][idx[k]]
  {
    seq(|idx|, k requires 0 <= k < |idx| => m[0][idx[k]])
  }

  /**
   * The visible trace: channel 0 of the filtered buffer with its first
   * `leftEdge` samples dropped and rectified, read at `idxRetain`.
   */
  function VisibleTrace(prepared: seq<seq<real>>, leftEdge: nat, idxRetain: seq<int>): (trace: seq<real>)
    requires |prepared| > 0 && leftEdge <= |prepared[0]|
    requires forall k :: 0 <= k < |idxRetain| ==> 0 <= idxRetain[k] < |prepared[0]| - leftEdge
    ensures |trace| == |idxRetain|
    ensures forall k :: 0 <= k < |idxRetain| ==>
      trace[k] == Abs(prepared[0][leftEdge + idxRetain[k]]) && trace[k] >= 0.0
  {
    var trace := Pick(Rectify(Trim(prepared, leftEdge)), idxRetain);
    assert forall k :: 0 <= k < |idxRetain| ==> trace[k] == Abs(prepared[0][leftEdge + idxRetain[k]]);
    trace
  }

  /** Entries of `x` are `step` apart. */
  ghost predicate EvenlySpaced(x: seq<real>, step: real)
  {
    forall k :: 0 <= k < |x| - 1 ==> x[k + 1] == x[k] + step
  }

  /** `x[1:]` followed by `x[-1] + step`: the time axis moved on by one slot. */
  function ShiftAxis(x: seq<real>, step: real): (x': seq<real>)
    requires |x| >= 2
    ensures |x'| == |x|
    ensures forall k :: 0 <= k < |x| - 1 ==> x'[k] == x[k + 1]
    ensures x'[|x| - 1] == x[|x| - 1] + step
  {
    x[1..] + [x[|x| - 1] + step]
  }

  /** Moving an evenly spaced axis on by its own step keeps it evenly spaced. */
  lemma ShiftKeepsSpacing(x: seq<real>, step: real)
    requires |x| >= 2 && EvenlySpaced(x, step)
    ensures EvenlySpaced(ShiftAxis(x, step), step)
  {
    var x' := ShiftAxis(x, step);
    forall k | 0 <= k < |x'| - 1 ensures x'[k + 1] == x'[k] + step {
      assert x'[k] == x[k + 1];
      if k + 1 < |x| - 1 {
        assert x'[k + 1] == x[k + 2];
      }
    }
  }

  class Frontend {
    const numsamples: nat
    const numchans: nat
    const leftEdge: nat
    const sDown: nat
    const sampleRate: nat
    const idxRetain: seq<int>
    /** `b_notch`, `a_notch`: the line-noise bandstop design */
    const stopband: Dsp.Coeffs
    /** `b_workshop`, `a_workshop`: the baseline-removal highpass design */
    const passband: Dsp.Coeffs
    const padlen: nat
    const lfilter: Dsp.LFilter

    var count: nat
    var x: seq<real>
    var y: seq<real>
    var yrange: (real, real)
    var lastTrigger: bool
    /** Every character written to the serial port so far. */
    var port: seq<char>
    /** Snapshots read from the pipe, and processing cycles run, so far. */
    ghost var deliveries: nat
    ghost var cycles: nat

    /**
     * The fixed parameters are the source's: 1000 samples of 2 channels, a
     * 4-sample edge, stride 5 at 200 Hz, so every retained index lies inside
     * the trimmed window.
     */
    ghost predicate Config()
    {
      && numsamples == 1000 && numchans == 2 && leftEdge == 4 && sDown == 5 && sampleRate == 200
      && |idxRetain| == 200
      && (forall j :: 0 <= j < |idxRetain| ==> idxRetain[j] == j * 5 && idxRetain[j] < numsamples - leftEdge)
      && Dsp.PreservesLength(lfilter)
    }

    ghost predicate CounterValid()
      reads this`count, this`deliveries, this`cycles
    {
      sDown >= 1 && (count, cycles) == Decimate(deliveries, sDown)
    }

    /** Both traces keep the length of `idxRetain`; the time axis is evenly spaced, the trace rectified. */
    ghost predicate TraceValid()
      reads this`x, this`y
    {
      && sampleRate > 0
      && |x| == |idxRetain| && |y| == |idxRetain|
      && EvenlySpaced(x, Tick)
      && (forall j :: 0 <= j < |y| ==> y[j] >= 0.0)
    }

    /** The port holds H, L, H, ... and the stored level is true exactly after an odd number of them. */
    ghost predicate TriggerValid()
      reads this`port, this`lastTrigger
    {
      Trigger.Alternating(port) && lastTrigger == (|port| % 2 == 1)
    }

    ghost predicate Valid()
      reads this
    {
      Config() && CounterValid() && TraceValid() && TriggerValid()
    }

    /**
     * The parameters come from the receiver's and the filter bank's
     * constants; the slider's initial `setValue` runs `value_changed`, so the
     * threshold starts at 2250.
     */
    constructor (stopband: Dsp.Coeffs, passband: Dsp.Coeffs, lfilter: Dsp.LFilter)
      requires Dsp.PreservesLength(lfilter)
      ensures Valid()
      ensures count == 0 && deliveries == 0 && port == [] && !lastTrigger
      ensures yrange == (-(InitSliderValue as real), InitSliderValue as real)
      ensures padlen == Dsp.PadLen(|passband.a|, |passband.b|, Dsp.BufferLength, Dsp.SampleRate)
      ensures forall k :: 0 <= k < |x| ==> x[k] == (k * sDown - numsamples) as real / sampleRate as real
      ensures y == Zeros(|idxRetain|)
      ensures idxRetain == Range(0, numsamples, sDown)
    {
      numsamples := Acquisition.SampleRate * Acquisition.BufferLength;
      numchans := Acquisition.NumChannels;
      leftEdge := Acquisition.BufferAdd;
      sDown := Acquisition.Downsampling;
      idxRetain := Range(0, Acquisition.SampleRate * Acquisition.BufferLength, Acquisition.Downsampling);
      yrange := Acquisition.YRange;
      lastTrigger := false;
      count := 0;
      sampleRate := Dsp.SampleRate;
      this.stopband := stopband;
      this.passband := passband;
      this.lfilter := lfilter;
      padlen := Dsp.PadLen(|passband.a|, |passband.b|, Dsp.BufferLength, Dsp.SampleRate);
      var ticks := Range(-1000, 0, 5);
      x := seq(|ticks|, k requires 0 <= k < |ticks| => ticks[k] as real / 200.0);
      y := Zeros(|Range(0, 1000, 5)|);
      port := [];
      deliveries, cycles := 0, 0;
      new;
      ValueChanged(InitSliderValue);
    }

    /**
     * `decide_trgigger`: decide the level of `signal` against the upper
     * threshold by the rule on the last index of each class, and when it
     * differs from the stored level write 'H' (rising) or 'L' (falling) and
     * store it.
     */
    method DecideTrigger(signal: seq<real>)
      requires TriggerValid()
      modifies this`lastTrigger, this`port
      ensures TriggerValid()
      ensures lastTrigger == Trigger.Level(signal, yrange.1)
      ensures lastTrigger == (|signal| == 0 || signal[|signal| - 1] >= yrange.1)
      ensures port == old(port) + Trigger.Emit(old(lastTrigger), lastTrigger)
    {
      var trigger := Trigger.Level(signal, yrange.1);
      if trigger != lastTrigger {
        Trigger.AlternatingSnoc(port, trigger);
        if trigger {
          port := port + ['H'];
        } else {
          port := port + ['L'];
        }
        lastTrigger := trigger;
      }
    }

    /**
     * The processing step of `update_plot_data`: `prepare_buffer` with both
     * filter designs, then the trimmed, rectified channel 0 at `idxRetain`.
     * Since `idxRetain[j] == j * sDown`, entry `j` of the trace is the
     * magnitude of the filtered sample `leftEdge + j * sDown`.
     */
    method ComputeTrace(buffer: seq<seq<real>>) returns (trace: seq<real>)
      requires Config()
      requires HasShape(buffer, numchans, numsamples)
      ensures trace == VisibleTrace(Dsp.Prepared(buffer, Some(stopband), Some(passband), padlen, lfilter), leftEdge, idxRetain)
    {
      assert numsamples > 0 by {
        assert |Range(0, numsamples, sDown)| >= 2;
      }
      var processed := Dsp.PrepareBuffer(buffer, Some(stopband), Some(passband), padlen, lfilter);
      assert processed == Dsp.Prepared(buffer, Some(stopband), Some(passband), padlen, lfilter);
      trace := VisibleTrace(processed, leftEdge, idxRetain);
    }

    /**
     * The drawing step of `update_plot_data`: advance the time axis by one
     * slot of `count / sampleRate` seconds, show `trace` and evaluate the
     * trigger on it.
     */
    method Redraw(trace: seq<real>)
      requires Config() && TraceValid() && TriggerValid()
      requires count == sDown
      requires |trace| == |idxRetain| && forall j :: 0 <= j < |trace| ==> trace[j] >= 0.0
      modifies this`x, this`y, this`lastTrigger, this`port
      ensures TraceValid() && TriggerValid()
      ensures x == ShiftAxis(old(x), Tick)
      ensures y == trace
      ensures lastTrigger == (trace[|trace| - 1] >= yrange.1)
      ensures port == old(port) + Trigger.Emit(old(lastTrigger), lastTrigger)
    {
      var step := count as real / sampleRate as real;
      assert step == Tick;
      ShiftKeepsSpacing(x, step);
      x := x[1..];
      x := x + [x[|x| - 1] + step];
      y := trace;
      DecideTrigger(y);
    }

    /**
     * `update_plot_data` for one snapshot read from the pipe: count it, and on
     * every `sDown`-th one filter the buffer, trim its first `leftEdge`
     * samples, rectify it, advance the time axis by one slot, take channel 0
     * at `idxRetain` as the new trace, evaluate the trigger on it and reset
     * the counter.
     */
    method UpdatePlotData(buffer: seq<seq<real>>, tNow: real)
      requires Valid()
      requires HasShape(buffer, numchans, numsamples)
      modifies this
      ensures Valid()
      ensures deliveries == old(deliveries) + 1 && yrange == old(yrange)
      ensures old(count) + 1 < sDown ==>
        count == old(count) + 1 && x == old(x) && y == old(y) &&
        lastTrigger == old(lastTrigger) && port == old(port)
      ensures old(count) + 1 >= sDown ==>
        && count == 0
        && x == ShiftAxis(old(x), Tick)
        && y == VisibleTrace(Dsp.Prepared(buffer, Some(stopband), Some(passband), padlen, lfilter), leftEdge, idxRetain)
        && lastTrigger == (y[|y| - 1] >= yrange.1)
        && port == old(port) + Trigger.Emit(old(lastTrigger), lastTrigger)
    {
      DecimateNext(deliveries, sDown);
      count := count + 1;
      deliveries := deliveries + 1;
      if count < sDown {
        return;
      }
      Process(buffer);
    }

    /**
     * The part of `update_plot_data` past the counter test: the new trace,
     * the redraw and the trigger, and the counter reset that closes the cycle.
     */
    method Process(buffer: seq<seq<real>>)
      requires Config() && TraceValid() && TriggerValid()
      requires HasShape(buffer, numchans, numsamples)
      requires count == sDown && Decimate(deliveries, sDown) == (0, cycles + 1)
      modifies this`x, this`y, this`lastTrigger, this`port, this`count, this`cycles
      ensures Valid()
      ensures count == 0
      ensures x == ShiftAxis(old(x), Tick)
      ensures y == VisibleTrace(Dsp.Prepared(buffer, Some(stopband), Some(passband), padlen, lfilter), leftEdge, idxRetain)
      ensures lastTrigger == (y[|y| - 1] >= yrange.1)
      ensures port == old(port) + Trigger.Emit(old(lastTrigger), lastTrigger)
    {
      var trace := ComputeTrace(buffer);
      Redraw(trace);
      count := 0;
      cycles := cycles + 1;
    }

    /** `value_changed`: the slider value `i` sets the range to `[-i, i]`, so the threshold becomes `i`. */
    method ValueChanged(i: int)
      modifies this`yrange
      ensures yrange == (-(i as real), i as real)
    {
      yrange := (-(i as real), i as real);
    }

    /** `slider_position`: the same update while the slider is dragged. */
    method SliderPosition(i: int)
      modifies this`yrange
      ensures yrange == (-(i as real), i as real)
    {
      yrange := (-(i as real), i as real);
    }
  }
}
