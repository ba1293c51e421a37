/**
 * The filter skeleton of class `Processing`: the pad length chosen at set-up,
 * the left-only symmetric pad and slice around the IIR filter, the per-channel
 * stopband-then-passband composition, and downsampling by a fixed stride.
 * The IIR recursion itself (scipy's `lfilter` with `lfilter_zi`) is a
 * parameter: only that it returns as many samples as it is given is assumed.
 */
module Dsp {
  import opened Wrappers
  import opened Arrays

  /** `Processing.sample_rate` */
  const SampleRate: nat := 200
  /** `Processing.buffer_length`: five seconds, counted in samples */
  const BufferLength: nat := 5 * SampleRate

  /** Feed-forward and feedback coefficients of one filter design. */
  datatype Coeffs = Coeffs(b: seq<real>, a: seq<real>)

  /**
   * `lfilter(b, a, x, zi=lfilter_zi(b, a) * x0)[0]`: coefficients, the signal,
   * and the sample the initial state is scaled by.
   */
  type LFilter = (seq<real>, seq<real>, seq<real>, real) -> seq<real>

  /** The filter returns one output per input sample. */
  ghost predicate PreservesLength(lfilter: LFilter)
  {
    forall b, a, x, x0 :: |lfilter(b, a, x, x0)| == |x|
  }

  lemma LengthKept(lfilter: LFilter, b: seq<real>, a: seq<real>, x: seq<real>, x0: real)
    requires PreservesLength(lfilter)
    ensures |lfilter(b, a, x, x0)| == |x|
  {
  }

  /** Python's `int()` of a float: truncation toward zero. */
  function Trunc(r: real): (i: int)
    ensures r >= 0.0 ==> i as real <= r < i as real + 1.0
    ensures r < 0.0 ==> i as real - 1.0 < r <= i as real
  {
    if r >= 0.0 then r.Floor else -((-r).Floor)
  }

  /**
   * `prepare_filters`' pad length: three times the longer coefficient vector
   * of the highpass design, unless the truncated `bufferLength * sampleRate / 10 - 1`
   * is at least that large.
   */
  function PadLen(lenA: nat, lenB: nat, bufferLength: nat, sampleRate: nat): (padlen: nat)
    ensures padlen == Max(3 * Max(lenA, lenB), Trunc((bufferLength * sampleRate) as real / 10.0 - 1.0))
    ensures padlen >= 3 * Max(lenA, lenB)
    ensures padlen >= Trunc((bufferLength * sampleRate) as real / 10.0 - 1.0)
  {
    var defaultPad := 3 * Max(lenA, lenB);
    var tenth := (bufferLength * sampleRate) as real / 10.0 - 1.0;
    if defaultPad as real > tenth then defaultPad else Trunc(tenth)
  }

  /**
   * With the source's constants and the four coefficients of an order-3
   * Butterworth highpass, the pad is 19999 samples: far longer than the
   * 1000-sample window it pads.
   */
  lemma DefaultPadLen()
    ensures PadLen(4, 4, BufferLength, SampleRate) == 19999
    ensures PadLen(4, 4, BufferLength, SampleRate) > BufferLength
  {
    assert (BufferLength * SampleRate) as real / 10.0 - 1.0 == 19999.0;
  }

  /**
   * The index into a non-empty signal of length `n` that numpy's 'symmetric'
   * mode places `k + 1` positions to the left of the first sample: the signal
   * mirrored with its edge sample repeated, extended with period `2 * n`.
   */
  function Mirror(n: nat, k: nat): (i: nat)
    requires n > 0
    ensures i < n
    ensures k < n ==> i == k
  {
    var m := k % (2 * n);
    if m < n then m else 2 * n - 1 - m
  }

  /** `pad(signal, (padlen, 0), 'symmetric')`; numpy refuses to pad an empty array. */
  function SymmetricPad(signal: seq<real>, padlen: nat): (padded: seq<real>)
    requires |signal| > 0 || padlen == 0
    ensures |padded| == padlen + |signal|
    ensures padded[padlen..] == signal
    ensures padlen <= |signal| ==> padded[..padlen] == Reversed(signal[..padlen])
    ensures forall j :: 0 <= j < padlen ==> padded[j] in signal
  {
    var pad := seq(padlen, j requires 0 <= j < padlen => signal[Mirror(|signal|, padlen - 1 - j)]);
    assert (pad + signal)[..padlen] == pad;
    pad + signal
  }

  /**
   * `filter_signal`: filter the left-padded signal from a state scaled by its
   * first sample, then drop the outputs that belong to the pad. The source
   * reads `padded_signal[0]`, so the signal must not be empty.
   */
  function FilterSignal(b: seq<real>, a: seq<real>, signal: seq<real>, padlen: nat, lfilter: LFilter): (filtered: seq<real>)
    requires PreservesLength(lfilter)
    requires |signal| > 0
    ensures |filtered| == |signal|
  {
    var padded := SymmetricPad(signal, padlen);
    LengthKept(lfilter, b, a, padded, padded[0]);
    lfilter(b, a, padded, padded[0])[padlen..]
  }

  /**
   * What `all(bSB != None)` evaluates to as written. For a coefficient array the
   * element-wise comparison is all true; for `None` it is the single bool False,
   * and `all(False)` raises TypeError, modelled as `None`.
   */
  function StageGuardAsWritten(stage: Option<Coeffs>): (r: Option<bool>)
    ensures stage.Some? ==> r == Some(true)
    ensures stage.None? ==> r.None?
  {
    if stage.Some? then Some(true) else None
  }

  /** As written, the pass-through branch of a stage can never be taken. */
  lemma PassThroughUnreachableAsWritten(stage: Option<Coeffs>)
    ensures StageGuardAsWritten(stage) != Some(false)
  {
  }

  /** The intended guard: a stage runs exactly when its coefficients are present. */
  function StageEnabled(stage: Option<Coeffs>): bool
  {
    stage.Some?
  }

  /** One stage of `prepare_buffer`: the filter when enabled, otherwise the row itself. */
  function Stage(row: seq<real>, stage: Option<Coeffs>, padlen: nat, lfilter: LFilter): (out: seq<real>)
    requires PreservesLength(lfilter)
    requires StageEnabled(stage) ==> |row| > 0
    ensures |out| == |row|
    ensures !StageEnabled(stage) ==> out == row
  {
    if StageEnabled(stage) then FilterSignal(stage.value.b, stage.value.a, row, padlen, lfilter)
    else row
  }

  /** A row can go through both stages. */
  ghost predicate Filterable(row: seq<real>, stopband: Option<Coeffs>, passband: Option<Coeffs>)
  {
    |row| > 0 || (stopband.None? && passband.None?)
  }

  /** One channel of `prepare_buffer`: line-noise rejection, then the useful band. */
  function ProcessRow(row: seq<real>, stopband: Option<Coeffs>, passband: Option<Coeffs>, padlen: nat, lfilter: LFilter): (out: seq<real>)
    requires PreservesLength(lfilter)
    requires Filterable(row, stopband, passband)
    ensures |out| == |row|
  {
    Stage(Stage(row, stopband, padlen, lfilter), passband, padlen, lfilter)
  }

  /** The composition applies the stopband stage first and each absent stage passes its input on. */
  lemma ProcessRowStages(row: seq<real>, stopband: Option<Coeffs>, passband: Option<Coeffs>, padlen: nat, lfilter: LFilter)
    requires PreservesLength(lfilter)
    requires Filterable(row, stopband, passband)
    ensures stopband.None? && passband.None? ==> ProcessRow(row, stopband, passband, padlen, lfilter) == row
    ensures stopband.None? && passband.Some? ==>
      ProcessRow(row, stopband, passband, padlen, lfilter) == FilterSignal(passband.value.b, passband.value.a, row, padlen, lfilter)
    ensures stopband.Some? && passband.None? ==>
      ProcessRow(row, stopband, passband, padlen, lfilter) == FilterSignal(stopband.value.b, stopband.value.a, row, padlen, lfilter)
    ensures stopband.Some? && passband.Some? ==>
      ProcessRow(row, stopband, passband, padlen, lfilter) ==
      FilterSignal(passband.value.b, passband.value.a,
                   FilterSignal(stopband.value.b, stopband.value.a, row, padlen, lfilter), padlen, lfilter)
  {
  }

  /** The whole filtered buffer, channel by channel. */
  function Prepared(buffer: seq<seq<real>>, stopband: Option<Coeffs>, passband: Option<Coeffs>, padlen: nat, lfilter: LFilter): (out: seq<seq<real>>)
    requires PreservesLength(lfilter)
    requires forall c :: 0 <= c < |buffer| ==> Filterable(buffer[c], stopband, passband)
    ensures |out| == |buffer|
    ensures forall c :: 0 <= c < |buffer| ==> |out[c]| == |buffer[c]|
  {
    seq(|buffer|, c requires 0 <= c < |buffer| => ProcessRow(buffer[c], stopband, passband, padlen, lfilter))
  }

  /**
   * `prepare_buffer`: allocate two arrays with one row per channel and fill
   * them row by row, first with the stopband output, then with the passband
   * output of that. Row `c` of the result depends only on row `c` of the input.
   * Every row is written before it is read, so the zero fill is not modelled.
   */
  method PrepareBuffer(buffer: seq<seq<real>>, stopband: Option<Coeffs>, passband: Option<Coeffs>, padlen: nat, lfilter: LFilter)
    returns (filtered: seq<seq<real>>)
    requires PreservesLength(lfilter)
    requires Rectangular(buffer)
    requires forall c :: 0 <= c < |buffer| ==> Filterable(buffer[c], stopband, passband)
    ensures HasShape(filtered, |buffer|, Width(buffer))
    ensures forall c :: 0 <= c < |buffer| ==> filtered[c] == ProcessRow(buffer[c], stopband, passband, padlen, lfilter)
  {
    var noiseFree := new seq<real>[|buffer|];
    var out := new seq<real>[|buffer|];
    for c := 0 to |buffer|
      invariant forall k :: 0 <= k < c ==> noiseFree[k] == Stage(buffer[k], stopband, padlen, lfilter)
      invariant forall k :: 0 <= k < c ==> out[k] == ProcessRow(buffer[k], stopband, passband, padlen, lfilter)
    {
      if StageEnabled(stopband) {
        noiseFree[c] := FilterSignal(stopband.value.b, stopband.value.a, buffer[c], padlen, lfilter);
      } else {
        noiseFree[c] := buffer[c];
      }
      assert noiseFree[c] == Stage(buffer[c], stopband, padlen, lfilter);
      if StageEnabled(passband) {
        out[c] := FilterSignal(passband.value.b, passband.value.a, noiseFree[c], padlen, lfilter);
      } else {
        out[c] := noiseFree[c];
      }
      assert out[c] == Stage(noiseFree[c], passband, padlen, lfilter);
    }
    filtered := out[..];
  }

  /**
   * Whether `downsample` returns: the stride must be non-zero, and assigning the
   * `ceil(n / s_down)` retained samples to a row of width `n / s_down` must
   * broadcast, which needs equal sizes or a single retained sample.
   */
  ghost predicate DownsampleDefined(numchans: nat, n: nat, sDown: nat)
  {
    sDown > 0 && (numchans == 0 || n % sDown == 0 || n < sDown)
  }

  /** numpy's assignment of `value` to a row of `width` entries; `None` is a broadcast error. */
  function AssignRow(width: nat, value: seq<real>): (r: Option<seq<real>>)
    ensures r.Some? <==> |value| == width || |value| == 1
    ensures r.Some? ==> |r.value| == width
    ensures |value| == width ==> r == Some(value)
  {
    if |value| == width then Some(value)
    else if |value| == 1 then Some(seq(width, _ => value[0]))
    else None
  }

  /**
   * One row of `downsample`: the samples at `range(0, n, sDown)` assigned to a
   * row of `n / sDown` columns.
   */
  function DownsampleRow(row: seq<real>, sDown: nat): (r: Option<seq<real>>)
    requires sDown > 0
    ensures r.Some? <==> (|row| % sDown == 0 || |row| < sDown)
    ensures r.Some? ==> |r.value| == |row| / sDown
    ensures r.Some? ==> forall j :: 0 <= j < |row| / sDown ==> j * sDown < |row| && r.value[j] == row[j * sDown]
  {
    var idxRetain := Range(0, |row|, sDown);
    DownsampleSizes(|row|, sDown);
    AssignRow(|row| / sDown, seq(|idxRetain|, j requires 0 <= j < |idxRetain| => row[idxRetain[j]]))
  }

  /**
   * `downsample`: keep every `sDown`-th sample of every channel, starting at
   * index 0, into a zero array of `n / sDown` columns. `None` stands for the
   * ZeroDivisionError of a zero stride and for the broadcast error that a
   * stride not dividing the sample count causes.
   */
  method Downsample(buffer: seq<seq<real>>, sDown: nat) returns (r: Option<seq<seq<real>>>)
    requires Rectangular(buffer)
    ensures r.Some? <==> DownsampleDefined(|buffer|, Width(buffer), sDown)
    ensures r.Some? ==> sDown > 0 && HasShape(r.value, |buffer|, Width(buffer) / sDown)
    ensures r.Some? ==> forall c, j :: 0 <= c < |buffer| && 0 <= j < Width(buffer) / sDown ==>
      j * sDown < Width(buffer) && r.value[c][j] == buffer[c][j * sDown]
  {
    if sDown == 0 {
      return None;
    }
    var n := Width(buffer);
    var numchans := |buffer|;
    var out := new seq<real>[numchans](_ => Zeros(n / sDown));
    for c := 0 to numchans
      invariant forall k :: 0 <= k < c ==> DownsampleRow(buffer[k], sDown) == Some(out[k])
      invariant c > 0 ==> n % sDown == 0 || n < sDown
    {
      var row := DownsampleRow(buffer[c], sDown);
      if row.None? {
        return None;
      }
      out[c] := row.value;
    }
    r := Some(out[..]);
    forall c, j | 0 <= c < numchans && 0 <= j < n / sDown
      ensures j * sDown < n && r.value[c][j] == buffer[c][j * sDown]
    {
      assert DownsampleRow(buffer[c], sDown) == Some(r.value[c]);
    }
  }

  /** The retained samples number `ceil(n / s)`: as many as the columns when `s` divides `n`, one when `n < s`. */
  lemma DownsampleSizes(n: nat, s: nat)
    requires s > 0
    ensures n % s == 0 ==> RangeLength(0, n, s) == n / s
    ensures 0 < n < s ==> RangeLength(0, n, s) == 1 && n / s == 0
    ensures n == 0 ==> RangeLength(0, n, s) == 0
    ensures n % s != 0 && n >= s ==> RangeLength(0, n, s) == n / s + 1 && n / s + 1 != 1
  {
    if n > 0 {
      var q, m := n / s, n % s;
      assert n == q * s + m;
      if m == 0 {
        DivUnique(n + s - 1, s, q, s - 1);
      } else {
        DivUnique(n + s - 1, s, q + 1, m - 1);
        assert q + 1 != 1 || n < s by {
          if q == 0 { assert n == m; }
        }
      }
    }
  }
}
