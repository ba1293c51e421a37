/**
 * The receiving side, class `Backend`: zero-filled storage, the decode
 * outcome of one datagram, and the receive loop that drains a warm-up run of
 * datagrams, skips undecodable ones and slides each valid sample into the
 * buffer, publishing a snapshot per sample. The socket, JSON decoding and the
 * clock are outside the model: each datagram arrives as its decode outcome
 * together with the time stamp taken right after it was read.
 */
module Acquisition {
  import opened Wrappers
  import opened Arrays

  /** `Backend.sample_rate` (Hz) */
  const SampleRate: nat := 200
  /** `Backend.buffer_length` (s) */
  const BufferLength: nat := 5
  /** `Backend.buffer_add` */
  const BufferAdd: nat := 4
  /** `Backend.num_channels` */
  const NumChannels: nat := 2
  /** `Backend.downsampling` */
  const Downsampling: nat := 5
  /** `Backend.yrange` */
  const YRange: (real, real) := (-200.0, 200.0)
  /** Datagrams `fill_buffer` reads and drops before decoding any. */
  const WarmUp: nat := 500

  /** The two channel values a well-formed datagram carries (`c1`, `c2`). */
  type Sample = (real, real)

  /** A datagram as the model sees it: what decoding it yields, and its time stamp. */
  datatype Datagram = Datagram(decoded: Option<Sample>, stamp: real)

  /** What goes through the pipe per valid sample. */
  datatype Snapshot = Snapshot(buffer: seq<seq<real>>, timeStamp: real)

  /** `prep_buffer`: an all-zero array of `numChannels` rows of `length` samples. */
  function PrepBuffer(numChannels: nat, length: nat): (buffer: seq<seq<real>>)
    ensures HasShape(buffer, numChannels, length)
    ensures forall c, i :: 0 <= c < numChannels && 0 <= i < length ==> buffer[c][i] == 0.0
  {
    seq(numChannels, _ => Zeros(length))
  }

  /** `prep_time_stamps`: an all-zero array of `length` entries. */
  function PrepTimeStamps(length: nat): (stamps: seq<real>)
    ensures |stamps| == length
    ensures forall i :: 0 <= i < length ==> stamps[i] == 0.0
  {
    Zeros(length)
  }

  /**
   * `get_sample` after the read: the decoded values as a column and True, or
   * the zero pair and False when decoding failed.
   */
  function GetSample(decoded: Option<Sample>): (out: (seq<real>, bool))
    ensures |out.0| == NumChannels
    ensures out.1 <==> decoded.Some?
    ensures decoded.Some? ==> out.0 == [decoded.value.0, decoded.value.1]
    ensures decoded.None? ==> out.0 == [0.0, 0.0]
  {
    match decoded
    case Some(s) => ([s.0, s.1], true)
    case None => ([0.0, 0.0], false)
  }

  /** Append `x` to `row` and drop the oldest entry: the length never changes. */
  function Slide(row: seq<real>, x: real): (r: seq<real>)
    ensures |r| == |row|
    ensures |row| > 0 ==> r == row[1..] + [x]
  {
    (row + [x])[1..]
  }

  /** `concatenate((buffer, sample), axis=1)[:, 1:]` */
  function AppendColumn(buffer: seq<seq<real>>, column: seq<real>): (r: seq<seq<real>>)
    requires |column| == |buffer|
    ensures |r| == |buffer|
    ensures forall c :: 0 <= c < |buffer| ==> r[c] == Slide(buffer[c], column[c])
  {
    seq(|buffer|, c requires 0 <= c < |buffer| => Slide(buffer[c], column[c]))
  }

  /** The receiver's state: its two fields and what it has sent over the pipe. */
  datatype RxState = RxState(buffer: seq<seq<real>>, timeStamps: seq<real>, sent: seq<Snapshot>)

  /** One turn of the receive loop after the warm-up. */
  function Receive(st: RxState, d: Datagram): (next: RxState)
    requires |st.buffer| == NumChannels
    ensures d.decoded.None? ==> next == st
    ensures d.decoded.Some? ==>
      && next.buffer == AppendColumn(st.buffer, [d.decoded.value.0, d.decoded.value.1])
      && next.timeStamps == Slide(st.timeStamps, d.stamp)
      && next.sent == st.sent + [Snapshot(next.buffer, d.stamp)]
  {
    var (sample, valid) := GetSample(d.decoded);
    if !valid then st
    else
      var buffer := AppendColumn(st.buffer, sample);
      RxState(buffer, Slide(st.timeStamps, d.stamp), st.sent + [Snapshot(buffer, d.stamp)])
  }

  /** The receive loop over a run of datagrams. */
  function ReceiveAll(st: RxState, ds: seq<Datagram>): (final: RxState)
    requires |st.buffer| == NumChannels
    ensures |final.buffer| == NumChannels
    decreases |ds|
  {
    if ds == [] then st
    else Receive(ReceiveAll(st, ds[..|ds| - 1]), ds[|ds| - 1])
  }

  /**
   * `fill_buffer` over everything the socket delivers: the first `WarmUp`
   * datagrams are read and dropped; with fewer, the loop never starts.
   */
  function FillBufferRun(st: RxState, incoming: seq<Datagram>): (final: RxState)
    requires |st.buffer| == NumChannels
    ensures |incoming| < WarmUp ==> final == st
    ensures |final.buffer| == NumChannels && |final.timeStamps| == |st.timeStamps|
    ensures |final.sent| == |st.sent| + (if |incoming| < WarmUp then 0 else |ValidSamples(incoming[WarmUp..])|)
    ensures final.sent[..|st.sent|] == st.sent
  {
    if |incoming| < WarmUp then st
    else
      var live := incoming[WarmUp..];
      ReceiveAllStamps(st, live);
      ReceiveAllSent(st, live);
      ReceiveAll(st, live)
  }

  /** The samples of the datagrams that decoded, in arrival order. */
  function ValidSamples(ds: seq<Datagram>): (samples: seq<Sample>)
    ensures |samples| <= |ds|
    decreases |ds|
  {
    if ds == [] then []
    else
      var last := ds[|ds| - 1];
      ValidSamples(ds[..|ds| - 1]) + (if last.decoded.Some? then [last.decoded.value] else [])
  }

  /** The time stamps of the datagrams that decoded, in arrival order. */
  function ValidStamps(ds: seq<Datagram>): (stamps: seq<real>)
    ensures |stamps| == |ValidSamples(ds)|
    decreases |ds|
  {
    if ds == [] then []
    else
      var last := ds[|ds| - 1];
      ValidStamps(ds[..|ds| - 1]) + (if last.decoded.Some? then [last.stamp] else [])
  }

  /** Channel `c` (0 or 1) of a run of samples. */
  function Channel(samples: seq<Sample>, c: nat): (values: seq<real>)
    ensures |values| == |samples|
  {
    seq(|samples|, k requires 0 <= k < |samples| => if c == 0 then samples[k].0 else samples[k].1)
  }

  /** `xs` slid one by one into `row`: the last `|row|` entries of `row + xs`. */
  function SlideAll(row: seq<real>, xs: seq<real>): (r: seq<real>)
    ensures |r| == |row|
  {
    (row + xs)[|xs|..]
  }

  /** Sliding in one more value extends the run being slid in. */
  lemma SlideAllSnoc(row: seq<real>, xs: seq<real>, x: real)
    ensures Slide(SlideAll(row, xs), x) == SlideAll(row, xs + [x])
  {
    var w := row + xs;
    assert row + (xs + [x]) == w + [x];
    if |row| > 0 {
      assert Slide(SlideAll(row, xs), x) == w[|xs|..][1..] + [x];
      assert w[|xs|..][1..] == w[|xs| + 1..];
      assert (w + [x])[|xs| + 1..] == w[|xs| + 1..] + [x];
    }
  }

  /**
   * The sliding window: after the loop each channel row is its old contents
   * with that channel of every valid sample slid in, the time stamps are the
   * old ones with every valid stamp slid in, and one snapshot went out per
   * valid sample.
   */
  lemma {:induction false} ReceiveAllWindow(st: RxState, ds: seq<Datagram>)
    requires |st.buffer| == NumChannels
    ensures forall c :: 0 <= c < NumChannels ==>
      ReceiveAll(st, ds).buffer[c] == SlideAll(st.buffer[c], Channel(ValidSamples(ds), c))
    ensures ReceiveAll(st, ds).timeStamps == SlideAll(st.timeStamps, ValidStamps(ds))
    ensures |ReceiveAll(st, ds).sent| == |st.sent| + |ValidSamples(ds)|
    ensures ReceiveAll(st, ds).sent[..|st.sent|] == st.sent
  {
    forall c | 0 <= c < NumChannels
      ensures ReceiveAll(st, ds).buffer[c] == SlideAll(st.buffer[c], Channel(ValidSamples(ds), c))
    {
      ReceiveAllChannel(st, ds, c);
    }
    ReceiveAllStamps(st, ds);
    ReceiveAllSent(st, ds);
  }

  /** One channel row of the sliding window. */
  lemma {:induction false} ReceiveAllChannel(st: RxState, ds: seq<Datagram>, c: nat)
    requires |st.buffer| == NumChannels && c < NumChannels
    ensures ReceiveAll(st, ds).buffer[c] == SlideAll(st.buffer[c], Channel(ValidSamples(ds), c))
    decreases |ds|
  {
    if ds == [] {
      assert st.buffer[c] + [] == st.buffer[c];
    } else {
      var front, d := ds[..|ds| - 1], ds[|ds| - 1];
      ReceiveAllChannel(st, front, c);
      if d.decoded.Some? {
        var s := d.decoded.value;
        var x := if c == 0 then s.0 else s.1;
        assert Channel(ValidSamples(ds), c) == Channel(ValidSamples(front), c) + [x];
        SlideAllSnoc(st.buffer[c], Channel(ValidSamples(front), c), x);
      }
    }
  }

  /** The time stamps of the sliding window. */
  lemma {:induction false} ReceiveAllStamps(st: RxState, ds: seq<Datagram>)
    requires |st.buffer| == NumChannels
    ensures ReceiveAll(st, ds).timeStamps == SlideAll(st.timeStamps, ValidStamps(ds))
    decreases |ds|
  {
    if ds == [] {
      assert st.timeStamps + [] == st.timeStamps;
    } else {
      var front, d := ds[..|ds| - 1], ds[|ds| - 1];
      ReceiveAllStamps(st, front);
      if d.decoded.Some? {
        SlideAllSnoc(st.timeStamps, ValidStamps(front), d.stamp);
      }
    }
  }

  /** One snapshot is sent per valid datagram, after those sent before. */
  lemma {:induction false} ReceiveAllSent(st: RxState, ds: seq<Datagram>)
    requires |st.buffer| == NumChannels
    ensures |ReceiveAll(st, ds).sent| == |st.sent| + |ValidSamples(ds)|
    ensures ReceiveAll(st, ds).sent[..|st.sent|] == st.sent
    decreases |ds|
  {
    if ds != [] {
      ReceiveAllSent(st, ds[..|ds| - 1]);
    }
  }

  /**
   * Sliding into a zero row of capacity `n`: the row is the last `n` entries
   * of zeros followed by the samples, and once at least `n` samples went in it
   * is exactly the last `n` of them, oldest first.
   */
  lemma SlideIntoZeros(n: nat, xs: seq<real>)
    ensures SlideAll(Zeros(n), xs) == (Zeros(n) + xs)[|xs|..]
    ensures |xs| >= n ==> SlideAll(Zeros(n), xs) == xs[|xs| - n..]
    ensures |xs| < n ==> SlideAll(Zeros(n), xs) == Zeros(n - |xs|) + xs
  {
    var w := Zeros(n) + xs;
    if |xs| >= n {
      assert w[|xs|..] == xs[|xs| - n..];
    } else {
      assert w[|xs|..] == Zeros(n - |xs|) + xs;
    }
  }

  /** The receiver as freshly constructed. */
  function Initial(): (st: RxState)
    ensures HasShape(st.buffer, NumChannels, BufferLength * SampleRate)
    ensures forall c, i :: 0 <= c < NumChannels && 0 <= i < BufferLength * SampleRate ==> st.buffer[c][i] == 0.0
    ensures |st.timeStamps| == BufferLength
    ensures forall i :: 0 <= i < BufferLength ==> st.timeStamps[i] == 0.0
    ensures st.sent == []
  {
    RxState(PrepBuffer(NumChannels, BufferLength * SampleRate), PrepTimeStamps(BufferLength), [])
  }

  /**
   * After N valid samples from the initial state, both channels and the time
   * stamps keep their lengths (1000 and 5), and each channel holds the last
   * 1000 entries of 1000 zeros followed by its values.
   */
  lemma FromInitialWindow(ds: seq<Datagram>)
    ensures HasShape(ReceiveAll(Initial(), ds).buffer, NumChannels, BufferLength * SampleRate)
    ensures |ReceiveAll(Initial(), ds).timeStamps| == BufferLength
    ensures forall c :: 0 <= c < NumChannels ==>
      ReceiveAll(Initial(), ds).buffer[c] ==
        (Zeros(BufferLength * SampleRate) + Channel(ValidSamples(ds), c))[|ValidSamples(ds)|..]
    ensures |ValidSamples(ds)| >= BufferLength * SampleRate ==> forall c :: 0 <= c < NumChannels ==>
      ReceiveAll(Initial(), ds).buffer[c] ==
        Channel(ValidSamples(ds), c)[|ValidSamples(ds)| - BufferLength * SampleRate..]
  {
    ReceiveAllWindow(Initial(), ds);
    forall c | 0 <= c < NumChannels
      ensures ReceiveAll(Initial(), ds).buffer[c] ==
        (Zeros(BufferLength * SampleRate) + Channel(ValidSamples(ds), c))[|ValidSamples(ds)|..]
      ensures |ValidSamples(ds)| >= BufferLength * SampleRate ==>
        ReceiveAll(Initial(), ds).buffer[c] ==
        Channel(ValidSamples(ds), c)[|ValidSamples(ds)| - BufferLength * SampleRate..]
    {
      assert Initial().buffer[c] == Zeros(BufferLength * SampleRate);
      SlideIntoZeros(BufferLength * SampleRate, Channel(ValidSamples(ds), c));
    }
  }

  /** Every valid datagram sends exactly one snapshot whose newest column is its sample. */
  lemma ValidPublishesOne(st: RxState, d: Datagram)
    requires |st.buffer| == NumChannels
    requires HasShape(st.buffer, NumChannels, BufferLength * SampleRate)
    requires d.decoded.Some?
    ensures |Receive(st, d).sent| == |st.sent| + 1
    ensures Receive(st, d).sent[|st.sent|].timeStamp == d.stamp
    ensures Receive(st, d).sent[|st.sent|].buffer[0][BufferLength * SampleRate - 1] == d.decoded.value.0
    ensures Receive(st, d).sent[|st.sent|].buffer[1][BufferLength * SampleRate - 1] == d.decoded.value.1
  {
  }

  /** Undecodable datagrams change nothing and send nothing. */
  lemma {:induction false} InvalidChangeNothing(st: RxState, bad: seq<Datagram>)
    requires |st.buffer| == NumChannels
    requires forall k :: 0 <= k < |bad| ==> bad[k].decoded.None?
    ensures ReceiveAll(st, bad) == st
    decreases |bad|
  {
    if bad != [] {
      InvalidChangeNothing(st, bad[..|bad| - 1]);
    }
  }

  /** N malformed datagrams followed by a valid one amount to exactly one append. */
  lemma MalformedThenValid(st: RxState, bad: seq<Datagram>, good: Datagram)
    requires |st.buffer| == NumChannels
    requires forall k :: 0 <= k < |bad| ==> bad[k].decoded.None?
    requires good.decoded.Some?
    ensures ReceiveAll(st, bad + [good]) == Receive(st, good)
    ensures |ReceiveAll(st, bad + [good]).sent| == |st.sent| + 1
  {
    assert (bad + [good])[..|bad|] == bad;
    InvalidChangeNothing(st, bad);
  }

  /** Whatever the first `WarmUp` datagrams hold, they never reach the buffer, the stamps or the pipe. */
  lemma WarmUpDiscarded(st: RxState, warm: seq<Datagram>, live: seq<Datagram>)
    requires |st.buffer| == NumChannels
    requires |warm| == WarmUp
    ensures FillBufferRun(st, warm + live) == ReceiveAll(st, live)
  {
    assert (warm + live)[WarmUp..] == live;
  }

  /** The receiving object: it owns the buffer and the time stamps and is the pipe's only sender. */
  class Backend {
    var buffer: seq<seq<real>>
    var timeStamps: seq<real>
    /** Everything sent over the pipe so far, oldest first. */
    var sent: seq<Snapshot>

    ghost predicate Valid()
      reads this
    {
      HasShape(buffer, NumChannels, BufferLength * SampleRate) && |timeStamps| == BufferLength
    }

    function State(): RxState
      reads this
    {
      RxState(buffer, timeStamps, sent)
    }

    /** The buffer and the time stamps start zero-filled; note the stamps are `buffer_length` (5) long. */
    constructor ()
      ensures Valid()
      ensures State() == Initial()
    {
      buffer := PrepBuffer(NumChannels, BufferLength * SampleRate);
      timeStamps := PrepTimeStamps(BufferLength);
      sent := [];
    }

    /**
     * `fill_buffer`: read and drop `WarmUp` datagrams, then for every further
     * datagram decode it, skip it when invalid, and otherwise slide the sample
     * into the buffer and its stamp into the time stamps and send the new
     * buffer with the stamp. The stream ending stands for the stop flag and
     * the process being terminated.
     */
    method FillBuffer(incoming: seq<Datagram>)
      requires Valid()
      modifies this
      ensures Valid()
      ensures State() == FillBufferRun(old(State()), incoming)
    {
      var next := 0;
      while next < WarmUp
        invariant next <= WarmUp && next <= |incoming|
      {
        if next == |incoming| {
          return;
        }
        next := next + 1;
      }
      ghost var start := State();
      while next < |incoming|
        invariant WarmUp <= next <= |incoming|
        invariant Valid()
        invariant State() == ReceiveAll(start, incoming[WarmUp..next])
      {
        var d := incoming[next];
        assert incoming[WarmUp..next + 1] == incoming[WarmUp..next] + [d];
        next := next + 1;
        var (sample, valid) := GetSample(d.decoded);
        var timeStamp := d.stamp;
        if !valid {
          continue;
        }
        var current := buffer;
        var updateBuffer := seq(|current|, c requires 0 <= c < |current| => current[c] + [sample[c]]);
        buffer := seq(|updateBuffer|, c requires 0 <= c < |updateBuffer| => updateBuffer[c][1..]);
        assert buffer == AppendColumn(current, sample);
        timeStamps := (timeStamps + [timeStamp])[1..];
        sent := sent + [Snapshot(buffer, timeStamp)];
      }
      assert incoming[WarmUp..] == incoming[WarmUp..next];
    }
  }
}
