# PrendeTuMente: the acquisition, filter and trigger pipeline in Dafny

PrendeTuMente ("turn on your mind") is a workshop program. It reads a two-channel
biosignal streamed over UDP, filters it, draws it, and drives an Arduino over a serial
port. The port receives 'H' when the newest sample of the trace rises to the slider's
threshold and 'L' when it falls back below it.

This project models the discrete part of that pipeline and proves its properties.

- **`Acquisition`** (`backend.py`): the receiver class `Backend`.
  - Its zero-filled buffer and time stamps.
  - The decode outcome of one datagram (`get_sample`).
  - The receive loop `fill_buffer`. It drains 500 warm-up datagrams and skips undecodable ones. Each valid sample slides into every channel row and its stamp into the time stamps, and one snapshot is published per valid sample.
- **`Dsp`** (`digital_signal_processing.py`): the filter skeleton of class `Processing`.
  - The pad length chosen in `prepare_filters`.
  - The left-only symmetric pad and slice around the IIR filter in `filter_signal`.
  - The per-channel stopband-then-passband loop in `prepare_buffer`.
  - The strided `downsample`.
- **`Trigger`** (the rule of `decide_trgigger` in `PRENDE_TU_MENTE.py`): the above/below index classes, the level decided from them, and the characters written over any run of evaluations.
- **`Frontend`** (`PRENDE_TU_MENTE.py`): the consumer class `Frontend`.
  - The decimation counter.
  - The trace computation and the time-axis shift of `update_plot_data`.
  - The trigger state, with the serial port as the sequence of characters written to it.
  - The threshold set by `value_changed` and `slider_position`.
- **`Arrays`** and **`Wrappers`**: numpy-like helpers (`zeros`, `range`, `abs`, array shape) and `Option`.

Two blocks are parameters of the model rather than parts of it:
- The IIR filter (scipy's `lfilter` started from `lfilter_zi`) is a function `LFilter`. The only assumption about it is that it returns one output per input sample (`Dsp.PreservesLength`).
- Each datagram arrives as the outcome of JSON decoding (`Option<(real, real)>`), together with the time stamp taken after reading it.

Where the code and its documentation disagree, the model follows the code:
- `padlen` is computed from `Processing.buffer_length`, which is already a count of samples (1000). It is multiplied by the sample rate again, so `padlen` is 19999 (`Dsp.DefaultPadLen`), not a tenth of the window.
- `time_stamps` has `buffer_length` = 5 entries, not one per buffered sample.
- `left_edge` is `int(buffer_add)` = 4 samples, not 4 seconds.
- At start-up the slider's `setValue(2250)` runs `value_changed`, so the first threshold is 2250, not the receiver's `yrange` of 200.
- A counter of skipped messages is mentioned in the documentation but is not in the code, so it is not modelled. The code only prints a message.

## Model

| member | source | states |
|---|---|---|
| Arrays.Zeros | PRENDE_TU_MENTE/backend.py:42 | `zeros(n)` has `n` entries, all 0.0 |
| Arrays.Range | PRENDE_TU_MENTE/PRENDE_TU_MENTE.py:30 | Python `range(start, stop, step)`: entry k is `start + k*step`, every entry lies in `[start, stop)`, and one more step would reach `stop` (so no value is missing) |
| Trigger.Where | PRENDE_TU_MENTE/PRENDE_TU_MENTE.py:216-217 | numpy `where(mask)[0]` yields only indices at which the mask holds, strictly ascending |
| Trigger.WhereComplete | PRENDE_TU_MENTE/PRENDE_TU_MENTE.py:216-217 | `where` misses no index at which the mask holds |
| Trigger.AtOrAbove | PRENDE_TU_MENTE/PRENDE_TU_MENTE.py:216 | the mask `signal >= t` holds at i exactly when sample i reaches t |
| Trigger.Below | PRENDE_TU_MENTE/PRENDE_TU_MENTE.py:217 | the mask `signal < t` holds at i exactly when sample i is below t |
| Trigger.AboveThr | PRENDE_TU_MENTE/PRENDE_TU_MENTE.py:216 | every index in `above_thr` is an index of the signal whose sample is at or above T |
| Trigger.BelowThr | PRENDE_TU_MENTE/PRENDE_TU_MENTE.py:217 | every index in `below_thr` is an index of the signal whose sample is below T |
| Trigger.Partition | PRENDE_TU_MENTE/PRENDE_TU_MENTE.py:216-217 | every index of the signal is in `above_thr` iff its sample is at or above T, in `below_thr` iff below, and in exactly one of the two |
| Trigger.WhereLast | PRENDE_TU_MENTE/PRENDE_TU_MENTE.py:221 | the last index `where` yields is the last position when the mask holds there, and every yielded index is smaller otherwise |
| Trigger.Level | PRENDE_TU_MENTE/PRENDE_TU_MENTE.py:219-224 | the three-branch rule on the last index of each class is true for an empty signal and otherwise equals "last sample >= T" |
| Trigger.Emit | PRENDE_TU_MENTE/PRENDE_TU_MENTE.py:226-234 | one evaluation writes at most one character; it writes nothing iff the level equals the stored one, and otherwise 'H' for true and 'L' for false |
| Trigger.Emissions | PRENDE_TU_MENTE/PRENDE_TU_MENTE.py:226-234 | a run of evaluations writes at most one character per evaluation, each of them 'H' or 'L' |
| Trigger.AlternatingSnoc | PRENDE_TU_MENTE/PRENDE_TU_MENTE.py:226-234 | writing the command for the level opposite to the stored one keeps the port output alternating H, L, H, ... and the parity of its length tells the level |
| Trigger.EmissionsAlternate | PRENDE_TU_MENTE/PRENDE_TU_MENTE.py:226-234 | over any run of evaluations, one character is written per change of level, they alternate starting with the opposite of the stored level, and the parity of their number gives the final level |
| Trigger.FromFalseAlternates | PRENDE_TU_MENTE/PRENDE_TU_MENTE.py:33 | from the initial `last_trigger = False` the port receives H, L, H, ..., one per change, and the final level is true iff an odd number was written |
| Trigger.EmissionsSnoc | PRENDE_TU_MENTE/PRENDE_TU_MENTE.py:226-234 | evaluating one more level appends exactly what that evaluation writes from the stored level |
| Trigger.RisingThenFalling | PRENDE_TU_MENTE/PRENDE_TU_MENTE.py:226-234 | the levels F, F, T, T, F from False write exactly "HL" |
| Dsp.Trunc | PRENDE_TU_MENTE/digital_signal_processing.py:40 | Python `int()` of a float truncates toward zero: within one below (non-negative) or above (negative) the argument |
| Dsp.PadLen | PRENDE_TU_MENTE/digital_signal_processing.py:35-40 | `padlen` is the larger of `3*max(len(a), len(b))` and the truncated `buffer_length*sample_rate/10 - 1`, so it is at least each of them |
| Dsp.DefaultPadLen | PRENDE_TU_MENTE/digital_signal_processing.py:10-11 | with the source's constants and 4-coefficient designs `padlen` is 19999, longer than the 1000-sample window |
| Dsp.Mirror | PRENDE_TU_MENTE/digital_signal_processing.py:51 | the source index of every pad position lies inside the signal, and the position k+1 places left of the first sample mirrors sample k for k < n (the edge sample is repeated) |
| Dsp.SymmetricPad | PRENDE_TU_MENTE/digital_signal_processing.py:51 | the padded signal has `padlen + len` samples, ends with the unchanged signal, starts with the first `padlen` samples reversed when `padlen <= len`, and every pad sample is a signal sample |
| Dsp.FilterSignal | PRENDE_TU_MENTE/digital_signal_processing.py:43-56 | with a length-preserving filter, dropping the first `padlen` outputs returns exactly as many samples as the input row |
| Dsp.StageGuardAsWritten | PRENDE_TU_MENTE/digital_signal_processing.py:105 | as written, the guard is true for coefficient arrays and raises (None) for `None` coefficients |
| Dsp.PassThroughUnreachableAsWritten | PRENDE_TU_MENTE/digital_signal_processing.py:105-109 | as written, the guard never evaluates to False, so the pass-through branch is dead |
| Dsp.Stage | PRENDE_TU_MENTE/digital_signal_processing.py:105-117 | one stage keeps the row length, and a stage without coefficients passes its row through unchanged |
| Dsp.ProcessRow | PRENDE_TU_MENTE/digital_signal_processing.py:101-117 | one channel run through both stages keeps its length |
| Dsp.ProcessRowStages | PRENDE_TU_MENTE/digital_signal_processing.py:101-117 | the channel is `passband(stopband(row))`, with each absent stage replaced by the identity (all four cases) |
| Dsp.Prepared | PRENDE_TU_MENTE/digital_signal_processing.py:86-119 | the filtered buffer has as many rows as the input, each of its row's length |
| Dsp.PrepareBuffer | PRENDE_TU_MENTE/digital_signal_processing.py:86-119 | the loop returns an array of the input's shape whose row c is both stages applied to input row c alone |
| Dsp.AssignRow | PRENDE_TU_MENTE/digital_signal_processing.py:81 | numpy row assignment succeeds iff the value has the row's width or a single entry (broadcast); the result has the row's width and is the value itself when the widths agree |
| Dsp.DownsampleRow | PRENDE_TU_MENTE/digital_signal_processing.py:77-81 | a row downsamples iff s divides n or n < s; then it has `n / s` entries and entry j is sample `j*s` |
| Dsp.Downsample | PRENDE_TU_MENTE/digital_signal_processing.py:68-83 | `downsample` returns exactly when the stride is non-zero and the assignment broadcasts; then the result is `numchans x n/s` with `out[c][j] == buffer[c][j*s]` (so index 0 is retained) |
| Dsp.DownsampleSizes | PRENDE_TU_MENTE/digital_signal_processing.py:77-78 | `range(0, n, s)` has `n / s` entries when s divides n, one when `0 < n < s`, and `n/s + 1 > 1` otherwise, which is the broadcast failure |
| Acquisition.PrepBuffer | PRENDE_TU_MENTE/backend.py:39-42 | `prep_buffer` is an all-zero `num_channels x length` array |
| Acquisition.PrepTimeStamps | PRENDE_TU_MENTE/backend.py:45-46 | `prep_time_stamps` is an all-zero array of the given length |
| Acquisition.GetSample | PRENDE_TU_MENTE/backend.py:58-73 | the flag is True iff decoding succeeded; the column is `[c1, c2]` then and `[0.0, 0.0]` otherwise |
| Acquisition.Slide | PRENDE_TU_MENTE/backend.py:103-104 | append-then-drop-first keeps the length and yields `row[1:] + [x]` |
| Acquisition.AppendColumn | PRENDE_TU_MENTE/backend.py:97-100 | concatenating a column and dropping the first replaces every row r by `r[1:] + [sample[c]]` |
| Acquisition.Receive | PRENDE_TU_MENTE/backend.py:90-107 | an invalid datagram changes nothing; a valid one slides its sample into the buffer and its stamp into the time stamps and sends the new buffer with the stamp |
| Acquisition.ReceiveAll | PRENDE_TU_MENTE/backend.py:87-107 | the loop keeps the number of channel rows |
| Acquisition.FillBufferRun | PRENDE_TU_MENTE/backend.py:84-107 | with fewer than 500 datagrams nothing changes; otherwise the buffer keeps its rows and the stamps their length, what was sent stays, and one snapshot is added per valid datagram after the first 500 |
| Acquisition.SlideAllSnoc | PRENDE_TU_MENTE/backend.py:97-104 | sliding values in one by one is sliding in the whole run at once |
| Acquisition.ReceiveAllWindow | PRENDE_TU_MENTE/backend.py:87-107 | after the loop each channel row and the time stamps are their old contents with every valid value slid in, and one snapshot went out per valid sample after those sent before |
| Acquisition.ReceiveAllChannel | PRENDE_TU_MENTE/backend.py:97-100 | each channel row is its old contents with that channel of every valid sample slid in |
| Acquisition.ReceiveAllStamps | PRENDE_TU_MENTE/backend.py:103-104 | the time stamps are the old ones with every valid stamp slid in |
| Acquisition.ReceiveAllSent | PRENDE_TU_MENTE/backend.py:107 | one snapshot is sent per valid datagram, after those sent before |
| Acquisition.SlideIntoZeros | PRENDE_TU_MENTE/backend.py:97-100 | after N samples into a zero row of capacity C it is the last C of `zeros(C) ++ samples`: exactly the last C samples, oldest first, when N >= C, and zeros followed by all samples otherwise |
| Acquisition.Initial | PRENDE_TU_MENTE/backend.py:34-35 | the constructed state: a 2 x 1000 buffer of zeros, 5 zero time stamps, nothing sent |
| Acquisition.FromInitialWindow | PRENDE_TU_MENTE/backend.py:34-104 | from the constructed state the buffer stays 2 x 1000 and the stamps 5 long, and each row is the last 1000 of zeros followed by its channel |
| Acquisition.ValidPublishesOne | PRENDE_TU_MENTE/backend.py:97-107 | a valid sample sends exactly one snapshot, stamped with its time stamp, whose last column is that sample |
| Acquisition.InvalidChangeNothing | PRENDE_TU_MENTE/backend.py:93-94 | any run of undecodable datagrams leaves buffer, stamps and pipe unchanged |
| Acquisition.MalformedThenValid | PRENDE_TU_MENTE/backend.py:93-107 | N malformed datagrams followed by a valid one amount to exactly one append and one send |
| Acquisition.WarmUpDiscarded | PRENDE_TU_MENTE/backend.py:84-85 | whatever the first 500 datagrams hold, they never reach the buffer, the stamps or the pipe |
| Acquisition.Backend.constructor | PRENDE_TU_MENTE/backend.py:19-35 | the buffer starts as 2 x 1000 zeros and the time stamps as 5 zeros, nothing sent |
| Acquisition.Backend.FillBuffer | PRENDE_TU_MENTE/backend.py:80-111 | the drain loop and the receive loop leave the state of the receive run over everything after the first 500 datagrams (none at all with fewer), keeping the buffer's and stamps' shapes |
| Frontend.Decimate | PRENDE_TU_MENTE/PRENDE_TU_MENTE.py:166-192 | the counter left between calls is always below `s_down` |
| Frontend.DecimateNext | PRENDE_TU_MENTE/PRENDE_TU_MENTE.py:166-192 | each delivery either increments the counter or, on reaching `s_down`, resets it to 0 and completes a cycle |
| Frontend.DecimationCounts | PRENDE_TU_MENTE/PRENDE_TU_MENTE.py:166-192 | after k deliveries the counter is `k % s_down` and exactly `k / s_down` processing cycles happened |
| Frontend.Trim | PRENDE_TU_MENTE/PRENDE_TU_MENTE.py:174 | `m[:, left_edge:]` keeps the rows and drops the first `left_edge` samples of each |
| Frontend.Rectify | PRENDE_TU_MENTE/PRENDE_TU_MENTE.py:176 | numpy `abs` keeps the shape and yields non-negative values equal to each entry or its negation |
| Frontend.Pick | PRENDE_TU_MENTE/PRENDE_TU_MENTE.py:181 | `m[0, idx]` has one entry per index, entry k being channel 0 at `idx[k]` |
| Frontend.VisibleTrace | PRENDE_TU_MENTE/PRENDE_TU_MENTE.py:174-181 | the y-trace has `len(idx_retain)` entries, entry k being the magnitude of filtered channel-0 sample `left_edge + idx_retain[k]`, so it is non-negative |
| Frontend.ShiftAxis | PRENDE_TU_MENTE/PRENDE_TU_MENTE.py:178-179 | for an axis of at least two entries (with one, `x[1:]` is empty and `x[-1]` raises), the shifted axis keeps its length, moves each entry one slot left, and its new last entry is the old last plus the step |
| Frontend.ShiftKeepsSpacing | PRENDE_TU_MENTE/PRENDE_TU_MENTE.py:178-179 | an axis evenly spaced by the step stays evenly spaced after the shift |
| Frontend.Frontend.constructor | PRENDE_TU_MENTE/PRENDE_TU_MENTE.py:25-133 | `idx_retain` is `range(0, 1000, 5)`, x has entry k equal to `(5k - 1000)/200`, y is 200 zeros, the counter is 0, `last_trigger` is False, the port is empty, `padlen` is `prepare_filters`' choice, and the threshold is the slider's initial 2250 |
| Frontend.Frontend.DecideTrigger | PRENDE_TU_MENTE/PRENDE_TU_MENTE.py:214-234 | the stored level becomes the rule `Trigger.Level` on the trace, that is "empty or last sample >= threshold", and the port gets exactly one 'H' on a rise, one 'L' on a fall, nothing otherwise, staying alternating |
| Frontend.Frontend.ComputeTrace | PRENDE_TU_MENTE/PRENDE_TU_MENTE.py:172-181 | the new trace is channel 0 of both-stage-filtered buffer, trimmed by `left_edge`, rectified, read at `idx_retain` |
| Frontend.Frontend.Redraw | PRENDE_TU_MENTE/PRENDE_TU_MENTE.py:178-190 | the x-axis is shifted by `count/sample_rate` (one 5/200 s slot), y is the new trace, and the trigger is decided on it |
| Frontend.Frontend.Process | PRENDE_TU_MENTE/PRENDE_TU_MENTE.py:170-192 | a processing cycle sets the new x, y, trigger level and port output and resets the counter, keeping every invariant |
| Frontend.Frontend.UpdatePlotData | PRENDE_TU_MENTE/PRENDE_TU_MENTE.py:160-192 | each delivery increments the counter; below `s_down` nothing else changes; on reaching it the counter is reset, the axis shifted, the trace recomputed and the trigger decided; the counter, trace-length, spacing and alternation invariants hold throughout |
| Frontend.Frontend.ValueChanged | PRENDE_TU_MENTE/PRENDE_TU_MENTE.py:237-239 | `value_changed(i)` sets the range to `[-i, i]`, so the trigger threshold becomes i |
| Frontend.Frontend.SliderPosition | PRENDE_TU_MENTE/PRENDE_TU_MENTE.py:242-244 | `slider_position(i)` sets the range to `[-i, i]` as well |

## Left out

- The Qt window, plot widget, slider widgets, timer, palette and theme, label text and the `setData`/`setYRange` calls. They are user interface. The slider enters only as the callbacks `value_changed` and `slider_position`.
- The serial device: `create_forward_port`, `close_forward_port`, `search_ports`, opening the port and the baud rate are foreign I/O. The port is the sequence of characters written to it.
- Sockets and processes: `prepare_socket`, `recvfrom`, the multiprocessing `Pipe` and `Process`, `start_receiver`, `stop_receiver`, `on_closing` and the sleeps are network I/O and concurrency. The pipe is the sequence of sent snapshots, and the end of the incoming datagram sequence stands for the stop flag and the process being terminated.
- `receiver_sock.close()` after the loop refers to an attribute that is never set. Closing the socket is I/O and is not modelled.
- JSON decoding (`json.loads`, `float`) is a foreign library. Each datagram is given as its decode outcome.
- `time.perf_counter`: time stamps are inputs carried by the datagrams; `start_time` and `get_time_stamp` are not modelled. The `t_now` received by `update_plot_data` is unused by the source and by the model.
- scipy's `butter`, `lfilter`, `lfilter_zi` and `hilbert` are floating-point library numerics. The filter is a length-preserving parameter, the designs are inputs, and `extract_envelope` is not modelled. Nothing is claimed about filter values, such as a first output of 0.
- Dsp.SymmetricPad: when `padlen` exceeds the signal length (the default 19999 against 1000), only the periodic-mirror construction and "every pad sample is a signal sample" are stated. The reflection property is proved only for `padlen <= len`.
- Dsp.PrepareBuffer: the two arrays are allocated without the zero fill, because every row is written before it is read. The row-by-row loop is kept.
- Frontend.Frontend.Redraw: the x step `count/sample_rate` is stated as the constant `Tick` = 5/200, which is its value whenever the branch runs, because the counter then equals `s_down`.
- The receiver's call of `print` on a skipped message is console output and is not modelled.
- Integer widths are not an issue: every integer in the core is a small count or index, and sample values are `real` because the core only compares, copies and indexes them.
- Non-finite samples are not modelled. `json.loads` accepts `NaN`, and a NaN sample would be in neither `above_thr` nor `below_thr`; a real-valued sample is always in exactly one.
- Frontend.ShiftAxis: the time axis is float arithmetic in the source (`x/sample_rate` for the initial axis, `x[-1] + count/sample_rate` per cycle); the model computes it in exact reals. `Frontend.Frontend.TraceValid`'s even spacing, `Frontend.ShiftKeepsSpacing` and the spacing invariant of `Frontend.Frontend.UpdatePlotData` hold in exact arithmetic only; the float axis may drift by rounding.
- Dsp.FilterSignal: the empty row is excluded by a precondition (`|signal| > 0`, and `Dsp.SymmetricPad` likewise for a non-zero pad) instead of modelling numpy's error on it (`pad` refuses to pad an empty array, and `padded_signal[0]` would raise IndexError). The program only filters 1000-sample rows.

## Findings

| source | as written | input that shows it | evidently intended | confidence | as-written member | corrected member |
|---|---|---|---|---|---|---|
| PRENDE_TU_MENTE/digital_signal_processing.py:105 | `all(bSB != None)` compares `None != None`, getting the single bool False, and `all(False)` raises TypeError; for arrays it is always true, so the `else` pass-through (and the same one at line 113) can never run | `prepare_buffer(buffer, None, None, bPB, aPB)` | a stage with absent coefficients passes its row through unchanged | not executed | Dsp.PassThroughUnreachableAsWritten | Dsp.Stage |
