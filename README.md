# Load-cell acquisition: firmware run loop and live-plot decoder

The repository is a strain-gauge (load cell) data logger. A microcontroller
samples an NAU7802 24-bit converter and streams one text record per sample
over a serial line. A Python script on the host reads the line, decodes each
record and plots a trailing window of the latest points. This project models
the logic on both sides of that line protocol and proves properties of it in
Dafny.

- **Firmware** (`firmware.dfy`, from `src/main.cpp`). `setup()` either
  reports that the converter was not detected and hangs, or writes `READY`.
  `loop()` is a small state machine over the globals `started`, `runStart`
  and `finished`. On the first call it latches the run start. For each ready
  sample it writes `time: <t> raw: <v>`, with `<t>` the seconds
  `(millis() - runStart) / 1000`, the difference taken in `uint32_t`
  arithmetic and printed to six decimals. Once the configured duration is reached it sets
  `finished` and writes `DONE`. After that every call does nothing. The model
  has two parts:
  - a class `Device` with those globals and the serial log as fields, whose
    `Loop` method is specified by a pure `Step` function;
  - lemmas about `Run`, which folds `Step` over any sequence of calls.
- **Tokens** (`tokens.dfy`) models Python's `str.split()` with no separator,
  which the host applies to what it reads. It covers the full set of
  characters that `str.isspace()` accepts.
- **Host decoder** (`liveplot.dfy`, from `src/loadcell_liveplot.py`).
  - `ValueByLabel` models `value_by_label`. It finds the first token equal to
    `label + ":"` and takes the token after it.
  - A message is accepted only when both `time` and `raw` are found and both
    parse as numbers.
  - Reads shorter than `MIN_MESSAGE_BYTES` are skipped.
  - The class `Plotter` holds `xs` and `ys`. Its `Poll` method appends the
    accepted pair and pops the oldest entry once a list is longer than
    `TRAILING_POINTS`. A ghost history of all accepted values shows that the
    window is always the latest 100 values, in arrival order.
- **Protocol** (`protocol.dfy`). It defines the exact characters the
  firmware's `Serial.print`/`println` calls write for each line, and proves
  that the host decodes a record back to its own time and raw fields.
- **Options** (`options.dfy`) defines the `Option` type, which stands for a
  Python exception or an absent value.

Inputs that the code reads from hardware or libraries are parameters:
- the clock (`millis()`);
- the converter (`begin()`, `available()`, `read()`);
- the bytes waiting on the host's port;
- UTF-8 decoding;
- the host's `float()`;
- the firmware's number printing.

The firmware's number printing is passed as functions. The protocol only
requires that each printed number is one token with no whitespace or colon.

## Model

| member | source | states |
|---|---|---|
| Firmware.U32 | src/main.cpp:10-11 | storing an unsigned expression in `uint32_t` keeps values below 2^32 and otherwise changes them by a multiple of 2^32 |
| Firmware.ConfigConstants | src/main.cpp:8-11 | `TOTAL_DURATION_MS` is 20000 and `TOTAL_SAMPLES` is 6400, computed in `uint32_t` without wrap-around |
| Firmware.Elapsed | src/main.cpp:59 | `millis() - runStart` is the plain difference when the clock has not wrapped, and the difference plus 2^32 when it has |
| Firmware.Reached | src/main.cpp:70 | the integer test `t_ms >= TOTAL_DURATION_MS` gives the same verdict as comparing `t_ms / 1000` with `TOTAL_DURATION_MS / 1000` in exact arithmetic |
| Firmware.AfterSetup | src/main.cpp:33-43 | a detected converter leaves an unstarted run whose log is just `READY`, a well-formed log; otherwise the log is the error line alone and `setup()` never returns |
| Firmware.ElapsedAcrossWrap | src/main.cpp:59 | for any true start and current time less than 2^32 ms apart, the modular difference of the two clock readings is the true elapsed time, across a wrap too |
| Firmware.Step | src/main.cpp:47-74 | a call on a finished run changes nothing; the first unfinished call latches `runStart` from the clock and later calls keep it; without a ready sample nothing is written and `finished` is unchanged; the log is only appended to |
| Firmware.OneRecordPerSample | src/main.cpp:58-68 | a call writes exactly one record when a sample is ready and the run is not finished, and no record otherwise; the record holds the sample's value and `millis() - runStart` |
| Firmware.Run | src/main.cpp:47-74 | repeated calls of `loop()` only append to the log, and once `runStart` is latched no later call changes it |
| Firmware.Trace | src/main.cpp:25-74 | everything written from power-on starts with `READY` when the converter is detected, and is the error line alone otherwise |
| Firmware.RunWellFormed | src/main.cpp:49-73 | after `READY` and any sequence of calls: only records follow `READY`, then at most one `DONE`, which is last; `finished` holds exactly when the log ends with `DONE`; the record just before `DONE` is the only one that reached the duration |
| Firmware.TraceShape | src/main.cpp:43-73 | from power-on with the converter present: `READY` is written once and first, `DONE` at most once, no line follows `DONE`, and `DONE` is always preceded by a record |
| Firmware.BoundarySampleBeforeDone | src/main.cpp:65-73 | a record has reached the duration exactly when `DONE` directly follows it, so the boundary sample is written before `DONE` rather than dropped |
| Firmware.FinishedStaysQuiet | src/main.cpp:49-51 | once `finished` is set, any number of further calls leave the whole state, log included, unchanged |
| Firmware.LatchedOnce | src/main.cpp:53-56 | after one or more calls, `started` holds and `runStart` is the clock value read by the very first call |
| Firmware.NotDetectedTrace | src/main.cpp:33-36 | when `begin()` fails, the error line is the whole output and `READY` is never written |
| Firmware.RecordTimeIsRealElapsed | src/main.cpp:53-68 | with a clock that counts true milliseconds modulo 2^32, every record carries the true time since the run start for runs shorter than 2^32 ms, including the one the first call writes right after latching `runStart` |
| Firmware.Device.constructor | src/main.cpp:19-22 | the globals start as `started = false`, `runStart = 0`, `finished = false`, and nothing is written yet |
| Firmware.Device.Setup | src/main.cpp:25-44 | writes the error line and hangs when the converter is not detected, otherwise writes `READY` |
| Firmware.Device.Loop | src/main.cpp:47-74 | the new globals and log are exactly `Step` of the old ones; a finished device is unchanged; a latched `runStart` never changes |
| Tokens.Split | src/loadcell_liveplot.py:54 | `line.split()` gives at most one token per character of the text |
| Tokens.SplitTokens | src/loadcell_liveplot.py:54 | every token of `line.split()` is non-empty and contains no whitespace |
| Tokens.SplitAfterWord | src/loadcell_liveplot.py:54 | a token followed by whitespace or by the end of the text is split off as one token |
| Tokens.SplitAfterSpace | src/loadcell_liveplot.py:54 | leading whitespace does not change the split |
| Tokens.SplitJoin | src/loadcell_liveplot.py:54 | splitting tokens joined by single spaces, followed by any text that starts with whitespace, gives the tokens back, then the split of that text |
| LivePlot.IndexOf | src/loadcell_liveplot.py:61 | `segments.index(key)` is absent exactly when the key is not in the list; otherwise it is a position holding the key with no earlier occurrence |
| LivePlot.ValueByLabel | src/loadcell_liveplot.py:60-62 | the result is the token right after the first `label + ":"`; it is absent when the label is missing or is the last token |
| LivePlot.LabelValue | src/loadcell_liveplot.py:60-62 | `value_by_label` succeeds exactly when the token after the label exists and `float()` accepts it, and its value is that of `float()` |
| LivePlot.ParsePair | src/loadcell_liveplot.py:59-65 | a message gives a pair exactly when both the `time` and the `raw` lookups succeed, with each component taken from its own first label |
| LivePlot.Classify | src/loadcell_liveplot.py:50-75 | a pass is skipped exactly when fewer than 16 bytes wait; it quits exactly when they do not decode; it accepts exactly when both values decode, and then yields those values |
| LivePlot.Latest | src/loadcell_liveplot.py:18 | the window holds `min(n, 100)` values of an `n`-value history and is its suffix |
| LivePlot.Slide | src/loadcell_liveplot.py:70-79 | after an append and the conditional `pop(0)`, the new value is last and the list is a suffix of the old list plus that value; exactly the oldest value is dropped when the list already held 100 or more entries, and none otherwise |
| LivePlot.SlideKeepsLatest | src/loadcell_liveplot.py:77-79 | appending a value and popping the front once the list exceeds 100 turns the latest 100 of a history into the latest 100 of the history extended by that value |
| LivePlot.Plotter.constructor | src/loadcell_liveplot.py:32-33 | both lists and both histories start empty |
| LivePlot.Plotter.Poll | src/loadcell_liveplot.py:47-79 | the outcome is `Classify`; on acceptance both lists slide by the new pair and the histories grow by it; on every other outcome both lists are unchanged; `len(xs) == len(ys) <= 100` always |
| Protocol.RecordText | src/main.cpp:65-68 | a record's text is the `time: ` label, both fields, the ` raw: ` label and CR LF: 14 characters more than the two printed fields |
| Protocol.LineText | src/main.cpp:34-72 | every line the firmware writes, error line, `READY`, record or `DONE`, ends with the CR LF of `println` |
| Protocol.StreamText | src/main.cpp:34-72 | the serial stream is the lines written one after another; each adds at least its CR LF, and a non-empty stream ends with CR LF |
| Protocol.SplitRecord | src/main.cpp:65-68 | a record followed by any text splits into `time:`, the time field, `raw:`, the raw field, in that order, then the split of that text |
| Protocol.SplitLine | src/main.cpp:65-68 | every line the firmware writes (error, `READY`, record, `DONE`) splits into its own words, whatever follows it |
| Protocol.RecordRoundTrip | src/loadcell_liveplot.py:54-65 | in a read that starts with a record, the host's `time` and `raw` lookups return exactly the two number fields the firmware printed, whatever follows |
| Protocol.RecordPassesGuard | src/loadcell_liveplot.py:50-52 | a complete record is at least `MIN_MESSAGE_BYTES` characters long |
| Protocol.ValueByLabelSkips | src/loadcell_liveplot.py:61 | tokens in front that do not hold the label do not change the lookup |
| Protocol.StatusLineTransparent | src/loadcell_liveplot.py:60-65 | `READY`, `DONE` and the error line hold neither label, so a read that starts with one decodes as the text after it |
| Protocol.RecordAccepted | src/loadcell_liveplot.py:50-71 | bytes that decode to a firmware record followed by anything are accepted with exactly `float()` of the two printed fields, or rejected, with the lists untouched, when either does not parse |
| Protocol.ReadStartingMidRecord | src/loadcell_liveplot.py:64-65 | each label is looked up on its own: a read that starts after one record's time field pairs the next record's time with the earlier record's raw value |
| Protocol.WholeTraceGivesFirstRecord | src/loadcell_liveplot.py:53-65 | reading everything the firmware wrote since power-on in one piece, the host gets the first record's time and raw fields, skipping `READY` |

## Left out

- Hardware and transport are inputs or outputs, not models:
  - `Serial.begin` and the `while (!Serial && millis() < 3000)` wait;
  - `Wire.begin`;
  - the converter's gain, rate and calibration calls;
  - the pyserial port set-up, `in_waiting`/`read`, and closing the port.
- The two `millis()` reads of one `loop()` call (lines 55 and 59) are two
  separate inputs of a `Tick`. Nothing relates them, so the model allows any
  pair of readings.
- Step: the duration check is the integer comparison
  `t_ms >= TOTAL_DURATION_MS`. The firmware compares
  `t_ms / 1000.0f >= TOTAL_DURATION_MS / 1000.0f` in single precision. This
  is taken as equivalent, because 20000/1000 is exactly 20.0f, and a
  `t_ms` below 20000 gives a quotient at most 19.999, far more than one
  float rounding step below 20.
- Floating point on both sides is not modelled:
  - `(float)v` and `t_ms / 1000.0f`;
  - the text `Serial.print` writes for a float;
  - Python's `float()`.
  Printing is passed as functions that must produce colon-free tokens, and
  `float()` as a function to `Option<real>`. Rounding is therefore not
  captured. Nor are the non-finite values: Python's `float()` also accepts
  `nan`, `inf` and `infinity`, and Arduino's float printing writes `nan` or
  `inf` for a non-finite value, but a real number cannot hold those values. Whether a message is accepted
  or rejected is still modelled; only those values themselves are lost.
- UTF-8 decoding is a function the plotter is built with. The model does not
  say how many bytes a character takes; the end-to-end lemma only assumes at
  least one byte per character.
- Exceptions other than the ones in the decoder are not modelled. Examples
  are a failure while drawing, or a port error caught by the outer handler.
  Only undecodable bytes lead to the outer handler's close-and-quit.
- The `print` calls of the script, and all plotting (`src/rendering.py`,
  `src/read_loadcell_csv.py`), are left out: they are user interface on
  foreign libraries.
- The unused arrays `time_ms[]`, `raw[]` and the counter `sampleIndex` are
  left out: they are declared but never read or written.
- LivePlot.Plotter.Poll: after a `Quit` the source closes the port and calls `quit()`,
  so no later pass happens. The model returns `Quit` as an outcome only; the
  caller must stop polling after it, and a `Plotter` that goes on being polled
  would go on accepting pairs.
- The serial queue between the two programs is not modelled. The host's
  skipped reads leave their bytes waiting, and the model treats each read as
  whatever bytes are waiting at that moment.
