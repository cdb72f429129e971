/**
 * The acquisition firmware (src/main.cpp): `setup()` reports whether the
 * NAU7802 converter answered, then `loop()` is called forever.  `loop()`
 * latches the run start on its first call, streams one record per ready
 * sample with its run-relative time, and closes the run with `DONE` once the
 * configured duration is reached.  The clock (`millis()`) and the converter
 * (`available()`, `read()`) are inputs; the serial port is an output log.
 */
module Firmware {
  import opened Options

  /** 2^32: every `uint32_t` expression is reduced modulo this. */
  const WORD_MODULUS: int := 0x1_0000_0000

  /** An `uint32_t` value. */
  type Word = x: int | 0 <= x < WORD_MODULUS

  /** An `int32_t` value, as returned by the converter's `read()`. */
  type Int32 = x: int | -0x8000_0000 <= x < 0x8000_0000

  /** The value a C unsigned expression takes once stored in a `uint32_t`. */
  function U32(x: int): (r: Word)
    ensures 0 <= x < WORD_MODULUS ==> r == x
    ensures (x - r) % WORD_MODULUS == 0
  {
    x % WORD_MODULUS
  }

  // The configuration constants, computed as the firmware computes them.
  const SAMPLE_RATE_HZ: Word := 320
  const TOTAL_DURATION_S: Word := 20
  const TOTAL_DURATION_MS: Word := U32(TOTAL_DURATION_S * 1000)
  const TOTAL_SAMPLES: Word := U32(SAMPLE_RATE_HZ * TOTAL_DURATION_S)

  /** The derived constants do not wrap: 20 s is 20000 ms and 6400 samples at 320 Hz. */
  lemma ConfigConstants()
    ensures TOTAL_DURATION_MS == 20000
    ensures TOTAL_SAMPLES == 6400
  {
  }

  /** `millis() - runStart` evaluated in `uint32_t` arithmetic. */
  function Elapsed(now: Word, start: Word): (r: Word)
    ensures start <= now ==> r == now - start
    ensures now < start ==> r == now + WORD_MODULUS - start
  {
    U32(now - start)
  }

  /**
   * The modular difference is the true elapsed time whenever the true elapsed
   * time is below 2^32 ms, even when `millis()` wrapped around in between.
   */
  lemma ElapsedAcrossWrap(startReal: nat, nowReal: nat)
    requires startReal <= nowReal < startReal + WORD_MODULUS
    ensures Elapsed(U32(nowReal), U32(startReal)) == nowReal - startReal
  {
    var d := nowReal - startReal;
    var qs, rs := startReal / WORD_MODULUS, startReal % WORD_MODULUS;
    var qn, rn := nowReal / WORD_MODULUS, nowReal % WORD_MODULUS;
    assert startReal == qs * WORD_MODULUS + rs;
    assert nowReal == qn * WORD_MODULUS + rn;
    if rs <= rn {
      assert (qn - qs) * WORD_MODULUS == d - (rn - rs);
      assert qn == qs;
    } else {
      assert (qn - qs) * WORD_MODULUS == d + (rs - rn);
      assert qn == qs + 1;
    }
  }

  /**
   * The run is over once the elapsed time reaches the configured duration.
   * The firmware compares `t_ms / 1000.0f >= TOTAL_DURATION_MS / 1000.0f`
   * in single precision; this integer comparison is taken as equivalent.
   */
  predicate Reached(tMs: Word)
    // the same verdict as the source's comparison of seconds, when done in exact arithmetic
    ensures Reached(tMs) <==> (tMs as real) / 1000.0 >= (TOTAL_DURATION_MS as real) / 1000.0
  {
    tMs >= TOTAL_DURATION_MS
  }

  /** One line the firmware writes with `Serial.println`. */
  datatype Line =
    | NotDetected                     // "ERROR: NAU7802 not detected"
    | Ready                           // "READY"
    | Record(tMs: Word, raw: Int32)   // "time: <t_ms / 1000> raw: <v>"
    | Done                            // "DONE"

  /** A sample the converter has ready: the clock read at line 59 and the value `read()` returns. */
  datatype Reading = Reading(clock: Word, raw: Int32)

  /**
   * The inputs of one call of `loop()`: the clock value `millis()` gives at
   * line 55 (used only on the first call), and the sample, when
   * `available()` reports one.
   */
  datatype Tick = Tick(latchClock: Word, sample: Option<Reading>)

  /**
   * The process-scope variables of the firmware, the log of lines written to
   * the serial port, and whether `setup()` is stuck in its `while (1)`.
   */
  datatype State = State(started: bool, runStart: Word, finished: bool, hung: bool, out: seq<Line>)

  /** The static initialisers of lines 19-22, before `setup()` has written anything. */
  const Boot: State := State(false, 0, false, false, [])

  /** The state `setup()` leaves: `READY` when the converter answers, otherwise the error line and a hang. */
  function AfterSetup(detected: bool): (r: State)
    // a detected converter leaves a run not yet started, whose log is well formed
    ensures detected ==> WellFormed(r) && !r.started
    ensures detected ==> r.out == [Ready] && !r.finished
    // otherwise the error line is the whole log and `setup()` never returns
    ensures !detected ==> r.hung && r.out == [NotDetected]
  {
    if detected then Boot.(out := [Ready])
    else Boot.(hung := true, out := [NotDetected])
  }

  /** One call of `loop()`. */
  function Step(s: State, t: Tick): (r: State)
    requires !s.hung
    ensures !r.hung
    // a finished run ignores every later call
    ensures s.finished ==> r == s
    // the start time is latched on the first call and never changes after
    ensures !s.finished ==> r.started && r.runStart == (if s.started then s.runStart else t.latchClock)
    // no ready sample: nothing written, the run is not closed
    ensures t.sample.None? ==> r.out == s.out && r.finished == s.finished
    // the log is only ever appended to
    ensures s.out <= r.out
  {
    if s.finished then s
    else
      var runStart := if s.started then s.runStart else t.latchClock;
      match t.sample
      case None => s.(started := true, runStart := runStart)
      case Some(reading) =>
        var tMs := Elapsed(reading.clock, runStart);
        var done := Reached(tMs);
        State(true, runStart, done, false, s.out + [Record(tMs, reading.raw)] + (if done then [Done] else []))
  }

  /** The number of records in a log. */
  function CountRecords(out: seq<Line>): nat
    decreases |out|
  {
    if out == [] then 0 else CountRecords(out[..|out| - 1]) + (if out[|out| - 1].Record? then 1 else 0)
  }

  lemma {:induction false} CountRecordsAppend(a: seq<Line>, b: seq<Line>)
    ensures CountRecords(a + b) == CountRecords(a) + CountRecords(b)
    decreases |b|
  {
    if b == [] {
      assert a + b == a;
    } else {
      var b' := b[..|b| - 1];
      assert (a + b)[..|a + b| - 1] == a + b';
      assert (a + b)[|a + b| - 1] == b[|b| - 1];
      CountRecordsAppend(a, b');
    }
  }

  /**
   * Each call writes exactly one record when a sample is ready and the run
   * is not over, and none otherwise; the record carries the sample's value
   * and its time since the run start.
   */
  lemma OneRecordPerSample(s: State, t: Tick)
    requires !s.hung
    ensures var r := Step(s, t);
      CountRecords(r.out) == CountRecords(s.out) + (if !s.finished && t.sample.Some? then 1 else 0)
    ensures var r := Step(s, t);
      !s.finished && t.sample.Some? ==>
        r.out[|s.out|] == Record(Elapsed(t.sample.value.clock, r.runStart), t.sample.value.raw)
  {
    var r := Step(s, t);
    if !s.finished && t.sample.Some? {
      var rec := Record(Elapsed(t.sample.value.clock, r.runStart), t.sample.value.raw);
      var tail := [rec] + (if r.finished then [Done] else []);
      assert r.out == s.out + tail;
      CountRecordsAppend(s.out, tail);
      assert CountRecords([rec]) == 1;
      if r.finished {
        assert tail[..1] == [rec];
      }
    }
  }

  /** The successive calls of `loop()`, one per tick, oldest first. */
  function Run(s: State, ticks: seq<Tick>): (r: State)
    requires !s.hung
    ensures !r.hung
    // the calls only ever append to the log
    ensures s.out <= r.out
    // a latched start time survives every later call
    ensures s.started ==> r.started && r.runStart == s.runStart
    decreases |ticks|
  {
    if ticks == [] then s else Step(Run(s, ticks[..|ticks| - 1]), ticks[|ticks| - 1])
  }

  /** Everything the firmware writes to the serial port from power-on: `loop()` runs only if `setup()` returned. */
  function Trace(detected: bool, ticks: seq<Tick>): (r: seq<Line>)
    ensures detected ==> |r| >= 1 && r[0] == Ready
    ensures !detected ==> r == [NotDetected]
  {
    var s := AfterSetup(detected);
    if s.hung then s.out else Run(s, ticks).out
  }

  /**
   * The shape of the log after `setup()` succeeded and any number of calls:
   * `READY` first, then records, and `DONE` at most once and only last,
   * exactly when the run is finished; the record followed by `DONE` is the
   * first one that reached the duration and every other record is below it.
   */
  ghost predicate WellFormed(s: State) {
    && !s.hung
    && |s.out| >= 1 && s.out[0] == Ready
    && (forall i | 1 <= i < |s.out| :: s.out[i].Record? || (s.out[i].Done? && i == |s.out| - 1))
    && (s.finished <==> s.out[|s.out| - 1].Done?)
    && (s.finished ==> s.started && |s.out| >= 2 && s.out[|s.out| - 2].Record?)
    && (forall i {:trigger s.out[i]} | 1 <= i < |s.out| && s.out[i].Record? ::
          Reached(s.out[i].tMs) <==> (i + 1 < |s.out| && s.out[i + 1].Done?))
  }

  lemma {:induction false} RunWellFormed(ticks: seq<Tick>)
    ensures WellFormed(Run(AfterSetup(true), ticks))
    decreases |ticks|
  {
    if ticks != [] {
      var prev := Run(AfterSetup(true), ticks[..|ticks| - 1]);
      RunWellFormed(ticks[..|ticks| - 1]);
      var next := Step(prev, ticks[|ticks| - 1]);
      assert next == Run(AfterSetup(true), ticks);
      if !prev.finished && ticks[|ticks| - 1].sample.Some? {
        var n := |prev.out|;
        assert next.out[n].Record?;
        forall i | 1 <= i < |next.out| && next.out[i].Record?
          ensures Reached(next.out[i].tMs) <==> (i + 1 < |next.out| && next.out[i + 1].Done?)
        {
          if i < n {
            assert next.out[i] == prev.out[i];
            assert next.out[i + 1].Record?;
            assert !prev.out[n - 1].Done?;
            assert prev.out[i].Record?;
            assert WellFormed(prev);
            assert Reached(prev.out[i].tMs) <==> (i + 1 < n && prev.out[i + 1].Done?);
            assert !Reached(prev.out[i].tMs);
          }
        }
      }
    }
  }

  /**
   * After a successful `setup()`: `READY` is written once and first, no line
   * follows `DONE`, `DONE` is written at most once, and it is written exactly
   * when the run is finished.
   */
  lemma TraceShape(ticks: seq<Tick>)
    ensures var out := Trace(true, ticks);
      && |out| >= 1 && out[0] == Ready
      && (forall i | 1 <= i < |out| :: out[i].Record? || (out[i] == Done && i == |out| - 1))
      && (Run(AfterSetup(true), ticks).finished <==> out[|out| - 1] == Done)
      && (out[|out| - 1] == Done ==> |out| >= 3 && out[|out| - 2].Record?)
  {
    RunWellFormed(ticks);
  }

  /**
   * The termination check comes after the record is written: the sample that
   * reaches or first exceeds the duration is in the log, immediately before
   * `DONE`, and every earlier record is below the duration.
   */
  lemma BoundarySampleBeforeDone(ticks: seq<Tick>, i: nat)
    requires var out := Trace(true, ticks); 1 <= i < |out| && out[i].Record?
    ensures var out := Trace(true, ticks);
      Reached(out[i].tMs) <==> (i + 1 < |out| && out[i + 1] == Done)
  {
    RunWellFormed(ticks);
    var out := Run(AfterSetup(true), ticks).out;
    assert Trace(true, ticks) == out;
    assert Reached(out[i].tMs) <==> (i + 1 < |out| && out[i + 1].Done?);
  }

  /** Once a run is finished, no further call changes anything or writes anything. */
  lemma {:induction false} FinishedStaysQuiet(s: State, ticks: seq<Tick>)
    requires !s.hung && s.finished
    ensures Run(s, ticks) == s
    decreases |ticks|
  {
    if ticks != [] {
      FinishedStaysQuiet(s, ticks[..|ticks| - 1]);
    }
  }

  /**
   * `runStart` is assigned once, by the first call of `loop()`: from then on
   * `started` holds and `runStart` is the clock value of that first call.
   */
  lemma {:induction false} LatchedOnce(ticks: seq<Tick>)
    requires ticks != []
    ensures Run(AfterSetup(true), ticks).started
    ensures Run(AfterSetup(true), ticks).runStart == ticks[0].latchClock
    decreases |ticks|
  {
    if |ticks| > 1 {
      var prefix := ticks[..|ticks| - 1];
      assert prefix[0] == ticks[0];
      LatchedOnce(prefix);
    }
  }

  /** Without `setup()` succeeding nothing but the error line is ever written; in particular never `READY`. */
  lemma NotDetectedTrace(ticks: seq<Tick>)
    ensures Trace(false, ticks) == [NotDetected]
    ensures Ready !in Trace(false, ticks)
  {
  }

  /**
   * With a clock that counts true milliseconds modulo 2^32, each record
   * carries the true elapsed time since the run start, as long as the run is
   * shorter than 2^32 ms.  This holds for the first call too, which latches
   * the start from the clock before it stamps the sample.
   */
  lemma RecordTimeIsRealElapsed(s: State, startReal: nat, nowReal: nat, raw: Int32)
    requires !s.hung && !s.finished
    requires s.started ==> s.runStart == U32(startReal)
    requires startReal <= nowReal < startReal + WORD_MODULUS
    ensures var r := Step(s, Tick(U32(startReal), Some(Reading(U32(nowReal), raw))));
      |r.out| > |s.out| && r.out[|s.out|] == Record(nowReal - startReal, raw)
  {
    ElapsedAcrossWrap(startReal, nowReal);
  }

  /** The firmware's globals and its serial output, updated in place by `setup()` and `loop()`. */
  class Device {
    var started: bool
    var runStart: Word
    var finished: bool
    var hung: bool
    var out: seq<Line>

    function Snapshot(): State
      reads this
    {
      State(started, runStart, finished, hung, out)
    }

    /** The static initialisation of lines 19-22. */
    constructor ()
      ensures Snapshot() == Boot
    {
      started, runStart, finished, hung, out := false, 0, false, false, [];
    }

    /** `setup()`, with the converter's `begin()` result as input; a failed `begin()` hangs. */
    method Setup(detected: bool)
      requires Snapshot() == Boot
      modifies this
      ensures Snapshot() == AfterSetup(detected)
    {
      if !detected {
        out := out + [NotDetected];
        hung := true;
        return;
      }
      out := out + [Ready];
    }

    /** `loop()`: called again and again once `setup()` returned. */
    method Loop(t: Tick)
      requires !hung
      modifies this
      ensures Snapshot() == Step(old(Snapshot()), t)
      ensures old(finished) ==> unchanged(this)
      ensures old(started) ==> runStart == old(runStart)
    {
      if finished {
        return;
      }
      if !started {
        started := true;
        runStart := t.latchClock;
      }
      if t.sample.Some? {
        var tMs := Elapsed(t.sample.value.clock, runStart);
        out := out + [Record(tMs, t.sample.value.raw)];
        if Reached(tMs) {
          finished := true;
          out := out + [Done];
        }
      }
    }
  }
}
