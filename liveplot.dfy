/**
 * The host side of the serial link (src/loadcell_liveplot.py, `main()`):
 * each pass of the `while True` loop looks at the bytes waiting on the port,
 * splits what it reads into whitespace-separated tokens, looks up the value
 * after `time:` and after `raw:`, and only when both are numbers appends the
 * pair to the plotted lists `xs` and `ys`, which keep the latest
 * `TRAILING_POINTS` points.  UTF-8 decoding and `float()` are library
 * primitives and enter as functions the plotter is built with.
 */
module LivePlot {
  import opened Options
  import opened Tokens

  const TRAILING_POINTS: nat := 100
  const MIN_MESSAGE_BYTES: nat := 16

  type Byte = b: int | 0 <= b < 256

  /** `segments.index(key)`: the first position holding `key`; Python raises `ValueError` where this is `None`. */
  function IndexOf(segs: seq<string>, key: string): (r: Option<nat>)
    ensures r.None? <==> key !in segs
    ensures r.Some? ==> r.value < |segs| && segs[r.value] == key && key !in segs[..r.value]
  {
    if segs == [] then None
    else if segs[0] == key then Some(0)
    else
      match IndexOf(segs[1..], key)
      case None => None
      case Some(i) =>
        assert segs[..i + 1] == [segs[0]] + segs[1..][..i];
        Some(i + 1)
  }

  /**
   * The token `value_by_label` hands to `float()`: the one right after the
   * first `label + ":"`.  It is missing when the label is absent (`index`
   * raises) or is the last token (the subscript raises).
   */
  function ValueByLabel(segs: seq<string>, name: string): (r: Option<string>)
    ensures name + ":" !in segs ==> r == None
    ensures forall i | 0 <= i < |segs| && segs[i] == name + ":" && name + ":" !in segs[..i] ::
      r == if i + 1 < |segs| then Some(segs[i + 1]) else None
  {
    match IndexOf(segs, name + ":")
    case None => None
    case Some(i) =>
      FirstIndexUnique(segs, name + ":", i);
      if i + 1 < |segs| then Some(segs[i + 1]) else None
  }

  /** Only one position can be the first occurrence of a key. */
  lemma FirstIndexUnique(segs: seq<string>, key: string, i: nat)
    requires i < |segs| && segs[i] == key && key !in segs[..i]
    ensures forall j | 0 <= j < |segs| && segs[j] == key && key !in segs[..j] :: j == i
  {
  }

  /** `value_by_label(label)` as a whole: the token after the label, given to `float()`. */
  function LabelValue(segs: seq<string>, name: string, parse: string -> Option<real>): (r: Option<real>)
    ensures r.Some? ==> ValueByLabel(segs, name).Some? && parse(ValueByLabel(segs, name).value) == r
    ensures ValueByLabel(segs, name).Some? && parse(ValueByLabel(segs, name).value).Some? ==> r.Some?
  {
    match ValueByLabel(segs, name)
    case None => None
    case Some(tok) => parse(tok)
  }

  /**
   * Lines 59-65: both values are looked up (and parsed) before either list is
   * touched, so a message yields a pair only when both succeed.
   */
  function ParsePair(segs: seq<string>, parse: string -> Option<real>): (r: Option<(real, real)>)
    ensures r.Some? <==> LabelValue(segs, "time", parse).Some? && LabelValue(segs, "raw", parse).Some?
    ensures r.Some? ==> r.value.0 == LabelValue(segs, "time", parse).value
    ensures r.Some? ==> r.value.1 == LabelValue(segs, "raw", parse).value
  {
    match LabelValue(segs, "time", parse)
    case None => None
    case Some(x) =>
      match LabelValue(segs, "raw", parse)
      case None => None
      case Some(y) => Some((x, y))
  }

  /** What one pass of the loop does with the bytes waiting on the port. */
  datatype PollResult =
    | Skipped                    // fewer than MIN_MESSAGE_BYTES bytes waiting: nothing is read
    | Quit                       // the bytes are not UTF-8: the outer handler closes the port and quits
    | Rejected                   // a label or a number is missing: the lists stay as they were
    | Accepted(x: real, y: real) // the pair appended to xs and ys

  /** The outcome of one pass of the loop. */
  function Classify(waiting: seq<Byte>, decode: seq<Byte> -> Option<string>, parse: string -> Option<real>): (r: PollResult)
    ensures r == Skipped <==> |waiting| < MIN_MESSAGE_BYTES
    ensures r == Quit <==> |waiting| >= MIN_MESSAGE_BYTES && decode(waiting).None?
    ensures r.Accepted? <==>
      |waiting| >= MIN_MESSAGE_BYTES && decode(waiting).Some? && ParsePair(Split(decode(waiting).value), parse).Some?
    ensures r.Accepted? ==> (r.x, r.y) == ParsePair(Split(decode(waiting).value), parse).value
  {
    if |waiting| < MIN_MESSAGE_BYTES then Skipped
    else
      match decode(waiting)
      case None => Quit
      case Some(text) =>
        match ParsePair(Split(text), parse)
        case None => Rejected
        case Some(p) => Accepted(p.0, p.1)
  }

  /** Lines 70-71 and 77-79: append one value, then pop the oldest once the list is longer than TRAILING_POINTS. */
  function Slide<T>(s: seq<T>, v: T): (r: seq<T>)
    ensures 0 < |r| <= |s| + 1 && r[|r| - 1] == v
    // at most one value, the oldest, is dropped
    ensures |r| == if |s| < TRAILING_POINTS then |s| + 1 else |s|
    ensures r == (s + [v])[|s| + 1 - |r|..]
    ensures |s| < TRAILING_POINTS ==> r == s + [v]
    ensures |s| <= TRAILING_POINTS ==> |r| <= TRAILING_POINTS
  {
    var t := s + [v];
    if |t| > TRAILING_POINTS then t[1..] else t
  }

  /** Reference definition of the window: the latest TRAILING_POINTS values of a history, in arrival order. */
  function Latest<T>(h: seq<T>): (r: seq<T>)
    ensures |r| == if |h| <= TRAILING_POINTS then |h| else TRAILING_POINTS
    ensures r == h[|h| - |r|..]
  {
    if |h| <= TRAILING_POINTS then h else h[|h| - TRAILING_POINTS..]
  }

  /**
   * Appending and trimming keep the window equal to the latest values of the
   * whole history: the oldest value is the one dropped, and order is kept.
   */
  lemma SlideKeepsLatest<T>(h: seq<T>, v: T)
    ensures Slide(Latest(h), v) == Latest(h + [v])
  {
    var hv := h + [v];
    var m := |Latest(h)|;
    assert Latest(h) + [v] == hv[|h| - m..];
    if |h| >= TRAILING_POINTS {
      assert hv[|h| - m..][1..] == hv[|hv| - TRAILING_POINTS..];
    }
  }

  /**
   * The running script's two lists, and the history of every accepted pair
   * that the window is a suffix of.
   */
  class Plotter {
    var xs: seq<real>
    var ys: seq<real>
    ghost var times: seq<real>
    ghost var raws: seq<real>
    const decode: seq<Byte> -> Option<string>
    const parse: string -> Option<real>

    ghost predicate Valid()
      reads this
    {
      |times| == |raws| && xs == Latest(times) && ys == Latest(raws)
    }

    /** Lines 32-33: both lists start empty. */
    constructor (decode: seq<Byte> -> Option<string>, parse: string -> Option<real>)
      ensures Valid()
      ensures xs == [] && ys == [] && times == [] && raws == []
      ensures this.decode == decode && this.parse == parse
    {
      xs, ys, times, raws := [], [], [], [];
      this.decode, this.parse := decode, parse;
    }

    /** One pass of the `while True` loop, given the bytes waiting on the port. */
    method Poll(waiting: seq<Byte>) returns (r: PollResult)
      requires Valid()
      modifies this
      ensures Valid()
      ensures r == Classify(waiting, decode, parse)
      ensures r.Accepted? ==>
        && times == old(times) + [r.x] && raws == old(raws) + [r.y]
        && xs == Slide(old(xs), r.x) && ys == Slide(old(ys), r.y)
      ensures !r.Accepted? ==> xs == old(xs) && ys == old(ys) && times == old(times) && raws == old(raws)
      ensures |xs| == |ys| <= TRAILING_POINTS
    {
      if |waiting| < MIN_MESSAGE_BYTES {
        return Skipped;
      }
      var line := decode(waiting);
      if line.None? {
        return Quit;
      }
      var segments := Split(line.value);
      var x := LabelValue(segments, "time", parse);
      if x.None? {
        return Rejected;
      }
      var y := LabelValue(segments, "raw", parse);
      if y.None? {
        return Rejected;
      }
      SlideKeepsLatest(times, x.value);
      SlideKeepsLatest(raws, y.value);
      xs := xs + [x.value];
      ys := ys + [y.value];
      times := times + [x.value];
      raws := raws + [y.value];
      if |xs| > TRAILING_POINTS {
        xs := xs[1..];
        ys := ys[1..];
      }
      r := Accepted(x.value, y.value);
    }
  }
}
