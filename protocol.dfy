/**
 * The text line protocol between the firmware and the host: the characters
 * the firmware's `Serial.print`/`Serial.println` calls put on the wire for
 * each line of its trace, and what the host's decoder makes of them.  How a
 * number is printed (`Serial.print(t_s, 6)`, `Serial.println((float)v)`) is
 * left abstract: the printers are parameters, and all the protocol needs of
 * them is that they print one word without whitespace or colons, as digits,
 * sign, decimal point and `nan`/`inf`/`ovf` are.
 */
module Protocol {
  import opened Options
  import opened Tokens
  import Firmware
  import LivePlot

  /** A printed number: one token that contains no colon, so it cannot be taken for a label. */
  predicate IsNumberText(w: string) {
    IsToken(w) && ':' !in w
  }

  /** The characters one record puts on the wire: `time: `, the printed seconds, ` raw: `, the printed raw value, then CR LF. */
  function RecordText(timeText: string, rawText: string): (r: string)
    // two six-character labels around the fields, and the line end
    ensures |r| == |timeText| + |rawText| + 14
    ensures r[..6] == "time: " && r[|r| - 2..] == "\r\n"
  {
    "time: " + timeText + " raw: " + rawText + "\r\n"
  }

  /** The characters written for one line of the trace; `println` ends every line with CR LF. */
  function LineText(l: Firmware.Line, printSeconds: Firmware.Word -> string, printRaw: Firmware.Int32 -> string): (r: string)
    ensures |r| >= 2 && r[|r| - 2..] == "\r\n"
  {
    match l
    case NotDetected => "ERROR: NAU7802 not detected\r\n"
    case Ready => "READY\r\n"
    case Record(tMs, raw) => RecordText(printSeconds(tMs), printRaw(raw))
    case Done => "DONE\r\n"
  }

  /** Everything written for a trace, in order: the lines put on the wire one after another. */
  function StreamText(lines: seq<Firmware.Line>, printSeconds: Firmware.Word -> string, printRaw: Firmware.Int32 -> string): (r: string)
    // every line contributes at least its CR LF
    ensures |r| >= 2 * |lines|
    ensures lines != [] ==> r[|r| - 2..] == "\r\n"
    decreases |lines|
  {
    if lines == [] then [] else LineText(lines[0], printSeconds, printRaw) + StreamText(lines[1..], printSeconds, printRaw)
  }

  /** The words of a line, as the host splits them. */
  function LineWords(l: Firmware.Line, printSeconds: Firmware.Word -> string, printRaw: Firmware.Int32 -> string): seq<string> {
    match l
    case NotDetected => ["ERROR:", "NAU7802", "not", "detected"]
    case Ready => ["READY"]
    case Record(tMs, raw) => ["time:", printSeconds(tMs), "raw:", printRaw(raw)]
    case Done => ["DONE"]
  }

  /** Four words separated by single spaces and ended by CR LF, then more text. */
  function FourWords(w0: string, w1: string, w2: string, w3: string, rest: string): string {
    w0 + ([' '] + (w1 + ([' '] + (w2 + ([' '] + (w3 + ("\r\n" + rest)))))))
  }

  lemma SplitFourWords(w0: string, w1: string, w2: string, w3: string, rest: string)
    requires IsToken(w0) && IsToken(w1) && IsToken(w2) && IsToken(w3)
    ensures Split(FourWords(w0, w1, w2, w3, rest)) == [w0, w1, w2, w3] + Split(rest)
  {
    var tail := TwoWords(w2, w3, rest);
    var after := Split(rest);
    SplitTwoWords(w2, w3, rest);
    SplitWordSpace(w1, tail);
    SplitWordSpace(w0, w1 + ([' '] + tail));
    assert [w0] + ([w1] + ([w2, w3] + after)) == [w0, w1, w2, w3] + after;
  }

  lemma RecordTextShape(timeText: string, rawText: string, rest: string)
    ensures RecordText(timeText, rawText) + rest == FourWords("time:", timeText, "raw:", rawText, rest)
  {
  }

  lemma ErrorTextShape(rest: string)
    ensures "ERROR: NAU7802 not detected\r\n" + rest == FourWords("ERROR:", "NAU7802", "not", "detected", rest)
  {
    assert "ERROR: NAU7802 not detected\r\n" == "ERROR:" + [' '] + "NAU7802" + [' '] + "not" + [' '] + "detected" + "\r\n";
  }

  /** A one-word status line followed by anything. */
  lemma SplitStatusWord(w: string, rest: string)
    requires IsToken(w)
    ensures Split(w + "\r\n" + rest) == [w] + Split(rest)
  {
    assert w + "\r\n" + rest == w + ("\r\n" + rest);
    SplitWordEol(w, rest);
  }

  lemma SplitErrorLine(rest: string)
    ensures Split("ERROR: NAU7802 not detected\r\n" + rest) == ["ERROR:", "NAU7802", "not", "detected"] + Split(rest)
  {
    ErrorTextShape(rest);
    SplitFourWords("ERROR:", "NAU7802", "not", "detected", rest);
  }

  /** The host's split of a record followed by anything: the record's four words come first. */
  lemma SplitRecord(timeText: string, rawText: string, rest: string)
    requires IsToken(timeText) && IsToken(rawText)
    ensures Split(RecordText(timeText, rawText) + rest) == ["time:", timeText, "raw:", rawText] + Split(rest)
  {
    RecordTextShape(timeText, rawText, rest);
    SplitFourWords("time:", timeText, "raw:", rawText, rest);
  }

  /** Every line splits into its words, whatever follows it in the same read. */
  lemma SplitLine(l: Firmware.Line, printSeconds: Firmware.Word -> string, printRaw: Firmware.Int32 -> string, rest: string)
    requires l.Record? ==> IsToken(printSeconds(l.tMs)) && IsToken(printRaw(l.raw))
    ensures Split(LineText(l, printSeconds, printRaw) + rest) == LineWords(l, printSeconds, printRaw) + Split(rest)
  {
    match l
    case NotDetected =>
      SplitErrorLine(rest);
    case Ready =>
      assert "READY\r\n" == "READY" + "\r\n";
      SplitStatusWord("READY", rest);
    case Record(tMs, raw) =>
      SplitRecord(printSeconds(tMs), printRaw(raw), rest);
    case Done =>
      assert "DONE\r\n" == "DONE" + "\r\n";
      SplitStatusWord("DONE", rest);
  }

  /** In the words of a record, each label is found at its own place. */
  lemma LookupRecordWords(timeText: string, rawText: string, after: seq<string>)
    requires IsNumberText(timeText)
    ensures var segs := ["time:", timeText, "raw:", rawText] + after;
      && LivePlot.ValueByLabel(segs, "time") == Some(timeText)
      && LivePlot.ValueByLabel(segs, "raw") == Some(rawText)
  {
    var segs := ["time:", timeText, "raw:", rawText] + after;
    assert "time" + ":" == "time:" && "raw" + ":" == "raw:";
    assert segs[0] == "time:" && segs[..0] == [];
    assert "raw:"[3] == ':';
    assert timeText != "raw:";
    assert segs[2] == "raw:" && segs[..2] == ["time:", timeText];
  }

  /**
   * Round trip of one record: the host's lookups of `time` and `raw` in the
   * split of a record give back exactly the two printed numbers, whatever
   * text follows the record in the same read.
   */
  lemma RecordRoundTrip(timeText: string, rawText: string, rest: string)
    requires IsNumberText(timeText) && IsNumberText(rawText)
    ensures var segs := Split(RecordText(timeText, rawText) + rest);
      && LivePlot.ValueByLabel(segs, "time") == Some(timeText)
      && LivePlot.ValueByLabel(segs, "raw") == Some(rawText)
  {
    SplitRecord(timeText, rawText, rest);
    LookupRecordWords(timeText, rawText, Split(rest));
  }

  /** A complete record is never shorter than the host's `MIN_MESSAGE_BYTES` threshold. */
  lemma RecordPassesGuard(timeText: string, rawText: string)
    requires IsToken(timeText) && IsToken(rawText)
    ensures |RecordText(timeText, rawText)| >= LivePlot.MIN_MESSAGE_BYTES
  {
  }

  /** A label that is not among the first tokens is looked up in the tokens after them. */
  lemma {:induction false} ValueByLabelSkips(pre: seq<string>, segs: seq<string>, name: string)
    requires name + ":" !in pre
    ensures LivePlot.ValueByLabel(pre + segs, name) == LivePlot.ValueByLabel(segs, name)
  {
    var key := name + ":";
    var all := pre + segs;
    if key in segs {
      var i := LivePlot.IndexOf(segs, key).value;
      assert all[|pre| + i] == key;
      assert all[..|pre| + i] == pre + segs[..i];
      assert key !in all[..|pre| + i];
      if i + 1 < |segs| {
        assert all[|pre| + i + 1] == segs[i + 1];
      }
    } else {
      assert key !in all;
    }
  }

  /**
   * The status lines (`READY`, `DONE`, the error line) carry neither label,
   * so a read that starts with one decodes as what follows it.
   */
  lemma StatusLineTransparent(l: Firmware.Line, printSeconds: Firmware.Word -> string, printRaw: Firmware.Int32 -> string, rest: string, name: string)
    requires !l.Record?
    requires name == "time" || name == "raw"
    ensures LivePlot.ValueByLabel(Split(LineText(l, printSeconds, printRaw) + rest), name) == LivePlot.ValueByLabel(Split(rest), name)
  {
    SplitLine(l, printSeconds, printRaw, rest);
    ValueByLabelSkips(LineWords(l, printSeconds, printRaw), Split(rest), name);
  }

  /**
   * End to end: when the bytes waiting on the host's port decode to a
   * record of the firmware followed by anything, the host accepts exactly the
   * numbers `float()` reads from the two printed fields, or rejects the
   * message when either does not parse.
   */
  lemma RecordAccepted(
    tMs: Firmware.Word, raw: Firmware.Int32, rest: string,
    printSeconds: Firmware.Word -> string, printRaw: Firmware.Int32 -> string,
    waiting: seq<LivePlot.Byte>, decode: seq<LivePlot.Byte> -> Option<string>, parse: string -> Option<real>)
    requires IsNumberText(printSeconds(tMs)) && IsNumberText(printRaw(raw))
    requires decode(waiting) == Some(LineText(Firmware.Record(tMs, raw), printSeconds, printRaw) + rest)
    requires |waiting| >= |decode(waiting).value|
    ensures var r := LivePlot.Classify(waiting, decode, parse);
      match (parse(printSeconds(tMs)), parse(printRaw(raw)))
      case (Some(x), Some(y)) => r == LivePlot.Accepted(x, y)
      case _ => r == LivePlot.Rejected
  {
    RecordPassesGuard(printSeconds(tMs), printRaw(raw));
    RecordRoundTrip(printSeconds(tMs), printRaw(raw), rest);
  }

  /**
   * The host pairs the first `time:` with the first `raw:` of a read, even
   * when they belong to different records: a read that begins after the
   * time field of one record and holds the next record in full is decoded as
   * the next record's time with the earlier record's raw value.
   */
  lemma ReadStartingMidRecord(rawBefore: string, timeText: string, rawText: string, rest: string)
    requires IsNumberText(rawBefore) && IsNumberText(timeText) && IsNumberText(rawText)
    ensures var segs := Split(" raw: " + rawBefore + "\r\n" + RecordText(timeText, rawText) + rest);
      && LivePlot.ValueByLabel(segs, "time") == Some(timeText)
      && LivePlot.ValueByLabel(segs, "raw") == Some(rawBefore)
  {
    var tail := RecordText(timeText, rawText) + rest;
    var text := " raw: " + rawBefore + "\r\n" + RecordText(timeText, rawText) + rest;
    assert text == " raw: " + rawBefore + "\r\n" + tail;
    SplitPartialRecord(rawBefore, tail);
    var after := Split(tail);
    RecordRoundTrip(timeText, rawText, rest);
    ValueByLabelSkips(["raw:", rawBefore], after, "time");
    LookupFirstWord("raw", rawBefore, after);
    assert "raw" + ":" == "raw:";
  }

  /** A label at the very front is found there. */
  lemma LookupFirstWord(name: string, value: string, after: seq<string>)
    ensures LivePlot.ValueByLabel([name + ":", value] + after, name) == Some(value)
  {
    var segs := [name + ":", value] + after;
    assert segs[0] == name + ":" && segs[..0] == [];
  }

  lemma PartialRecordShape(rawBefore: string, tail: string)
    ensures " raw: " + rawBefore + "\r\n" + tail == [' '] + TwoWords("raw:", rawBefore, tail)
  {
  }

  /** The tail of a record, from the space before its raw label, followed by anything. */
  lemma SplitPartialRecord(rawBefore: string, tail: string)
    requires IsToken(rawBefore)
    ensures Split(" raw: " + rawBefore + "\r\n" + tail) == ["raw:", rawBefore] + Split(tail)
  {
    PartialRecordShape(rawBefore, tail);
    SplitAfterSpace(' ', TwoWords("raw:", rawBefore, tail));
    SplitTwoWords("raw:", rawBefore, tail);
  }

  /** Two words separated by a single space and ended by CR LF, then more text. */
  function TwoWords(w0: string, w1: string, rest: string): string {
    w0 + ([' '] + (w1 + ("\r\n" + rest)))
  }

  lemma SplitTwoWords(w0: string, w1: string, rest: string)
    requires IsToken(w0) && IsToken(w1)
    ensures Split(TwoWords(w0, w1, rest)) == [w0, w1] + Split(rest)
  {
    var after := Split(rest);
    SplitWordEol(w1, rest);
    SplitWordSpace(w0, w1 + ("\r\n" + rest));
    assert [w0] + ([w1] + after) == [w0, w1] + after;
  }

  /**
   * Reading the firmware's whole output at once, from power-on, the host
   * takes the first record's values: `READY` is skipped over.
   */
  lemma WholeTraceGivesFirstRecord(ticks: seq<Firmware.Tick>, printSeconds: Firmware.Word -> string, printRaw: Firmware.Int32 -> string)
    requires forall t :: IsNumberText(printSeconds(t))
    requires forall v :: IsNumberText(printRaw(v))
    requires |Firmware.Trace(true, ticks)| >= 2
    ensures var out := Firmware.Trace(true, ticks);
      var segs := Split(StreamText(out, printSeconds, printRaw));
      && out[1].Record?
      && LivePlot.ValueByLabel(segs, "time") == Some(printSeconds(out[1].tMs))
      && LivePlot.ValueByLabel(segs, "raw") == Some(printRaw(out[1].raw))
  {
    var out := Firmware.Trace(true, ticks);
    Firmware.TraceShape(ticks);
    assert out[1].Record?;
    var rest := StreamText(out[2..], printSeconds, printRaw);
    assert out[1..][1..] == out[2..];
    assert StreamText(out[1..], printSeconds, printRaw) == RecordText(printSeconds(out[1].tMs), printRaw(out[1].raw)) + rest;
    assert StreamText(out, printSeconds, printRaw) == LineText(Firmware.Ready, printSeconds, printRaw) + StreamText(out[1..], printSeconds, printRaw);
    RecordRoundTrip(printSeconds(out[1].tMs), printRaw(out[1].raw), rest);
    StatusLineTransparent(Firmware.Ready, printSeconds, printRaw, StreamText(out[1..], printSeconds, printRaw), "time");
    StatusLineTransparent(Firmware.Ready, printSeconds, printRaw, StreamText(out[1..], printSeconds, printRaw), "raw");
  }
}
