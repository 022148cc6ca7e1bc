/**
 * `TimeKeeper`: an append-only log of the phases of one frame's processing, each with
 * its latency since the frame's acquisition stamp, and the text report `getall` makes of
 * it. The clock reading of each phase is passed in.
 */
module TimeKeeping {

  /** A completed phase and its latency in seconds. */
  datatype Entry = Entry(phase: string, latency: real)

  const Header: string := "\nLatencies:\n"

  /** The field width of `%15s`. */
  const PhaseWidth: nat := 15

  /** The number of line breaks in `s`. */
  function NewLines(s: string): nat
  {
    if s == [] then 0 else (if s[0] == '\n' then 1 else 0) + NewLines(s[1..])
  }

  lemma {:induction false} NewLinesAppend(a: string, b: string)
    ensures NewLines(a + b) == NewLines(a) + NewLines(b)
  {
    if a == [] {
      assert a + b == b;
    } else {
      assert (a + b)[0] == a[0];
      assert (a + b)[1..] == a[1..] + b;
      NewLinesAppend(a[1..], b);
    }
  }

  lemma {:induction false} NoBreaks(s: string)
    requires forall i :: 0 <= i < |s| ==> s[i] != '\n'
    ensures NewLines(s) == 0
  {
    if s != [] {
      NoBreaks(s[1..]);
    }
  }

  function Spaces(n: nat): (r: string)
    ensures |r| == n
    ensures forall i :: 0 <= i < n ==> r[i] == ' '
  {
    if n == 0 then "" else " " + Spaces(n - 1)
  }

  /** `'%15s' % s`: `s` right-justified in a field of `width` characters, never cut. */
  function Pad(s: string, width: nat): (r: string)
    ensures |r| == if |s| < width then width else |s|
    ensures r[|r| - |s|..] == s
    ensures forall i :: 0 <= i < |r| - |s| ==> r[i] == ' '
  {
    if |s| < width then Spaces(width - |s|) + s else s
  }

  /** Padding adds blanks only, never a line break. */
  lemma PadLines(s: string, width: nat)
    ensures NewLines(Pad(s, width)) == NewLines(s)
  {
    if |s| < width {
      NoBreaks(Spaces(width - |s|));
      NewLinesAppend(Spaces(width - |s|), s);
    }
  }

  /**
   * `asms`: a latency in seconds shown in milliseconds with the unit "ms"; `fmt` stands
   * for Python's "%.1f" rendering of a float.
   */
  function Asms(seconds: real, fmt: real -> string): string
  {
    fmt(seconds * 1000.0) + "ms"
  }

  /** Neither the phase name nor the rendering of its latency breaks the line. */
  predicate OneLine(e: Entry, fmt: real -> string)
  {
    NewLines(e.phase) == 0 && NewLines(fmt(e.latency * 1000.0)) == 0
  }

  /**
   * `' %15s latency %s\n' % (phase, latency_ms)`: a line of at least 28 characters that
   * starts with a blank and ends with the only line break in it.
   */
  function LatencyLine(e: Entry, fmt: real -> string): (r: string)
    ensures |r| >= 1 + PhaseWidth + 9 + 2 + 1
    ensures r[0] == ' ' && r[|r| - 1] == '\n'
    ensures OneLine(e, fmt) ==> NewLines(r) == 1
  {
    LatencyLineBreaks(e, fmt);
    " " + Pad(e.phase, PhaseWidth) + " latency " + Asms(e.latency, fmt) + "\n"
  }

  lemma LatencyLineBreaks(e: Entry, fmt: real -> string)
    ensures OneLine(e, fmt) ==>
      NewLines(" " + Pad(e.phase, PhaseWidth) + " latency " + Asms(e.latency, fmt) + "\n") == 1
  {
    var pad, ms := Pad(e.phase, PhaseWidth), Asms(e.latency, fmt);
    PadLines(e.phase, PhaseWidth);
    NoBreaks("ms");
    NewLinesAppend(fmt(e.latency * 1000.0), "ms");
    LineBreaks(pad, ms);
  }

  lemma LineBreaks(pad: string, ms: string)
    ensures NewLines(" " + pad + " latency " + ms + "\n") == NewLines(pad) + NewLines(ms) + 1
  {
    NoBreaks(" ");
    NoBreaks(" latency ");
    assert NewLines("\n") == 1 by { assert "\n"[1..] == ""; }
    NewLinesAppend(" ", pad);
    NewLinesAppend(" " + pad, " latency ");
    NewLinesAppend(" " + pad + " latency ", ms);
    NewLinesAppend(" " + pad + " latency " + ms, "\n");
  }

  /** The text of each entry by `line`, one after the other, in log order. */
  function Lines(es: seq<Entry>, line: Entry -> string): string
  {
    if es == [] then "" else Lines(es[..|es| - 1], line) + line(es[|es| - 1])
  }

  /** `LatencyLine` with the float rendering fixed. */
  function LineFormat(fmt: real -> string): Entry -> string
  {
    e => LatencyLine(e, fmt)
  }

  /** What `getall` returns for a log: the header, then at least one full line per entry. */
  function Report(es: seq<Entry>, fmt: real -> string): (r: string)
    ensures |r| >= |Header| + 28 * |es|
  {
    LinesLength(es, fmt);
    Header + Lines(es, LineFormat(fmt))
  }

  lemma {:induction false} LinesLength(es: seq<Entry>, fmt: real -> string)
    ensures |Lines(es, LineFormat(fmt))| >= 28 * |es|
  {
    if es != [] {
      LinesLength(es[..|es| - 1], fmt);
    }
  }

  /**
   * The report has exactly `2 + |es|` line breaks when no entry breaks its own line:
   * the two of the header, then one per entry.
   */
  lemma ReportLineCount(es: seq<Entry>, fmt: real -> string)
    requires forall i :: 0 <= i < |es| ==> OneLine(es[i], fmt)
    ensures NewLines(Report(es, fmt)) == 2 + |es|
  {
    LinesCount(es, fmt);
    NewLinesAppend(Header, Lines(es, LineFormat(fmt)));
    HeaderLines();
  }

  lemma HeaderLines()
    ensures NewLines(Header) == 2
  {
    var tail := "Latencies:" + "\n";
    assert Header[0] == '\n' && Header[1..] == tail;
    NoBreaks("Latencies:");
    NewLinesAppend("Latencies:", "\n");
    assert "\n"[1..] == "";
  }

  /** Each entry whose phase and rendering are single-line contributes exactly one line break. */
  lemma {:induction false} LinesCount(es: seq<Entry>, fmt: real -> string)
    ensures (forall i :: 0 <= i < |es| ==> OneLine(es[i], fmt)) ==>
      NewLines(Lines(es, LineFormat(fmt))) == |es|
  {
    if es != [] && forall i :: 0 <= i < |es| ==> OneLine(es[i], fmt) {
      var init := es[..|es| - 1];
      assert forall i :: 0 <= i < |init| ==> OneLine(init[i], fmt) by {
        forall i | 0 <= i < |init| ensures OneLine(init[i], fmt) {
          assert init[i] == es[i];
        }
      }
      LinesCount(init, fmt);
      NewLinesAppend(Lines(init, LineFormat(fmt)), LatencyLine(es[|es| - 1], fmt));
    }
  }

  /** The lines of two logs one after the other are the lines of the first, then the second's. */
  lemma {:induction false} LinesAppend(a: seq<Entry>, b: seq<Entry>, line: Entry -> string)
    ensures Lines(a + b, line) == Lines(a, line) + Lines(b, line)
  {
    if b == [] {
      assert a + b == a;
    } else {
      var b' := b[..|b| - 1];
      assert (a + b)[..|a + b| - 1] == a + b';
      assert (a + b)[|a + b| - 1] == b[|b| - 1];
      LinesAppend(a, b', line);
    }
  }

  /** One turn of `getall`'s loop: appending the next entry's line to the report so far. */
  lemma ReportStep(s: string, es: seq<Entry>, i: nat, line: Entry -> string)
    requires i < |es| && s == Header + Lines(es[..i], line)
    ensures s + line(es[i]) == Header + Lines(es[..i + 1], line)
  {
    assert es[..i + 1][..i] == es[..i];
  }

  /**
   * Completing one more phase extends the report by exactly that phase's line: earlier
   * lines are never rewritten or reordered.
   */
  lemma ReportExtends(es: seq<Entry>, e: Entry, fmt: real -> string)
    ensures Report(es + [e], fmt) == Report(es, fmt) + LatencyLine(e, fmt)
  {
    var line := LineFormat(fmt);
    var es' := es + [e];
    assert es'[..|es'| - 1] == es;
    assert Lines(es', line) == Lines(es, line) + LatencyLine(e, fmt);
  }

  class TimeKeeper {
    var tAcquisition: real
    var latencies: seq<Entry>

    /** Starts the log of a frame stamped `stamp`, with the phase "acquired" read at `now`. */
    constructor (stamp: real, now: real)
      ensures tAcquisition == stamp
      ensures latencies == [Entry("acquired", now - stamp)]
    {
      tAcquisition := stamp;
      latencies := [];
      new;
      Completed("acquired", now);
    }

    /** Appends `phase` with its latency `now - t_acquisition`. */
    method Completed(phase: string, now: real)
      modifies this
      ensures tAcquisition == old(tAcquisition)
      ensures latencies == old(latencies) + [Entry(phase, now - tAcquisition)]
    {
      latencies := latencies + [Entry(phase, now - tAcquisition)];
    }

    /** `getall`: the header, then one line per logged phase, in log order. */
    method GetAll(fmt: real -> string) returns (s: string)
      ensures s == Report(latencies, fmt)
    {
      s := Header;
      for i := 0 to |latencies|
        invariant s == Header + Lines(latencies[..i], LineFormat(fmt))
      {
        ReportStep(s, latencies, i, LineFormat(fmt));
        s := s + LineFormat(fmt)(latencies[i]);
      }
      assert latencies[..|latencies|] == latencies;
    }
  }
}
