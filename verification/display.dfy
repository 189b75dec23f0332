/**
 * The text of the "Now Playing" panel that depends on player state:
 * `format_time`, the progress clamp, `create_progress_bar` and the footer.
 */
module Display {
  import opened Wrappers
  import opened Text

  // ---------------------------------------------------------------------
  // format_time
  // ---------------------------------------------------------------------

  /** `mm:ss`: two digit fields around one colon. */
  predicate IsShortClock(t: string) {
    |t| == 5 && t[2] == ':' && AllDigits(t[..2]) && AllDigits(t[3..])
  }

  /** `hh:mm:ss`, where the hour field has at least two digits. */
  predicate IsLongClock(t: string) {
    && |t| >= 8 && t[|t| - 6] == ':' && t[|t| - 3] == ':'
    && AllDigits(t[..|t| - 6]) && AllDigits(t[|t| - 5..|t| - 3]) && AllDigits(t[|t| - 2..])
  }

  /** Reads a clock string back into seconds. */
  function ParseClock(t: string): Option<nat> {
    if IsShortClock(t) then
      Some(DigitsValue(t[..2]) * 60 + DigitsValue(t[3..]))
    else if IsLongClock(t) then
      Some(DigitsValue(t[..|t| - 6]) * 3600 + DigitsValue(t[|t| - 5..|t| - 3]) * 60 + DigitsValue(t[|t| - 2..]))
    else
      None
  }

  /** The `MM:SS` form of a time below one hour: its fields read back, each below 60. */
  lemma ShortClockFacts(seconds: nat)
    requires seconds < 3600
    ensures var r := Pad2(seconds / 60) + ":" + Pad2(seconds % 60);
            && IsShortClock(r) && DigitsValue(r[..2]) < 60 && DigitsValue(r[3..]) < 60
            && ParseClock(r) == Some(seconds)
  {
    var mm, ss := Pad2(seconds / 60), Pad2(seconds % 60);
    var r := mm + ":" + ss;
    assert r[..2] == mm && r[3..] == ss;
    assert IsShortClock(r);
    assert DigitsValue(r[..2]) == seconds / 60;
    assert DigitsValue(r[3..]) == seconds % 60;
  }

  /** The `HH:MM:SS` form: minute and second fields below 60, fields recombine to the input. */
  lemma LongClockFacts(seconds: nat)
    requires seconds >= 3600
    ensures var r := Pad2(seconds / 3600) + ":" + Pad2(seconds % 3600 / 60) + ":" + Pad2(seconds % 60);
            && IsLongClock(r) && !IsShortClock(r)
            && DigitsValue(r[|r| - 5..|r| - 3]) < 60 && DigitsValue(r[|r| - 2..]) < 60
            && ParseClock(r) == Some(seconds)
  {
    var h, m, s := seconds / 3600, seconds % 3600 / 60, seconds % 60;
    ClockSplit(seconds);
    var hh, mm, ss := Pad2(h), Pad2(m), Pad2(s);
    var r := hh + ":" + mm + ":" + ss;
    LongClockFields(hh, mm, ss);
    ParseLongClock(r);
    assert DigitsValue(hh) == h && DigitsValue(mm) == m && DigitsValue(ss) == s;
  }

  /** Three digit fields joined by colons, with two-digit minutes and seconds, form a long clock. */
  lemma LongClockFields(hh: string, mm: string, ss: string)
    requires AllDigits(hh) && AllDigits(mm) && AllDigits(ss)
    requires |hh| >= 2 && |mm| == 2 && |ss| == 2
    ensures var r := hh + ":" + mm + ":" + ss;
            && r[..|r| - 6] == hh && r[|r| - 5..|r| - 3] == mm && r[|r| - 2..] == ss
            && IsLongClock(r) && !IsShortClock(r)
  {
    var r := hh + ":" + mm + ":" + ss;
    assert |r| == |hh| + 6;
    assert r[..|r| - 6] == hh;
    assert r[|r| - 5..|r| - 3] == mm;
    assert r[|r| - 2..] == ss;
    assert r[|r| - 6] == ':' && r[|r| - 3] == ':';
  }

  /** A long clock reads back as hours, minutes and seconds. */
  lemma ParseLongClock(t: string)
    requires IsLongClock(t) && !IsShortClock(t)
    ensures ParseClock(t) == Some(DigitsValue(t[..|t| - 6]) * 3600 + DigitsValue(t[|t| - 5..|t| - 3]) * 60
                                  + DigitsValue(t[|t| - 2..]))
  {
  }

  /** The hour field is zero-padded only when it has a single digit. */
  lemma HourFieldFacts(seconds: nat)
    requires seconds >= 3600
    ensures var r := Pad2(seconds / 3600) + ":" + Pad2(seconds % 3600 / 60) + ":" + Pad2(seconds % 60);
            |r| == 8 || r[0] != '0'
  {
    var hh := Pad2(seconds / 3600);
    var r := hh + ":" + Pad2(seconds % 3600 / 60) + ":" + Pad2(seconds % 60);
    assert r[0] == hh[0];
  }

  /** Hours, minutes and seconds recombine to the total. */
  lemma ClockSplit(seconds: nat)
    ensures seconds % 3600 / 60 < 60
    ensures seconds / 3600 * 3600 + seconds % 3600 / 60 * 60 + seconds % 60 == seconds
  {
  }

  /**
   * `format_time`: below one hour `MM:SS`, otherwise `HH:MM:SS`, every
   * field zero-padded to two digits, so an hour field wider than two
   * digits never starts with zero. The minute and second fields stay
   * below 60 and the fields read back give the input.
   */
  function FormatTime(seconds: nat): (r: string)
    ensures seconds < 3600 ==> IsShortClock(r) && DigitsValue(r[..2]) < 60 && DigitsValue(r[3..]) < 60
    ensures seconds >= 3600 ==>
              && IsLongClock(r) && !IsShortClock(r)
              && DigitsValue(r[|r| - 5..|r| - 3]) < 60 && DigitsValue(r[|r| - 2..]) < 60
              && (|r| == 8 || r[0] != '0')
    ensures ParseClock(r) == Some(seconds)
  {
    if seconds < 3600 then
      ShortClockFacts(seconds);
      Pad2(seconds / 60) + ":" + Pad2(seconds % 60)
    else
      LongClockFacts(seconds);
      HourFieldFacts(seconds);
      Pad2(seconds / 3600) + ":" + Pad2(seconds % 3600 / 60) + ":" + Pad2(seconds % 60)
  }

  /** Distinct durations are always displayed differently. */
  lemma FormatTimeInjective(a: nat, b: nat)
    requires FormatTime(a) == FormatTime(b)
    ensures a == b
  {
    assert ParseClock(FormatTime(a)) == Some(a);
  }

  // ---------------------------------------------------------------------
  // Progress clamp
  // ---------------------------------------------------------------------

  const BarLength: nat := 15

  /**
   * `min(1.0, elapsed / duration) if duration > 0 else 0.0`, computed over
   * exact reals rather than binary floating point.
   */
  function Progress(elapsed: nat, duration: int): (p: real)
    ensures 0.0 <= p <= 1.0
    ensures duration <= 0 ==> p == 0.0
    ensures duration > 0 && elapsed >= duration ==> p == 1.0
    ensures duration > 0 && elapsed < duration ==> p * duration as real == elapsed as real
  {
    if duration > 0 then
      var ratio := elapsed as real / duration as real;
      if ratio < 1.0 then ratio else 1.0
    else
      0.0
  }

  /** `int(bar_length * progress)` for a non-negative progress. */
  function FilledCells(progress: real): nat
    requires 0.0 <= progress
  {
    var f := (BarLength as real * progress).Floor;
    assert 0 <= f by {
      assert 0.0 <= BarLength as real * progress;
    }
    f
  }

  /**
   * The clamped progress fills at most the whole bar, and the number of
   * filled cells is the integer quotient `15 * elapsed / duration`, capped
   * at 15.
   */
  lemma FilledCellsOfProgress(elapsed: nat, duration: int)
    ensures FilledCells(Progress(elapsed, duration)) <= BarLength
    ensures FilledCells(Progress(elapsed, duration)) ==
            if duration <= 0 then 0
            else if elapsed >= duration then BarLength
            else BarLength * elapsed / duration
  {
    var p := Progress(elapsed, duration);
    if duration > 0 && elapsed < duration {
      var d := duration as real;
      assert p == elapsed as real / d;
      assert BarLength as real * p == (BarLength * elapsed) as real / d;
      FloorOfQuotient(BarLength * elapsed, duration);
    }
  }

  /** For a positive divisor, the floor of the exact quotient is Python's `//`. */
  lemma FloorOfQuotient(n: nat, d: int)
    requires d > 0
    ensures (n as real / d as real).Floor == n / d
  {
    var q, r := n / d, n % d;
    var x := n as real / d as real;
    assert n == q * d + r;
    assert n as real == q as real * d as real + r as real;
    assert x == q as real + r as real / d as real;
    assert 0.0 <= r as real / d as real < 1.0;
  }

  // ---------------------------------------------------------------------
  // create_progress_bar
  // ---------------------------------------------------------------------

  const Filled: char := '━'
  const Empty: char := '─'
  const Marker: char := '●'

  function Repeat(c: char, n: nat): (s: string)
    ensures |s| == n && forall i :: 0 <= i < n ==> s[i] == c
  {
    seq(n, _ => c)
  }

  /** Cell of the marker: the first unfilled cell, or the last cell of a full bar. */
  function MarkerCell(filled: nat): nat {
    if filled < BarLength then filled else filled - 1
  }

  /**
   * `create_progress_bar` for `filled = int(15 * progress)` cells: filled
   * cells, then empty ones, with the cell after the filled ones (or the
   * last cell of a full bar) replaced by the marker; wrapped in backticks.
   */
  function ProgressBar(filled: nat): (r: string)
    ensures 2 <= |r| && r[0] == '`' && r[|r| - 1] == '`'
    ensures var bar := r[1..|r| - 1];
            && |bar| == (if filled > BarLength then filled else BarLength)
            && MarkerCell(filled) < |bar|
            && (forall i :: 0 <= i < |bar| ==> (bar[i] == Marker <==> i == MarkerCell(filled)))
            && (forall i :: 0 <= i < MarkerCell(filled) ==> bar[i] == Filled)
            && (forall i :: MarkerCell(filled) < i < |bar| ==> bar[i] == Empty)
  {
    var plain := Repeat(Filled, filled) + Repeat(Empty, if filled < BarLength then BarLength - filled else 0);
    var bar := if filled < BarLength then plain[..filled] + [Marker] + plain[filled + 1..]
               else plain[..|plain| - 1] + [Marker];
    var r := "`" + bar + "`";
    assert r[1..|r| - 1] == bar;
    r
  }

  /** A bar that is one cell short of full looks exactly like a full bar. */
  lemma AlmostFullLooksFull()
    ensures ProgressBar(BarLength - 1) == ProgressBar(BarLength)
  {
    var a := ProgressBar(BarLength - 1);
    var b := ProgressBar(BarLength);
    assert |a| == |b|;
    forall i | 0 <= i < |a|
      ensures a[i] == b[i]
    {
      if 0 < i < |a| - 1 {
        assert a[1..|a| - 1][i - 1] == a[i];
        assert b[1..|b| - 1][i - 1] == b[i];
      }
    }
  }

  /** Below a full bar, the marker position tells the filled count apart. */
  lemma ProgressBarInjectiveBelowFull(m: nat, n: nat)
    requires m < BarLength && n < BarLength
    requires ProgressBar(m) == ProgressBar(n)
    ensures m == n
  {
    var r := ProgressBar(m);
    var bar := r[1..|r| - 1];
    assert bar[m] == Marker;
  }

  /** The bar the panel shows always has exactly 15 cells between its backticks. */
  lemma PanelBarWidth(elapsed: nat, duration: int)
    ensures |ProgressBar(FilledCells(Progress(elapsed, duration)))| == BarLength + 2
  {
    FilledCellsOfProgress(elapsed, duration);
  }

  // ---------------------------------------------------------------------
  // Footer
  // ---------------------------------------------------------------------

  /** `{0: "Off", 1: "🔂 Track", 2: "🔁 Queue"}.get(loop_mode, "Off")`. */
  function LoopLabel(mode: int): string {
    if mode == 1 then "🔂 Track" else if mode == 2 then "🔁 Queue" else "Off"
  }

  /** `f"{n} {'track' if n == 1 else 'tracks'}"`. */
  function QueueText(n: nat): string {
    Decimal(n) + (if n == 1 then " track" else " tracks")
  }

  /** Reads a queue text back into the count it was printed from. */
  function ParseQueueText(t: string): Option<nat> {
    if |t| > 7 && t[|t| - 7..] == " tracks" && AllDigits(t[..|t| - 7]) then Some(DigitsValue(t[..|t| - 7]))
    else if |t| > 6 && t[|t| - 6..] == " track" && AllDigits(t[..|t| - 6]) then Some(DigitsValue(t[..|t| - 6]))
    else None
  }

  /** The queue text names the count it was built from, and says "tracks" unless it is exactly one. */
  lemma QueueTextRoundTrip(n: nat)
    ensures ParseQueueText(QueueText(n)) == Some(n)
    ensures var t := QueueText(n); (|t| > 7 && t[|t| - 7..] == " tracks") <==> n != 1
  {
    var t := QueueText(n);
    var d := Decimal(n);
    DecimalRoundTrip(n);
    if n == 1 {
      assert t == "1 track";
    } else {
      assert t[..|t| - 7] == d;
      assert t[|t| - 7..] == " tracks";
    }
  }

  /** The footer text inside its bold markers, if it has them. */
  function Unbolded(r: string): string {
    if |r| >= 4 && r[..2] == "**" && r[|r| - 2..] == "**" then r[2..|r| - 2] else r
  }

  /**
   * The footer: loop label and queue size, wrapped in `**` bold markers
   * whenever a loop mode is active. Inside the markers it starts with the
   * loop label, followed by the ten-character " • Queue: " separator and
   * the queue text, from which the queue size reads back.
   */
  function Footer(mode: int, queueSize: nat): (r: string)
    ensures (|r| >= 4 && r[..2] == "**" && r[|r| - 2..] == "**") <==> mode != 0
    ensures var body := Unbolded(r); var tag := LoopLabel(mode);
            && |tag| + 10 <= |body| && body[..|tag|] == tag
            && ParseQueueText(body[|tag| + 10..]) == Some(queueSize)
    ensures var body := Unbolded(r); var n := |LoopLabel(mode)|;
            && n + 10 <= |body|
            && body[n..n + 10] == " • Queue: " && body[n + 10..] == QueueText(queueSize)
  {
    var tag, t := LoopLabel(mode), QueueText(queueSize);
    var plain := tag + " • Queue: " + t;
    QueueTextRoundTrip(queueSize);
    assert tag[0] != '*';
    FooterFields(tag, t);
    BoldMarkers(plain);
    if mode != 0 then "**" + plain + "**" else plain
  }

  /** Where the label, the separator and the queue text sit in the plain footer. */
  lemma FooterFields(tag: string, t: string)
    ensures var plain := tag + " • Queue: " + t;
            && |plain| == |tag| + 10 + |t|
            && plain[..|tag|] == tag && plain[|tag|..|tag| + 10] == " • Queue: " && plain[|tag| + 10..] == t
  {
    var plain := tag + " • Queue: " + t;
    assert plain[..|tag|] == tag;
    assert plain[|tag|..|tag| + 10] == " • Queue: ";
    assert plain[|tag| + 10..] == t;
  }

  /** Wrapping a text that does not start with `*` in `**` markers is undone by `Unbolded`. */
  lemma BoldMarkers(plain: string)
    requires |plain| > 0 && plain[0] != '*'
    ensures var r := "**" + plain + "**";
            && |r| >= 4 && r[..2] == "**" && r[|r| - 2..] == "**" && Unbolded(r) == plain
    ensures !(|plain| >= 4 && plain[..2] == "**" && plain[|plain| - 2..] == "**") && Unbolded(plain) == plain
  {
    var r := "**" + plain + "**";
    assert r[..2] == "**" && r[|r| - 2..] == "**";
    assert r[2..|r| - 2] == plain;
  }

  /**
   * Different loop modes or queue sizes always give different footers, so
   * the footer shows both.
   */
  lemma FooterInjective(m1: int, n1: nat, m2: int, n2: nat)
    requires 0 <= m1 < 3 && 0 <= m2 < 3
    ensures Footer(m1, n1) == Footer(m2, n2) ==> m1 == m2 && n1 == n2
  {
    if Footer(m1, n1) == Footer(m2, n2) {
      var body := Unbolded(Footer(m1, n1));
      var c := body[0];
      assert c == LoopLabel(m1)[0];
      assert c == LoopLabel(m2)[0];
      LoopLabelStart(m1);
      LoopLabelStart(m2);
    }
  }

  /** The label's first character tells the three modes apart. */
  lemma LoopLabelStart(mode: int)
    requires 0 <= mode < 3
    ensures mode == 0 ==> LoopLabel(mode)[0] == 'O'
    ensures mode == 1 ==> LoopLabel(mode)[0] == '🔂'
    ensures mode == 2 ==> LoopLabel(mode)[0] == '🔁'
  {
  }

}
