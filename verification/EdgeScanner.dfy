/**
  The 1-D edge scanner of qrcode/src/scanner.c: samples are averaged into a four-entry ring, a
  zero crossing of the second difference locates an edge in units of 1/32 sample, and the widths
  between edges go to the width decoder.

  Positions and widths are unbounded here; FitsUnsigned says for which scan lines the 32-bit
  unsigned arithmetic of the source never wraps.
 */
module EdgeScanner {
  import opened Sequences

  const THRESH_MIN := 4
  const THRESH_INIT := 14
  const EWMA_WEIGHT := 25
  const FADE := 8

  function Abs(n: int): int {
    if n < 0 then -n else n
  }

  /** The division of C, truncating toward zero. */
  function TruncDiv(a: int, b: int): int
    requires b != 0
  {
    if (a < 0) == (b < 0) then Abs(a) / Abs(b) else -(Abs(a) / Abs(b))
  }

  // ---------- The samples ----------

  /** The weighted moving average at position k of a scan line; the line is extended to the left
      by its first sample. The right shift of the source rounds toward minus infinity. */
  function Average(samples: seq<int>, k: int): int
    requires k < |samples| && samples != []
  {
    if k <= 0 then samples[0]
    else
      var before := Average(samples, k - 1);
      before + (samples[k] - before) * EWMA_WEIGHT / 32
  }

  /** The averages at x, x - 1, x - 2 and x - 3. */
  datatype Window = Window(a0: int, a1: int, a2: int, a3: int)

  function WindowAt(samples: seq<int>, x: nat): Window
    requires x < |samples|
  {
    Window(Average(samples, x), Average(samples, x - 1), Average(samples, x - 2), Average(samples, x - 3))
  }

  /** The slope at x - 1, or the one at x - 2 when that is steeper and of the same sign. */
  function Slope(w: Window): int {
    var here, before := w.a1 - w.a2, w.a2 - w.a3;
    if Abs(here) < Abs(before) && (here >= 0) == (before >= 0) then before else here
  }

  function Curvature(w: Window): int {
    w.a0 - w.a1 * 2 + w.a2
  }

  function PriorCurvature(w: Window): int {
    w.a1 - w.a2 * 2 + w.a3
  }

  /** A zero crossing of the second difference. */
  predicate Inflection(w: Window) {
    var y2, was := Curvature(w), PriorCurvature(w);
    y2 == 0 || (if y2 > 0 then was < 0 else was > 0)
  }

  /** The crossing, as an offset from 32 * x. */
  function Offset(w: Window): int {
    var y2, d := Curvature(w), Curvature(w) - PriorCurvature(w);
    if d == 0 then 16 else if y2 != 0 then 32 - TruncDiv(y2 * 32 + 1, d) else 32
  }

  /** The four-entry ring: position i of the line is at i modulo 4. */
  ghost predicate Ring(ring: seq<int>, samples: seq<int>) {
    var x := |samples|;
    && |ring| == 4
    && (x > 0 ==>
          && ring[(x - 1) % 4] == Average(samples, x - 1)
          && ring[(x - 2) % 4] == Average(samples, x - 2)
          && ring[(x - 3) % 4] == Average(samples, x - 3)
          && ring[(x - 4) % 4] == Average(samples, x - 4))
  }

  // ---------- The edge tracker ----------

  datatype Tracker = Tracker(sign: int, thresh: int, cur: int, last: int, width: int)

  /** A scan line in progress: the position of the next sample, the tracker, the widths given to
      the decoder, and where the edges that those widths end at were found. */
  datatype Line = Line(x: nat, t: Tracker, out: seq<int>, marks: seq<int>)

  const NEW_LINE := Line(0, Tracker(0, THRESH_MIN, 0, 0, 0), [], [])

  /** The part of the threshold that has faded since the last edge. */
  function Fade(t: Tracker, x: nat): int
    requires t.width != 0
  {
    t.thresh * (32 * x - t.last) / t.width / FADE
  }

  function Threshold(t: Tracker, x: nat): int {
    if t.thresh <= THRESH_MIN || t.width == 0 then THRESH_MIN
    else if t.thresh - Fade(t, x) > THRESH_MIN && t.thresh > Fade(t, x) then t.thresh - Fade(t, x)
    else THRESH_MIN
  }

  /** The threshold that is remembered: it drops to the minimum for good once it has faded. */
  function Kept(t: Tracker, x: nat): int {
    if t.thresh <= THRESH_MIN || t.width == 0 || Threshold(t, x) > THRESH_MIN then t.thresh else THRESH_MIN
  }

  /** The edge being tracked is final: its distance from the one before it is a width. */
  function Finish(l: Line): Line {
    var cur := if l.t.sign == 0 then 48 else l.t.cur;
    var last := if l.t.sign == 0 then 48 else if l.t.last == 0 then cur else l.t.last;
    Line(l.x, l.t.(cur := cur, last := cur, width := cur - last), l.out + [cur - last], l.marks + [cur])
  }

  predicate Reverses(sign: int, slope: int) {
    if sign > 0 then slope < 0 else slope > 0
  }

  /** Tracking moves to the crossing in this window. */
  function Track(t: Tracker, x: nat, w: Window): Tracker {
    var start := (Abs(Slope(w)) * THRESH_INIT + 16) / 32;
    t.(sign := Slope(w), thresh := if start < THRESH_MIN then THRESH_MIN else start, cur := 32 * x + Offset(w))
  }

  /** One sample, seen through its window. */
  function Scan(l: Line, w: Window): Line {
    var kept := if Inflection(w) then l.(t := l.t.(thresh := Kept(l.t, l.x))) else l;
    var next :=
      if !Inflection(w) || Threshold(l.t, l.x) > Abs(Slope(w)) then kept
      else if Reverses(l.t.sign, Slope(w)) then var f := Finish(kept); f.(t := Track(f.t, l.x, w))
      else if Abs(l.t.sign) < Abs(Slope(w)) then kept.(t := Track(kept.t, l.x, w))
      else kept;
    next.(x := l.x + 1)
  }

  /** The line after a list of samples. */
  function Run(samples: seq<int>): Line {
    if samples == [] then NEW_LINE
    else
      var k := |samples| - 1;
      Scan(Run(samples[..k]), WindowAt(samples, k))
  }

  /** One flush: the tracked edge is finished and a border edge of the opposite sense put half a
      sample behind the line, until that one is finished too; then the line ends with a width 0. */
  function FlushLine(l: Line): Line {
    if l.t.sign == 0 then l
    else if l.t.cur != 32 * l.x + 16 || l.t.sign > 0 then
      var f := Finish(l);
      f.(t := f.t.(cur := 32 * l.x + 16, sign := -l.t.sign))
    else
      l.(t := l.t.(sign := 0, width := 0), out := l.out + [0])
  }

  function Flushes(l: Line, n: nat): Line {
    if n == 0 then l else FlushLine(Flushes(l, n - 1))
  }

  // ---------- Averages stay within the samples ----------

  predicate Within(samples: seq<int>, lo: int, hi: int) {
    forall k :: 0 <= k < |samples| ==> lo <= samples[k] <= hi
  }

  lemma {:induction false} AverageWithin(samples: seq<int>, k: int, lo: int, hi: int)
    requires k < |samples| && samples != [] && Within(samples, lo, hi)
    ensures lo <= Average(samples, k) <= hi
  {
    if k <= 0 {
    } else {
      AverageWithin(samples, k - 1, lo, hi);
    }
  }

  lemma {:induction false} AveragePrefix(samples: seq<int>, more: seq<int>, k: int)
    requires k < |samples| && samples != []
    ensures Average(samples + more, k) == Average(samples, k)
  {
    if k <= 0 {
    } else {
      AveragePrefix(samples, more, k - 1);
    }
  }

  // ---------- Where a crossing lies ----------

  lemma QuotientBound(a: int, b: int)
    requires a >= 1 && b >= 1
    ensures 0 <= (32 * a + 1) / (a + b) <= 31
    ensures 0 <= (32 * a - 1) / (a + b) <= 31
  {
    assert 32 * a + 1 < 32 * (a + b);
    BelowQuotient(32 * a + 1, a + b, 32);
    BelowQuotient(32 * a - 1, a + b, 32);
  }

  lemma MulAtMost(d: int, q: int, r: int)
    requires d > 0
    ensures q <= r ==> d * q <= d * r
  {}

  lemma BelowQuotient(n: int, d: int, q: int)
    requires n >= 0 && d > 0 && n < q * d
    ensures 0 <= n / d < q
  {
    MulAtMost(d, q, n / d);
  }

  /** f is where, in units of 1/32, the line from `was` at 0 to `y2` at 32 crosses zero. With
      a = |y2| and d = a + |was| the crossing is at 32 - 32a / d; the quotient is taken of 32a + 1 for
      a positive y2 and of 32a - 1 for a negative one, and rounded down. A line along zero crosses in
      the middle, and one that ends at zero at its end. */
  ghost predicate CrossesAt(y2: int, was: int, f: int) {
    && (y2 == 0 && was == 0 ==> f == 16)
    && (y2 == 0 && was != 0 ==> f == 32)
    && (y2 > 0 ==> (32 - f) * (y2 - was) <= 32 * y2 + 1 < (33 - f) * (y2 - was))
    && (y2 < 0 ==> (32 - f) * (was - y2) <= -32 * y2 - 1 < (33 - f) * (was - y2))
  }

  lemma QuotientMeans(n: int, d: int)
    requires n >= 0 && d > 0
    ensures (n / d) * d <= n < (n / d + 1) * d
  {}

  lemma OffsetCrosses(w: Window)
    requires Inflection(w)
    ensures CrossesAt(Curvature(w), PriorCurvature(w), Offset(w))
  {
    hide Curvature, PriorCurvature;
    var y2, was := Curvature(w), PriorCurvature(w);
    if y2 > 0 {
      QuotientMeans(32 * y2 + 1, y2 - was);
    } else if y2 < 0 {
      QuotientMeans(-32 * y2 - 1, was - y2);
    }
  }

  /** An edge in this window, spelled out in the averages: the second difference changes sign or is
      zero, the edge is where it crosses zero, and its slope is one of the last two. */
  ghost predicate IsEdge(w: Window, slope: int, f: int) {
    var here, before := w.a1 - w.a2, w.a2 - w.a3;
    var y2, was := w.a0 - w.a1 - here, here - before;
    && (slope == here || slope == before)
    && (y2 == 0 || (y2 > 0 && was < 0) || (y2 < 0 && was > 0))
    && CrossesAt(y2, was, f)
  }

  lemma OffsetIsEdge(w: Window)
    requires Inflection(w)
    ensures IsEdge(w, Slope(w), Offset(w))
  {
    hide CrossesAt, Offset;
    OffsetCrosses(w);
  }

  /** An interpolated crossing lies in (32x, 32(x + 1)]. */
  lemma OffsetRange(w: Window)
    requires Inflection(w)
    ensures 1 <= Offset(w) <= 32
  {
    var y2, was := Curvature(w), PriorCurvature(w);
    if y2 > 0 {
      QuotientBound(y2, -was);
    } else if y2 < 0 {
      QuotientBound(-y2, was);
    }
  }

  // ---------- What every run keeps ----------

  ghost predicate Increasing(s: seq<int>) {
    forall i :: 0 < i < |s| ==> s[i - 1] < s[i]
  }

  /** The distances between successive marks; the first mark has nothing before it. */
  function Gaps(marks: seq<int>): seq<int> {
    if marks == [] then []
    else
      var k := |marks| - 1;
      Gaps(marks[..k]) + [if k == 0 then 0 else marks[k] - marks[k - 1]]
  }

  /** The marks rise, none lies before position 48, the widths are their distances, and the
      tracker remembers the last of them. The slope being tracked is positive exactly after an
      odd number of widths, which is the parity by which the decoder tells a bar from a space. */
  ghost predicate Consistent(l: Line) {
    && Increasing(l.marks) && l.out == Gaps(l.marks)
    && (l.marks == [] ==> l.t.last == 0 && l.t.width == 0 && l.t.sign <= 0)
    && (l.marks != [] ==> 48 <= l.t.last == Last(l.marks) && l.t.width == Last(l.out) >= 0 && l.t.sign != 0)
    && (l.t.sign > 0 <==> |l.marks| % 2 == 1)
  }

  /** A line to which no flush has been applied. */
  ghost predicate Scanning(l: Line, range: nat) {
    && Consistent(l)
    && l.t.last <= l.t.cur <= 32 * l.x
    && THRESH_MIN <= l.t.thresh <= Ceiling(range)
    && (l.t.sign == 0 ==> l.t.cur == 0)
    && (l.t.sign != 0 ==> THRESH_MIN <= Abs(l.t.sign) <= range && 64 < l.t.cur && l.t.last < l.t.cur)
  }

  /** The largest threshold for samples that differ by at most `range`. */
  function Ceiling(range: nat): int {
    var start := (range * THRESH_INIT + 16) / 32;
    if start < THRESH_MIN then THRESH_MIN else start
  }

  ghost predicate Steady(w: Window, x: nat, range: nat) {
    && Abs(Slope(w)) <= range
    && (x < 2 ==> Slope(w) == 0)
  }

  lemma SteadyWindow(samples: seq<int>, x: nat, lo: int, hi: int)
    requires x < |samples| && Within(samples, lo, hi)
    ensures lo <= hi && Steady(WindowAt(samples, x), x, hi - lo)
  {
    AverageWithin(samples, x - 1, lo, hi);
    AverageWithin(samples, x - 2, lo, hi);
    AverageWithin(samples, x - 3, lo, hi);
  }

  lemma GapsAppend(marks: seq<int>, m: int)
    requires Increasing(marks) && (marks != [] ==> Last(marks) < m)
    ensures Increasing(marks + [m])
    ensures Gaps(marks + [m]) == Gaps(marks) + [if marks == [] then 0 else m - Last(marks)]
  {
    assert (marks + [m])[..|marks|] == marks;
  }

  /** Finishing an edge that is tracked ahead of the last mark, or the edge before the first. */
  lemma FinishKeeps(l: Line)
    requires Consistent(l)
    requires l.t.sign == 0 || (l.t.last < l.t.cur && 48 <= l.t.cur)
    ensures var f := Finish(l);
            && f.t.cur == f.t.last == Last(f.marks) == (if l.t.sign == 0 then 48 else l.t.cur)
            && Increasing(f.marks) && f.out == Gaps(f.marks)
            && f.t.width == Last(f.out) >= 0
            && |f.marks| == |l.marks| + 1
  {
    hide Increasing, Gaps;
    GapsAppend(l.marks, Finish(l).t.cur);
  }

  lemma ThresholdRange(t: Tracker, x: nat)
    requires t.thresh >= THRESH_MIN && t.last <= 32 * x && t.width >= 0
    ensures THRESH_MIN <= Threshold(t, x) <= t.thresh
    ensures THRESH_MIN <= Kept(t, x) <= t.thresh
  {
    if t.width != 0 {
      FadeNonNegative(t.thresh, 32 * x - t.last, t.width);
    }
  }

  lemma FadeNonNegative(thresh: int, dx: int, width: int)
    requires thresh >= 0 && dx >= 0 && width > 0
    ensures thresh * dx / width / FADE >= 0
  {
    assert thresh * dx >= 0;
  }

  lemma CeilingMonotone(slope: int, range: nat)
    requires 0 <= slope <= range
    ensures Ceiling(slope) <= Ceiling(range)
  {}

  lemma TrackRange(t: Tracker, x: nat, w: Window, range: nat)
    requires Inflection(w) && Steady(w, x, range)
    ensures var n := Track(t, x, w);
            THRESH_MIN <= n.thresh <= Ceiling(range) && 32 * x < n.cur <= 32 * (x + 1) && n.sign == Slope(w)
  {
    hide Offset, Inflection, Slope;
    OffsetRange(w);
    CeilingMonotone(Abs(Slope(w)), range);
  }

  /** One sample keeps everything; an edge that starts to be tracked lies in (32x, 32(x + 1)]. */
  lemma ScanKeeps(l: Line, w: Window, range: nat)
    requires Scanning(l, range) && Steady(w, l.x, range)
    ensures Scanning(Scan(l, w), range)
    ensures Scan(l, w).t.cur == l.t.cur || (l.t.cur < Scan(l, w).t.cur && 32 * l.x < Scan(l, w).t.cur <= 32 * (l.x + 1))
    ensures l.marks == Scan(l, w).marks || Scan(l, w).marks == l.marks + [if l.t.sign == 0 then 48 else l.t.cur]
  {
    hide Slope, Offset, Inflection, Increasing, Gaps, Threshold, Kept, Track, Ceiling;
    ThresholdRange(l.t, l.x);
    if Inflection(w) && Threshold(l.t, l.x) <= Abs(Slope(w)) {
      assert l.x >= 2;
      var kept := l.(t := l.t.(thresh := Kept(l.t, l.x)));
      if Reverses(l.t.sign, Slope(w)) {
        FinishKeeps(kept);
        TrackRange(Finish(kept).t, l.x, w, range);
        TrackFrame(Finish(kept).t, l.x, w);
      } else {
        TrackRange(kept.t, l.x, w, range);
        TrackFrame(kept.t, l.x, w);
      }
    }
  }

  lemma TrackFrame(t: Tracker, x: nat, w: Window)
    ensures Track(t, x, w).last == t.last && Track(t, x, w).width == t.width
  {}

  // ---------- Every scan line ----------

  /** After any samples between lo and hi: marks rise, widths are their distances, the tracked edge
      lies ahead of the last mark and not beyond the samples read, and the threshold is bounded. */
  lemma {:induction false} RunKeeps(samples: seq<int>, lo: int, hi: int)
    requires lo <= hi && Within(samples, lo, hi)
    ensures Scanning(Run(samples), hi - lo) && Run(samples).x == |samples|
  {
    hide Scan, Scanning, WindowAt, Steady;
    if samples == [] {
      NewLineScans(hi - lo);
    } else {
      var k := |samples| - 1;
      RunKeeps(samples[..k], lo, hi);
      SteadyWindow(samples, k, lo, hi);
      ScanKeeps(Run(samples[..k]), WindowAt(samples, k), hi - lo);
      ScanAdvances(Run(samples[..k]), WindowAt(samples, k));
    }
  }

  lemma NewLineScans(range: nat)
    ensures Scanning(NEW_LINE, range)
  {}

  lemma ScanAdvances(l: Line, w: Window)
    ensures Scan(l, w).x == l.x + 1
  {}

  /** Each sample leaves the tracked edge alone or moves it into (32x, 32(x + 1)], and past every
      edge that was tracked before. */
  lemma TrackedEdgeAdvances(samples: seq<int>, y: int)
    ensures var was, now := Run(samples).t.cur, Run(samples + [y]).t.cur;
            now == was || (was < now && 32 * |samples| < now <= 32 * (|samples| + 1))
  {
    hide Scan, WindowAt, Steady, Scanning, Within;
    var k := |samples|;
    var lo, hi := Extremes(samples + [y]);
    WithinPrefix(samples, [y], lo, hi);
    RunKeeps(samples, lo, hi);
    SteadyWindow(samples + [y], k, lo, hi);
    ScanKeeps(Run(samples), WindowAt(samples + [y], k), hi - lo);
    RunAppend(samples, y);
  }

  // ---------- Which edge is tracked ----------

  /** The slope is the one at x - 1, or the one before it, and the steepest of those that go its way. */
  lemma SlopeMeans(w: Window)
    ensures var s, here, before := Slope(w), w.a1 - w.a2, w.a2 - w.a3;
            && (s == here || s == before) && (s >= 0 <==> here >= 0) && Abs(s) >= Abs(here)
            && ((before >= 0 <==> here >= 0) ==> Abs(s) >= Abs(before))
  {}

  /** The crossing at position j reaches the threshold of the line before it. */
  ghost predicate Accepted(samples: seq<int>, j: nat)
    requires j < |samples|
  {
    Inflection(WindowAt(samples, j)) && Threshold(Run(samples[..j]).t, j) <= Abs(Slope(WindowAt(samples, j)))
  }

  /** Position j belongs to the edge that is tracked at the end: no mark was made after it. */
  ghost predicate OfThisEdge(samples: seq<int>, j: nat)
    requires j < |samples|
  {
    Accepted(samples, j) && |Run(samples[..j + 1]).marks| == |Run(samples).marks|
  }

  /** The edge that is tracked lies at the crossing at position k, which is the first of the
      steepest of all that belong to it, and these all go the same way. */
  ghost predicate Tracks(samples: seq<int>, k: nat)
    requires k < |samples|
  {
    var t, w := Run(samples).t, WindowAt(samples, k);
    && OfThisEdge(samples, k) && t.sign == Slope(w)
    && CrossesAt(Curvature(w), PriorCurvature(w), t.cur - 32 * k)
    && forall j :: 0 <= j < |samples| && OfThisEdge(samples, j) ==>
         var s := Slope(WindowAt(samples, j));
         (s > 0 <==> t.sign > 0) && Abs(s) <= Abs(t.sign) && (j < k ==> Abs(s) < Abs(t.sign))
  }

  lemma WindowPrefix(samples: seq<int>, n: nat, j: nat)
    requires j < n <= |samples|
    ensures WindowAt(samples[..n], j) == WindowAt(samples, j) && samples[..n][..j] == samples[..j]
    ensures samples[..n][..j + 1] == samples[..j + 1]
    ensures Accepted(samples[..n], j) == Accepted(samples, j)
  {
    hide Inflection, Slope, Threshold, Average, Run;
    assert samples == samples[..n] + samples[n..];
    AveragePrefix(samples[..n], samples[n..], j);
    AveragePrefix(samples[..n], samples[n..], j - 1);
    AveragePrefix(samples[..n], samples[n..], j - 2);
    AveragePrefix(samples[..n], samples[n..], j - 3);
    assert samples[..n][..j] == samples[..j];
  }

  lemma {:induction false} MarksGrow(samples: seq<int>, j: nat)
    requires j <= |samples|
    ensures |Run(samples[..j]).marks| <= |Run(samples).marks|
  {
    hide Scan, WindowAt;
    var n := |samples| - 1;
    if j == n + 1 {
      assert samples[..j] == samples;
    } else {
      MarksGrow(samples[..n], j);
      assert samples[..n][..j] == samples[..j];
      MarksOfScan(Run(samples[..n]), WindowAt(samples, n));
    }
  }

  lemma MarksOfScan(l: Line, w: Window)
    ensures |l.marks| <= |Scan(l, w).marks| <= |l.marks| + 1
  {
    hide Slope, Inflection, Threshold, Kept, Track;
  }

  lemma SharpEnough(t: Tracker, x: nat)
    ensures Threshold(t, x) >= THRESH_MIN
  {}

  /** What one sample does to the tracked edge. */
  lemma ScanTracks(l: Line, w: Window)
    ensures var n, s := Scan(l, w), Slope(w);
            if Inflection(w) && Threshold(l.t, l.x) <= Abs(s) && (Reverses(l.t.sign, s) || Abs(l.t.sign) < Abs(s))
            then n.t.sign == s != 0 && CrossesAt(Curvature(w), PriorCurvature(w), n.t.cur - 32 * l.x) &&
              (if Reverses(l.t.sign, s) then |n.marks| == |l.marks| + 1 else n.marks == l.marks)
            else n.t.sign == l.t.sign && n.t.cur == l.t.cur && n.marks == l.marks
  {
    hide Slope, Inflection, Threshold, Kept, Offset, Curvature, PriorCurvature, CrossesAt;
    SharpEnough(l.t, l.x);
    if Inflection(w) {
      OffsetCrosses(w);
    }
  }

  /** The edge that is tracked stays where it is. */
  lemma StillTracks(samples: seq<int>, k: nat)
    requires samples != []
    requires var n := |samples| - 1;
             var l, m, s := Run(samples[..n]), Run(samples), Slope(WindowAt(samples, n));
             && l.t.sign != 0 && k < n && Tracks(samples[..n], k)
             && m.t.sign == l.t.sign && m.t.cur == l.t.cur && m.marks == l.marks
             && (Accepted(samples, n) ==> (s > 0 <==> l.t.sign > 0) && Abs(s) <= Abs(l.t.sign))
    ensures Tracks(samples, k)
  {
    hide Slope, Inflection, Threshold, Accepted, WindowAt, Run, CrossesAt;
    var n := |samples| - 1;
    forall j | 0 <= j < n
      ensures OfThisEdge(samples, j) == OfThisEdge(samples[..n], j)
      ensures WindowAt(samples[..n], j) == WindowAt(samples, j)
    {
      WindowPrefix(samples, n, j);
    }
  }

  /** The edge that is tracked is the new one; `was` is where the one before it was, if there was one. */
  lemma NowTracks(samples: seq<int>, was: nat)
    requires samples != []
    requires var n := |samples| - 1;
             var w, l, m := WindowAt(samples, n), Run(samples[..n]), Run(samples);
             && Accepted(samples, n) && m.t.sign == Slope(w)
             && CrossesAt(Curvature(w), PriorCurvature(w), m.t.cur - 32 * n)
             && (m.marks == l.marks && l.t.sign != 0 ==>
                   && was < n && Tracks(samples[..n], was)
                   && (l.t.sign > 0 <==> m.t.sign > 0) && Abs(l.t.sign) < Abs(m.t.sign))
             && (m.marks == l.marks && l.t.sign == 0 ==> forall j :: 0 <= j < n ==> !Accepted(samples[..n], j))
             && (m.marks == l.marks || |m.marks| == |l.marks| + 1)
    ensures Tracks(samples, |samples| - 1)
  {
    hide Slope, Inflection, Threshold, Accepted, WindowAt, Run, CrossesAt, Curvature, PriorCurvature;
    var n := |samples| - 1;
    assert samples[..n + 1] == samples;
    forall j | 0 <= j < n && OfThisEdge(samples, j)
      ensures var s, t := Slope(WindowAt(samples, j)), Run(samples).t;
              (s > 0 <==> t.sign > 0) && Abs(s) < Abs(t.sign)
    {
      WindowPrefix(samples, n, j);
      MarksGrow(samples[..n], j + 1);
      if Run(samples[..n]).t.sign != 0 {
        assert OfThisEdge(samples[..n], j);
      }
    }
  }

  /** For every scan line: as long as no crossing was accepted nothing is tracked; after that the
      tracked edge is the first of the steepest crossings since the last mark. As a rising edge is
      tracked exactly after an odd number of marks (Consistent), every accepted crossing that goes
      the other way makes a mark, and nothing else does. */
  lemma {:induction false} SteepestTracked(samples: seq<int>)
    ensures if Run(samples).t.sign == 0 then forall j :: 0 <= j < |samples| ==> !Accepted(samples, j)
            else exists k :: 0 <= k < |samples| && Tracks(samples, k)
  {
    hide Slope, Inflection, Threshold, WindowAt, CrossesAt, Scan, Tracks, Curvature, PriorCurvature;
    if samples == [] {
    } else {
      var n := |samples| - 1;
      var l, w := Run(samples[..n]), WindowAt(samples, n);
      SteepestTracked(samples[..n]);
      RunLength(samples[..n]);
      ScanTracks(l, w);
      if Accepted(samples, n) {
        ScanSlope(samples, n);
      }
      var was := 0;
      if l.t.sign != 0 {
        was :| 0 <= was < n && Tracks(samples[..n], was);
      }
      if Accepted(samples, n) && (Reverses(l.t.sign, Slope(w)) || Abs(l.t.sign) < Abs(Slope(w))) {
        NowTracks(samples, was);
      } else if l.t.sign != 0 {
        StillTracks(samples, was);
      } else {
        forall j | 0 <= j < n
          ensures !Accepted(samples, j)
        {
          WindowPrefix(samples, n, j);
        }
      }
    }
  }

  lemma {:induction false} RunLength(samples: seq<int>)
    ensures Run(samples).x == |samples|
  {
    hide Scan;
    if samples == [] {
    } else {
      RunLength(samples[..|samples| - 1]);
      ScanAdvances(Run(samples[..|samples| - 1]), WindowAt(samples, |samples| - 1));
    }
  }

  lemma ScanSlope(samples: seq<int>, j: nat)
    requires j < |samples| && Accepted(samples, j)
    ensures Slope(WindowAt(samples, j)) != 0
  {
    SharpEnough(Run(samples[..j]).t, j);
  }

  lemma RunAppend(samples: seq<int>, y: int)
    ensures Run(samples + [y]) == Scan(Run(samples), WindowAt(samples + [y], |samples|))
  {
    hide Scan, WindowAt;
    assert (samples + [y])[..|samples|] == samples;
  }

  lemma WithinPrefix(samples: seq<int>, more: seq<int>, lo: int, hi: int)
    requires Within(samples + more, lo, hi)
    ensures Within(samples, lo, hi)
  {
    assert forall k :: 0 <= k < |samples| ==> samples[k] == (samples + more)[k];
  }

  lemma {:induction false} Extremes(samples: seq<int>) returns (lo: int, hi: int)
    ensures lo <= hi && Within(samples, lo, hi)
  {
    if samples == [] {
      lo, hi := 0, 0;
    } else {
      var k := |samples| - 1;
      lo, hi := Extremes(samples[..k]);
      assert forall i :: 0 <= i < k ==> samples[i] == samples[..k][i];
      lo, hi := if samples[k] < lo then samples[k] else lo, if samples[k] > hi then samples[k] else hi;
    }
  }

  function Sum(s: seq<int>): int {
    if s == [] then 0 else Sum(s[..|s| - 1]) + s[|s| - 1]
  }

  lemma {:induction false} GapAt(marks: seq<int>, i: nat)
    ensures |Gaps(marks)| == |marks|
    ensures i < |marks| ==> Gaps(marks)[i] == if i == 0 then 0 else marks[i] - marks[i - 1]
  {
    if marks == [] {
    } else {
      GapAt(marks[..|marks| - 1], i);
    }
  }

  lemma {:induction false} SumOfGaps(marks: seq<int>)
    requires marks != []
    ensures Sum(Gaps(marks)) == Last(marks) - marks[0]
  {
    hide Sum, Gaps;
    var k := |marks| - 1;
    GapsLast(marks);
    SumAppend(Gaps(marks[..k]), if k == 0 then 0 else marks[k] - marks[k - 1]);
    if k == 0 {
    } else {
      SumOfGaps(marks[..k]);
    }
  }

  lemma GapsLast(marks: seq<int>)
    requires marks != []
    ensures var k := |marks| - 1;
            && Gaps(marks) == Gaps(marks[..k]) + [if k == 0 then 0 else marks[k] - marks[k - 1]]
            && (k == 0 ==> Sum(Gaps(marks[..k])) == 0)
  {}

  lemma SumAppend(s: seq<int>, v: int)
    ensures Sum(s + [v]) == Sum(s) + v
  {
    assert (s + [v])[..|s|] == s;
  }

  /** The widths telescope, and only the first of them is 0. */
  lemma Telescope(marks: seq<int>)
    requires marks != [] && Increasing(marks)
    ensures |Gaps(marks)| == |marks| && Gaps(marks)[0] == 0
    ensures Sum(Gaps(marks)) == Last(marks) - marks[0]
    ensures forall i :: 0 < i < |marks| ==> Gaps(marks)[i] > 0
  {
    hide Gaps, Sum;
    SumOfGaps(marks);
    GapAt(marks, 0);
    forall i | 0 < i < |marks|
      ensures Gaps(marks)[i] > 0
    {
      GapAt(marks, i);
    }
  }

  /** No unsigned subtraction or product of a scan wraps around for 8-bit samples on a line of at
      most 2^20 of them. */
  lemma FitsUnsigned(samples: seq<int>)
    requires Within(samples, 0, 255) && |samples| <= 0x10_0000
    ensures var l := Run(samples);
            && 0 <= l.t.last <= l.t.cur && 0 <= l.t.width && 32 * l.x + 48 < 0x1_0000_0000
            && 0 <= 32 * l.x - l.t.last && 0 <= l.t.thresh * (32 * l.x - l.t.last) < 0x1_0000_0000
  {
    RunKeeps(samples, 0, 255);
    var l := Run(samples);
    assert Ceiling(255) == 112;
    assert l.t.last >= 0;
    ProductBound(l.t.thresh, 32 * l.x - l.t.last, 112, 0x200_0000);
  }

  lemma ProductBound(a: int, b: int, m: int, n: int)
    requires 0 <= a <= m && 0 <= b <= n
    ensures 0 <= a * b <= m * n
  {}

  // ---------- The threshold fades ----------

  lemma DivAntitone(a: int, b: int, d: int)
    requires a <= b && d > 0
    ensures a / d <= b / d
  {
    if a / d > b / d {
      MulAtMost(d, b / d + 1, a / d);
    }
  }

  lemma DivAtLeast(n: int, d: int, q: int)
    requires d > 0 && n >= q * d
    ensures n / d >= q
  {
    if n / d < q {
      MulAtMost(d, n / d + 1, q);
    }
  }

  /** The further from the last edge, the lower the threshold; at eight times the last width it is
      back at the minimum. */
  lemma ThresholdFades(t: Tracker, x: nat, y: nat)
    requires t.thresh >= THRESH_MIN && t.width > 0 && t.last <= 32 * x && x <= y
    ensures Threshold(t, y) <= Threshold(t, x)
    ensures 32 * x - t.last >= FADE * t.width ==> Threshold(t, x) == THRESH_MIN
  {
    var p, q := t.thresh * (32 * x - t.last), t.thresh * (32 * y - t.last);
    MulAtMost(t.thresh, 32 * x - t.last, 32 * y - t.last);
    DivAntitone(p, q, t.width);
    DivAntitone(p / t.width, q / t.width, FADE);
    if 32 * x - t.last >= FADE * t.width {
      MulAtMost(t.thresh, FADE * t.width, 32 * x - t.last);
      assert t.thresh * (FADE * t.width) == (t.thresh * FADE) * t.width;
      DivAtLeast(p, t.width, t.thresh * FADE);
    }
  }

  /** q is n / m, rounded down. */
  ghost predicate IsQuotient(n: int, m: int, q: int) {
    q * m <= n < (q + 1) * m
  }

  /** Dividing by the width and then by eight is dividing by eight widths. */
  lemma NestedQuotient(n: int, w: int)
    requires n >= 0 && w > 0
    ensures IsQuotient(n, 8 * w, n / w / 8)
  {
    var q := n / w;
    var r := q / 8;
    MulAtMost(w, 8 * r, q);
    MulAtMost(w, q + 1, 8 * (r + 1));
    assert w * (8 * r) == r * (8 * w) && w * (8 * (r + 1)) == (r + 1) * (8 * w);
    assert w * q <= n < w * (q + 1);
  }

  lemma QuotientBelow(n: int, m: int, q: int, c: int)
    requires m > 0 && IsQuotient(n, m, q)
    ensures q < c <==> n < c * m
  {
    MulAtMost(m, q + 1, c);
    MulAtMost(m, c, q);
  }

  lemma ThresholdCases(t: Tracker, x: nat)
    requires t.thresh >= THRESH_MIN && t.width > 0
    ensures Threshold(t, x) == if Fade(t, x) < t.thresh - 4 && t.thresh > 4 then t.thresh - Fade(t, x) else 4
  {
    hide Fade;
  }

  lemma FadeIsQuotient(t: Tracker, x: nat)
    requires t.thresh >= 0 && t.width > 0 && t.last <= 32 * x
    ensures IsQuotient(t.thresh * (32 * x - t.last), 8 * t.width, Fade(t, x))
  {
    hide IsQuotient;
    assert t.thresh * (32 * x - t.last) >= 0;
    NestedQuotient(t.thresh * (32 * x - t.last), t.width);
  }

  /** The threshold falls on a straight line that would reach zero at eight widths, and stays at 4
      once it gets there. */
  lemma ThresholdLine(t: Tracker, x: nat)
    requires t.thresh >= THRESH_MIN && t.width > 0 && t.last <= 32 * x
    ensures var now, part := Threshold(t, x), t.thresh * (32 * x - t.last);
            && (now > 4 <==> t.thresh > 4 && part < (t.thresh - 4) * (8 * t.width))
            && (now > 4 ==> IsQuotient(part, 8 * t.width, t.thresh - now)) && now >= 4
  {
    hide Threshold, Fade, IsQuotient;
    ThresholdCases(t, x);
    FadeIsQuotient(t, x);
    QuotientBelow(t.thresh * (32 * x - t.last), 8 * t.width, Fade(t, x), t.thresh - 4);
  }

  // ---------- The end of a line ----------

  /** How many flushes end a line: two after a rising edge, three after a falling one. */
  function FlushesNeeded(l: Line): nat {
    if l.t.sign == 0 then 0 else if l.t.sign > 0 then 2 else 3
  }

  /** The edges of a finished line: the tracked one, and for a falling one the border after it. */
  function FinalMarks(l: Line): seq<int> {
    if l.t.sign == 0 then l.marks
    else if l.t.sign > 0 then l.marks + [l.t.cur]
    else l.marks + [l.t.cur] + [32 * l.x + 16]
  }

  /** Flushing a line to its end finishes it exactly once: the marks still rise, the widths are
      still their distances, a single 0 follows them, and the number of widths is odd. */
  lemma LineEnds(l: Line, range: nat)
    requires Scanning(l, range) && l.t.sign != 0
    ensures var n, e := FlushesNeeded(l), Flushes(l, FlushesNeeded(l));
            && e.t.sign == 0 && e.t.width == 0 && Flushes(l, n - 1).t.sign != 0
            && e.marks == FinalMarks(l) && Increasing(e.marks) && e.out == Gaps(e.marks) + [0]
            && |e.marks| % 2 == 0
  {
    hide Increasing, Gaps;
    GapsAppend(l.marks, l.t.cur);
    FlushTracked(l);
    var one := FlushLine(l);
    assert Flushes(l, 1) == one by { assert Flushes(l, 0) == l; }
    assert Flushes(l, 2) == FlushLine(one);
    if l.t.sign < 0 {
      GapsAppend(one.marks, one.t.cur);
      assert Flushes(l, 3) == FlushLine(FlushLine(one));
    }
  }

  lemma FlushTracked(l: Line)
    requires l.t.sign != 0 && l.t.cur <= 32 * l.x
    requires if l.marks == [] then l.t.last == 0 else l.t.last == Last(l.marks) != 0
    ensures var f := FlushLine(l);
            && f.marks == l.marks + [l.t.cur] && f.t.last == l.t.cur && f.t.cur == 32 * l.x + 16
            && f.t.sign == -l.t.sign && f.x == l.x
            && f.out == l.out + [if l.marks == [] then 0 else l.t.cur - Last(l.marks)]
  {}

  /** What the decoder gets for a whole line of samples: nothing when no slope was steep enough;
      otherwise a first width of 0, positive widths that add up to the distance from the first
      mark to the last, and a final 0. */
  lemma WholeLine(samples: seq<int>)
    ensures var l := Run(samples); var e := Flushes(l, FlushesNeeded(l));
            if l.t.sign == 0 then e.out == []
            else
              && |e.out| % 2 == 1 && |e.out| >= 3 && e.out[0] == 0 && Last(e.out) == 0
              && (forall i :: 0 < i < |e.out| - 1 ==> e.out[i] > 0)
              && Sum(e.out) == (if l.t.sign > 0 then l.t.cur else 32 * |samples| + 16) - FinalMarks(l)[0]
  {
    hide Scanning, Flushes, Run, Gaps, Increasing;
    var lo, hi := Extremes(samples);
    RunKeeps(samples, lo, hi);
    var l := Run(samples);
    if l.t.sign == 0 {
      EmptyLine(l, hi - lo);
    } else {
      LineEnds(l, hi - lo);
      var e := Flushes(l, FlushesNeeded(l));
      assert e.marks != [];
      Telescope(e.marks);
      assert e.out[..|e.out| - 1] == Gaps(e.marks);
      forall i | 0 < i < |e.out| - 1
        ensures e.out[i] > 0
      {
        assert e.out[i] == Gaps(e.marks)[i];
      }
    }
  }

  lemma EmptyLine(l: Line, range: nat)
    requires Scanning(l, range) && l.t.sign == 0
    ensures l.out == [] && Flushes(l, 0) == l
  {}

  /** Why nothing but a flush or a new scan may follow a flush: after the two flushes of a quiet
      border the last edge lies behind the next sample, which the unsigned distance to it cannot
      express, exactly when the line ended on a falling edge. */
  lemma BehindTheBorder(l: Line, range: nat)
    requires Scanning(l, range)
    ensures 32 * l.x - Flushes(l, 2).t.last < 0 <==> l.t.sign < 0
  {
    assert Flushes(l, 2) == FlushLine(Flushes(l, 1)) && Flushes(l, 1) == FlushLine(Flushes(l, 0)) && Flushes(l, 0) == l;
  }

  // ---------- The steps of the scanner object ----------

  /** What Flush leaves to do: at most three flushes once the border edge has been set. */
  function Remaining(l: Line): nat {
    if l.t.sign == 0 then 0
    else (if l.t.cur != 32 * l.x + 16 then 2 else 0) + (if l.t.sign > 0 then 2 else 1)
  }

  lemma RemainingDrops(l: Line)
    requires l.t.sign != 0
    ensures var f := FlushLine(l);
            && f.x == l.x && Remaining(f) < Remaining(l) <= 4 && Remaining(f) <= 2
  {}

  lemma TwoFlushes(l: Line)
    ensures Flushes(l, 2) == FlushLine(FlushLine(l))
  {
    assert Flushes(l, 1) == FlushLine(Flushes(l, 0)) && Flushes(l, 0) == l;
  }

  lemma Needed(l: Line, range: nat)
    requires Scanning(l, range)
    ensures Flushes(l, FlushesNeeded(l)).t.sign == 0 && FlushesNeeded(l) <= 3
    ensures forall n: nat :: n < FlushesNeeded(l) ==> Flushes(l, n).t.sign != 0
  {
    if l.t.sign != 0 {
      LineEnds(l, range);
      forall n: nat | n < FlushesNeeded(l)
        ensures Flushes(l, n).t.sign != 0
      {
        if Flushes(l, n).t.sign == 0 {
          FlushesPastTheEnd(l, n, FlushesNeeded(l) - 1);
        }
      }
    }
  }

  lemma {:induction false} MoreFlushes(l: Line, m: nat, n: nat)
    ensures Flushes(Flushes(l, m), n) == Flushes(l, m + n)
  {
    if n == 0 {
    } else {
      MoreFlushes(l, m, n - 1);
    }
  }

  lemma {:induction false} FlushesPastTheEnd(l: Line, m: nat, n: nat)
    requires Flushes(l, m).t.sign == 0
    ensures n >= m ==> Flushes(l, n) == Flushes(l, m)
  {
    if n <= m {
    } else {
      FlushesPastTheEnd(l, m, n - 1);
    }
  }

  lemma SameEnd(l: Line, m: nat, n: nat)
    requires Flushes(l, m).t.sign == 0 && Flushes(l, n).t.sign == 0
    ensures Flushes(l, m) == Flushes(l, n)
  {
    FlushesPastTheEnd(l, m, n);
    FlushesPastTheEnd(l, n, m);
  }

  /** Writing the next average over the oldest one. */
  lemma RingPush(ring: seq<int>, was: seq<int>, y: int)
    requires Ring(ring, was) && was != []
    ensures var x := |was|; var before := ring[(x - 1) % 4];
            var next := ring[x % 4 := before + (y - before) * EWMA_WEIGHT / 32];
            Ring(next, was + [y])
            && WindowAt(was + [y], x) == Window(next[x % 4], before, next[(x - 2) % 4], next[(x - 3) % 4])
  {
    hide Average;
    var x := |was|;
    Slots(x);
    AverageStep(was + [y], x);
    AveragePrefix(was, [y], x - 1);
    AveragePrefix(was, [y], x - 2);
    AveragePrefix(was, [y], x - 3);
  }

  lemma AverageStep(samples: seq<int>, k: int)
    requires 0 < k < |samples|
    ensures Average(samples, k) == Average(samples, k - 1) + (samples[k] - Average(samples, k - 1)) * EWMA_WEIGHT / 32
  {}

  lemma Slots(x: nat)
    ensures x % 4 != (x - 1) % 4 && x % 4 != (x - 2) % 4 && x % 4 != (x - 3) % 4 && (x + 1 - 4) % 4 == (x - 3) % 4
  {}

  lemma RingStart(y: int)
    ensures Ring([y, y, y, y], [y]) && WindowAt([y], 0) == Window(y, y, y, y)
  {}

  lemma Differences(w: Window, y1: int, y2: int, before: int)
    requires y2 == w.a0 - w.a1 * 2 + w.a2 && before == w.a1 - w.a2 * 2 + w.a3
    requires y1 == if Abs(w.a1 - w.a2) < Abs(w.a2 - w.a3) && (w.a1 - w.a2 >= 0) == (w.a2 - w.a3 >= 0)
                   then w.a2 - w.a3 else w.a1 - w.a2
    ensures y1 == Slope(w) && y2 == Curvature(w) && before == PriorCurvature(w)
    ensures Inflection(w) <==> y2 == 0 || (if y2 > 0 then before < 0 else before > 0)
  {}

  lemma FinishDecodes(l: Line)
    ensures |Finish(l).out| == |l.out| + 1
  {}

  lemma ScanCases(l: Line, w: Window)
    ensures var s, next := Slope(w), Scan(l, w);
            var kept := l.(t := l.t.(thresh := Kept(l.t, l.x)));
            && (!Inflection(w) ==> next == l.(x := l.x + 1))
            && (Inflection(w) && Threshold(l.t, l.x) > Abs(s) ==> next == kept.(x := l.x + 1))
            && (Inflection(w) && Threshold(l.t, l.x) <= Abs(s) ==>
                  if Reverses(l.t.sign, s) then next == Finish(kept).(t := Track(Finish(kept).t, l.x, w), x := l.x + 1)
                  else if Abs(l.t.sign) < Abs(s) then next == kept.(t := Track(kept.t, l.x, w), x := l.x + 1)
                  else next == kept.(x := l.x + 1))
  {}

  // ---------- What the decoder answers ----------

  const ZBAR_NONE := 0
  const ZBAR_PARTIAL := 1

  /** What new_scan makes of the answers to n flushes, from the one with number `from` on. */
  function Flushed(codes: nat -> int, from: nat, n: nat): int {
    if n == 0 then ZBAR_NONE
    else
      var edge, tmp := Flushed(codes, from, n - 1), codes(from + n - 1);
      if tmp < 0 || tmp > edge then tmp else edge
  }

  /** Without a negative answer it is the largest, and at least ZBAR_NONE. A negative answer gets
      through exactly when it is the last. */
  lemma {:induction false} FlushedMeans(codes: nat -> int, from: nat, n: nat)
    ensures Flushed(codes, from, n) < 0 <==> n > 0 && codes(from + n - 1) < 0
    ensures (forall k :: from <= k < from + n ==> codes(k) >= 0) ==>
              var r := Flushed(codes, from, n);
              && (forall k :: from <= k < from + n ==> codes(k) <= r)
              && (r == ZBAR_NONE || exists k :: from <= k < from + n && codes(k) == r)
  {
    if n == 0 {
    } else {
      FlushedMeans(codes, from, n - 1);
    }
  }

  // ---------- The scanner object ----------

  class Scanner {
    /** What zbar_decode_width answers to each width in turn; ZBAR_PARTIAL when there is no decoder. */
    const codes: nat -> int
    /** How many widths have been passed on. */
    var calls: nat
    var x: nat
    var y0: array<int>
    var y1Sign: int
    var y1Thresh: int
    var curEdge: int
    var lastEdge: int
    var width: int
    /** The widths passed to the decoder since the last new scan. */
    var decoded: seq<int>
    ghost var marks: seq<int>
    ghost var samples: seq<int>

    ghost predicate Valid()
      reads this, y0
    {
      && y0.Length == 4 && |samples| == x
      && Ring(y0[..], samples)
    }

    ghost function Here(): Line
      reads this
    {
      Line(x, Tracker(y1Sign, y1Thresh, curEdge, lastEdge, width), decoded, marks)
    }

    constructor (codes: nat -> int)
      ensures Valid() && fresh(y0) && Here() == NEW_LINE && samples == []
      ensures this.codes == codes && calls == 0
    {
      this.codes, calls := codes, 0;
      x, y0, y1Sign, y1Thresh, curEdge, lastEdge, width := 0, new int[4], 0, THRESH_MIN, 0, 0, 0;
      decoded, marks, samples := [], [], [];
    }

    /** zbar_scanner_reset. */
    method Reset()
      requires y0.Length == 4
      modifies this, y0
      ensures Valid() && y0 == old(y0) && Here() == NEW_LINE && samples == [] && calls == old(calls)
    {
      x, y1Sign, y1Thresh, curEdge, lastEdge, width := 0, 0, THRESH_MIN, 0, 0, 0;
      y0[0], y0[1], y0[2], y0[3] := 0, 0, 0, 0;
      decoded, marks, samples := [], [], [];
    }

    method CalcThresh() returns (thresh: int)
      modifies this`y1Thresh
      ensures thresh == Threshold(old(Here()).t, x) && y1Thresh == Kept(old(Here()).t, x)
    {
      thresh := y1Thresh;
      if thresh <= THRESH_MIN || width == 0 {
        return THRESH_MIN;
      }
      var dx := 32 * x - lastEdge;
      var t := thresh * dx;
      t := t / width;
      t := t / FADE;
      if thresh > t {
        thresh := thresh - t;
        if thresh > THRESH_MIN {
          return;
        }
      }
      y1Thresh := THRESH_MIN;
      return THRESH_MIN;
    }

    method DecodeWidth(width: int) returns (edge: int)
      modifies this`decoded, this`calls
      ensures decoded == old(decoded) + [width] && edge == codes(old(calls)) && calls == old(calls) + 1
    {
      decoded := decoded + [width];
      edge := codes(calls);
      calls := calls + 1;
    }

    method ProcessEdge() returns (edge: int)
      modifies this`curEdge, this`lastEdge, this`width, this`decoded, this`calls, this`marks
      ensures Here() == Finish(old(Here())) && edge == codes(old(calls)) && calls == old(calls) + 1
    {
      if y1Sign == 0 {
        curEdge := 48;
        lastEdge := curEdge;
      } else if lastEdge == 0 {
        lastEdge := curEdge;
      }
      width := curEdge - lastEdge;
      lastEdge := curEdge;
      marks := marks + [curEdge];
      edge := DecodeWidth(width);
    }

    method Flush() returns (edge: int)
      modifies this`curEdge, this`lastEdge, this`width, this`decoded, this`calls, this`marks, this`y1Sign
      ensures Here() == FlushLine(old(Here()))
      ensures if old(y1Sign) == 0 then edge == ZBAR_NONE && calls == old(calls)
              else edge == codes(old(calls)) && calls == old(calls) + 1
    {
      if y1Sign == 0 {
        return ZBAR_NONE;
      }
      var border := 32 * x + 16;
      if curEdge != border || y1Sign > 0 {
        edge := ProcessEdge();
        curEdge := border;
        y1Sign := -y1Sign;
        return;
      }
      y1Sign, width := 0, 0;
      edge := DecodeWidth(0);
    }

    /** zbar_scanner_new_scan: flushes until the line has ended, at most three times from any state
        whatever, and starts afresh. */
    method NewScan() returns (edge: int, ghost ended: Line, ghost n: nat)
      requires Valid()
      modifies this, y0
      ensures Valid() && y0 == old(y0) && Here() == NEW_LINE && samples == []
      ensures n <= 3 && ended == Flushes(old(Here()), n) && ended.t.sign == 0
      ensures n > 0 ==> Flushes(old(Here()), n - 1).t.sign != 0
      ensures edge == Flushed(codes, old(calls), n) && calls == old(calls) + n
    {
      hide FlushLine, Remaining;
      ghost var line := Here();
      edge, n := ZBAR_NONE, 0;
      while y1Sign != 0
        invariant Valid() && y0 == old(y0)
        invariant Here() == Flushes(line, n)
        invariant n > 0 ==> Flushes(line, n - 1).t.sign != 0
        invariant n > 0 ==> n + Remaining(Here()) <= 3
        invariant edge == Flushed(codes, old(calls), n) && calls == old(calls) + n
        decreases Remaining(Here())
      {
        RemainingDrops(Here());
        var tmp := Flush();
        if tmp < 0 || tmp > edge {
          edge := tmp;
        }
        n := n + 1;
      }
      ended := Here();
      Reset();
    }

    /** quiet_border of qrcode/src/img_scanner.c:629-636. From a line as it was scanned, its two
        flushes and the new scan together are the flushes that the line needs, no more. */
    method QuietBorder(ghost range: nat) returns (ghost ended: Line)
      requires Valid() && Scanning(Here(), range)
      modifies this, y0
      ensures Valid() && y0 == old(y0) && Here() == NEW_LINE && samples == []
      ensures ended == Flushes(old(Here()), FlushesNeeded(old(Here()))) && ended.t.sign == 0
    {
      hide FlushLine, Flushes, Scanning, Ring, FlushesNeeded;
      ghost var l := Here();
      Needed(l, range);
      TwoFlushes(l);
      var first := Flush();
      var second := Flush();
      assert Here() == Flushes(l, 2);
      var edge;
      ghost var n;
      edge, ended, n := NewScan();
      MoreFlushes(l, 2, n);
      SameEnd(l, FlushesNeeded(l), 2 + n);
    }

    /** The first part of zbar_scan_y: the sample enters the ring of averages. */
    method Push(y: int) returns (ghost w: Window, y0_0: int, y0_1: int, y0_2: int, y0_3: int)
      requires Valid()
      modifies this`samples, y0
      ensures samples == old(samples) + [y] && y0.Length == 4 && Ring(y0[..], samples)
      ensures x > 0 ==> 7 * y0_1 + 25 * y - 32 < 32 * y0_0 <= 7 * y0_1 + 25 * y
      ensures x == 0 ==> y0_0 == y0_1 == y0_2 == y0_3 == y
      ensures w == Window(y0_0, y0_1, y0_2, y0_3) == WindowAt(samples, x)
    {
      hide Ring, WindowAt, Average;
      ghost var was, ring := samples, y0[..];
      samples := samples + [y];
      y0_1 := y0[(x - 1) % 4];
      y0_0 := y0_1;
      if x != 0 {
        y0_0 := y0_0 + (y - y0_1) * EWMA_WEIGHT / 32;
        y0[x % 4] := y0_0;
        RingPush(ring, was, y);
        assert y0[..] == ring[x % 4 := y0_0];
      } else {
        y0_1 := y;
        y0_0 := y;
        y0[0], y0[1], y0[2], y0[3] := y, y, y, y;
        RingStart(y);
        assert y0[..] == [y, y, y, y] && samples == [y];
      }
      y0_2 := y0[(x - 2) % 4];
      y0_3 := y0[(x - 3) % 4];
      w := WindowAt(samples, x);
    }

    /** The last part of zbar_scan_y: a new steepest slope, its threshold and its edge. */
    method Update(y1_1: int, y2_1: int, y2_2: int, ghost w: Window)
      requires y1_1 == Slope(w) && y2_1 == Curvature(w) && y2_2 == PriorCurvature(w)
      modifies this`y1Sign, this`y1Thresh, this`curEdge
      ensures Here() == old(Here()).(t := Track(old(Here()).t, x, w))
      ensures Inflection(w) ==> IsEdge(w, y1Sign, curEdge - 32 * x)
      ensures y1Thresh >= 4 && (y1Thresh > 4 ==> 14 * Abs(y1_1) - 16 < 32 * y1Thresh <= 14 * Abs(y1_1) + 16)
    {
      hide Slope, Curvature, PriorCurvature, TruncDiv, Inflection, IsEdge;
      if Inflection(w) {
        OffsetIsEdge(w);
      }
      y1Sign := y1_1;
      y1Thresh := (Abs(y1_1) * THRESH_INIT + 16) / 32;
      if y1Thresh < THRESH_MIN {
        y1Thresh := THRESH_MIN;
      }
      var d := y2_1 - y2_2;
      curEdge := 32;
      if d == 0 {
        curEdge := 16;
      } else if y2_1 != 0 {
        curEdge := curEdge - TruncDiv(y2_1 * 32 + 1, d);
      }
      curEdge := curEdge + x * 32;
    }

    /** zbar_scan_y: the ring holds the averages of the last four positions, and the tracker moves
        as the window around the sample says. */
    method ScanY(y: int) returns (edge: int)
      requires Valid()
      modifies this, y0
      ensures y0 == old(y0) && samples == old(samples) + [y]
      ensures Here() == Scan(old(Here()), WindowAt(samples, old(x)))
      ensures old(Here()) == Run(old(samples)) ==> Here() == Run(samples)
      ensures curEdge != old(curEdge) ==> IsEdge(WindowAt(samples, old(x)), y1Sign, curEdge - 32 * old(x))
      ensures if |decoded| > |old(decoded)| then edge == codes(old(calls)) && calls == old(calls) + 1
              else edge == ZBAR_NONE && calls == old(calls)
      ensures Valid()
    {
      hide Scan, Slope, Curvature, PriorCurvature, Inflection, Track, Threshold, Kept, Finish, Ring, WindowAt, Run;
      hide IsEdge;
      ghost var was, line := samples, Here();
      var w, y0_0, y0_1, y0_2, y0_3 := Push(y);
      var y1_1 := y0_1 - y0_2;
      var y1_2 := y0_2 - y0_3;
      if Abs(y1_1) < Abs(y1_2) && (y1_1 >= 0) == (y1_2 >= 0) {
        y1_1 := y1_2;
      }
      var y2_1 := y0_0 - y0_1 * 2 + y0_2;
      var y2_2 := y0_1 - y0_2 * 2 + y0_3;
      Differences(w, y1_1, y2_1, y2_2);
      ScanCases(line, w);
      FinishDecodes(line.(t := line.t.(thresh := Kept(line.t, line.x))));
      edge := ZBAR_NONE;
      if y2_1 == 0 || (if y2_1 > 0 then y2_2 < 0 else y2_2 > 0) {
        var thresh := CalcThresh();
        if thresh <= Abs(y1_1) {
          var rev := if y1Sign > 0 then y1_1 < 0 else y1_1 > 0;
          if rev {
            edge := ProcessEdge();
          }
          if rev || Abs(y1Sign) < Abs(y1_1) {
            Update(y1_1, y2_1, y2_2, w);
          }
        }
      }
      x := x + 1;
      RunAppend(was, y);
    }
  }
}
