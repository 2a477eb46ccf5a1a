/** When the deploy report's totals count no time twice.

    A phase is counted when it is not the sequence wrapper itself and is either outermost or
    directly inside the sequence wrapper.  `MostCounted` is the largest number of counted
    phases nested in one another; it is what the recorded total can exceed the clock by. */
module TimingTotals {
  import opened ReleaseTiming
  import opened TimedForest

  function Max(a: nat, b: nat): nat {
    if a < b then b else a
  }

  function MostCounted(f: Forest, wrappers: seq<string>): nat {
    if f.Nil? then 0 else
      Max((if Counts(f.head, wrappers) then 1 else 0)
          + (if f.head.Started? then MostCounted(f.head.kids, Enclose(wrappers, f.head.name)) else 0),
          MostCounted(f.rest, wrappers))
  }

  function MostInside(p: Phase, wrappers: seq<string>): nat {
    if p.Started? then MostCounted(p.kids, Enclose(wrappers, p.name)) else 0
  }

  function MostCountedIn(p: Phase, wrappers: seq<string>): nat {
    (if Counts(p, wrappers) then 1 else 0) + MostInside(p, wrappers)
  }

  /** The clock readings are consistent: children lie inside their parent and siblings follow
      one another, all within the given interval. */
  ghost predicate Timed(f: Forest, lo: int, hi: int) {
    if f.Nil? then lo <= hi else
      && lo <= f.head.begin <= f.head.end
      && (f.head.Started? ==> Timed(f.head.kids, f.head.begin, f.head.end))
      && Timed(f.rest, f.head.end, hi)
  }

  /** The clock reading at each line of the log. */
  function Times(f: Forest): (t: seq<int>)
    ensures |t| == Lines(f)
  {
    if f.Nil? then [] else PhaseTimes(f.head) + Times(f.rest)
  }

  function PhaseTimes(p: Phase): (t: seq<int>)
    ensures |t| == PhaseLines(p)
  {
    if p.Started? then [p.begin] + Times(p.kids) + [p.end] else [p.end]
  }

  // ---------------------------------------------------------------- truncated logs

  /** The part of the report that the first n lines of the log yield. */
  function ReportSoFar(f: Forest, wrappers: seq<string>, n: nat): seq<PhaseTiming>
    requires n <= Lines(f)
  {
    if n == 0 then []
    else if n < PhaseLines(f.head) then ReportSoFar(f.head.kids, Enclose(wrappers, f.head.name), n - 1)
    else PhaseReport(f.head, wrappers) + ReportSoFar(f.rest, wrappers, n - PhaseLines(f.head))
  }

  lemma {:induction false} ReportWhole(f: Forest, wrappers: seq<string>)
    ensures ReportSoFar(f, wrappers, Lines(f)) == Report(f, wrappers)
  {
    if f.Cons? {
      ReportWhole(f.rest, wrappers);
    }
  }

  lemma LogPrefix(f: Forest, n: nat)
    requires f.Cons? && n <= Lines(f)
    ensures Log(f)[..n] == if n < PhaseLines(f.head) then PhaseLog(f.head)[..n]
                           else PhaseLog(f.head) + Log(f.rest)[..n - PhaseLines(f.head)]
  {
  }

  lemma TruncatedInside(s: Parser, p: Phase, n: nat, report: seq<PhaseTiming>)
    requires Tidy(s) && p.Started? && 0 < n < PhaseLines(p)
    requires Scan(Step(s, Start(p.name)), Log(p.kids)[..n - 1]).phases == s.phases + report
    ensures Scan(s, PhaseLog(p)[..n]).phases == s.phases + report
  {
    assert PhaseLog(p)[..n] == [Start(p.name)] + Log(p.kids)[..n - 1];
    ScanAppend(s, [Start(p.name)], Log(p.kids)[..n - 1]);
    ScanOne(s, Start(p.name));
  }

  lemma TruncatedAfter(s: Parser, a: seq<Event>, b: seq<Event>, first: seq<PhaseTiming>, second: seq<PhaseTiming>)
    requires Scan(s, a) == Adding(s, first)
    requires Scan(Adding(s, first), b).phases == Adding(s, first).phases + second
    ensures Scan(s, a + b).phases == s.phases + (first + second)
  {
    ScanAppend(s, a, b);
    assert s.phases + first + second == s.phases + (first + second);
  }

  /** A log cut off after any line, as a failed deploy leaves it, reports exactly the phases
      that ended, each with the context it has in the whole forest. */
  lemma {:induction false} ScanTruncated(s: Parser, f: Forest, n: nat)
    requires Tidy(s) && Unambiguous(f, s.starts.Keys) && n <= Lines(f)
    ensures Scan(s, Log(f)[..n]).phases == s.phases + ReportSoFar(f, s.wrappers, n)
    decreases f, 1
  {
    if n == 0 {
      ScanNothing(s, f);
    } else if n < PhaseLines(f.head) {
      ScanTruncatedInside(s, f, n);
    } else {
      ScanTruncatedAfter(s, f, n);
    }
  }

  lemma ScanNothing(s: Parser, f: Forest)
    ensures Scan(s, Log(f)[..0]).phases == s.phases + ReportSoFar(f, s.wrappers, 0)
  {
    assert Log(f)[..0] == [] && s.phases + [] == s.phases;
  }

  lemma {:induction false} ScanTruncatedInside(s: Parser, f: Forest, n: nat)
    requires Tidy(s) && Unambiguous(f, s.starts.Keys) && f.Cons? && 0 < n < PhaseLines(f.head)
    ensures Scan(s, Log(f)[..n]).phases == s.phases + ReportSoFar(f, s.wrappers, n)
    decreases f, 0
  {
    var p := f.head;
    LogPrefix(f, n);
    var t := Step(s, Start(p.name));
    OpeningAddsLabel(s, p.name);
    assert Unambiguous(p.kids, t.starts.Keys);
    ScanTruncated(t, p.kids, n - 1);
    TruncatedInside(s, p, n, ReportSoFar(p.kids, Enclose(s.wrappers, p.name), n - 1));
  }

  lemma {:induction false} ScanTruncatedAfter(s: Parser, f: Forest, n: nat)
    requires Tidy(s) && Unambiguous(f, s.starts.Keys) && f.Cons? && PhaseLines(f.head) <= n <= Lines(f)
    ensures Scan(s, Log(f)[..n]).phases == s.phases + ReportSoFar(f, s.wrappers, n)
    decreases f, 0
  {
    var k, first := n - PhaseLines(f.head), PhaseReport(f.head, s.wrappers);
    LogPrefix(f, n);
    ScanPhase(s, f.head);
    ScanTruncated(Adding(s, first), f.rest, k);
    TruncatedAfter(s, PhaseLog(f.head), Log(f.rest)[..k], first, ReportSoFar(f.rest, s.wrappers, k));
  }

  // ---------------------------------------------------------------- the upper bound

  /** The counted seconds fit `most` times into the elapsed time. */
  ghost predicate Fits(seconds: nat, most: nat, elapsed: int) {
    seconds <= most * elapsed
  }

  /** A counted or uncounted phase of x seconds around phases that fit it k times. */
  lemma FitsAround(counted: bool, inner: nat, k: nat, x: nat)
    requires Fits(inner, k, x)
    ensures Fits(inner + (if counted then x else 0), (if counted then 1 else 0) + k, x)
  {
  }

  lemma FitsAfter(a: nat, k: nat, x: nat, b: nat, r: nat, y: nat, gap: nat, m: nat)
    requires Fits(a, k, x) && Fits(b, r, y) && k <= m && r <= m
    ensures Fits(a + b, m, x + y + gap)
  {
  }

  lemma FitsOnce(seconds: nat, most: nat, elapsed: nat)
    requires Fits(seconds, most, elapsed) && most <= 1
    ensures seconds <= elapsed
  {
  }

  lemma NothingFits(m: nat, t: nat)
    ensures Fits(0, m, t)
  {
  }

  /** The clock at the n-th line, or at the start when no line is written yet. */
  function ClockAt(f: Forest, lo: int, n: nat): int
    requires n <= Lines(f)
  {
    if n == 0 then lo else Times(f)[n - 1]
  }

  lemma ClockStep(f: Forest, lo: int, n: nat)
    requires f.Cons? && 0 < n <= Lines(f)
    ensures ClockAt(f, lo, n) ==
      if n < PhaseLines(f.head) then ClockAt(f.head.kids, f.head.begin, n - 1)
      else ClockAt(f.rest, f.head.end, n - PhaseLines(f.head))
  {
    var p := f.head;
    if n <= PhaseLines(p) {
      assert Times(f)[n - 1] == PhaseTimes(p)[n - 1];
      PhaseClock(p, n - 1);
    } else {
      assert Times(f)[n - 1] == Times(f.rest)[n - 1 - PhaseLines(p)];
    }
  }

  lemma PhaseClock(p: Phase, k: nat)
    requires k < PhaseLines(p)
    ensures PhaseTimes(p)[k] ==
      if k == PhaseLines(p) - 1 then p.end else if k == 0 then p.begin else Times(p.kids)[k - 1]
  {
  }

  lemma {:induction false} ClockInside(f: Forest, lo: int, hi: int, n: nat)
    requires Timed(f, lo, hi) && n <= Lines(f)
    ensures lo <= ClockAt(f, lo, n) <= hi
  {
    if f.Cons? {
      ClockInside(f.rest, f.head.end, hi, if n < PhaseLines(f.head) then 0 else n - PhaseLines(f.head));
      if n > 0 {
        ClockStep(f, lo, n);
        if n < PhaseLines(f.head) {
          ClockInside(f.head.kids, f.head.begin, f.head.end, n - 1);
        }
      }
    }
  }

  lemma CountedEntry(p: Phase, wrappers: seq<string>)
    ensures CountedSeconds(PhaseReport(p, wrappers))
            == (if p.Started? then CountedSeconds(Report(p.kids, Enclose(wrappers, p.name))) else 0)
               + (if Counts(p, wrappers) then Seconds(p) else 0)
  {
    assert [Entry(p, wrappers)][1..] == [];
    CountedAppend(if p.Started? then Report(p.kids, Enclose(wrappers, p.name)) else [], [Entry(p, wrappers)]);
  }

  /** The seconds counted up to any line of the log are at most `MostCounted` times the seconds
      the clock shows to have passed at that line. */
  lemma {:induction false} CountedSoFar(f: Forest, wrappers: seq<string>, lo: int, hi: int, n: nat, now: int)
    requires Timed(f, lo, hi) && n <= Lines(f) && now == ClockAt(f, lo, n)
    ensures Fits(CountedSeconds(ReportSoFar(f, wrappers, n)), MostCounted(f, wrappers), now - lo)
    decreases f, 1
  {
    if n == 0 {
      NothingFits(MostCounted(f, wrappers), 0);
      return;
    }
    var p, m := f.head, MostCounted(f, wrappers);
    ClockStep(f, lo, n);
    if n < PhaseLines(p) {
      ClockInside(p.kids, p.begin, p.end, n - 1);
      CountedSoFar(p.kids, Enclose(wrappers, p.name), p.begin, p.end, n - 1, now);
      FitsAfter(CountedSeconds(ReportSoFar(f, wrappers, n)), MostInside(p, wrappers), now - p.begin,
                0, 0, 0, p.begin - lo, m);
    } else {
      var k := n - PhaseLines(p);
      var rest := ReportSoFar(f.rest, wrappers, k);
      CountedPhase(p, wrappers);
      ClockInside(f.rest, p.end, hi, k);
      CountedSoFar(f.rest, wrappers, p.end, hi, k, now);
      CountedAppend(PhaseReport(p, wrappers), rest);
      FitsAfter(CountedSeconds(PhaseReport(p, wrappers)), MostCountedIn(p, wrappers), p.end - p.begin,
                CountedSeconds(rest), MostCounted(f.rest, wrappers), now - p.end, p.begin - lo, m);
    }
  }

  lemma {:induction false} CountedPhase(p: Phase, wrappers: seq<string>)
    requires p.begin <= p.end && (p.Started? ==> Timed(p.kids, p.begin, p.end))
    ensures Fits(CountedSeconds(PhaseReport(p, wrappers)), MostCountedIn(p, wrappers), p.end - p.begin)
    decreases p, 2
  {
    if p.Started? {
      CountedForest(p.kids, Enclose(wrappers, p.name), p.begin, p.end);
      CountedStarted(p, wrappers);
    } else {
      CountedEntry(p, wrappers);
      NothingFits(0, p.end - p.begin);
      FitsAround(Counts(p, wrappers), 0, 0, p.end - p.begin);
    }
  }

  lemma CountedStarted(p: Phase, wrappers: seq<string>)
    requires p.Started? && p.begin <= p.end
    requires Fits(CountedSeconds(Report(p.kids, Enclose(wrappers, p.name))), MostInside(p, wrappers), p.end - p.begin)
    ensures Fits(CountedSeconds(PhaseReport(p, wrappers)), MostCountedIn(p, wrappers), p.end - p.begin)
  {
    var inner := CountedSeconds(Report(p.kids, Enclose(wrappers, p.name)));
    CountedEntry(p, wrappers);
    FitsAround(Counts(p, wrappers), inner, MostInside(p, wrappers), p.end - p.begin);
  }

  lemma {:induction false} CountedForest(f: Forest, wrappers: seq<string>, lo: int, hi: int)
    requires Timed(f, lo, hi)
    ensures Fits(CountedSeconds(Report(f, wrappers)), MostCounted(f, wrappers), hi - lo)
    decreases f, 2
  {
    var last, m := ClockAt(f, lo, Lines(f)), MostCounted(f, wrappers);
    ClockInside(f, lo, hi, Lines(f));
    CountedSoFar(f, wrappers, lo, hi, Lines(f), last);
    ReportWhole(f, wrappers);
    NothingFits(0, 0);
    FitsAfter(CountedSeconds(Report(f, wrappers)), m, last - lo, 0, 0, 0, hi - last, m);
  }
}
