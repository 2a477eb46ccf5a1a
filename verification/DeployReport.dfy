/** The deploy report as a whole: real logs, their totals, and what the totals promise. */
module DeployReport {
  import opened Basics
  import opened ReleaseTiming
  import opened TimedForest
  import opened TimingTotals
  import opened TimingCoverage

  // ---------------------------------------------------------------- other lines and concurrency

  /** The log without the lines that match neither timing pattern. */
  function TimingLines(log: seq<Event>): seq<Event> {
    if log == [] then [] else (if log[0].Other? then [] else [log[0]]) + TimingLines(log[1..])
  }

  lemma {:induction false} OtherLinesIgnored(s: Parser, log: seq<Event>)
    ensures Scan(s, log) == Scan(s, TimingLines(log))
    decreases |log|
  {
    if log != [] {
      OtherLinesIgnored(Step(s, log[0]), log[1..]);
      if log[0].Other? {
        assert TimingLines(log) == TimingLines(log[1..]);
      } else {
        assert TimingLines(log)[0] == log[0] && TimingLines(log)[1..] == TimingLines(log[1..]);
      }
    }
  }

  /** Events of phases that overlap inside one wrapper: they concern different labels, neither
      is a wrapper's, and at most one of them ends a phase. */
  ghost predicate Independent(x: Event, y: Event) {
    && !x.Other? && !y.Other? && x.name != y.name
    && !IsWrapper(x.name) && !IsWrapper(y.name)
    && (x.Start? || y.Start?)
  }

  lemma PushesCommute(starts: map<string, seq<Context>>, x: string, c: Context, y: string, d: Context)
    requires x != y
    ensures WithLatest(WithLatest(starts, x, c), y, d) == WithLatest(WithLatest(starts, y, d), x, c)
  {
  }

  lemma PushPopCommute(starts: map<string, seq<Context>>, x: string, c: Context, y: string)
    requires x != y
    ensures WithoutLatest(WithLatest(starts, x, c), y) == WithLatest(WithoutLatest(starts, y), x, c)
    ensures Latest(WithLatest(starts, x, c), y) == Latest(starts, y)
  {
  }

  lemma StepsCommute(s: Parser, x: Event, y: Event)
    requires Independent(x, y)
    ensures Step(Step(s, x), y) == Step(Step(s, y), x)
  {
    var context := Context(|s.wrappers|, Innermost(s.wrappers));
    if x.Start? && y.Start? {
      PushesCommute(s.starts, x.name, context, y.name, context);
    } else if x.Start? {
      PushPopCommute(s.starts, x.name, context, y.name);
    } else {
      PushPopCommute(s.starts, y.name, context, x.name);
    }
  }

  /** Phases that run at the same time, such as services being stopped together, are reported
      as if they ran one after the other. */
  lemma ConcurrentPhases(s: Parser, before: seq<Event>, x: Event, y: Event, after: seq<Event>)
    requires Independent(x, y)
    ensures Scan(s, before + [x, y] + after) == Scan(s, before + [y, x] + after)
  {
    var t := Scan(s, before);
    ScanAppend(s, before + [x, y], after);
    ScanAppend(s, before + [y, x], after);
    ScanAppend(s, before, [x, y]);
    ScanAppend(s, before, [y, x]);
    assert [x, y][1..] == [y] && [y, x][1..] == [x];
    ScanOne(Step(t, x), y);
    ScanOne(Step(t, y), x);
    StepsCommute(t, x, y);
  }

  // ---------------------------------------------------------------- main results

  /** A complete nested log is recovered exactly, and both structures end empty. */
  lemma CompleteLog(log: seq<Event>, f: Forest)
    requires Unambiguous(f, {}) && TimingLines(log) == Log(f)
    ensures Scan(INITIAL, log) == Parser([], map[], Report(f, []))
  {
    OtherLinesIgnored(INITIAL, log);
    InitialTidy();
    ScanForest(INITIAL, f);
    assert INITIAL.phases + Report(f, []) == Report(f, []);
  }

  /** A log cut off anywhere reports what the forest has recorded up to that line. */
  lemma TruncatedLog(log: seq<Event>, f: Forest)
    requires Unambiguous(f, {}) && TimingLines(log) <= Log(f)
    ensures Scan(INITIAL, log).phases == ReportSoFar(f, [], |TimingLines(log)|)
  {
    var n := |TimingLines(log)|;
    OtherLinesIgnored(INITIAL, log);
    InitialTidy();
    ScanTruncated(INITIAL, f, n);
    assert Log(f)[..n] == TimingLines(log);
    assert INITIAL.phases + ReportSoFar(f, [], n) == ReportSoFar(f, [], n);
  }

  lemma SoFarWithinClock(f: Forest, lo: int, hi: int, n: nat)
    requires Timed(f, lo, hi) && n <= |Log(f)| && MostCounted(f, []) <= 1
    ensures CountedSeconds(ReportSoFar(f, [], n)) <= ClockAt(f, lo, n) - lo
  {
    ClockInside(f, lo, hi, n);
    CountedSoFar(f, [], lo, hi, n, ClockAt(f, lo, n));
    FitsOnce(CountedSeconds(ReportSoFar(f, [], n)), MostCounted(f, []), ClockAt(f, lo, n) - lo);
  }

  /** At every line of the log, so also when a failed deploy cuts it off there, the seconds
      counted so far stay within the elapsed clock time, if no counted phase encloses another. */
  lemma TruncatedWithinClock(log: seq<Event>, f: Forest, lo: int, hi: int)
    requires Unambiguous(f, {}) && TimingLines(log) <= Log(f) && Timed(f, lo, hi)
    requires MostCounted(f, []) <= 1
    ensures CountedSeconds(Scan(INITIAL, log).phases) <= ClockAt(f, lo, |TimingLines(log)|) - lo
  {
    TruncatedLog(log, f);
    SoFarWithinClock(f, lo, hi, |TimingLines(log)|);
  }

  lemma {:induction false} LeafPathStarted(f: Forest, path: seq<Phase>)
    requires LeafPath(f, path)
    ensures StartedInside(path)
    decreases f
  {
    if LeafPath(f.rest, path) {
      LeafPathStarted(f.rest, path);
    } else if Kids(f.head).Cons? {
      LeafPathStarted(Kids(f.head), path[1..]);
      assert forall k | 1 <= k < |path| - 1 :: path[k] == path[1..][k - 1];
    }
  }

  /** The recorded total of a log is the total of phases that cover every leaf exactly once,
      iff every leaf path has the covering shape; the total then lies between the seconds of
      the leaves and the wall clock. */
  lemma CoverageOfLog(f: Forest)
    ensures (forall path | LeafPath(f, path) :: CoversOnce(path))
            <==> MostCounted(f, []) <= 1 && EveryLeafCounted(f, [])
    ensures forall lo, hi | MostCounted(f, []) <= 1 && EveryLeafCounted(f, []) && Timed(f, lo, hi) ::
              LeafSeconds(f) <= CountedSeconds(Report(f, [])) <= hi - lo
  {
    ExactCover(f);
    forall path | LeafPath(f, path)
      ensures CoversOnce(path) <==> CountedOn(path, []) == 1
    {
      LeafPathStarted(f, path);
      CountedExactlyOnce(path, []);
    }
    forall lo, hi | MostCounted(f, []) <= 1 && EveryLeafCounted(f, []) && Timed(f, lo, hi)
      ensures LeafSeconds(f) <= CountedSeconds(Report(f, [])) <= hi - lo
    {
      WithinClock(f, [], lo, hi);
      NoLeafLost(f, [], lo, hi);
    }
  }

  /** Below a wrapper other than the sequence: only wrappers have children, no sequence, and
      every phase has a start line. */
  ghost predicate Nested(f: Forest) {
    f.Cons? ==>
      && f.head.Started? && f.head.name != SEQUENCE
      && (f.head.kids.Cons? ==> IsWrapper(f.head.name) && Nested(f.head.kids))
      && Nested(f.rest)
  }

  /** The deploy scripts' own discipline: only wrappers have children, and the sequence occurs
      only at top level and never empty. */
  ghost predicate Disciplined(f: Forest, top: bool) {
    f.Cons? ==>
      && (if f.head.name == SEQUENCE then top && f.head.Started? && f.head.kids.Cons? && Disciplined(f.head.kids, false)
          else Kids(f.head).Cons? ==> IsWrapper(f.head.name) && Nested(f.head.kids))
      && Disciplined(f.rest, top)
  }

  lemma {:induction false} NestedUncounted(f: Forest, wrappers: seq<string>)
    requires Nested(f) && !Open(wrappers)
    ensures MostCounted(f, wrappers) == 0
  {
    if f.Cons? {
      if f.head.kids.Cons? {
        NestedUncounted(f.head.kids, Enclose(wrappers, f.head.name));
      }
      NestedUncounted(f.rest, wrappers);
    }
  }

  /** Such a log is covered exactly once, leaf by leaf. */
  lemma {:induction false} DisciplinedCover(f: Forest, wrappers: seq<string>)
    requires Disciplined(f, wrappers == []) && (wrappers == [] || wrappers == [SEQUENCE])
    ensures MostCounted(f, wrappers) <= 1 && EveryLeafCounted(f, wrappers)
  {
    if f.Cons? {
      DisciplinedCover(f.rest, wrappers);
      if f.head.name == SEQUENCE {
        DisciplinedCover(f.head.kids, [SEQUENCE]);
        assert Enclose(wrappers, SEQUENCE) == [SEQUENCE];
      } else if Kids(f.head).Cons? {
        NestedUncounted(f.head.kids, Enclose(wrappers, f.head.name));
      }
    }
  }

  /** Without the discipline the total may exceed the clock: one plain phase inside another. */
  lemma NestedPlainPhasesDoubleCount(name: string, inside: string)
    requires !IsWrapper(name) && !IsWrapper(inside)
    ensures
      var f := Cons(Started(name, 0, 1, 0, Cons(Started(inside, 0, 1, 0, Nil), Nil)), Nil);
      Unambiguous(f, {}) && Timed(f, 0, 1) && CountedSeconds(Report(f, [])) == 2
  {
    var inner := Started(inside, 0, 1, 0, Nil);
    var outer := Started(name, 0, 1, 0, Cons(inner, Nil));
    assert name != SEQUENCE && inside != SEQUENCE;
    CountedEntry(inner, []);
    CountedEntry(outer, []);
    assert Report(inner.kids, []) == [];
    assert Report(Cons(inner, Nil), []) == PhaseReport(inner, []);
    assert Report(Cons(outer, Nil), []) == PhaseReport(outer, []);
    assert Timed(Cons(inner, Nil), 0, 1);
  }

  // ---------------------------------------------------------------- the summary

  lemma {:induction false} CategoriesPartition(phases: seq<PhaseTiming>)
    requires forall p | p in phases :: p.counted ==> p.category != Wrapper
    ensures CountedSeconds(phases) ==
      CategorySeconds(phases, Bundle) + CategorySeconds(phases, Transfer) + CategorySeconds(phases, ImageLoad)
      + CategorySeconds(phases, Migration) + CategorySeconds(phases, Cutover) + CategorySeconds(phases, Health)
      + CategorySeconds(phases, Misc)
  {
    if phases != [] {
      assert phases[0] in phases;
      CategoriesPartition(phases[1..]);
    }
  }

  lemma {:induction false} CategoryAppend(a: seq<PhaseTiming>, p: PhaseTiming, c: Category)
    ensures CategorySeconds(a + [p], c)
            == CategorySeconds(a, c) + (if p.counted && p.category == c then p.seconds else 0)
  {
    if a == [] {
      assert a + [p] == [p] && [p][1..] == [];
    } else {
      assert (a + [p])[1..] == a[1..] + [p];
      CategoryAppend(a[1..], p, c);
    }
  }

  ghost predicate LastSequence(phases: seq<PhaseTiming>, seconds: Option<nat>) {
    match seconds
    case None => forall k | 0 <= k < |phases| :: phases[k].name != SEQUENCE
    case Some(t) => exists k | 0 <= k < |phases| ::
      && phases[k].name == SEQUENCE && phases[k].seconds == t
      && forall j | k < j < |phases| :: phases[j].name != SEQUENCE
  }

  ghost predicate Tallies(totals: map<Category, nat>, phases: seq<PhaseTiming>) {
    forall c :: (c in totals <==> c != Wrapper) && (c != Wrapper ==> totals[c] == CategorySeconds(phases, c))
  }

  /** The seconds of each category; the wrapper has none. */
  method TallyCategories(phases: seq<PhaseTiming>) returns (totals: map<Category, nat>)
    ensures Tallies(totals, phases)
  {
    totals := map[Bundle := 0, Transfer := 0, ImageLoad := 0, Migration := 0, Cutover := 0, Health := 0, Misc := 0];
    for i := 0 to |phases|
      invariant Tallies(totals, phases[..i])
    {
      var p := phases[i];
      assert phases[..i + 1] == phases[..i] + [p];
      forall c { CategoryAppend(phases[..i], p, c); }
      if p.counted && p.category in totals {
        totals := totals[p.category := totals[p.category] + p.seconds];
      }
    }
    assert phases[..|phases|] == phases;
  }

  method FindRemoteSequence(phases: seq<PhaseTiming>) returns (seconds: Option<nat>)
    ensures LastSequence(phases, seconds)
  {
    var k := |phases|;
    while k > 0
      invariant 0 <= k <= |phases|
      invariant forall j | k <= j < |phases| :: phases[j].name != SEQUENCE
    {
      k := k - 1;
      if phases[k].name == SEQUENCE {
        return Some(phases[k].seconds);
      }
    }
    seconds := None;
  }

  /** The recorded total is the sum of the category totals; it is also the sum over the
      counted phases, so no counted phase falls outside the categories. */
  method RecordedTotal(phases: seq<PhaseTiming>) returns (recorded: nat)
    requires forall p | p in phases :: p.counted ==> p.category != Wrapper
    ensures recorded == CountedSeconds(phases)
  {
    var totals := TallyCategories(phases);
    recorded := totals[Bundle] + totals[Transfer] + totals[ImageLoad] + totals[Migration]
                + totals[Cutover] + totals[Health] + totals[Misc];
    CategoriesPartition(phases);
  }

  /** The parser only produces phases the summary accepts. */
  lemma {:induction false} ScanRespectsCategories(s: Parser, log: seq<Event>)
    requires forall p | p in s.phases :: p.counted ==> p.category != Wrapper
    ensures forall p | p in Scan(s, log).phases :: p.counted ==> p.category != Wrapper
    decreases |log|
  {
    if log != [] {
      ScanRespectsCategories(Step(s, log[0]), log[1..]);
    }
  }
}
