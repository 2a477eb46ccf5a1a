/** Logs in which phases overlap, as when application services are stopped at the same time. */
module TimingOverlap {
  import opened Basics
  import opened ReleaseTiming
  import opened TimedForest
  import opened TimingTotals
  import opened TimingCoverage
  import opened TimingUnfinished
  import opened DeployReport

  /** A line of a plain phase whose label is not open twice at a time. */
  predicate MayFollow(e: Event, open: set<string>) {
    match e
    case Start(name) => !IsWrapper(name) && name !in open
    case End(name, _, _) => !IsWrapper(name) && name in open
    case Other => false
  }

  function After(e: Event, open: set<string>): set<string> {
    match e
    case Start(name) => open + {name}
    case End(name, _, _) => open - {name}
    case Other => open
  }

  /** Lines of plain phases, of which no two open ones have the same label; these are open before. */
  predicate Overlaps(log: seq<Event>, open: set<string>)
    decreases |log|
  {
    log != [] ==> MayFollow(log[0], open) && Overlaps(log[1..], After(log[0], open))
  }

  /** The labels open after the lines. */
  function StillOpen(log: seq<Event>, open: set<string>): set<string>
    decreases |log|
  {
    if log == [] then open else StillOpen(log[1..], After(log[0], open))
  }

  function EntryOf(e: Event, context: Context): seq<PhaseTiming> {
    if e.End? then
      [PhaseTiming(e.name, Classify(e.name), e.seconds, e.exitStatus == 0, e.exitStatus,
                   Some(context.depth), context.parent,
                   e.name != SEQUENCE && (context.depth == 0 || context.parent == Some(SEQUENCE)))]
    else []
  }

  /** What the lines report: each phase in the order of the end lines, all in one context. */
  function Entries(log: seq<Event>, context: Context): seq<PhaseTiming> {
    if log == [] then [] else EntryOf(log[0], context) + Entries(log[1..], context)
  }

  function Pair(e: Event): seq<Event> {
    if e.End? then [Start(e.name), e] else []
  }

  /** The same phases one after the other, in the order of their end lines. */
  function OneByOne(log: seq<Event>): seq<Event> {
    if log == [] then [] else Pair(log[0]) + OneByOne(log[1..])
  }

  function ContextOf(s: Parser): Context {
    Context(|s.wrappers|, Innermost(s.wrappers))
  }

  /** The second parser has these labels open in addition, and has reported so much more. */
  ghost predicate During(s: Parser, t: Parser, open: set<string>, report: seq<PhaseTiming>) {
    && t.wrappers == s.wrappers && t.phases == s.phases + report && NoEmptyEntry(t)
    && forall name :: Stack(t, name) == Stack(s, name) + if name in open then [ContextOf(s)] else []
  }

  lemma DuringStacks(s: Parser, t: Parser, e: Event, open: set<string>, report: seq<PhaseTiming>, name: string)
    requires During(s, t, open, report) && MayFollow(e, open)
    ensures Stack(Step(t, e), name) == Stack(s, name) + if name in After(e, open) then [ContextOf(s)] else []
  {
    StackStep(t, e, name);
    assert Stack(t, name) == Stack(s, name) + if name in open then [ContextOf(s)] else [];
  }

  lemma DuringReport(s: Parser, t: Parser, e: Event, open: set<string>, report: seq<PhaseTiming>)
    requires During(s, t, open, report) && MayFollow(e, open)
    ensures Step(t, e).wrappers == s.wrappers
    ensures Step(t, e).phases == s.phases + (report + EntryOf(e, ContextOf(s)))
  {
    LatestIsLast(t, e.name);
    assert Stack(t, e.name) == Stack(s, e.name) + if e.name in open then [ContextOf(s)] else [];
  }

  lemma DuringStep(s: Parser, t: Parser, e: Event, open: set<string>, report: seq<PhaseTiming>)
    requires During(s, t, open, report) && Tidy(t) && MayFollow(e, open)
    ensures During(s, Step(t, e), After(e, open), report + EntryOf(e, ContextOf(s)))
  {
    StepKeepsTidy(t, e);
    DuringReport(s, t, e, open, report);
    forall name
      ensures Stack(Step(t, e), name) == Stack(s, name) + if name in After(e, open) then [ContextOf(s)] else []
    {
      DuringStacks(s, t, e, open, report, name);
    }
  }

  /** The lines, or any first part of them, report their phases in one context. */
  lemma {:induction false} DuringScan(s: Parser, t: Parser, log: seq<Event>, open: set<string>,
                                       report: seq<PhaseTiming>)
    requires During(s, t, open, report) && Tidy(t) && Overlaps(log, open)
    ensures During(s, Scan(t, log), StillOpen(log, open), report + Entries(log, ContextOf(s)))
    decreases |log|
  {
    if log == [] {
      assert report + [] == report;
    } else {
      var e, c := log[0], ContextOf(s);
      DuringStep(s, t, e, open, report);
      StepKeepsTidy(t, e);
      DuringScan(s, Step(t, e), log[1..], After(e, open), report + EntryOf(e, c));
      EntriesFirst(report, log, c);
    }
  }

  lemma EntriesFirst(report: seq<PhaseTiming>, log: seq<Event>, c: Context)
    requires log != []
    ensures report + EntryOf(log[0], c) + Entries(log[1..], c) == report + Entries(log, c)
  {
    Regroup(report, EntryOf(log[0], c), Entries(log[1..], c));
  }

  lemma Regroup<T>(a: seq<T>, b: seq<T>, c: seq<T>)
    ensures a + b + c == a + (b + c)
  {
  }

  lemma DuringNothing(s: Parser, t: Parser, report: seq<PhaseTiming>)
    requires During(s, t, {}, report) && NoEmptyEntry(s)
    ensures t == Adding(s, report)
  {
    forall name
      ensures (name in t.starts <==> name in s.starts) && (name in s.starts ==> t.starts[name] == s.starts[name])
    {
      assert Stack(t, name) == Stack(s, name);
    }
    assert t.starts == s.starts;
  }

  ghost predicate Group(log: seq<Event>) {
    Overlaps(log, {}) && StillOpen(log, {}) == {}
  }

  lemma BeginsDuring(s: Parser)
    requires Tidy(s)
    ensures During(s, s, {}, [])
  {
    assert s.phases + [] == s.phases;
  }

  /** A whole group leaves both structures as they were. */
  lemma GroupScan(s: Parser, log: seq<Event>)
    requires Tidy(s) && Group(log)
    ensures Scan(s, log) == Adding(s, Entries(log, ContextOf(s)))
  {
    BeginsDuring(s);
    DuringScan(s, s, log, {}, []);
    assert [] + Entries(log, ContextOf(s)) == Entries(log, ContextOf(s));
    DuringNothing(s, Scan(s, log), Entries(log, ContextOf(s)));
  }

  // ---------------------------------------------------------------- order of the end lines

  lemma {:induction false} OverlapsAppend(a: seq<Event>, b: seq<Event>, open: set<string>)
    requires Overlaps(a, open) && Overlaps(b, StillOpen(a, open))
    ensures Overlaps(a + b, open) && StillOpen(a + b, open) == StillOpen(b, StillOpen(a, open))
    decreases |a|
  {
    if a == [] {
      assert a + b == b;
    } else {
      assert (a + b)[1..] == a[1..] + b;
      OverlapsAppend(a[1..], b, After(a[0], open));
    }
  }

  lemma PairGroup(e: Event, context: Context)
    requires e.End? && !IsWrapper(e.name)
    ensures Group(Pair(e)) && Entries(Pair(e), context) == EntryOf(e, context)
  {
    assert Pair(e)[1..] == [e] && [e][1..] == [];
    var open := After(Start(e.name), {});
    assert open == {e.name} && After(e, open) == {};
    assert Overlaps([e], open) && StillOpen([e], open) == StillOpen([], {});
    assert Overlaps(Pair(e), {}) && StillOpen(Pair(e), {}) == StillOpen([e], open);
    assert Entries([e], context) == EntryOf(e, context) + [] == EntryOf(e, context);
    assert Entries(Pair(e), context) == EntryOf(Start(e.name), context) + Entries([e], context);
  }

  /** One after the other they are a group too, with the same report. */
  lemma {:induction false} OneByOneGroup(log: seq<Event>, open: set<string>, context: Context)
    requires Overlaps(log, open)
    ensures Group(OneByOne(log)) && Entries(OneByOne(log), context) == Entries(log, context)
    decreases |log|
  {
    if log != [] {
      var e, rest := log[0], OneByOne(log[1..]);
      OneByOneGroup(log[1..], After(e, open), context);
      if e.End? {
        PairGroup(e, context);
        OverlapsAppend(Pair(e), rest, {});
        EntriesAppend(Pair(e), rest, context);
      } else {
        assert Pair(e) + rest == rest;
      }
    }
  }

  lemma {:induction false} EntriesAppend(a: seq<Event>, b: seq<Event>, context: Context)
    ensures Entries(a + b, context) == Entries(a, context) + Entries(b, context)
    decreases |a|
  {
    if a == [] {
      assert a + b == b;
    } else {
      assert (a + b)[1..] == a[1..] + b;
      EntriesAppend(a[1..], b, context);
      Regroup(EntryOf(a[0], context), Entries(a[1..], context), Entries(b, context));
    }
  }

  /** A group scans like its phases one after the other, in the order of the end lines. */
  lemma GroupScansInOrder(s: Parser, log: seq<Event>)
    requires Tidy(s) && Group(log)
    ensures Scan(s, log) == Scan(s, OneByOne(log))
  {
    GroupScan(s, log);
    OneByOneGroup(log, {}, ContextOf(s));
    GroupScan(s, OneByOne(log));
  }

  // ---------------------------------------------------------------- whole logs

  /** A stretch of a log: ordinary lines, or a group of overlapping phases. */
  datatype Stretch = Ordinary(lines: seq<Event>) | Together(lines: seq<Event>)

  function WholeLog(stretches: seq<Stretch>): seq<Event> {
    if stretches == [] then [] else stretches[0].lines + WholeLog(stretches[1..])
  }

  function Ordered(x: Stretch): seq<Event> {
    if x.Together? then OneByOne(x.lines) else x.lines
  }

  /** The same log with the phases of each group one after the other. */
  function InOrder(stretches: seq<Stretch>): seq<Event> {
    if stretches == [] then []
    else Ordered(stretches[0]) + InOrder(stretches[1..])
  }

  ghost predicate Grouped(stretches: seq<Stretch>) {
    forall x | x in stretches && x.Together? :: Group(x.lines)
  }

  /** Any log with groups of overlapping phases scans like the log with their phases in order. */
  lemma {:induction false} OverlapsScanInOrder(s: Parser, stretches: seq<Stretch>)
    requires Tidy(s) && Grouped(stretches)
    ensures Scan(s, WholeLog(stretches)) == Scan(s, InOrder(stretches))
    decreases |stretches|
  {
    if stretches != [] {
      var x, rest := stretches[0], stretches[1..];
      if x.Together? {
        GroupScansInOrder(s, x.lines);
      }
      ScanKeepsTidy(s, x.lines);
      ScanAppend(s, x.lines, WholeLog(rest));
      ScanAppend(s, Ordered(x), InOrder(rest));
      OverlapsScanInOrder(Scan(s, x.lines), rest);
    }
  }

  /** So a complete log with overlapping phases gives the report of the forest in which they are
      ordered by their end lines. */
  lemma CompleteOverlappingLog(log: seq<Event>, stretches: seq<Stretch>, f: Forest)
    requires TimingLines(log) == WholeLog(stretches) && Grouped(stretches)
    requires InOrder(stretches) == Log(f) && Unambiguous(f, {})
    ensures Scan(INITIAL, log) == Parser([], map[], Report(f, []))
  {
    InitialTidy();
    OtherLinesIgnored(INITIAL, log);
    OverlapsScanInOrder(INITIAL, stretches);
    ScanForest(INITIAL, f);
    assert INITIAL.phases + Report(f, []) == Report(f, []);
  }

  // ---------------------------------------------------------------- truncated logs

  lemma {:induction false} OverlapsPrefix(log: seq<Event>, open: set<string>, k: nat)
    requires Overlaps(log, open) && k <= |log|
    ensures Overlaps(log[..k], open)
    decreases |log|
  {
    if k > 0 {
      assert log[..k][1..] == log[1..][..k - 1];
      OverlapsPrefix(log[1..], After(log[0], open), k - 1);
    }
  }

  /** A part of a group reports what its end lines report in order. */
  lemma PartScansInOrder(s: Parser, log: seq<Event>)
    requires Tidy(s) && Overlaps(log, {})
    ensures Scan(s, log).phases == Scan(s, OneByOne(log)).phases
  {
    BeginsDuring(s);
    DuringScan(s, s, log, {}, []);
    assert [] + Entries(log, ContextOf(s)) == Entries(log, ContextOf(s));
    OneByOneGroup(log, {}, ContextOf(s));
    GroupScan(s, OneByOne(log));
  }

  lemma {:induction false} OneByOnePrefix(log: seq<Event>, k: nat)
    requires k <= |log|
    ensures OneByOne(log[..k]) <= OneByOne(log)
    decreases |log|
  {
    if k > 0 {
      assert log[..k][1..] == log[1..][..k - 1];
      OneByOnePrefix(log[1..], k - 1);
    }
  }

  lemma CutInside(s: Parser, x: Stretch, k: nat) returns (m: nat)
    requires Tidy(s) && (x.Together? ==> Group(x.lines)) && k <= |x.lines|
    ensures m <= |Ordered(x)| && Scan(s, x.lines[..k]).phases == Scan(s, Ordered(x)[..m]).phases
  {
    m := k;
    if x.Together? {
      OverlapsPrefix(x.lines, {}, k);
      PartScansInOrder(s, x.lines[..k]);
      OneByOnePrefix(x.lines, k);
      m := |OneByOne(x.lines[..k])|;
      assert OneByOne(x.lines)[..m] == OneByOne(x.lines[..k]);
    }
  }

  lemma CutAfter(s: Parser, x: Stretch, a: seq<Event>, b: seq<Event>)
    requires Tidy(s) && (x.Together? ==> Group(x.lines))
    requires Scan(Scan(s, x.lines), a).phases == Scan(Scan(s, x.lines), b).phases
    ensures Scan(s, x.lines + a).phases == Scan(s, Ordered(x) + b).phases
  {
    if x.Together? {
      GroupScansInOrder(s, x.lines);
    }
    ScanAppend(s, x.lines, a);
    ScanAppend(s, Ordered(x), b);
  }

  /** A log with groups that is cut off anywhere reports what the log in order, cut off somewhere,
      reports. */
  lemma {:induction false} CutOverlapsScanInOrder(s: Parser, stretches: seq<Stretch>, k: nat) returns (m: nat)
    requires Tidy(s) && Grouped(stretches) && k <= |WholeLog(stretches)|
    ensures m <= |InOrder(stretches)|
            && Scan(s, WholeLog(stretches)[..k]).phases == Scan(s, InOrder(stretches)[..m]).phases
    decreases |stretches|
  {
    if stretches == [] {
      m := 0;
    } else {
      var x, rest := stretches[0], stretches[1..];
      if k < |x.lines| {
        m := CutInside(s, x, k);
        assert WholeLog(stretches)[..k] == x.lines[..k] && InOrder(stretches)[..m] == Ordered(x)[..m];
      } else {
        ScanKeepsTidy(s, x.lines);
        var n := CutOverlapsScanInOrder(Scan(s, x.lines), rest, k - |x.lines|);
        m := |Ordered(x)| + n;
        CutAfter(s, x, WholeLog(rest)[..k - |x.lines|], InOrder(rest)[..n]);
        assert WholeLog(stretches)[..k] == x.lines + WholeLog(rest)[..k - |x.lines|];
        assert InOrder(stretches)[..m] == Ordered(x) + InOrder(rest)[..n];
      }
    }
  }

  /** So a log with overlapping phases that is cut off anywhere, as a failed deploy leaves it,
      reports a part of the ordered forest's report as it grows. */
  lemma TruncatedOverlappingLog(log: seq<Event>, stretches: seq<Stretch>, f: Forest) returns (m: nat)
    requires TimingLines(log) <= WholeLog(stretches) && Grouped(stretches)
    requires InOrder(stretches) == Log(f) && Unambiguous(f, {})
    ensures m <= Lines(f) && Scan(INITIAL, log).phases == ReportSoFar(f, [], m)
  {
    InitialTidy();
    OtherLinesIgnored(INITIAL, log);
    var k := |TimingLines(log)|;
    assert WholeLog(stretches)[..k] == TimingLines(log);
    m := CutOverlapsScanInOrder(INITIAL, stretches, k);
    ScanTruncated(INITIAL, f, m);
    assert INITIAL.phases + ReportSoFar(f, [], m) == ReportSoFar(f, [], m);
  }

  /** The same holds when some of the phases, in groups or not, start and never end, as when a
      service does not stop: the finished ones are reported in order. */
  lemma UnfinishedOverlappingLog(lines: seq<Line>, stretches: seq<Stretch>, f: Forest) returns (m: nat)
    requires Harmless(lines) && Finished(lines) <= WholeLog(stretches) && Grouped(stretches)
    requires InOrder(stretches) == Log(f) && Unambiguous(f, {})
    ensures m <= Lines(f) && Scan(INITIAL, Written(lines)).phases == ReportSoFar(f, [], m)
  {
    Recovers(INITIAL, lines);
    InitialTidy();
    var k := |Finished(lines)|;
    assert WholeLog(stretches)[..k] == Finished(lines);
    m := CutOverlapsScanInOrder(INITIAL, stretches, k);
    ScanTruncated(INITIAL, f, m);
    assert INITIAL.phases + ReportSoFar(f, [], m) == ReportSoFar(f, [], m);
  }

  // ---------------------------------------------------------------- totals

  function EndSeconds(log: seq<Event>): nat {
    if log == [] then 0 else (if log[0].End? then log[0].seconds else 0) + EndSeconds(log[1..])
  }

  /** Overlapping phases are counted each for itself directly in the sequence or at top level, and
      not at all inside any other wrapper. */
  lemma {:induction false} OverlapCounted(log: seq<Event>, open: set<string>, wrappers: seq<string>)
    requires Overlaps(log, open)
    ensures CountedSeconds(Entries(log, Context(|wrappers|, Innermost(wrappers))))
            == if Open(wrappers) then EndSeconds(log) else 0
    decreases |log|
  {
    if log != [] {
      var e, c := log[0], Context(|wrappers|, Innermost(wrappers));
      OverlapCounted(log[1..], After(e, open), wrappers);
      CountedAppend(EntryOf(e, c), Entries(log[1..], c));
      if e.End? {
        var entry := EntryOf(e, c);
        assert entry[1..] == [] && Classify(e.name) != Wrapper;
        assert entry[0].counted <==> Open(wrappers);
      }
    }
  }

  /** So a group, or the part of it that a failed deploy leaves, adds the seconds of its end lines
      or nothing. */
  lemma GroupTotal(s: Parser, log: seq<Event>)
    requires Tidy(s) && Overlaps(log, {})
    ensures CountedSeconds(Scan(s, log).phases)
            == CountedSeconds(s.phases) + if Open(s.wrappers) then EndSeconds(log) else 0
  {
    BeginsDuring(s);
    DuringScan(s, s, log, {}, []);
    assert [] + Entries(log, ContextOf(s)) == Entries(log, ContextOf(s));
    CountedAppend(s.phases, Entries(log, ContextOf(s)));
    OverlapCounted(log, {}, s.wrappers);
  }
}
