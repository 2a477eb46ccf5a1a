/** Logs of failed deploys in which a phase starts and never ends, although more lines follow. */
module TimingUnfinished {
  import opened Basics
  import opened ReleaseTiming
  import opened TimedForest
  import opened TimingTotals

  function Stack(s: Parser, name: string): seq<Context> {
    if name in s.starts then s.starts[name] else []
  }

  /** A stack with one more entry below its last k. */
  function Inserted(own: seq<Context>, context: Context, k: nat): seq<Context>
    requires k <= |own|
  {
    own[..|own| - k] + [context] + own[|own| - k..]
  }

  lemma InsertedPush(own: seq<Context>, context: Context, k: nat, c: Context)
    requires k <= |own|
    ensures Inserted(own, context, k) + [c] == Inserted(own + [c], context, k + 1)
  {
  }

  lemma InsertedPop(own: seq<Context>, context: Context, k: nat)
    requires k <= |own|
    ensures Inserted(own, context, k) != []
    ensures var top := Inserted(own, context, k);
            if k > 0 then top[|top| - 1] == own[|own| - 1]
                         && top[..|top| - 1] == Inserted(own[..|own| - 1], context, k - 1)
            else top[|top| - 1] == context && top[..|top| - 1] == own
  {
  }

  lemma InsertedLast(own: seq<Context>, context: Context)
    requires own != [] && own[|own| - 1] == context
    ensures own == Inserted(own[..|own| - 1], context, 0)
  {
  }

  /** The second parser differs from the first in one start only, which the phase `name` left
      behind: below its last k starts under the same label. */
  ghost predicate Stale(s: Parser, t: Parser, name: string, context: Context, k: nat) {
    && t.wrappers == s.wrappers && t.phases == s.phases
    && k <= |Stack(s, name)| && Stack(t, name) == Inserted(Stack(s, name), context, k)
    && SameOthers(s, t, name)
  }

  ghost predicate SameOthers(s: Parser, t: Parser, name: string) {
    forall other | other != name :: Stack(t, other) == Stack(s, other)
  }

  lemma LatestIsLast(s: Parser, name: string)
    ensures var own := Stack(s, name); Latest(s.starts, name) == if own == [] then None else Some(own[|own| - 1])
  {
  }

  lemma StackStep(s: Parser, e: Event, name: string)
    ensures var own := Stack(s, name);
            Stack(Step(s, e), name) ==
              if e.Start? && e.name == name then own + [Context(|s.wrappers|, Innermost(s.wrappers))]
              else if e.End? && e.name == name && own != [] then own[..|own| - 1]
              else own
  {
  }

  lemma OthersStep(s: Parser, t: Parser, e: Event, name: string)
    requires SameOthers(s, t, name) && t.wrappers == s.wrappers
    ensures SameOthers(Step(s, e), Step(t, e), name) && Step(t, e).wrappers == Step(s, e).wrappers
  {
    forall other | other != name
      ensures Stack(Step(t, e), other) == Stack(Step(s, e), other)
    {
      StackStep(s, e, other);
      StackStep(t, e, other);
    }
  }

  /** A phase that is no wrapper leaves its start behind. */
  lemma UnfinishedIsStale(s: Parser, name: string)
    requires !IsWrapper(name)
    ensures Stale(s, Step(s, Start(name)), name, Context(|s.wrappers|, Innermost(s.wrappers)), 0)
  {
    var t, context := Step(s, Start(name)), Context(|s.wrappers|, Innermost(s.wrappers));
    forall other
      ensures other != name ==> Stack(t, other) == Stack(s, other)
    {
      StackStep(s, Start(name), other);
    }
    StackStep(s, Start(name), name);
    assert Stack(s, name) + [context] == Inserted(Stack(s, name), context, 0);
  }

  /** How many starts lie above the stale one after the next line. */
  function Above(e: Event, name: string, k: nat): nat {
    if e.Start? && e.name == name then k + 1
    else if e.End? && e.name == name && k > 0 then k - 1
    else k
  }

  /** The line takes the stale start for the start of its own phase, and that had another context
      or no start line. */
  predicate Mistakes(s: Parser, e: Event, name: string, context: Context, k: nat) {
    e.End? && e.name == name && k == 0 && Latest(s.starts, name) != Some(context)
  }

  /** What a line does to the label's own stacks. */
  lemma OwnStep(s: Parser, t: Parser, e: Event, name: string, context: Context, k: nat)
    requires Stale(s, t, name, context, k) && !Mistakes(s, e, name, context, k)
    ensures var own, above := Stack(Step(s, e), name), Above(e, name, k);
            above <= |own| && Stack(Step(t, e), name) == Inserted(own, context, above)
  {
    StackStep(s, e, name);
    StackStep(t, e, name);
    var own := Stack(s, name);
    if e.Start? && e.name == name {
      InsertedPush(own, context, k, Context(|s.wrappers|, Innermost(s.wrappers)));
    } else if e.End? && e.name == name {
      InsertedPop(own, context, k);
      if k == 0 {
        LatestIsLast(s, name);
        InsertedLast(own, context);
      }
    }
  }

  /** What a line reports. */
  lemma SameReport(s: Parser, t: Parser, e: Event, name: string, context: Context, k: nat)
    requires Stale(s, t, name, context, k) && !Mistakes(s, e, name, context, k)
    ensures Step(t, e).phases == Step(s, e).phases
  {
    if e.End? {
      LatestIsLast(s, e.name);
      LatestIsLast(t, e.name);
      if e.name == name {
        InsertedPop(Stack(s, name), context, k);
      }
    }
  }

  lemma StaleStep(s: Parser, t: Parser, e: Event, name: string, context: Context, k: nat)
    requires Stale(s, t, name, context, k) && !Mistakes(s, e, name, context, k)
    ensures Stale(Step(s, e), Step(t, e), name, context, Above(e, name, k))
  {
    OthersStep(s, t, e, name);
    OwnStep(s, t, e, name, context, k);
    SameReport(s, t, e, name, context, k);
  }

  lemma MistakeShows(s: Parser, t: Parser, e: Event, name: string, context: Context)
    requires Stale(s, t, name, context, 0) && Mistakes(s, e, name, context, 0)
    ensures Step(t, e).phases != Step(s, e).phases && |Step(t, e).phases| == |Step(s, e).phases|
  {
    LatestIsLast(t, name);
    InsertedPop(Stack(s, name), context, 0);
    var n := |s.phases|;
    assert Step(t, e).phases[n] == MakePhase(name, e.seconds, e.exitStatus, Some(context));
    assert Step(s, e).phases[n] == MakePhase(name, e.seconds, e.exitStatus, Latest(s.starts, name));
  }

  lemma {:induction false} ScanOnlyAdds(s: Parser, log: seq<Event>)
    ensures s.phases <= Scan(s, log).phases
    ensures |Scan(s, log).phases| - |s.phases| == Ends(log)
    decreases |log|
  {
    if log != [] {
      ScanOnlyAdds(Step(s, log[0]), log[1..]);
    }
  }

  function Ends(log: seq<Event>): nat {
    if log == [] then 0 else (if log[0].End? then 1 else 0) + Ends(log[1..])
  }

  /** No line of the log mistakes the stale start for its own. */
  predicate Undistorted(s: Parser, log: seq<Event>, name: string, context: Context, k: nat)
    decreases |log|
  {
    log != [] ==>
      !Mistakes(s, log[0], name, context, k)
      && Undistorted(Step(s, log[0]), log[1..], name, context, Above(log[0], name, k))
  }

  /** The report is the same with and without the stale start exactly when no line mistakes it. */
  lemma {:induction false} StaleIff(s: Parser, t: Parser, log: seq<Event>, name: string, context: Context, k: nat)
    requires Stale(s, t, name, context, k)
    ensures Scan(t, log).phases == Scan(s, log).phases <==> Undistorted(s, log, name, context, k)
    decreases |log|
  {
    if log != [] {
      var e := log[0];
      if Mistakes(s, e, name, context, k) {
        MistakeStays(s, t, log, name, context);
      } else {
        StaleStep(s, t, e, name, context, k);
        StaleIff(Step(s, e), Step(t, e), log[1..], name, context, Above(e, name, k));
      }
    }
  }

  lemma MistakeStays(s: Parser, t: Parser, log: seq<Event>, name: string, context: Context)
    requires log != [] && Stale(s, t, name, context, 0) && Mistakes(s, log[0], name, context, 0)
    ensures Scan(t, log).phases != Scan(s, log).phases
  {
    MistakeShows(s, t, log[0], name, context);
    ScanOnlyAdds(Step(s, log[0]), log[1..]);
    ScanOnlyAdds(Step(t, log[0]), log[1..]);
    Differs(Step(s, log[0]).phases, Step(t, log[0]).phases, Scan(s, log).phases, Scan(t, log).phases);
  }

  lemma Differs<T>(a: seq<T>, b: seq<T>, c: seq<T>, d: seq<T>)
    requires |a| == |b| && a != b && a <= c && b <= d
    ensures c != d
  {
    assert a == c[..|a|] && b == d[..|a|];
  }

  /** The log ends phases of this label more often than it starts them, at some line. */
  predicate Underflows(log: seq<Event>, name: string, k: nat)
    decreases |log|
  {
    log != []
    && ((log[0].End? && log[0].name == name && k == 0) || Underflows(log[1..], name, Above(log[0], name, k)))
  }

  lemma {:induction false} UndistortedFresh(s: Parser, log: seq<Event>, name: string, context: Context, k: nat)
    requires |Stack(s, name)| == k
    ensures Undistorted(s, log, name, context, k) <==> !Underflows(log, name, k)
    decreases |log|
  {
    if log != [] {
      LatestIsLast(s, name);
      StackStep(s, log[0], name);
      if !(log[0].End? && log[0].name == name && k == 0) {
        UndistortedFresh(Step(s, log[0]), log[1..], name, context, Above(log[0], name, k));
      }
    }
  }

  /** A phase that is no wrapper, starts while no other phase of its label is open, and never ends,
      leaves the rest of the report as it would be without it, exactly when no later end line of
      its label lacks a start line of its own. */
  lemma UnfinishedPhase(s: Parser, name: string, log: seq<Event>)
    requires !IsWrapper(name) && Stack(s, name) == []
    ensures Scan(s, [Start(name)] + log).phases == Scan(s, log).phases <==> !Underflows(log, name, 0)
  {
    var context := Context(|s.wrappers|, Innermost(s.wrappers));
    UnfinishedIsStale(s, name);
    ScanAppend(s, [Start(name)], log);
    ScanOne(s, Start(name));
    StaleIff(s, Step(s, Start(name)), log, name, context, 0);
    UndistortedFresh(s, log, name, context, 0);
  }

  // ---------------------------------------------------------------- any number of unfinished phases

  /** A line of the log: one of the finished phases', or the start of a phase that never ends. */
  datatype Line = Kept(event: Event) | Unfinished(name: string)

  function Written(lines: seq<Line>): seq<Event> {
    if lines == [] then []
    else [if lines[0].Kept? then lines[0].event else Start(lines[0].name)] + Written(lines[1..])
  }

  /** The log without the phases that never end. */
  function Finished(lines: seq<Line>): seq<Event> {
    if lines == [] then [] else (if lines[0].Kept? then [lines[0].event] else []) + Finished(lines[1..])
  }

  /** After each start that never ends, every end line of its label has a start line of its own. */
  predicate Harmless(lines: seq<Line>)
    decreases |lines|
  {
    lines != [] ==>
      && Harmless(lines[1..])
      && (lines[0].Unfinished? ==>
            !IsWrapper(lines[0].name) && !Underflows(Finished(lines[1..]), lines[0].name, 0))
  }

  lemma {:induction false} NoMistakes(s: Parser, log: seq<Event>, name: string, context: Context, k: nat)
    requires !Underflows(log, name, k)
    ensures Undistorted(s, log, name, context, k)
    decreases |log|
  {
    if log != [] {
      NoMistakes(Step(s, log[0]), log[1..], name, context, Above(log[0], name, k));
    }
  }

  /** Then the finished phases are reported as if the others had never begun. */
  lemma {:induction false} Recovers(s: Parser, lines: seq<Line>)
    requires Harmless(lines)
    ensures Scan(s, Written(lines)).phases == Scan(s, Finished(lines)).phases
    decreases |lines|
  {
    if lines != [] {
      var rest := lines[1..];
      assert Written(lines)[1..] == Written(rest);
      Recovers(Step(s, Written(lines)[0]), rest);
      if lines[0].Kept? {
        assert Finished(lines)[1..] == Finished(rest);
      } else {
        var name, context := lines[0].name, Context(|s.wrappers|, Innermost(s.wrappers));
        assert Finished(lines) == Finished(rest);
        UnfinishedIsStale(s, name);
        NoMistakes(s, Finished(rest), name, context, 0);
        StaleIff(s, Step(s, Start(name)), Finished(rest), name, context, 0);
      }
    }
  }

  /** A log with unfinished phases that ends after any line gives the report so far of the forest
      of the finished ones. */
  lemma UnfinishedRecovered(lines: seq<Line>, f: Forest, n: nat)
    requires Harmless(lines) && n <= Lines(f) && Finished(lines) == Log(f)[..n] && Unambiguous(f, {})
    ensures Scan(INITIAL, Written(lines)).phases == ReportSoFar(f, [], n)
  {
    Recovers(INITIAL, lines);
    InitialTidy();
    ScanTruncated(INITIAL, f, n);
    assert INITIAL.phases + ReportSoFar(f, [], n) == ReportSoFar(f, [], n);
  }

  // ---------------------------------------------------------------- unfinished wrappers

  predicate NoneStarted(f: Forest) {
    f.Cons? ==> f.head.Unstarted? && NoneStarted(f.rest)
  }

  lemma {:induction false} ReportSizes(f: Forest, wrappers: seq<string>, others: seq<string>)
    ensures |Report(f, wrappers)| == |Report(f, others)|
    decreases f
  {
    if f.Cons? {
      if f.head.Started? {
        ReportSizes(f.head.kids, Enclose(wrappers, f.head.name), Enclose(others, f.head.name));
      }
      ReportSizes(f.rest, wrappers, others);
    }
  }

  lemma {:induction false} OneDeeper(f: Forest, wrappers: seq<string>, wrapper: string)
    ensures Report(f, wrappers + [wrapper]) == Report(f, wrappers) <==> NoneStarted(f)
    decreases f
  {
    if f.Cons? {
      var deeper := wrappers + [wrapper];
      OneDeeper(f.rest, wrappers, wrapper);
      var a, b := PhaseReport(f.head, deeper), PhaseReport(f.head, wrappers);
      if f.head.Started? {
        ReportSizes(f.head.kids, Enclose(deeper, f.head.name), Enclose(wrappers, f.head.name));
        assert |a| == |b|;
        assert a[|a| - 1] == Entry(f.head, deeper) && b[|b| - 1] == Entry(f.head, wrappers);
        Differs(b, a, Report(f, wrappers), Report(f, deeper));
      } else {
        assert a == b == [Entry(f.head, wrappers)];
        assert Report(f, deeper)[1..] == Report(f.rest, deeper) && Report(f, wrappers)[1..] == Report(f.rest, wrappers);
      }
    }
  }

  /** After a wrapper that never ends, everything is reported as if it were inside that wrapper;
      that is what it would be without it exactly when no phase has a start line. */
  lemma UnfinishedWrapper(s: Parser, wrapper: string, f: Forest)
    requires Tidy(s) && IsWrapper(wrapper) && Unambiguous(f, s.starts.Keys + {wrapper})
    ensures Scan(s, [Start(wrapper)] + Log(f)).phases == s.phases + Report(f, s.wrappers + [wrapper])
    ensures Scan(s, [Start(wrapper)] + Log(f)).phases == s.phases + Report(f, s.wrappers) <==> NoneStarted(f)
  {
    var t := Step(s, Start(wrapper));
    ScanAppend(s, [Start(wrapper)], Log(f));
    ScanOne(s, Start(wrapper));
    StepKeepsTidy(s, Start(wrapper));
    assert t.starts.Keys == s.starts.Keys + {wrapper};
    ScanForest(t, f);
    OneDeeper(f, s.wrappers, wrapper);
    SamePrefix(s.phases, Report(f, s.wrappers + [wrapper]), Report(f, s.wrappers));
  }

  lemma SamePrefix<T>(a: seq<T>, b: seq<T>, c: seq<T>)
    ensures a + b == a + c <==> b == c
  {
    assert (a + b)[|a|..] == b && (a + c)[|a|..] == c;
  }
}
