/** What the deploy-log parser recovers from a properly nested log, and what its totals mean.

    The reference is a forest of timed phases.  `Log` writes it out the way the deploy
    scripts do: a start line, the lines of the nested phases, an end line.  Some steps
    report only an end line; they are the `Unstarted` phases. */
module TimedForest {
  import opened Basics
  import opened ReleaseTiming

  datatype Forest = Nil | Cons(head: Phase, rest: Forest)

  datatype Phase =
    | Started(name: string, begin: int, end: int, exit: nat, kids: Forest)
    | Unstarted(name: string, begin: int, end: int, exit: nat)

  /** Whole-second clock difference, as the shell computes it. */
  function Seconds(p: Phase): nat {
    if p.begin <= p.end then p.end - p.begin else 0
  }

  /** The number of lines written. */
  function Lines(f: Forest): nat {
    if f.Nil? then 0 else PhaseLines(f.head) + Lines(f.rest)
  }

  function PhaseLines(p: Phase): nat {
    if p.Started? then 2 + Lines(p.kids) else 1
  }

  function Closing(p: Phase): Event {
    End(p.name, Seconds(p), p.exit)
  }

  function Log(f: Forest): (log: seq<Event>)
    ensures |log| == Lines(f)
  {
    if f.Nil? then [] else PhaseLog(f.head) + Log(f.rest)
  }

  function PhaseLog(p: Phase): (log: seq<Event>)
    ensures |log| == PhaseLines(p)
  {
    if p.Started? then [Start(p.name)] + Log(p.kids) + [Closing(p)] else [Closing(p)]
  }

  /** A phase without a start line must not carry the label of a phase that is still open. */
  ghost predicate Unambiguous(f: Forest, open: set<string>) {
    f.Cons? ==>
      && (if f.head.Started? then Unambiguous(f.head.kids, open + {f.head.name}) else f.head.name !in open)
      && Unambiguous(f.rest, open)
  }

  /** The wrapper ancestors of a phase's children, outermost first. */
  function Enclose(wrappers: seq<string>, name: string): seq<string> {
    if IsWrapper(name) then wrappers + [name] else wrappers
  }

  /** Whether a phase with these wrapper ancestors is counted: it is not the sequence itself, and
      it is outermost or directly in the sequence, or has no start line. */
  predicate Counts(p: Phase, wrappers: seq<string>) {
    && p.name != SEQUENCE
    && (p.Unstarted? || wrappers == [] || wrappers[|wrappers| - 1] == SEQUENCE)
  }

  /** The record a phase deserves: with a start line, the number of its wrapper ancestors and the
      nearest of them; and it has succeeded when it exits with zero. */
  function Entry(p: Phase, wrappers: seq<string>): PhaseTiming {
    PhaseTiming(
      p.name, Classify(p.name), Seconds(p), p.exit == 0, p.exit,
      if p.Started? then Some(|wrappers|) else None,
      if p.Started? && wrappers != [] then Some(wrappers[|wrappers| - 1]) else None,
      Counts(p, wrappers))
  }

  /** The parser makes that record from the context of the start line. */
  lemma MakesEntry(p: Phase, wrappers: seq<string>)
    ensures MakePhase(p.name, Seconds(p), p.exit,
                      if p.Started? then Some(Context(|wrappers|, Innermost(wrappers))) else None) == Entry(p, wrappers)
  {
  }

  /** The report the forest deserves: each phase in the order the phases end. */
  function Report(f: Forest, wrappers: seq<string>): seq<PhaseTiming> {
    if f.Nil? then [] else PhaseReport(f.head, wrappers) + Report(f.rest, wrappers)
  }

  function PhaseReport(p: Phase, wrappers: seq<string>): seq<PhaseTiming> {
    (if p.Started? then Report(p.kids, Enclose(wrappers, p.name)) else []) + [Entry(p, wrappers)]
  }

  // ---------------------------------------------------------------- recovery of the tree

  function Adding(s: Parser, more: seq<PhaseTiming>): Parser {
    s.(phases := s.phases + more)
  }

  /** How many phases with this label are open. */
  function OpenCount(s: Parser, name: string): nat {
    if name in s.starts then |s.starts[name]| else 0
  }

  ghost predicate NoEmptyEntry(s: Parser) {
    forall name | name in s.starts :: s.starts[name] != []
  }

  ghost predicate Balanced(s: Parser) {
    forall name | IsWrapper(name) :: multiset(s.wrappers)[name] == OpenCount(s, name)
  }

  ghost predicate OnlyWrappers(s: Parser) {
    forall name | name in s.wrappers :: IsWrapper(name)
  }

  /** The two structures agree: the stack holds exactly the open wrapper phases, label by label,
      and a label without open phases has no entry. */
  ghost predicate Tidy(s: Parser) {
    NoEmptyEntry(s) && Balanced(s) && OnlyWrappers(s)
  }

  lemma InitialTidy()
    ensures Tidy(INITIAL) && INITIAL.starts.Keys == {}
  {
  }

  lemma {:induction false} DropLastTakesOne(wrappers: seq<string>, name: string)
    ensures multiset(DropLast(wrappers, name)) == multiset(wrappers) - multiset{name}
    ensures name !in wrappers ==> DropLast(wrappers, name) == wrappers
  {
    if wrappers != [] {
      var k := |wrappers| - 1;
      assert wrappers == wrappers[..k] + [wrappers[k]];
      if wrappers[k] != name {
        DropLastTakesOne(wrappers[..k], name);
      }
    }
  }

  lemma StartKeepsCounts(s: Parser, started: string, name: string)
    requires Tidy(s) && IsWrapper(name)
    ensures var t := Step(s, Start(started)); multiset(t.wrappers)[name] == OpenCount(t, name)
  {
    assert multiset(s.wrappers + [started]) == multiset(s.wrappers) + multiset{started};
  }

  lemma LatestTakesOne(starts: map<string, seq<Context>>, ended: string, name: string)
    requires name in starts ==> starts[name] != []
    ensures
      var before, t := if name in starts then |starts[name]| else 0, WithoutLatest(starts, ended);
      (if name in t then |t[name]| else 0) == if ended == name && before > 0 then before - 1 else before
  {
  }

  lemma EndKeepsCounts(s: Parser, e: Event, name: string)
    requires Tidy(s) && IsWrapper(name) && e.End?
    ensures var t := Step(s, e); multiset(t.wrappers)[name] == OpenCount(t, name)
  {
    DropLastTakesOne(s.wrappers, e.name);
    LatestTakesOne(s.starts, e.name, name);
    assert multiset(s.wrappers)[name] == OpenCount(s, name);
  }

  lemma StepKeepsCounts(s: Parser, e: Event, name: string)
    requires Tidy(s) && IsWrapper(name)
    ensures var t := Step(s, e); multiset(t.wrappers)[name] == OpenCount(t, name)
  {
    match e
    case Other =>
    case Start(started) => StartKeepsCounts(s, started, name);
    case End(_, _, _) => EndKeepsCounts(s, e, name);
  }

  lemma StepKeepsOnlyWrappers(s: Parser, e: Event)
    requires OnlyWrappers(s)
    ensures OnlyWrappers(Step(s, e))
  {
    if e.End? && IsWrapper(e.name) {
      var left := DropLast(s.wrappers, e.name);
      forall name | name in left
        ensures IsWrapper(name)
      {
        DropLastTakesOne(s.wrappers, e.name);
        assert name in multiset(left) && name in multiset(s.wrappers);
      }
    }
  }

  lemma StepKeepsTidy(s: Parser, e: Event)
    requires Tidy(s)
    ensures Tidy(Step(s, e))
  {
    var t := Step(s, e);
    assert NoEmptyEntry(t);
    assert Balanced(t) by {
      forall name | IsWrapper(name)
        ensures multiset(t.wrappers)[name] == OpenCount(t, name)
      {
        StepKeepsCounts(s, e, name);
      }
    }
    StepKeepsOnlyWrappers(s, e);
  }

  /** For every log whatever, nested or not, the wrapper stack and the start stacks agree. */
  lemma {:induction false} ScanKeepsTidy(s: Parser, log: seq<Event>)
    requires Tidy(s)
    ensures Tidy(Scan(s, log))
    decreases |log|
  {
    if log != [] {
      StepKeepsTidy(s, log[0]);
      ScanKeepsTidy(Step(s, log[0]), log[1..]);
    }
  }

  lemma {:induction false} ScanAppend(s: Parser, a: seq<Event>, b: seq<Event>)
    ensures Scan(s, a + b) == Scan(Scan(s, a), b)
    decreases |a|
  {
    if a == [] {
      assert a + b == b;
    } else {
      assert (a + b)[1..] == a[1..] + b;
      ScanAppend(Step(s, a[0]), a[1..], b);
    }
  }

  lemma ScanOne(s: Parser, e: Event)
    ensures Scan(s, [e]) == Step(s, e)
  {
  }

  lemma StartsRestored(starts: map<string, seq<Context>>, name: string, context: Context)
    requires name in starts ==> starts[name] != []
    ensures
      var open := if name in starts then starts[name] else [];
      var more := starts[name := open + [context]];
      starts == if |open| == 0 then more - {name} else more[name := (open + [context])[..|open|]]
  {
  }

  /** Opening a phase and closing it at once restores both structures. */
  lemma OpenClose(s: Parser, name: string, seconds: nat, exit: nat, inner: seq<PhaseTiming>)
    requires name in s.starts ==> s.starts[name] != []
    ensures
      var context := Context(|s.wrappers|, Innermost(s.wrappers));
      Step(Adding(Step(s, Start(name)), inner), End(name, seconds, exit))
      == Adding(Adding(s, inner), [MakePhase(name, seconds, exit, Some(context))])
  {
    var context := Context(|s.wrappers|, Innermost(s.wrappers));
    var open := if name in s.starts then s.starts[name] else [];
    StartsRestored(s.starts, name, context);
    var during := Adding(Step(s, Start(name)), inner);
    assert during.starts[name] == open + [context];
    var after := Step(during, End(name, seconds, exit));
    assert after.starts == s.starts;
    if IsWrapper(name) {
      assert during.wrappers[..|s.wrappers|] == s.wrappers;
    }
    assert after.wrappers == s.wrappers;
  }

  lemma ScanBracket(s: Parser, name: string, seconds: nat, exit: nat, kids: seq<Event>, inner: seq<PhaseTiming>)
    requires Tidy(s)
    requires Scan(Step(s, Start(name)), kids) == Adding(Step(s, Start(name)), inner)
    ensures
      var context := Context(|s.wrappers|, Innermost(s.wrappers));
      Scan(s, [Start(name)] + kids + [End(name, seconds, exit)])
      == Adding(Adding(s, inner), [MakePhase(name, seconds, exit, Some(context))])
  {
    var closing := End(name, seconds, exit);
    ScanAppend(s, [Start(name)] + kids, [closing]);
    ScanAppend(s, [Start(name)], kids);
    ScanOne(s, Start(name));
    ScanOne(Adding(Step(s, Start(name)), inner), closing);
    OpenClose(s, name, seconds, exit, inner);
  }

  lemma ScanUnstarted(s: Parser, name: string, seconds: nat, exit: nat)
    requires Tidy(s) && name !in s.starts
    ensures Scan(s, [End(name, seconds, exit)]) == s.(phases := s.phases + [MakePhase(name, seconds, exit, None)])
  {
    ScanOne(s, End(name, seconds, exit));
    if IsWrapper(name) {
      assert name !in multiset(s.wrappers);
      DropLastTakesOne(s.wrappers, name);
    }
  }

  lemma OpeningAddsLabel(s: Parser, name: string)
    requires Tidy(s)
    ensures var t := Step(s, Start(name));
            && Tidy(t) && t.starts.Keys == s.starts.Keys + {name}
            && t.wrappers == Enclose(s.wrappers, name) && t.phases == s.phases
  {
  }

  lemma ScanBoth(s: Parser, a: seq<Event>, b: seq<Event>, first: seq<PhaseTiming>, second: seq<PhaseTiming>)
    requires Scan(s, a) == Adding(s, first)
    requires Scan(Adding(s, first), b) == Adding(Adding(s, first), second)
    ensures Scan(s, a + b) == Adding(s, first + second)
  {
    ScanAppend(s, a, b);
    AddingBoth(s, first, second);
  }

  lemma AddingBoth(s: Parser, first: seq<PhaseTiming>, second: seq<PhaseTiming>)
    ensures Adding(Adding(s, first), second) == Adding(s, first + second)
  {
    assert s.phases + first + second == s.phases + (first + second);
  }

  /** From any tidy state, scanning a forest's log reports the forest and leaves the wrapper
      stack and the start stacks as they were. */
  lemma {:induction false} ScanForest(s: Parser, f: Forest)
    requires Tidy(s) && Unambiguous(f, s.starts.Keys)
    ensures Scan(s, Log(f)) == Adding(s, Report(f, s.wrappers))
    decreases f, 0
  {
    if f.Cons? {
      ScanPhase(s, f.head);
      ScanForest(Adding(s, PhaseReport(f.head, s.wrappers)), f.rest);
      ScanBoth(s, PhaseLog(f.head), Log(f.rest), PhaseReport(f.head, s.wrappers), Report(f.rest, s.wrappers));
    }
  }

  lemma ScanStarted(s: Parser, p: Phase)
    requires Tidy(s) && p.Started?
    requires var t, inner := Step(s, Start(p.name)), Report(p.kids, Enclose(s.wrappers, p.name));
             Scan(t, Log(p.kids)) == Adding(t, inner)
    ensures Scan(s, PhaseLog(p)) == Adding(s, PhaseReport(p, s.wrappers))
  {
    var inner := Report(p.kids, Enclose(s.wrappers, p.name));
    ScanBracket(s, p.name, Seconds(p), p.exit, Log(p.kids), inner);
    MakesEntry(p, s.wrappers);
    AddingBoth(s, inner, [Entry(p, s.wrappers)]);
  }

  lemma {:induction false} ScanPhase(s: Parser, p: Phase)
    requires Tidy(s)
    requires if p.Started? then Unambiguous(p.kids, s.starts.Keys + {p.name}) else p.name !in s.starts
    ensures Scan(s, PhaseLog(p)) == Adding(s, PhaseReport(p, s.wrappers))
    decreases p, 1
  {
    if p.Started? {
      OpeningAddsLabel(s, p.name);
      ScanForest(Step(s, Start(p.name)), p.kids);
      ScanStarted(s, p);
    } else {
      ScanUnstarted(s, p.name, Seconds(p), p.exit);
      MakesEntry(p, s.wrappers);
      assert [] + [Entry(p, s.wrappers)] == [Entry(p, s.wrappers)];
    }
  }
}
