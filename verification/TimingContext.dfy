/** What the report says of a phase in any log whatever, nested or not: the context of the start
    line it takes, told by the lines of the log alone. */
module TimingContext {
  import opened Basics
  import opened ReleaseTiming
  import opened TimedForest
  import opened TimingUnfinished

  // ---------------------------------------------------------------- open phases

  /** The start lines of the phases with this label that are open after the log, the latest last:
      an end line ends the phase that started last. */
  function Opens(log: seq<Event>, name: string): seq<nat> {
    if log == [] then []
    else
      var n := |log| - 1;
      var before := Opens(log[..n], name);
      if log[n] == Start(name) then before + [n]
      else if log[n].End? && log[n].name == name && before != [] then before[..|before| - 1]
      else before
  }

  /** The start lines of the wrappers that are open after the log. */
  function OpenWrappers(log: seq<Event>): set<nat> {
    set i | 0 <= i < |log| && log[i].Start? && IsWrapper(log[i].name) && i in Opens(log, log[i].name)
  }

  ghost predicate Increasing(lines: seq<nat>) {
    forall j, k | 0 <= j < k < |lines| :: lines[j] < lines[k]
  }

  ghost predicate AreStarts(log: seq<Event>, lines: seq<nat>, name: string) {
    Increasing(lines) && forall k | 0 <= k < |lines| :: lines[k] < |log| && log[lines[k]] == Start(name)
  }

  lemma {:induction false} OpensAreStarts(log: seq<Event>, name: string)
    ensures AreStarts(log, Opens(log, name), name)
  {
    if log != [] {
      OpensAreStarts(log[..|log| - 1], name);
      StartsGrow(log, Opens(log[..|log| - 1], name), name);
    }
  }

  lemma StartsGrow(log: seq<Event>, lines: seq<nat>, name: string)
    requires log != [] && AreStarts(log[..|log| - 1], lines, name)
    ensures AreStarts(log, lines, name) && (lines != [] ==> AreStarts(log, lines[..|lines| - 1], name))
    ensures log[|log| - 1] == Start(name) ==> AreStarts(log, lines + [|log| - 1], name)
  {
  }

  // ---------------------------------------------------------------- the wrapper stack

  /** The stack holds the labels of these lines, which are the open wrappers' start lines. */
  ghost predicate StackOf(log: seq<Event>, wrappers: seq<string>, lines: seq<nat>) {
    && |lines| == |wrappers| && Increasing(lines)
    && (forall k | 0 <= k < |lines| :: lines[k] < |log| && log[lines[k]] == Start(wrappers[k]))
    && (forall i :: i in lines <==> i in OpenWrappers(log))
  }

  lemma ScanSnoc(log: seq<Event>, e: Event)
    ensures Scan(INITIAL, log + [e]) == Step(Scan(INITIAL, log), e)
  {
    ScanAppend(INITIAL, log, [e]);
    ScanOne(Scan(INITIAL, log), e);
  }

  lemma {:induction false} DropLastAt(wrappers: seq<string>, name: string) returns (k: nat)
    requires name in wrappers
    ensures k < |wrappers| && wrappers[k] == name && name !in wrappers[k + 1..]
            && DropLast(wrappers, name) == Without(wrappers, k)
  {
    var n := |wrappers| - 1;
    k := n;
    if wrappers[n] != name {
      assert wrappers == wrappers[..n] + [wrappers[n]];
      k := DropLastAt(wrappers[..n], name);
      WithoutSnoc(wrappers[..n], wrappers[n], k);
    }
  }

  lemma WithoutSnoc<T>(s: seq<T>, x: T, k: nat)
    requires k < |s|
    ensures (s + [x])[k + 1..] == s[k + 1..] + [x]
    ensures (s + [x])[..k] + (s + [x])[k + 1..] == s[..k] + s[k + 1..] + [x]
  {
  }

  function Without<T>(s: seq<T>, k: nat): seq<T>
    requires k < |s|
  {
    s[..k] + s[k + 1..]
  }

  lemma WithoutLine(lines: seq<nat>, k: nat)
    requires Increasing(lines) && k < |lines|
    ensures Increasing(Without(lines, k))
    ensures forall i :: i in Without(lines, k) <==> i in lines && i != lines[k]
  {
    assert lines == lines[..k] + [lines[k]] + lines[k + 1..];
  }

  lemma WithoutLast(lines: seq<nat>, i: nat)
    requires Increasing(lines) && lines != []
    ensures i in lines[..|lines| - 1] <==> i in lines && i != lines[|lines| - 1]
  {
    assert lines == lines[..|lines| - 1] + [lines[|lines| - 1]];
  }

  lemma OpenStep(log: seq<Event>, i: nat)
    requires log != [] && i < |log| - 1 && log[i].Start?
    ensures var n, name := |log| - 1, log[i].name;
            var opens := Opens(log[..n], name);
            i in Opens(log, name) <==>
              i in opens && !(log[n].End? && log[n].name == name && i == opens[|opens| - 1])
  {
    var n, name := |log| - 1, log[i].name;
    var opens := Opens(log[..n], name);
    OpensAreStarts(log[..n], name);
    if opens != [] {
      WithoutLast(opens, i);
    }
  }

  /** The wrapper that the last line ends. */
  function Ended(log: seq<Event>): set<nat>
    requires log != []
  {
    var n := |log| - 1;
    if log[n].End? && Opens(log[..n], log[n].name) != [] then
      {Opens(log[..n], log[n].name)[|Opens(log[..n], log[n].name)| - 1]}
    else {}
  }

  function Begun(log: seq<Event>): set<nat>
    requires log != []
  {
    if log[|log| - 1].Start? && IsWrapper(log[|log| - 1].name) then {|log| - 1} else {}
  }

  lemma LastIsOpen(log: seq<Event>)
    requires log != [] && log[|log| - 1].Start?
    ensures |log| - 1 in Opens(log, log[|log| - 1].name)
  {
    var n := |log| - 1;
    assert Opens(log, log[n].name) == Opens(log[..n], log[n].name) + [n];
  }

  /** Another line changes the open wrappers only when it starts or ends one. */
  lemma OpenWrappersStep(log: seq<Event>)
    requires log != []
    ensures OpenWrappers(log) == OpenWrappers(log[..|log| - 1]) - Ended(log) + Begun(log)
  {
    var n := |log| - 1;
    forall i
      ensures i in OpenWrappers(log) <==> i in OpenWrappers(log[..n]) - Ended(log) + Begun(log)
    {
      if 0 <= i < n && log[i].Start? {
        OpenStep(log, i);
        EndedIs(log, i);
      } else if i == n && log[n].Start? {
        LastIsOpen(log);
      }
    }
  }

  lemma EndedIs(log: seq<Event>, i: nat)
    requires log != [] && i < |log| - 1 && log[i].Start?
    ensures var n, opens := |log| - 1, Opens(log[..|log| - 1], log[i].name);
            i in opens ==>
              (i in Ended(log) <==> log[n].End? && log[n].name == log[i].name && i == opens[|opens| - 1])
  {
    if log[|log| - 1].End? {
      OpensAreStarts(log[..|log| - 1], log[|log| - 1].name);
    }
  }

  lemma StackStarts(log: seq<Event>, wrappers: seq<string>, lines: seq<nat>)
    requires log != [] && StackOf(log[..|log| - 1], wrappers, lines)
    requires log[|log| - 1].Start? && IsWrapper(log[|log| - 1].name)
    ensures StackOf(log, wrappers + [log[|log| - 1].name], lines + [|log| - 1])
  {
    OpenWrappersStep(log);
  }

  /** The line of the last wrapper with this label is that of the phase that started last. */
  lemma StackEnds(log: seq<Event>, wrappers: seq<string>, lines: seq<nat>, k: nat)
    requires log != [] && StackOf(log[..|log| - 1], wrappers, lines) && log[|log| - 1].End? && k < |wrappers|
    requires var name := log[|log| - 1].name;
             IsWrapper(name) && wrappers[k] == name && name !in wrappers[k + 1..]
    ensures StackOf(log, Without(wrappers, k), Without(lines, k))
  {
    LastLine(log[..|log| - 1], wrappers, lines, k);
    OpenWrappersStep(log);
    WithoutLine(lines, k);
  }

  lemma LastLine(log: seq<Event>, wrappers: seq<string>, lines: seq<nat>, k: nat)
    requires StackOf(log, wrappers, lines) && k < |wrappers| && IsWrapper(wrappers[k])
    requires wrappers[k] !in wrappers[k + 1..]
    ensures var opens := Opens(log, wrappers[k]); opens != [] && opens[|opens| - 1] == lines[k]
  {
    var name := wrappers[k];
    var opens := Opens(log, name);
    OpensAreStarts(log, name);
    assert lines[k] in lines && lines[k] in opens;
    var last := opens[|opens| - 1];
    assert last in OpenWrappers(log) && last in lines;
    var j :| 0 <= j < |lines| && lines[j] == last;
    forall m | k < m < |wrappers|
      ensures wrappers[m] != name
    {
      assert wrappers[m] == wrappers[k + 1..][m - k - 1];
    }
    var m :| 0 <= m < |opens| && opens[m] == lines[k];
  }

  lemma OpenIsStacked(log: seq<Event>, wrappers: seq<string>, lines: seq<nat>, name: string)
    requires StackOf(log, wrappers, lines) && IsWrapper(name) && Opens(log, name) != []
    ensures name in wrappers
  {
    OpensAreStarts(log, name);
    var opens := Opens(log, name);
    assert opens[0] in opens && opens[0] in OpenWrappers(log) && opens[0] in lines;
    var k :| 0 <= k < |lines| && lines[k] == opens[0];
    assert wrappers[k] == name;
  }

  /** For every log, the wrapper stack lists the open wrappers in the order of their start lines. */
  lemma {:induction false} WrapperLines(log: seq<Event>) returns (lines: seq<nat>)
    ensures StackOf(log, Scan(INITIAL, log).wrappers, lines)
  {
    if log == [] {
      lines := [];
    } else {
      var n := |log| - 1;
      var s := Scan(INITIAL, log[..n]);
      lines := WrapperLines(log[..n]);
      assert log == log[..n] + [log[n]];
      ScanSnoc(log[..n], log[n]);
      if log[n].Start? && IsWrapper(log[n].name) {
        StackStarts(log, s.wrappers, lines);
        lines := lines + [n];
      } else if log[n].End? && IsWrapper(log[n].name) && log[n].name in s.wrappers {
        var k := DropLastAt(s.wrappers, log[n].name);
        StackEnds(log, s.wrappers, lines, k);
        lines := Without(lines, k);
      } else {
        StackStays(log, s.wrappers, lines);
      }
    }
  }

  lemma StackStays(log: seq<Event>, wrappers: seq<string>, lines: seq<nat>)
    requires log != [] && StackOf(log[..|log| - 1], wrappers, lines)
    requires var e := log[|log| - 1]; e.Other? || !IsWrapper(e.name) || (e.End? && e.name !in wrappers)
    ensures StackOf(log, wrappers, lines)
    ensures var e := log[|log| - 1];
            !e.Start? && !e.Other? && IsWrapper(e.name) ==> DropLast(wrappers, e.name) == wrappers
  {
    var e := log[|log| - 1];
    OpenWrappersStep(log);
    if e.End? && IsWrapper(e.name) {
      DropLastTakesOne(wrappers, e.name);
      if Opens(log[..|log| - 1], e.name) != [] {
        OpenIsStacked(log[..|log| - 1], wrappers, lines, e.name);
      }
    }
  }

  // ---------------------------------------------------------------- the start stacks

  function ContextAt(log: seq<Event>, i: nat): Context
    requires i <= |log|
  {
    var wrappers := Scan(INITIAL, log[..i]).wrappers;
    Context(|wrappers|, Innermost(wrappers))
  }

  /** The start stack of a label holds the contexts of its open phases. */
  ghost predicate Holds(log: seq<Event>, name: string) {
    AreContexts(log, Stack(Scan(INITIAL, log), name), Opens(log, name))
  }

  ghost predicate AreContexts(log: seq<Event>, stack: seq<Context>, lines: seq<nat>) {
    && |stack| == |lines|
    && forall k | 0 <= k < |lines| :: lines[k] < |log| && stack[k] == ContextAt(log, lines[k])
  }

  lemma {:induction false} StartStacks(log: seq<Event>, name: string)
    ensures Holds(log, name)
  {
    if log != [] {
      var n := |log| - 1;
      StartStacks(log[..n], name);
      assert log == log[..n] + [log[n]];
      ScanSnoc(log[..n], log[n]);
      StackStep(Scan(INITIAL, log[..n]), log[n], name);
      var own, next := Stack(Scan(INITIAL, log[..n]), name), Stack(Scan(INITIAL, log), name);
      HoldsStep(log, name, own, Opens(log[..n], name), next);
    }
  }

  lemma ContextEarlier(log: seq<Event>, i: nat)
    requires i < |log|
    ensures ContextAt(log, i) == ContextAt(log[..|log| - 1], i)
  {
    assert log[..|log| - 1][..i] == log[..i];
  }

  lemma HoldsStep(log: seq<Event>, name: string, own: seq<Context>, before: seq<nat>, next: seq<Context>)
    requires log != [] && before == Opens(log[..|log| - 1], name) && AreContexts(log[..|log| - 1], own, before)
    requires var n, wrappers := |log| - 1, Scan(INITIAL, log[..|log| - 1]).wrappers;
             next == if log[n].Start? && log[n].name == name then own + [Context(|wrappers|, Innermost(wrappers))]
                     else if log[n].End? && log[n].name == name && own != [] then own[..|own| - 1]
                     else own
    ensures AreContexts(log, next, Opens(log, name))
  {
    var n := |log| - 1;
    ContextsKept(log, own, before);
    if log[n] == Start(name) {
      ContextsMore(log, own, before);
    } else if log[n].End? && log[n].name == name && own != [] {
      assert AreContexts(log, own[..|own| - 1], before[..|before| - 1]);
    }
  }

  lemma ContextsKept(log: seq<Event>, stack: seq<Context>, lines: seq<nat>)
    requires log != [] && AreContexts(log[..|log| - 1], stack, lines)
    ensures AreContexts(log, stack, lines)
  {
    forall k | 0 <= k < |lines|
      ensures lines[k] < |log| && stack[k] == ContextAt(log, lines[k])
    {
      ContextEarlier(log, lines[k]);
    }
  }

  lemma ContextsMore(log: seq<Event>, stack: seq<Context>, lines: seq<nat>)
    requires log != [] && AreContexts(log, stack, lines)
    ensures var n, wrappers := |log| - 1, Scan(INITIAL, log[..|log| - 1]).wrappers;
            AreContexts(log, stack + [Context(|wrappers|, Innermost(wrappers))], lines + [n])
  {
  }

  // ---------------------------------------------------------------- the records

  /** The line started last. */
  ghost predicate IsLatest(lines: set<nat>, i: nat) {
    i in lines && forall k | k in lines :: k <= i
  }

  /** The depth and the parent of a phase that started at this line: how many wrappers are open
      there, and the label of the one that started last. */
  ghost predicate Encloses(log: seq<Event>, start: nat, depth: nat, parent: Option<string>)
    requires start <= |log|
  {
    var open := OpenWrappers(log[..start]);
    && depth == |open|
    && if open == {} then parent == None
       else exists i: nat | IsLatest(open, i) :: i < start && log[i].Start? && parent == Some(log[i].name)
  }

  lemma ContextEncloses(log: seq<Event>, start: nat)
    requires start <= |log|
    ensures Encloses(log, start, ContextAt(log, start).depth, ContextAt(log, start).parent)
  {
    var before := log[..start];
    var wrappers := Scan(INITIAL, before).wrappers;
    var lines := WrapperLines(before);
    LinesSize(lines, OpenWrappers(before));
    if wrappers != [] {
      var last := lines[|lines| - 1];
      assert last in lines && IsLatest(OpenWrappers(before), last);
      assert log[last] == before[last];
    } else {
      assert OpenWrappers(before) == {};
    }
  }

  lemma {:induction false} LinesSize(lines: seq<nat>, s: set<nat>)
    requires Increasing(lines) && forall i :: i in lines <==> i in s
    ensures |s| == |lines|
    decreases |lines|
  {
    if lines == [] {
      assert s == {};
    } else {
      var n := |lines| - 1;
      assert lines == lines[..n] + [lines[n]];
      LinesSize(lines[..n], s - {lines[n]});
    }
  }

  /** The record of an end line. */
  ghost predicate Records(log: seq<Event>, j: nat, p: PhaseTiming)
    requires j < |log| && log[j].End?
  {
    var e, opens := log[j], Opens(log[..j], log[j].name);
    && p.name == e.name && p.category == Classify(e.name) && p.seconds == e.seconds
    && p.exitStatus == e.exitStatus && (p.succeeded <==> e.exitStatus == 0)
    && (if opens == [] then p.depth == None && p.parent == None
        else p.depth.Some? && opens[|opens| - 1] <= j && Encloses(log, opens[|opens| - 1], p.depth.value, p.parent))
    && (p.counted <==> e.name != SEQUENCE && (p.depth == None || p.depth == Some(0) || p.parent == Some(SEQUENCE)))
  }

  lemma LatestContext(log: seq<Event>, j: nat)
    requires j < |log| && log[j].End?
    ensures
      var opens := Opens(log[..j], log[j].name);
      && (opens != [] ==> opens[|opens| - 1] <= j)
      && Latest(Scan(INITIAL, log[..j]).starts, log[j].name)
         == if opens == [] then None else Some(ContextAt(log, opens[|opens| - 1]))
  {
    var before, name := log[..j], log[j].name;
    var opens := Opens(before, name);
    StartStacks(before, name);
    LatestIsLast(Scan(INITIAL, before), name);
    if opens != [] {
      assert before[..opens[|opens| - 1]] == log[..opens[|opens| - 1]];
    }
  }

  lemma RecordMade(log: seq<Event>, j: nat)
    requires j < |log| && log[j].End?
    ensures Records(log, j, MakePhase(log[j].name, log[j].seconds, log[j].exitStatus,
                                      Latest(Scan(INITIAL, log[..j]).starts, log[j].name)))
  {
    var opens := Opens(log[..j], log[j].name);
    LatestContext(log, j);
    if opens != [] {
      ContextEncloses(log, opens[|opens| - 1]);
    }
  }

  /** In any log, each end line is reported in its place: with its own label, seconds and exit
      status; with the number of wrappers that were open at the start line it takes, and the one of
      them that started last; and without both when no phase of its label is open. */
  lemma ReportedAt(log: seq<Event>, j: nat)
    requires j < |log| && log[j].End?
    ensures var phases, k := Scan(INITIAL, log).phases, Ends(log[..j]);
            k < |phases| && Records(log, j, phases[k])
  {
    var s, e := Scan(INITIAL, log[..j]), log[j];
    assert log == log[..j] + ([e] + log[j + 1..]);
    ScanAppend(INITIAL, log[..j], [e] + log[j + 1..]);
    assert ([e] + log[j + 1..])[1..] == log[j + 1..];
    ScanOnlyAdds(INITIAL, log[..j]);
    ScanOnlyAdds(Step(s, e), log[j + 1..]);
    RecordMade(log, j);
    assert Step(s, e).phases[|s.phases|] == MakePhase(e.name, e.seconds, e.exitStatus, Latest(s.starts, e.name));
  }
}
