/** The deploy-log timing parser of scripts/report-release-timing.py.

    A log is a flat list of timing events.  The parser keeps the labels of the wrapper
    phases that are open and, per label, the context in which each open phase started.
    This module says what that reconstructs and when the totals count no time twice. */
module ReleaseTiming {
  import opened Basics

  const SEQUENCE := "remote deploy sequence"

  const WRAPPER_LABELS: set<string> := {
    SEQUENCE,
    "remote load and up",
    "stop public and write-capable application services",
    "remote start data services only",
    "remote migrate",
    "remote start new API only",
    "remote start new workers after API readiness",
    "remote restore frontend and proxy traffic last"
  }

  predicate IsWrapper(name: string) {
    name in WRAPPER_LABELS
  }

  /** One log line, already matched against the two timing patterns. */
  datatype Event =
    | Start(name: string)
    | End(name: string, seconds: nat, exitStatus: nat)
    | Other

  datatype Category = Wrapper | Bundle | Transfer | ImageLoad | Migration | Cutover | Health | Misc

  datatype PhaseTiming = PhaseTiming(
    name: string, category: Category, seconds: nat, succeeded: bool, exitStatus: nat,
    depth: Option<nat>, parent: Option<string>, counted: bool)

  // ---------------------------------------------------------------- classification

  predicate Mentions(text: string, marker: string) {
    exists i | 0 <= i <= |text| :: marker <= text[i..]
  }

  predicate MentionsAny(text: string, markers: seq<string>) {
    exists m | m in markers :: Mentions(text, m)
  }

  /** A category and the label fragments that select it. */
  datatype Rule = Rule(category: Category, markers: seq<string>)

  /** In the order in which they are tried. */
  const RULES: seq<Rule> := [
    Rule(Bundle, ["build deploy bundle", "verify local deploy bundle"]),
    Rule(Transfer, ["upload ", "transfer inventory", "remote directory", "remote architecture",
                    "ssh reachability", "remote deploy bundle before extraction", "remote extract bundle"]),
    Rule(ImageLoad, ["remote load and up"]),
    Rule(Migration, ["migrat", "alembic"]),
    Rule(Cutover, ["stop public", "application services stopped", "start data services", "start new api",
                   "start new workers", "restore frontend", "preserved runtime service",
                   "preserved backend service"]),
    Rule(Health, ["readiness", "baseline status", "remote smoke", "portal smoke", "refresh providers",
                  "seed runtime"])
  ]

  /** The first of the rules with a marker that the text contains. */
  predicate FirstIs(text: string, rules: seq<Rule>, k: nat)
    requires k < |rules|
  {
    MentionsAny(text, rules[k].markers) && forall j | 0 <= j < k :: !MentionsAny(text, rules[j].markers)
  }

  /** A text mentions a marker when the marker is a part of it. */
  lemma MentionsIff(text: string, marker: string)
    ensures Mentions(text, marker) <==> exists a, b :: text == a + marker + b
  {
    if Mentions(text, marker) {
      var i :| 0 <= i <= |text| && marker <= text[i..];
      assert text == text[..i] + marker + text[i + |marker|..];
    }
    if a, b :| text == a + marker + b {
      assert text[|a|..] == marker + b;
    }
  }

  function FirstMatch(text: string, rules: seq<Rule>): (c: Category)
    requires forall k | 0 <= k < |rules| :: rules[k].category != Wrapper
    ensures c != Wrapper
  {
    if rules == [] then Misc
    else if MentionsAny(text, rules[0].markers) then rules[0].category
    else FirstMatch(text, rules[1..])
  }

  function Classify(name: string): (c: Category)
    ensures c == Wrapper <==> name == SEQUENCE
  {
    if name == SEQUENCE then Wrapper else FirstMatch(Lower(name), RULES)
  }

  lemma {:induction false} FirstMatchIs(text: string, rules: seq<Rule>)
    requires forall k | 0 <= k < |rules| :: rules[k].category != Wrapper
    ensures if forall k | 0 <= k < |rules| :: !MentionsAny(text, rules[k].markers) then FirstMatch(text, rules) == Misc
            else exists k | 0 <= k < |rules| :: FirstIs(text, rules, k) && rules[k].category == FirstMatch(text, rules)
  {
    if rules == [] {
    } else if MentionsAny(text, rules[0].markers) {
      assert FirstIs(text, rules, 0);
    } else {
      var rest := rules[1..];
      FirstMatchIs(text, rest);
      assert forall k | 0 < k < |rules| :: rules[k] == rest[k - 1];
      if k :| 0 <= k < |rest| && FirstIs(text, rest, k) && rest[k].category == FirstMatch(text, rest) {
        assert FirstIs(text, rules, k + 1);
      }
    }
  }

  /** Any label but the sequence has the category of the first rule with a marker that it contains,
      whatever its letters' case. */
  lemma ClassifiedByFirst(name: string)
    requires name != SEQUENCE
    ensures var text := Lower(name);
            if forall k | 0 <= k < |RULES| :: !MentionsAny(text, RULES[k].markers) then Classify(name) == Misc
            else exists k | 0 <= k < |RULES| :: FirstIs(text, RULES, k) && RULES[k].category == Classify(name)
  {
    FirstMatchIs(Lower(name), RULES);
  }

  // ---------------------------------------------------------------- the parser

  /** The context of an open phase: how many wrappers were open, and the innermost one. */
  datatype Context = Context(depth: nat, parent: Option<string>)

  datatype Parser = Parser(
    wrappers: seq<string>,
    starts: map<string, seq<Context>>,
    phases: seq<PhaseTiming>)

  const INITIAL := Parser([], map[], [])

  function Innermost(wrappers: seq<string>): Option<string> {
    if wrappers == [] then None else Some(wrappers[|wrappers| - 1])
  }

  /** Drops the last occurrence of the label, if there is one. */
  function DropLast(wrappers: seq<string>, name: string): seq<string> {
    if wrappers == [] then []
    else if wrappers[|wrappers| - 1] == name then wrappers[..|wrappers| - 1]
    else DropLast(wrappers[..|wrappers| - 1], name) + [wrappers[|wrappers| - 1]]
  }

  function MakePhase(name: string, seconds: nat, exitStatus: nat, context: Option<Context>): PhaseTiming {
    var category := Classify(name);
    PhaseTiming(
      name, category, seconds, exitStatus == 0, exitStatus,
      if context.None? then None else Some(context.value.depth),
      if context.None? then None else context.value.parent,
      && category != Wrapper
      && (context.None? || context.value.depth == 0 || context.value.parent == Some(SEQUENCE)))
  }

  function Step(s: Parser, e: Event): Parser {
    match e
    case Other => s
    case Start(name) =>
      var context := Context(|s.wrappers|, Innermost(s.wrappers));
      s.(starts := WithLatest(s.starts, name, context),
         wrappers := if IsWrapper(name) then s.wrappers + [name] else s.wrappers)
    case End(name, seconds, exitStatus) =>
      Parser(
        if IsWrapper(name) then DropLast(s.wrappers, name) else s.wrappers,
        WithoutLatest(s.starts, name),
        s.phases + [MakePhase(name, seconds, exitStatus, Latest(s.starts, name))])
  }

  function WithLatest(starts: map<string, seq<Context>>, name: string, context: Context): map<string, seq<Context>> {
    starts[name := (if name in starts then starts[name] else []) + [context]]
  }

  /** The context of the phase that started last under this label and is still open. */
  function Latest(starts: map<string, seq<Context>>, name: string): Option<Context> {
    if name in starts && starts[name] != [] then Some(starts[name][|starts[name]| - 1]) else None
  }

  function WithoutLatest(starts: map<string, seq<Context>>, name: string): map<string, seq<Context>> {
    if Latest(starts, name).None? then starts
    else if |starts[name]| == 1 then starts - {name}
    else starts[name := starts[name][..|starts[name]| - 1]]
  }

  function Scan(s: Parser, log: seq<Event>): Parser
    decreases |log|
  {
    if log == [] then s else Scan(Step(s, log[0]), log[1..])
  }

  /** The parsing loop, with its two mutable structures. */
  method CollectDeployPhaseTimings(log: seq<Event>) returns (phases: seq<PhaseTiming>)
    ensures phases == Scan(INITIAL, log).phases
  {
    phases := [];
    var activeWrappers: seq<string> := [];
    var activeStarts: map<string, seq<Context>> := map[];
    for i := 0 to |log|
      invariant Scan(Parser(activeWrappers, activeStarts, phases), log[i..]) == Scan(INITIAL, log)
    {
      ghost var before := Parser(activeWrappers, activeStarts, phases);
      match log[i] {
        case Other =>
        case Start(name) =>
          var context := Context(|activeWrappers|, Innermost(activeWrappers));
          if name !in activeStarts {
            activeStarts := activeStarts[name := []];
          }
          activeStarts := activeStarts[name := activeStarts[name] + [context]];
          if IsWrapper(name) {
            activeWrappers := activeWrappers + [name];
          }
        case End(name, seconds, exitStatus) =>
          var context;
          context, activeStarts := TakeLatest(activeStarts, name);
          if IsWrapper(name) {
            activeWrappers := RemoveLast(activeWrappers, name);
          }
          phases := phases + [MakePhase(name, seconds, exitStatus, context)];
      }
      assert Parser(activeWrappers, activeStarts, phases) == Step(before, log[i]);
      assert log[i..][0] == log[i] && log[i..][1..] == log[i + 1..];
    }
  }

  /** Pops the label's start stack and deletes the entry once the stack is empty. */
  method TakeLatest(starts: map<string, seq<Context>>, name: string)
      returns (context: Option<Context>, left: map<string, seq<Context>>)
    ensures context == Latest(starts, name) && left == WithoutLatest(starts, name)
  {
    context, left := None, starts;
    if name in starts && starts[name] != [] {
      var open := starts[name];
      context := Some(open[|open| - 1]);
      left := starts[name := open[..|open| - 1]];
      if left[name] == [] {
        left := left - {name};
      }
    }
  }

  /** The backward search that takes one closed wrapper off the stack. */
  method RemoveLast(wrappers: seq<string>, name: string) returns (r: seq<string>)
    ensures r == DropLast(wrappers, name)
    ensures name !in wrappers ==> r == wrappers
    ensures name in wrappers ==>
      exists k | 0 <= k < |wrappers| ::
        && wrappers[k] == name && name !in wrappers[k + 1..] && r == wrappers[..k] + wrappers[k + 1..]
  {
    r := wrappers;
    var index := |wrappers|;
    assert wrappers[..index] == wrappers;
    while index > 0
      invariant 0 <= index <= |wrappers| && r == wrappers
      invariant name !in wrappers[index..]
      invariant DropLast(wrappers, name) == DropLast(wrappers[..index], name) + wrappers[index..]
    {
      index := index - 1;
      assert wrappers[..index + 1][..index] == wrappers[..index];
      if wrappers[index] == name {
        r := wrappers[..index] + wrappers[index + 1..];
        return;
      }
      assert wrappers[index..] == [wrappers[index]] + wrappers[index + 1..];
    }
  }

  // ---------------------------------------------------------------- totals

  function CountedSeconds(phases: seq<PhaseTiming>): nat {
    if phases == [] then 0
    else (if phases[0].counted then phases[0].seconds else 0) + CountedSeconds(phases[1..])
  }

  function CategorySeconds(phases: seq<PhaseTiming>, category: Category): nat {
    if phases == [] then 0
    else (if phases[0].counted && phases[0].category == category then phases[0].seconds else 0)
         + CategorySeconds(phases[1..], category)
  }

  lemma {:induction false} CountedAppend(a: seq<PhaseTiming>, b: seq<PhaseTiming>)
    ensures CountedSeconds(a + b) == CountedSeconds(a) + CountedSeconds(b)
  {
    if a == [] {
      assert a + b == b;
    } else {
      assert (a + b)[1..] == a[1..] + b;
      CountedAppend(a[1..], b);
    }
  }
}
