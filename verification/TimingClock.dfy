/** When overlapping phases keep the recorded total within the clock. */
module TimingClock {
  import opened ReleaseTiming
  import opened TimedForest
  import opened TimingTotals
  import opened TimingCoverage
  import opened TimingOverlap
  import opened DeployReport

  // ---------------------------------------------------------------- clock readings

  function Elapsed(begin: int, end: int): nat {
    if begin <= end then end - begin else 0
  }

  function Since(e: Event, now: int, since: map<string, int>): map<string, int> {
    if e.Start? then since[e.name := now] else since
  }

  /** The line as it is written when the clock shows this, and its phase began when it did. */
  function ReadLine(e: Event, now: int, since: map<string, int>): Event {
    if e.End? then End(e.name, Elapsed(if e.name in since then since[e.name] else now, now), e.exitStatus) else e
  }

  /** The same lines with these clock readings: an end line tells the seconds since its start line. */
  function Read(log: seq<Event>, times: seq<int>, since: map<string, int>): seq<Event>
    requires |times| == |log|
  {
    if log == [] then []
    else [ReadLine(log[0], times[0], since)] + Read(log[1..], times[1..], Since(log[0], times[0], since))
  }

  predicate Clock(times: seq<int>) {
    forall i, j | 0 <= i < j < |times| :: times[i] <= times[j]
  }

  /** The time that passes from the first line to the last. */
  function Span(times: seq<int>): int {
    if times == [] then 0 else times[|times| - 1] - times[0]
  }

  lemma {:induction false} ReadOverlaps(log: seq<Event>, times: seq<int>, since: map<string, int>, open: set<string>)
    requires |times| == |log| && Overlaps(log, open)
    ensures Overlaps(Read(log, times, since), open)
    decreases |log|
  {
    if log != [] {
      var rest := Read(log[1..], times[1..], Since(log[0], times[0], since));
      ReadOverlaps(log[1..], times[1..], Since(log[0], times[0], since), After(log[0], open));
      assert Read(log, times, since)[1..] == rest;
    }
  }

  lemma ReadSeconds(log: seq<Event>, times: seq<int>, since: map<string, int>)
    requires |times| == |log| && log != []
    ensures EndSeconds(Read(log, times, since)) ==
              (if log[0].End? then ReadLine(log[0], times[0], since).seconds else 0)
              + EndSeconds(Read(log[1..], times[1..], Since(log[0], times[0], since)))
  {
    var rest := Read(log[1..], times[1..], Since(log[0], times[0], since));
    assert Read(log, times, since)[1..] == rest;
  }

  // ---------------------------------------------------------------- phases that do not overlap

  predicate EndsLater(name: string, log: seq<Event>) {
    exists e | e in log :: e.End? && e.name == name
  }

  /** The open phases that the rest of the lines ends. */
  function WillEnd(log: seq<Event>, open: set<string>): set<string> {
    set name | name in open && EndsLater(name, log)
  }

  /** At no line are two phases open that both end. */
  predicate Apart(log: seq<Event>, open: set<string>)
    decreases |log|
  {
    && (forall x, y | x in WillEnd(log, open) && y in WillEnd(log, open) :: x == y)
    && (log != [] ==> Apart(log[1..], After(log[0], open)))
  }

  /** In a whole group every phase ends, so at no line are two phases open. */
  lemma {:induction false} GroupEnds(log: seq<Event>, open: set<string>)
    requires Overlaps(log, open) && StillOpen(log, open) == {}
    ensures WillEnd(log, open) == open
    decreases |log|
  {
    if log != [] {
      GroupEnds(log[1..], After(log[0], open));
      forall name | name in open
        ensures EndsLater(name, log)
      {
        if name in After(log[0], open) {
          assert name in WillEnd(log[1..], After(log[0], open));
          EndsLaterStep(name, log);
        } else {
          assert log[0] in log && log[0].End? && log[0].name == name;
        }
      }
    }
  }

  lemma EndsLaterStep(name: string, log: seq<Event>)
    requires log != []
    ensures EndsLater(name, log) <==> EndsLater(name, log[1..]) || (log[0].End? && log[0].name == name)
  {
    assert log == [log[0]] + log[1..];
    if EndsLater(name, log[1..]) {
      var e :| e in log[1..] && e.End? && e.name == name;
      assert e in log;
    }
    if EndsLater(name, log) {
      var e :| e in log && e.End? && e.name == name;
      assert e == log[0] || e in log[1..];
    }
    if log[0].End? && log[0].name == name {
      assert log[0] in log;
    }
  }

  function LastAt(times: seq<int>, now: int): int {
    if times == [] then now else times[|times| - 1]
  }

  /** The open phases that will end began in this interval. */
  ghost predicate Began(log: seq<Event>, open: set<string>, since: map<string, int>, begin: int, now: int) {
    begin <= now && forall name | name in WillEnd(log, open) :: name in since && begin <= since[name] <= now
  }

  lemma BeganStart(log: seq<Event>, open: set<string>, since: map<string, int>, begin: int, now: int, later: int)
    requires log != [] && log[0].Start? && MayFollow(log[0], open) && Apart(log, open)
    requires Began(log, open, since, begin, now) && later >= now
    ensures var name, rest := log[0].name, log[1..];
            Began(rest, open + {name}, since[name := later], if EndsLater(name, rest) then later else begin, later)
  {
    var name, rest := log[0].name, log[1..];
    forall other | other in open
      ensures EndsLater(other, log) <==> EndsLater(other, rest)
    {
      EndsLaterStep(other, log);
    }
    assert forall other | other in WillEnd(rest, open + {name}) :: other == name || other in WillEnd(log, open);
    if EndsLater(name, rest) {
      assert name in WillEnd(rest, open + {name});
    }
  }

  lemma BeganEnd(log: seq<Event>, open: set<string>, since: map<string, int>, begin: int, now: int, later: int)
    requires log != [] && log[0].End? && MayFollow(log[0], open) && Apart(log, open) && later >= now
    requires Began(log, open, since, begin, now)
    ensures log[0].name in since && begin <= since[log[0].name] <= now
    ensures Began(log[1..], open - {log[0].name}, since, later, later)
  {
    var name, rest := log[0].name, log[1..];
    EndsLaterStep(name, log);
    assert name in WillEnd(log, open);
    forall other | other in WillEnd(rest, open - {name})
      ensures other in WillEnd(log, open)
    {
      EndsLaterStep(other, log);
    }
  }

  /** Phases of which no two overlap that both end take no more time than passes. */
  lemma {:induction false} ApartBound(log: seq<Event>, times: seq<int>, since: map<string, int>, open: set<string>,
                                      begin: int, now: int)
    requires |times| == |log| && Clock(times) && (times != [] ==> now <= times[0])
    requires Overlaps(log, open) && Apart(log, open) && Began(log, open, since, begin, now)
    ensures EndSeconds(Read(log, times, since)) <= LastAt(times, now) - begin
    decreases |log|
  {
    if log != [] {
      var e, t, rest := log[0], times[0], log[1..];
      ReadSeconds(log, times, since);
      if e.Start? {
        BeganStart(log, open, since, begin, now, t);
        ApartBound(rest, times[1..], Since(e, t, since), After(e, open),
                   if EndsLater(e.name, rest) then t else begin, t);
      } else {
        BeganEnd(log, open, since, begin, now, t);
        ApartBound(rest, times[1..], since, After(e, open), t, t);
      }
    }
  }

  // ---------------------------------------------------------------- phases that do

  /** A clock that advances by one second, before the line k. */
  function Tick(k: nat, n: nat): (times: seq<int>)
    requires k <= n
    ensures |times| == n && Clock(times)
  {
    seq(n, i => if i < k then 0 else 1)
  }

  lemma TickStep(k: nat, n: nat)
    requires k <= n && n > 0
    ensures Tick(k, n)[0] == if k > 0 then 0 else 1
    ensures Tick(k, n)[1..] == Tick(if k > 0 then k - 1 else 0, n - 1)
  {
  }

  /** These phases began before the second has passed, and will end. */
  ghost predicate Early(log: seq<Event>, since: map<string, int>, early: set<string>) {
    forall name | name in early :: EndsLater(name, log) && name in since && since[name] == 0
  }

  /** After the second has passed, every open phase that began before it counts it. */
  lemma {:induction false} LateEnds(log: seq<Event>, since: map<string, int>, open: set<string>, early: set<string>)
    requires Overlaps(log, open) && early <= open
    requires Early(log, since, early)
    ensures EndSeconds(Read(log, Tick(0, |log|), since)) >= |early|
    decreases |log|
  {
    if log == [] {
      assert early == {};
    } else {
      var e, rest := log[0], log[1..];
      TickStep(0, |log|);
      ReadSeconds(log, Tick(0, |log|), since);
      StillToEnd(log, since, open, early);
      if e.End? && e.name in early {
        LateEnds(rest, since, After(e, open), early - {e.name});
      } else {
        LateEnds(rest, Since(e, 1, since), After(e, open), early);
      }
    }
  }

  lemma StillToEnd(log: seq<Event>, since: map<string, int>, open: set<string>, early: set<string>)
    requires log != [] && MayFollow(log[0], open) && early <= open && Early(log, since, early)
    ensures var e, rest := log[0], log[1..];
            if e.End? && e.name in early then Early(rest, since, early - {e.name}) && ReadLine(e, 1, since).seconds == 1
            else Early(rest, Since(e, 1, since), early)
  {
    forall name | name in early
      ensures EndsLater(name, log[1..]) || (log[0].End? && log[0].name == name)
    {
      EndsLaterStep(name, log);
    }
  }

  predicate AllZero(since: map<string, int>, open: set<string>) {
    forall name | name in open :: name in since && since[name] == 0
  }

  lemma ZeroStep(e: Event, since: map<string, int>, open: set<string>)
    requires AllZero(since, open) && MayFollow(e, open)
    ensures AllZero(Since(e, 0, since), After(e, open))
  {
  }

  lemma CutFirst<T>(s: seq<T>, k: nat)
    requires 0 < k <= |s|
    ensures s[..k][1..] == s[1..][..k - 1] && s[..k][0] == s[0] && s[k..] == s[1..][k - 1..]
  {
  }

  lemma {:induction false} EarlyStarts(log: seq<Event>, k: nat, since: map<string, int>,
                                       open: set<string>, early: set<string>)
    requires Overlaps(log, open) && k <= |log| && early <= StillOpen(log[..k], open)
    requires forall name | name in early :: EndsLater(name, log[k..])
    requires AllZero(since, open)
    ensures EndSeconds(Read(log, Tick(k, |log|), since)) >= |early|
    decreases |log|
  {
    if k == 0 {
      assert log[..0] == [] && log[0..] == log;
      LateEnds(log, since, open, early);
    } else {
      var e := log[0];
      CutFirst(log, k);
      ZeroStep(e, since, open);
      TickStep(k, |log|);
      ReadSeconds(log, Tick(k, |log|), since);
      EarlyStarts(log[1..], k - 1, Since(e, 0, since), After(e, open), early);
    }
  }

  /** A line at which two phases are open that both end. */
  ghost predicate Meets(log: seq<Event>, open: set<string>, k: nat, x: string, y: string) {
    k <= |log| && x != y
    && x in WillEnd(log[k..], StillOpen(log[..k], open)) && y in WillEnd(log[k..], StillOpen(log[..k], open))
  }

  lemma {:induction false} NotApart(log: seq<Event>, open: set<string>) returns (k: nat, x: string, y: string)
    requires !Apart(log, open)
    ensures Meets(log, open, k, x, y)
    decreases |log|
  {
    if a, b :| a in WillEnd(log, open) && b in WillEnd(log, open) && a != b {
      k, x, y := 0, a, b;
      assert log[..0] == [] && log[0..] == log;
    } else {
      k, x, y := NotApart(log[1..], After(log[0], open));
      assert log[..k + 1][1..] == log[1..][..k] && log[k + 1..] == log[1..][k..];
      k := k + 1;
    }
  }

  /** Clock readings that count one second twice. */
  lemma CountsTwice(log: seq<Event>) returns (times: seq<int>)
    requires Overlaps(log, {}) && !Apart(log, {})
    ensures |times| == |log| && Clock(times) && EndSeconds(Read(log, times, map[])) > Span(times)
  {
    var k, x, y := NotApart(log, {});
    times := Tick(k, |log|);
    assert |{x, y}| == 2;
    EarlyStarts(log, k, map[], {}, {x, y});
  }

  // ---------------------------------------------------------------- groups and the clock

  /** The total stays within the time that passes at the lines. */
  ghost predicate Within(s: Parser, log: seq<Event>, times: seq<int>)
    requires |times| == |log|
  {
    CountedSeconds(Scan(s, Read(log, times, map[])).phases) <= CountedSeconds(s.phases) + Span(times)
  }

  lemma WithinIff(s: Parser, log: seq<Event>, times: seq<int>)
    requires Tidy(s) && Overlaps(log, {}) && |times| == |log| && Clock(times)
    ensures Within(s, log, times) <==> !Open(s.wrappers) || EndSeconds(Read(log, times, map[])) <= Span(times)
  {
    ReadOverlaps(log, times, map[], {});
    GroupTotal(s, Read(log, times, map[]));
    SpanForward(times);
  }

  lemma SpanForward(times: seq<int>)
    requires Clock(times)
    ensures Span(times) >= 0
  {
    if |times| > 1 {
      assert times[0] <= times[|times| - 1];
    }
  }

  lemma ApartWithin(log: seq<Event>, times: seq<int>)
    requires |times| == |log| && Clock(times) && Overlaps(log, {}) && Apart(log, {})
    ensures EndSeconds(Read(log, times, map[])) <= Span(times)
  {
    if times != [] {
      ApartBound(log, times, map[], {}, times[0], times[0]);
    }
  }

  /** A group of phases, or the first part of one, keeps the total within the clock for all clock
      readings exactly when it is inside another wrapper than the sequence, or no two of its phases
      that end are ever open together. */
  lemma GroupWithinClock(s: Parser, log: seq<Event>)
    requires Tidy(s) && Overlaps(log, {})
    ensures (forall times: seq<int> | |times| == |log| && Clock(times) :: Within(s, log, times))
            <==> !Open(s.wrappers) || Apart(log, {})
  {
    if !Open(s.wrappers) || Apart(log, {}) {
      forall times: seq<int> | |times| == |log| && Clock(times)
        ensures Within(s, log, times)
      {
        WithinIff(s, log, times);
        if Apart(log, {}) {
          ApartWithin(log, times);
        }
      }
    } else {
      var times := CountsTwice(log);
      WithinIff(s, log, times);
      assert !Within(s, log, times);
    }
  }

  function TwoTogether(a: string, b: string): seq<Event> {
    [Start(a), Start(b), End(a, 1, 0), End(b, 1, 0)]
  }

  lemma TwoTogetherRead(a: string, b: string)
    requires a != b
    ensures Read(TwoTogether(a, b), [0, 0, 1, 1], map[]) == TwoTogether(a, b) && EndSeconds(TwoTogether(a, b)) == 2
  {
    var log, one, two := TwoTogether(a, b), map[a := 0], map[a := 0, b := 0];
    assert log[1..] == [Start(b), End(a, 1, 0), End(b, 1, 0)] && log[1..][1..] == [End(a, 1, 0), End(b, 1, 0)];
    assert log[1..][1..][1..] == [End(b, 1, 0)] && [End(b, 1, 0)][1..] == [];
    assert [0, 0, 1, 1][1..] == [0, 1, 1] && [0, 1, 1][1..] == [1, 1] && [1, 1][1..] == [1] && [1][1..] == [];
    assert Read([End(b, 1, 0)], [1], two) == [End(b, 1, 0)];
    assert Read([End(a, 1, 0), End(b, 1, 0)], [1, 1], two) == [End(a, 1, 0), End(b, 1, 0)];
    assert Read(log[1..], [0, 1, 1], one) == log[1..];
    assert EndSeconds([End(b, 1, 0)]) == 1 && EndSeconds([End(a, 1, 0), End(b, 1, 0)]) == 2;
  }

  lemma TwoTogetherGroup(a: string, b: string)
    requires !IsWrapper(a) && !IsWrapper(b) && a != b
    ensures Group(TwoTogether(a, b))
  {
    var log := TwoTogether(a, b);
    assert log[1..] == [Start(b), End(a, 1, 0), End(b, 1, 0)] && log[1..][1..] == [End(a, 1, 0), End(b, 1, 0)];
    assert log[1..][1..][1..] == [End(b, 1, 0)] && [End(b, 1, 0)][1..] == [];
    assert {a, b} - {a} == {b} && {b} - {b} == {} && {} + {a} == {a} && {a} + {b} == {a, b};
    assert Overlaps([], {}) && StillOpen([], {}) == {};
    assert Overlaps([End(b, 1, 0)], {b}) && StillOpen([End(b, 1, 0)], {b}) == {};
    assert Overlaps(log[1..][1..], {a, b}) && StillOpen(log[1..][1..], {a, b}) == {};
    assert Overlaps(log[1..], {a}) && StillOpen(log[1..], {a}) == {};
  }

  /** The log of two phases that overlap at top level for one second, which is counted twice. */
  lemma TwoTogetherCountTwice(a: string, b: string)
    requires !IsWrapper(a) && !IsWrapper(b) && a != b
    ensures Group(TwoTogether(a, b)) && Clock([0, 0, 1, 1]) && Span([0, 0, 1, 1]) == 1
    ensures Read(TwoTogether(a, b), [0, 0, 1, 1], map[]) == TwoTogether(a, b)
    ensures CountedSeconds(Scan(INITIAL, TwoTogether(a, b)).phases) == 2
  {
    TwoTogetherRead(a, b);
    TwoTogetherGroup(a, b);
    InitialTidy();
    GroupTotal(INITIAL, TwoTogether(a, b));
  }

  // ---------------------------------------------------------------- whole logs and the clock

  /** Every group is inside another wrapper than the sequence. */
  ghost predicate Enclosed(s: Parser, stretches: seq<Stretch>)
    decreases |stretches|
  {
    stretches != [] ==>
      && (stretches[0].Together? ==> Group(stretches[0].lines) && !Open(s.wrappers))
      && Enclosed(Scan(s, stretches[0].lines), stretches[1..])
  }

  function Outside(x: Stretch): seq<Event> {
    if x.Together? then [] else x.lines
  }

  /** The log without the groups. */
  function Ungrouped(stretches: seq<Stretch>): seq<Event> {
    if stretches == [] then [] else Outside(stretches[0]) + Ungrouped(stretches[1..])
  }

  /** How many of the first k lines are outside groups. */
  function LinesOutside(stretches: seq<Stretch>, k: nat): (m: nat)
    requires k <= |WholeLog(stretches)|
    ensures m <= |Ungrouped(stretches)|
  {
    if stretches == [] then 0
    else if k < |stretches[0].lines| then (if stretches[0].Together? then 0 else k)
    else |Outside(stretches[0])| + LinesOutside(stretches[1..], k - |stretches[0].lines|)
  }

  /** The parsers differ in reported phases that are not counted. */
  ghost predicate Alike(s: Parser, t: Parser) {
    t.wrappers == s.wrappers && t.starts == s.starts && CountedSeconds(t.phases) == CountedSeconds(s.phases)
  }

  lemma {:induction false} AlikeScan(s: Parser, t: Parser, log: seq<Event>)
    requires Alike(s, t)
    ensures Alike(Scan(s, log), Scan(t, log))
    decreases |log|
  {
    if log != [] {
      var e := log[0];
      if e.End? {
        var entry := [MakePhase(e.name, e.seconds, e.exitStatus, Latest(s.starts, e.name))];
        CountedAppend(s.phases, entry);
        CountedAppend(t.phases, entry);
      }
      AlikeScan(Step(s, e), Step(t, e), log[1..]);
    }
  }

  lemma AlikeStretch(s: Parser, t: Parser, x: Stretch)
    requires Tidy(s) && Alike(s, t) && (x.Together? ==> Group(x.lines) && !Open(s.wrappers))
    ensures Alike(Scan(s, x.lines), Scan(t, Outside(x)))
  {
    if x.Together? {
      GroupScan(s, x.lines);
      GroupTotal(s, x.lines);
    } else {
      AlikeScan(s, t, x.lines);
    }
  }

  lemma CutStretch(s: Parser, t: Parser, x: Stretch, k: nat)
    requires Tidy(s) && Alike(s, t) && (x.Together? ==> Group(x.lines) && !Open(s.wrappers)) && k <= |x.lines|
    ensures CountedSeconds(Scan(s, x.lines[..k]).phases)
            == CountedSeconds(Scan(t, if x.Together? then [] else x.lines[..k]).phases)
  {
    if x.Together? {
      OverlapsPrefix(x.lines, {}, k);
      GroupTotal(s, x.lines[..k]);
    } else {
      AlikeScan(s, t, x.lines[..k]);
    }
  }

  /** At every line the total is that of the log without the groups. */
  lemma {:induction false} GroupsAddNothing(s: Parser, t: Parser, stretches: seq<Stretch>, k: nat)
    requires Tidy(s) && Alike(s, t) && Enclosed(s, stretches) && k <= |WholeLog(stretches)|
    ensures CountedSeconds(Scan(s, WholeLog(stretches)[..k]).phases)
            == CountedSeconds(Scan(t, Ungrouped(stretches)[..LinesOutside(stretches, k)]).phases)
    decreases |stretches|
  {
    if stretches != [] {
      var x, rest := stretches[0], stretches[1..];
      if k < |x.lines| {
        CutStretch(s, t, x, k);
        CutInStretch(stretches, k);
      } else {
        var j := k - |x.lines|;
        AlikeStretch(s, t, x);
        ScanKeepsTidy(s, x.lines);
        GroupsAddNothing(Scan(s, x.lines), Scan(t, Outside(x)), rest, j);
        CutAfterStretch(stretches, k);
        ScanAppend(s, x.lines, WholeLog(rest)[..j]);
        ScanAppend(t, Outside(x), Ungrouped(rest)[..LinesOutside(rest, j)]);
      }
    }
  }

  lemma CutInStretch(stretches: seq<Stretch>, k: nat)
    requires stretches != [] && k < |stretches[0].lines|
    ensures k <= |WholeLog(stretches)| && WholeLog(stretches)[..k] == stretches[0].lines[..k]
    ensures Ungrouped(stretches)[..LinesOutside(stretches, k)]
            == if stretches[0].Together? then [] else stretches[0].lines[..k]
  {
  }

  lemma CutAfterStretch(stretches: seq<Stretch>, k: nat)
    requires stretches != [] && |stretches[0].lines| <= k <= |WholeLog(stretches)|
    ensures var x, rest, j := stretches[0], stretches[1..], k - |stretches[0].lines|;
            && WholeLog(stretches)[..k] == x.lines + WholeLog(rest)[..j]
            && Ungrouped(stretches)[..LinesOutside(stretches, k)]
               == Outside(x) + Ungrouped(rest)[..LinesOutside(rest, j)]
  {
    var x, rest, j := stretches[0], stretches[1..], k - |stretches[0].lines|;
    CutAppend(x.lines, WholeLog(rest), j);
    CutAppend(Outside(x), Ungrouped(rest), LinesOutside(rest, j));
  }

  lemma CutAppend<T>(a: seq<T>, b: seq<T>, j: nat)
    requires j <= |b|
    ensures (a + b)[..|a| + j] == a + b[..j]
  {
  }

  /** So with groups inside other wrappers than the sequence, as where the deploy script stops its
      services, the seconds counted so far stay within the elapsed time at every line, if no counted
      phase encloses another. */
  lemma GroupsWithinClock(log: seq<Event>, stretches: seq<Stretch>, f: Forest, lo: int, hi: int)
    requires TimingLines(log) <= WholeLog(stretches) && Enclosed(INITIAL, stretches)
    requires Ungrouped(stretches) == Log(f) && Unambiguous(f, {}) && Timed(f, lo, hi) && MostCounted(f, []) <= 1
    ensures CountedSeconds(Scan(INITIAL, log).phases)
            <= ClockAt(f, lo, LinesOutside(stretches, |TimingLines(log)|)) - lo
  {
    var k := |TimingLines(log)|;
    var m := LinesOutside(stretches, k);
    InitialTidy();
    OtherLinesIgnored(INITIAL, log);
    assert WholeLog(stretches)[..k] == TimingLines(log);
    GroupsAddNothing(INITIAL, INITIAL, stretches, k);
    ScanTruncated(INITIAL, f, m);
    assert INITIAL.phases + ReportSoFar(f, [], m) == ReportSoFar(f, [], m);
    SoFarWithinClock(f, lo, hi, m);
  }

  /** And the total of such a log lies between the seconds of the leaves and the clock when the
      counted phases cover every leaf once. */
  lemma GroupsCovered(log: seq<Event>, stretches: seq<Stretch>, f: Forest, lo: int, hi: int)
    requires TimingLines(log) == WholeLog(stretches) && Enclosed(INITIAL, stretches)
    requires Ungrouped(stretches) == Log(f) && Unambiguous(f, {}) && Timed(f, lo, hi)
    requires forall path | LeafPath(f, path) :: CoversOnce(path)
    ensures LeafSeconds(f) <= CountedSeconds(Scan(INITIAL, log).phases) <= hi - lo
  {
    GroupsTotal(log, stretches, f);
    CoverageOfLog(f);
  }

  lemma GroupsTotal(log: seq<Event>, stretches: seq<Stretch>, f: Forest)
    requires TimingLines(log) == WholeLog(stretches) && Enclosed(INITIAL, stretches)
    requires Ungrouped(stretches) == Log(f) && Unambiguous(f, {})
    ensures CountedSeconds(Scan(INITIAL, log).phases) == CountedSeconds(Report(f, []))
  {
    InitialTidy();
    OtherLinesIgnored(INITIAL, log);
    var k := |WholeLog(stretches)|;
    assert WholeLog(stretches)[..k] == WholeLog(stretches);
    GroupsAddNothing(INITIAL, INITIAL, stretches, k);
    AllOutside(stretches);
    assert Ungrouped(stretches)[..|Log(f)|] == Log(f);
    ScanForest(INITIAL, f);
    assert INITIAL.phases + Report(f, []) == Report(f, []);
  }

  lemma {:induction false} AllOutside(stretches: seq<Stretch>)
    ensures LinesOutside(stretches, |WholeLog(stretches)|) == |Ungrouped(stretches)|
  {
    if stretches != [] {
      AllOutside(stretches[1..]);
    }
  }
}
