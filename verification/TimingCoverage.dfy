/** Which forests are counted without overlap and without gaps, and the parser's main results. */
module TimingCoverage {
  import opened ReleaseTiming
  import opened TimedForest
  import opened TimingTotals

  // ---------------------------------------------------------------- the bound is sharp

  /** The same phases with other clock readings. */
  ghost predicate SameShape(f: Forest, g: Forest) {
    if f.Nil? then g.Nil? else
      && g.Cons?
      && f.head.name == g.head.name
      && f.head.Started? == g.head.Started?
      && (f.head.Started? ==> SameShape(f.head.kids, g.head.kids))
      && SameShape(f.rest, g.rest)
  }

  lemma {:induction false} ShapeDecides(f: Forest, g: Forest, wrappers: seq<string>)
    requires SameShape(f, g)
    ensures MostCounted(f, wrappers) == MostCounted(g, wrappers)
  {
    if f.Cons? {
      if f.head.Started? {
        ShapeDecides(f.head.kids, g.head.kids, Enclose(wrappers, f.head.name));
      }
      ShapeDecides(f.rest, g.rest, wrappers);
    }
  }

  /** All phases take no time, at the given moment. */
  function Instant(f: Forest, t: int): Forest {
    if f.Nil? then Nil else Cons(InstantPhase(f.head, t), Instant(f.rest, t))
  }

  function InstantPhase(p: Phase, t: int): Phase {
    if p.Started? then Started(p.name, t, t, p.exit, Instant(p.kids, t)) else Unstarted(p.name, t, t, p.exit)
  }

  lemma {:induction false} InstantTimed(f: Forest, t: int)
    ensures SameShape(f, Instant(f, t)) && Timed(Instant(f, t), t, t)
  {
    if f.Cons? {
      if f.head.Started? {
        InstantTimed(f.head.kids, t);
      }
      InstantTimed(f.rest, t);
    }
  }

  lemma InstantThen(f: Forest, g: Forest, t: int, hi: int)
    requires f.Cons? && Timed(g, t, hi) && SameShape(f.rest, g)
    ensures var h := Cons(InstantPhase(f.head, t), g); SameShape(f, h) && Timed(h, t, hi)
  {
    if f.head.Started? {
      InstantTimed(f.head.kids, t);
    }
  }

  /** One second in all, spent in a deepest nest of counted phases. */
  function Worst(f: Forest, wrappers: seq<string>): Forest {
    if f.Nil? then Nil
    else if MostCountedIn(f.head, wrappers) < MostCounted(f.rest, wrappers) then
      Cons(InstantPhase(f.head, 0), Worst(f.rest, wrappers))
    else
      Cons(WorstPhase(f.head, wrappers), Instant(f.rest, 1))
  }

  function WorstPhase(p: Phase, wrappers: seq<string>): Phase {
    if p.Started? then Started(p.name, 0, 1, p.exit, Worst(p.kids, Enclose(wrappers, p.name)))
    else Unstarted(p.name, 0, 1, p.exit)
  }

  lemma {:induction false} WorstTimed(f: Forest, wrappers: seq<string>)
    ensures SameShape(f, Worst(f, wrappers)) && Timed(Worst(f, wrappers), 0, 1)
  {
    if f.Cons? {
      if MostCountedIn(f.head, wrappers) < MostCounted(f.rest, wrappers) {
        WorstTimed(f.rest, wrappers);
        InstantThen(f, Worst(f.rest, wrappers), 0, 1);
      } else {
        if f.head.Started? {
          WorstTimed(f.head.kids, Enclose(wrappers, f.head.name));
        }
        InstantTimed(f.rest, 1);
      }
    }
  }

  lemma {:induction false} WorstReached(f: Forest, wrappers: seq<string>)
    ensures MostCounted(f, wrappers) <= CountedSeconds(Report(Worst(f, wrappers), wrappers))
  {
    if f.Cons? {
      var g := Worst(f, wrappers);
      CountedAppend(PhaseReport(g.head, wrappers), Report(g.rest, wrappers));
      if MostCountedIn(f.head, wrappers) < MostCounted(f.rest, wrappers) {
        WorstReached(f.rest, wrappers);
      } else {
        CountedEntry(g.head, wrappers);
        if f.head.Started? {
          WorstReached(f.head.kids, Enclose(wrappers, f.head.name));
        }
      }
    }
  }

  ghost predicate TotalWithin(f: Forest, lo: int, hi: int) {
    Timed(f, lo, hi) ==> CountedSeconds(Report(f, [])) <= hi - lo
  }

  /** The recorded total stays within the wall clock, whatever the clock readings are, exactly
      when no counted phase encloses another. */
  lemma TotalWithinClock(f: Forest)
    ensures (forall g, lo, hi | SameShape(f, g) :: TotalWithin(g, lo, hi)) <==> MostCounted(f, []) <= 1
  {
    if MostCounted(f, []) <= 1 {
      forall g, lo, hi | SameShape(f, g)
        ensures TotalWithin(g, lo, hi)
      {
        ShapeDecides(f, g, []);
        if Timed(g, lo, hi) {
          WithinClock(g, [], lo, hi);
        }
      }
    } else {
      WorstTimed(f, []);
      WorstReached(f, []);
      assert !TotalWithin(Worst(f, []), 0, 1);
    }
  }

  lemma WithinClock(f: Forest, wrappers: seq<string>, lo: int, hi: int)
    requires Timed(f, lo, hi) && MostCounted(f, wrappers) <= 1
    ensures CountedSeconds(Report(f, wrappers)) <= hi - lo
  {
    CountedForest(f, wrappers, lo, hi);
    ClockInside(f, lo, hi, 0);
    FitsOnce(CountedSeconds(Report(f, wrappers)), MostCounted(f, wrappers), hi - lo);
  }

  // ---------------------------------------------------------------- leaf by leaf

  function Kids(p: Phase): Forest {
    if p.Started? then p.kids else Nil
  }

  /** A path from an outermost phase down to a phase without children. */
  ghost predicate LeafPath(f: Forest, path: seq<Phase>) {
    && f.Cons? && path != []
    && (|| (path[0] == f.head && if Kids(f.head).Nil? then |path| == 1 else LeafPath(Kids(f.head), path[1..]))
        || LeafPath(f.rest, path))
  }

  function CountedOn(path: seq<Phase>, wrappers: seq<string>): nat {
    if path == [] then 0
    else (if Counts(path[0], wrappers) then 1 else 0) + CountedOn(path[1..], Enclose(wrappers, path[0].name))
  }

  /** `MostCounted` is the maximum over the leaf paths: an upper bound, and reached. */
  lemma {:induction false} MostCountedBounds(f: Forest, wrappers: seq<string>, path: seq<Phase>)
    requires LeafPath(f, path)
    ensures CountedOn(path, wrappers) <= MostCounted(f, wrappers)
    decreases f
  {
    if path[0] == f.head && !LeafPath(f.rest, path) {
      if Kids(f.head).Cons? {
        MostCountedBounds(f.head.kids, Enclose(wrappers, f.head.name), path[1..]);
      } else {
        assert path[1..] == [];
      }
    } else {
      MostCountedBounds(f.rest, wrappers, path);
    }
  }

  lemma {:induction false} MostCountedReached(f: Forest, wrappers: seq<string>) returns (path: seq<Phase>)
    requires f.Cons?
    ensures LeafPath(f, path) && CountedOn(path, wrappers) == MostCounted(f, wrappers)
    decreases f
  {
    if f.rest.Cons? && MostCountedIn(f.head, wrappers) < MostCounted(f.rest, wrappers) {
      path := MostCountedReached(f.rest, wrappers);
    } else {
      path := [];
      if Kids(f.head).Cons? {
        path := MostCountedReached(f.head.kids, Enclose(wrappers, f.head.name));
      }
      assert ([f.head] + path)[1..] == path;
      path := [f.head] + path;
    }
  }

  /** Every phase without children is counted, itself or through an ancestor. */
  ghost predicate EveryLeafCounted(f: Forest, wrappers: seq<string>) {
    f.Cons? ==>
      && (|| Counts(f.head, wrappers)
          || (Kids(f.head).Cons? && EveryLeafCounted(Kids(f.head), Enclose(wrappers, f.head.name))))
      && EveryLeafCounted(f.rest, wrappers)
  }

  /** The seconds of the phases without children. */
  function LeafSeconds(f: Forest): nat {
    if f.Nil? then 0
    else (if Kids(f.head).Nil? then Seconds(f.head) else LeafSeconds(f.head.kids)) + LeafSeconds(f.rest)
  }

  lemma {:induction false} LeavesWithinClock(f: Forest, lo: int, hi: int)
    requires Timed(f, lo, hi)
    ensures LeafSeconds(f) <= hi - lo
  {
    if f.Cons? {
      if Kids(f.head).Cons? {
        LeavesWithinClock(f.head.kids, f.head.begin, f.head.end);
      }
      LeavesWithinClock(f.rest, f.head.end, hi);
    }
  }

  lemma {:induction false} NoLeafLost(f: Forest, wrappers: seq<string>, lo: int, hi: int)
    requires Timed(f, lo, hi) && EveryLeafCounted(f, wrappers)
    ensures LeafSeconds(f) <= CountedSeconds(Report(f, wrappers))
  {
    if f.Cons? {
      CountedAppend(PhaseReport(f.head, wrappers), Report(f.rest, wrappers));
      CountedEntry(f.head, wrappers);
      NoLeafLost(f.rest, wrappers, f.head.end, hi);
      if Kids(f.head).Cons? {
        if Counts(f.head, wrappers) {
          LeavesWithinClock(f.head.kids, f.head.begin, f.head.end);
        } else {
          NoLeafLost(f.head.kids, Enclose(wrappers, f.head.name), f.head.begin, f.head.end);
        }
      }
    }
  }

  lemma {:induction false} LeavesCounted(f: Forest, wrappers: seq<string>, path: seq<Phase>)
    requires EveryLeafCounted(f, wrappers) && LeafPath(f, path)
    ensures 1 <= CountedOn(path, wrappers)
    decreases f
  {
    if LeafPath(f.rest, path) {
      LeavesCounted(f.rest, wrappers, path);
    } else if !Counts(f.head, wrappers) {
      LeavesCounted(Kids(f.head), Enclose(wrappers, f.head.name), path[1..]);
    }
  }

  lemma {:induction false} UncountedLeaf(f: Forest, wrappers: seq<string>) returns (path: seq<Phase>)
    requires !EveryLeafCounted(f, wrappers)
    ensures LeafPath(f, path) && CountedOn(path, wrappers) == 0
    decreases f
  {
    if EveryLeafCounted(f.rest, wrappers) {
      path := [];
      if Kids(f.head).Cons? {
        path := UncountedLeaf(Kids(f.head), Enclose(wrappers, f.head.name));
      }
      assert ([f.head] + path)[1..] == path;
      path := [f.head] + path;
    } else {
      path := UncountedLeaf(f.rest, wrappers);
    }
  }

  /** The counted phases cover the leaves exactly once each iff none encloses another and
      every leaf is counted. */
  lemma ExactCover(f: Forest)
    ensures (forall path | LeafPath(f, path) :: CountedOn(path, []) == 1)
            <==> MostCounted(f, []) <= 1 && EveryLeafCounted(f, [])
  {
    if MostCounted(f, []) > 1 {
      var path := MostCountedReached(f, []);
      assert LeafPath(f, path) && CountedOn(path, []) != 1;
    } else if !EveryLeafCounted(f, []) {
      var path := UncountedLeaf(f, []);
      assert LeafPath(f, path) && CountedOn(path, []) != 1;
    } else {
      forall path | LeafPath(f, path)
        ensures CountedOn(path, []) == 1
      {
        MostCountedBounds(f, [], path);
        LeavesCounted(f, [], path);
      }
    }
  }

  // ---------------------------------------------------------------- the shape of a good path

  ghost predicate StartedInside(path: seq<Phase>) {
    forall k | 0 <= k < |path| - 1 :: path[k].Started?
  }

  /** The path without the sequence phases at its inner end. */
  function Trimmed(path: seq<Phase>): (t: seq<Phase>)
    ensures |t| <= |path| && t == path[..|t|]
    ensures t != [] ==> t[|t| - 1].name != SEQUENCE
  {
    if path == [] then []
    else
      var t := Trimmed(path[1..]);
      if t == [] && path[0].name == SEQUENCE then [] else [path[0]] + t
  }

  predicate NamesSequence(path: seq<Phase>) {
    path != [] && (path[0].name == SEQUENCE || NamesSequence(path[1..]))
  }

  /** Sequence phases, one other phase, and below it nothing that opens another count: no
      sequence phase except at the very end, and if anything else follows then the phase is a
      wrapper and the last of what follows has a start line. */
  ghost predicate CoversOnce(path: seq<Phase>) {
    if path == [] then false
    else if path[0].name == SEQUENCE then CoversOnce(path[1..])
    else
      var below := Trimmed(path[1..]);
      below == [] || (IsWrapper(path[0].name) && !NamesSequence(below) && below[|below| - 1].Started?)
  }

  predicate Open(wrappers: seq<string>) {
    wrappers == [] || wrappers[|wrappers| - 1] == SEQUENCE
  }

  lemma {:induction false} NoneCountedOpen(path: seq<Phase>, wrappers: seq<string>)
    requires Open(wrappers)
    ensures CountedOn(path, wrappers) == 0 <==> Trimmed(path) == []
  {
    if path != [] && path[0].name == SEQUENCE {
      NoneCountedOpen(path[1..], wrappers + [SEQUENCE]);
    }
  }

  lemma {:induction false} NoneCountedClosed(path: seq<Phase>, wrappers: seq<string>)
    requires !Open(wrappers) && StartedInside(path)
    ensures CountedOn(path, wrappers) == 0
            <==> var t := Trimmed(path); t == [] || (!NamesSequence(t) && t[|t| - 1].Started?)
  {
    if path != [] {
      var x, t := path[0], Trimmed(path[1..]);
      assert ([x] + t)[1..] == t;
      if x.name == SEQUENCE {
        NoneCountedOpen(path[1..], wrappers + [SEQUENCE]);
      } else {
        assert !Open(Enclose(wrappers, x.name));
        NoneCountedClosed(path[1..], Enclose(wrappers, x.name));
      }
    }
  }

  /** A leaf path holds exactly one counted phase iff it has the shape `CoversOnce`. */
  lemma {:induction false} CountedExactlyOnce(path: seq<Phase>, wrappers: seq<string>)
    requires Open(wrappers) && StartedInside(path)
    ensures CountedOn(path, wrappers) == 1 <==> CoversOnce(path)
  {
    if path != [] {
      var x := path[0];
      if x.name == SEQUENCE {
        CountedExactlyOnce(path[1..], wrappers + [SEQUENCE]);
      } else if IsWrapper(x.name) {
        NoneCountedClosed(path[1..], wrappers + [x.name]);
      } else {
        NoneCountedOpen(path[1..], wrappers);
      }
    }
  }
}
