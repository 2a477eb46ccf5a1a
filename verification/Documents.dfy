/** The walk over the documentation links of scripts/check_doc_reachability.py. */
module Documents {
  import opened Basics

  // ---------------------------------------------------------------- fenced blocks

  predicate IsFence(line: string) {
    var text := StripFront(line);
    BACK_QUOTES <= text || TILDES <= text
  }

  const BACK_QUOTES := "```"
  const TILDES := "~~~"

  lemma FenceAfterBlanks(line: string, mark: string)
    requires mark <= StripFront(line)
    ensures exists blanks, rest :: AllBlank(blanks) && line == blanks + mark + rest
  {
    var text := StripFront(line);
    StripFrontIs(line);
    assert line == line[..|line| - |text|] + mark + text[|mark|..];
  }

  lemma BlanksBeforeFence(blanks: string, mark: string, rest: string)
    requires AllBlank(blanks) && mark != [] && !Blank(mark[0])
    ensures mark <= StripFront(blanks + mark + rest)
  {
    StripsBlanks(blanks, mark + rest);
    assert blanks + mark + rest == blanks + (mark + rest);
  }

  /** A fence is a line that begins, after white space, with three back quotes or three tildes. */
  lemma IsFenceIff(line: string)
    ensures IsFence(line) <==>
              exists blanks, mark, rest ::
                AllBlank(blanks) && mark in {BACK_QUOTES, TILDES} && line == blanks + mark + rest
  {
    if BACK_QUOTES <= StripFront(line) {
      FenceAfterBlanks(line, BACK_QUOTES);
    }
    if TILDES <= StripFront(line) {
      FenceAfterBlanks(line, TILDES);
    }
    if blanks, mark, rest :| AllBlank(blanks) && mark in {BACK_QUOTES, TILDES} && line == blanks + mark + rest {
      BlanksBeforeFence(blanks, mark, rest);
    }
  }

  lemma {:induction false} StripsBlanks(blanks: string, text: string)
    requires AllBlank(blanks) && text != [] && !Blank(text[0])
    ensures StripFront(blanks + text) == text
    decreases |blanks|
  {
    if blanks == [] {
      assert blanks + text == text;
    } else {
      assert (blanks + text)[1..] == blanks[1..] + text;
      StripsBlanks(blanks[1..], text);
    }
  }

  /** The fences among the first lines. */
  function Fences(lines: seq<string>, n: nat): set<nat>
    requires n <= |lines|
  {
    set j: nat | j < n && IsFence(lines[j])
  }

  lemma {:induction false} OpenIff(lines: seq<string>)
    ensures Open(lines) <==> |Fences(lines, |lines|)| % 2 == 1
  {
    if lines == [] {
      assert Fences(lines, 0) == {};
    } else {
      var n := |lines| - 1;
      OpenIff(lines[..n]);
      FencesLast(lines);
    }
  }

  lemma FencesLast(lines: seq<string>)
    requires lines != []
    ensures var n := |lines| - 1;
            |Fences(lines, |lines|)| == |Fences(lines[..n], n)| + if IsFence(lines[n]) then 1 else 0
  {
    var n := |lines| - 1;
    assert Fences(lines, |lines|) == Fences(lines[..n], n) + if IsFence(lines[n]) then {n} else {};
  }

  /** A line that is no fence and has an even number of fences before it. */
  predicate Outside(lines: seq<string>, n: nat)
    requires n < |lines|
  {
    !IsFence(lines[n]) && |Fences(lines, n)| % 2 == 0
  }

  /** These are the numbers of those lines, in order. */
  ghost predicate Picks(lines: seq<string>, numbers: seq<nat>) {
    && (forall j, k | 0 <= j < k < |numbers| :: numbers[j] < numbers[k])
    && forall i: nat :: i in numbers <==> i < |lines| && Outside(lines, i)
  }

  lemma PicksLast(lines: seq<string>, numbers: seq<nat>)
    requires lines != [] && Picks(lines[..|lines| - 1], numbers)
    ensures var n := |lines| - 1;
            Picks(lines, if Outside(lines, n) then numbers + [n] else numbers)
  {
    var n := |lines| - 1;
    forall i: nat | i < n
      ensures Outside(lines[..n], i) <==> Outside(lines, i)
    {
      OutsideBefore(lines, i);
    }
    PicksSame(lines, numbers);
    if Outside(lines, n) {
      AddsLast(numbers, n);
    }
  }

  /** Of the lines before the last, these are the numbers too. */
  lemma PicksSame(lines: seq<string>, numbers: seq<nat>)
    requires lines != [] && Picks(lines[..|lines| - 1], numbers)
    requires forall i: nat | i < |lines| - 1 :: Outside(lines[..|lines| - 1], i) <==> Outside(lines, i)
    ensures forall i: nat :: i in numbers <==> i < |lines| - 1 && Outside(lines, i)
    ensures forall k | 0 <= k < |numbers| :: numbers[k] < |lines| - 1
  {
    assert forall k | 0 <= k < |numbers| :: numbers[k] in numbers;
  }

  lemma AddsLast(numbers: seq<nat>, n: nat)
    ensures forall i: nat :: i in numbers + [n] <==> i in numbers || i == n
  {
  }

  lemma OutsideBefore(lines: seq<string>, i: nat)
    requires i < |lines| - 1
    ensures Outside(lines[..|lines| - 1], i) <==> Outside(lines, i)
  {
    assert Fences(lines[..|lines| - 1], i) == Fences(lines, i);
  }

  ghost predicate Selects(lines: seq<string>, numbers: seq<nat>, kept: seq<string>) {
    |kept| == |numbers| && forall k | 0 <= k < |numbers| :: numbers[k] < |lines| && kept[k] == lines[numbers[k]]
  }

  lemma SelectsLast(lines: seq<string>, numbers: seq<nat>, kept: seq<string>)
    requires lines != [] && Selects(lines[..|lines| - 1], numbers, kept)
    ensures Selects(lines, numbers, kept)
    ensures Selects(lines, numbers + [|lines| - 1], kept + [lines[|lines| - 1]])
  {
  }

  lemma OutsideIff(lines: seq<string>)
    requires lines != []
    ensures var n := |lines| - 1;
            Outside(lines, n) <==> !IsFence(lines[n]) && !Open(lines[..n])
  {
    var n := |lines| - 1;
    OpenIff(lines[..n]);
    assert Fences(lines[..n], n) == Fences(lines, n);
  }

  lemma UnfencedStep(lines: seq<string>)
    requires lines != []
    ensures var n := |lines| - 1;
            Unfenced(lines) == if Outside(lines, n) then Unfenced(lines[..n]) + [lines[n]] else Unfenced(lines[..n])
  {
    OutsideIff(lines);
  }

  /** What is kept are those lines. */
  lemma {:induction false} UnfencedPicks(lines: seq<string>) returns (numbers: seq<nat>)
    ensures Picks(lines, numbers) && Selects(lines, numbers, Unfenced(lines))
  {
    if lines == [] {
      numbers := [];
    } else {
      var n := |lines| - 1;
      numbers := UnfencedPicks(lines[..n]);
      UnfencedStep(lines);
      PicksLast(lines, numbers);
      SelectsLast(lines, numbers, Unfenced(lines[..n]));
      if Outside(lines, n) {
        numbers := numbers + [n];
      }
    }
  }

  /** Whether the lines end inside a block: they have an odd number of fences. */
  predicate Open(lines: seq<string>) {
    lines != [] && Open(lines[..|lines| - 1]) != IsFence(lines[|lines| - 1])
  }

  /** The lines that are no fences and have an even number of fences before them. */
  function Unfenced(lines: seq<string>): seq<string> {
    if lines == [] then []
    else
      var last, before := lines[|lines| - 1], lines[..|lines| - 1];
      Unfenced(before) + if !IsFence(last) && !Open(before) then [last] else []
  }

  method StripCodeFences(lines: seq<string>) returns (kept: seq<string>)
    ensures kept == Unfenced(lines)
    ensures exists numbers :: Picks(lines, numbers) && Selects(lines, numbers, kept)
  {
    kept := [];
    var inFence := false;
    for i := 0 to |lines|
      invariant kept == Unfenced(lines[..i]) && inFence == Open(lines[..i])
    {
      assert lines[..i + 1][..i] == lines[..i];
      if IsFence(lines[i]) {
        inFence := !inFence;
      } else if !inFence {
        kept := kept + [lines[i]];
      }
    }
    assert lines[..|lines|] == lines;
    ghost var numbers := UnfencedPicks(lines);
  }

  /** Closed blocks before a text do not affect what is kept of it. */
  lemma {:induction false} UnfencedAfter(a: seq<string>, b: seq<string>)
    requires !Open(a)
    ensures Unfenced(a + b) == Unfenced(a) + Unfenced(b) && Open(a + b) == Open(b)
  {
    if b == [] {
      assert a + b == a;
    } else {
      var n := |b| - 1;
      UnfencedAfter(a, b[..n]);
      var whole, kept := a + b, if !IsFence(b[n]) && !Open(b[..n]) then [b[n]] else [];
      assert |whole| - 1 == |a| + n && whole[..|a| + n] == a + b[..n] && whole[|a| + n] == b[n];
      assert Unfenced(whole) == Unfenced(a + b[..n]) + kept && Unfenced(b) == Unfenced(b[..n]) + kept;
    }
  }

  // ---------------------------------------------------------------- links

  type Path = string

  /** The documentation tree: the tracked documents, the link targets of the readable ones, and
      how a target is resolved from a directory. */
  datatype Site = Site(
    tracked: set<Path>, entry: Path, links: map<Path, seq<string>>, directories: set<Path>,
    parent: Path -> Path, root: Path, resolve: (Path, string) -> Path, readme: Path -> Path)

  /** The document a target leads to: a directory stands for its README. */
  function Destination(site: Site, base: Path, target: string): Path {
    var resolved := site.resolve(base, target);
    if resolved in site.directories then site.readme(resolved) else resolved
  }

  /** A target leads there when it resolves to it, or to a directory whose README it is. */
  predicate Leads(site: Site, base: Path, target: string, b: Path) {
    || (site.resolve(base, target) !in site.directories && site.resolve(base, target) == b)
    || (site.resolve(base, target) in site.directories && site.readme(site.resolve(base, target)) == b)
  }

  /** A document links to the tracked documents to which its targets lead, from its own directory or
      from the root. */
  lemma LinksIff(site: Site, a: Path, b: Path)
    ensures Links(site, a, b) <==>
              && b in site.tracked && a in site.links
              && exists k | 0 <= k < |site.links[a]| ::
                   Leads(site, site.parent(a), site.links[a][k], b) || Leads(site, site.root, site.links[a][k], b)
  {
    if a in site.links {
      forall k | 0 <= k < |site.links[a]|
        ensures b in Destinations(site, a, site.links[a][k]) <==>
                  Leads(site, site.parent(a), site.links[a][k], b) || Leads(site, site.root, site.links[a][k], b)
      {
      }
    }
  }

  /** Targets are tried from the document's directory and from the root. */
  function Destinations(site: Site, document: Path, target: string): set<Path> {
    {Destination(site, site.parent(document), target), Destination(site, site.root, target)}
  }

  /** Whether one document links to another, tracked one. */
  predicate Links(site: Site, a: Path, b: Path) {
    a in site.links && b in site.tracked
      && exists target | target in site.links[a] :: b in Destinations(site, a, target)
  }

  ghost predicate Walk(site: Site, w: seq<Path>) {
    w != [] && w[0] == site.entry && forall i | 0 < i < |w| :: Links(site, w[i - 1], w[i])
  }

  ghost predicate Reachable(site: Site, document: Path) {
    exists w :: Walk(site, w) && w[|w| - 1] == document
  }

  lemma EntryReachable(site: Site)
    ensures Reachable(site, site.entry)
  {
    assert Walk(site, [site.entry]);
  }

  lemma LinkReachable(site: Site, a: Path, b: Path)
    requires Reachable(site, a) && Links(site, a, b)
    ensures Reachable(site, b)
  {
    var w :| Walk(site, w) && w[|w| - 1] == a;
    assert Walk(site, w + [b]);
  }

  /** A set that has the entry and follows every link has everything reachable. */
  lemma {:induction false} ClosedHasAll(site: Site, seen: set<Path>, w: seq<Path>)
    requires site.entry in seen && Walk(site, w)
    requires forall a, b | a in seen && Links(site, a, b) :: b in seen
    ensures w[|w| - 1] in seen
    decreases |w|
  {
    var n := |w| - 1;
    if n > 0 {
      ClosedHasAll(site, seen, w[..n]);
      assert Links(site, w[n - 1], w[n]);
    }
  }

  // ---------------------------------------------------------------- the walk

  /** Notes one destination, unless it is not tracked or known. */
  function Note(site: Site, seen: set<Path>, destination: Path): set<Path> {
    if destination in site.tracked then seen + {destination} else seen
  }

  /** Follows the links of one document. */
  method Follow(site: Site, document: Path, seen: set<Path>, queue: seq<Path>)
    returns (nowSeen: set<Path>, nowQueue: seq<Path>)
    requires document in site.links
    ensures nowSeen == seen + set b | b in site.tracked && Links(site, document, b)
    ensures seen == nowSeen ==> nowQueue == queue
    ensures forall b :: b in nowQueue <==> b in queue || b in nowSeen - seen
  {
    nowSeen, nowQueue := seen, queue;
    var targets := site.links[document];
    for i := 0 to |targets|
      invariant forall b :: b in nowSeen <==>
                  b in seen
                      || (b in site.tracked && exists k | 0 <= k < i :: b in Destinations(site, document, targets[k]))
      invariant seen == nowSeen ==> nowQueue == queue
      invariant seen <= nowSeen && forall b :: b in nowQueue <==> b in queue || b in nowSeen - seen
    {
      nowSeen, nowQueue := Visit(site, Destination(site, site.parent(document), targets[i]),
                                         seen, queue, nowSeen, nowQueue);
      nowSeen, nowQueue := Visit(site, Destination(site, site.root, targets[i]), seen, queue, nowSeen, nowQueue);
    }
  }

  method Visit(site: Site, destination: Path, ghost seen: set<Path>, ghost queue: seq<Path>,
               nowSeen: set<Path>, nowQueue: seq<Path>)
    returns (nextSeen: set<Path>, nextQueue: seq<Path>)
    requires seen <= nowSeen && forall b :: b in nowQueue <==> b in queue || b in nowSeen - seen
    requires seen == nowSeen ==> nowQueue == queue
    ensures nextSeen == Note(site, nowSeen, destination)
    ensures seen == nextSeen ==> nextQueue == queue
    ensures forall b :: b in nextQueue <==> b in queue || b in nextSeen - seen
  {
    nextSeen, nextQueue := nowSeen, nowQueue;
    if destination in site.tracked && destination !in nowSeen {
      nextSeen := nowSeen + {destination};
      nextQueue := nowQueue + [destination];
    }
  }

  /** The tracked documents that can be reached from the entry page, and no others, for every
      link graph. */
  method ReachableDocuments(site: Site) returns (found: set<Path>)
    ensures forall document :: document in found <==> document in site.tracked && Reachable(site, document)
  {
    var seen, queue := {site.entry}, [site.entry];
    EntryReachable(site);
    while queue != []
      invariant site.entry in seen && seen <= site.tracked + {site.entry}
      invariant forall a | a in seen :: Reachable(site, a)
      invariant forall a | a in queue :: a in seen
      invariant forall a, b | a in seen && a !in queue && Links(site, a, b) :: b in seen
      decreases site.tracked - seen, |queue|
    {
      var current, rest := queue[0], queue[1..];
      assert queue == [current] + rest;
      if current in site.links {
        var nowSeen, nowQueue := Follow(site, current, seen, rest);
        forall b | b in nowSeen
          ensures Reachable(site, b)
        {
          if b !in seen {
            LinkReachable(site, current, b);
          }
        }
        assert nowSeen != seen ==> site.tracked - nowSeen < site.tracked - seen;
        seen, queue := nowSeen, nowQueue;
      } else {
        queue := rest;
      }
    }
    forall document | Reachable(site, document)
      ensures document in seen
    {
      var w :| Walk(site, w) && w[|w| - 1] == document;
      ClosedHasAll(site, seen, w);
    }
    found := seen * site.tracked;
  }
}
