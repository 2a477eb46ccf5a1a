/** The list of blocking findings: a table filled in report order, then listed in key order. */
module ScanFindings {
  import opened Basics
  import opened KeyOrder
  import opened ScanModel

  // ---------------------------------------------------------------- sorting

  lemma {:induction false} InsertAdds(s: seq<Finding>, f: Finding)
    ensures multiset(Insert(s, f)) == multiset(s) + multiset{f}
  {
    if s != [] {
      var n := |s| - 1;
      assert s == s[..n] + [s[n]];
      InsertAdds(s[..n], f);
    }
  }

  /** Nothing in a sorted list comes after its last entry. */
  lemma LastIsLast(s: seq<Finding>, f: Finding, i: nat)
    requires Sorted(s) && i < |s| && !Before(f.key, s[|s| - 1].key)
    ensures !Before(f.key, s[i].key)
  {
    var last := s[|s| - 1].key;
    if Before(f.key, s[i].key) {
      KeysOrdered(s[i].key, last);
      if s[i].key != last {
        KeysTransitive(f.key, s[i].key, last);
      }
    }
  }

  lemma {:induction false} InsertKeeps(s: seq<Finding>, f: Finding)
    requires Sorted(s)
    ensures Sorted(Insert(s, f))
  {
    var n := |s| - 1;
    if s != [] && Before(f.key, s[n].key) {
      InsertKeeps(s[..n], f);
      InsertAdds(s[..n], f);
      KeysOrdered(f.key, s[n].key);
      var t := Insert(s[..n], f);
      forall i | 0 <= i < |t|
        ensures !Before(s[n].key, t[i].key)
      {
        assert t[i] in multiset(t);
        assert t[i] == f || t[i] in s[..n];
      }
    } else if s != [] {
      forall i | 0 <= i < |s|
        ensures !Before(f.key, s[i].key)
      {
        LastIsLast(s, f, i);
      }
    }
  }

  lemma {:induction false} SortKeepsAll(s: seq<Finding>)
    ensures multiset(SortByKey(s)) == multiset(s)
  {
    if s != [] {
      var n := |s| - 1;
      SortKeepsAll(s[..n]);
      InsertAdds(SortByKey(s[..n]), s[n]);
      LastOfAll(s);
    }
  }

  lemma LastOfAll(s: seq<Finding>)
    requires s != []
    ensures multiset(s) == multiset(s[..|s| - 1]) + multiset{s[|s| - 1]}
  {
    assert s == s[..|s| - 1] + [s[|s| - 1]];
  }

  lemma {:induction false} SortSorts(s: seq<Finding>)
    ensures Sorted(SortByKey(s)) && multiset(SortByKey(s)) == multiset(s)
  {
    SortKeepsAll(s);
    if s != [] {
      SortSorts(s[..|s| - 1]);
      InsertKeeps(SortByKey(s[..|s| - 1]), s[|s| - 1]);
    }
  }

  lemma HeadsAgree(s: seq<Finding>, t: seq<Finding>)
    requires StrictlySorted(s) && Sorted(t) && multiset(s) == multiset(t) && s != [] && t != []
    ensures s[0] == t[0]
  {
    assert s[0] in multiset(t) && t[0] in multiset(s);
    var i :| 0 <= i < |s| && s[i] == t[0];
    var j :| 0 <= j < |t| && t[j] == s[0];
    KeysOrdered(s[0].key, t[0].key);
  }

  /** A list with distinct keys has only one sorted arrangement. */
  lemma {:induction false} SortedOnce(s: seq<Finding>, t: seq<Finding>)
    requires StrictlySorted(s) && Sorted(t) && multiset(s) == multiset(t)
    ensures s == t
  {
    assert |s| == |multiset(s)| == |t|;
    if s != [] {
      HeadsAgree(s, t);
      assert s == [s[0]] + s[1..] && t == [t[0]] + t[1..];
      assert multiset(s[1..]) == multiset(s) - multiset{s[0]};
      assert multiset(t[1..]) == multiset(t) - multiset{s[0]};
      SortedOnce(s[1..], t[1..]);
    }
  }

  // ---------------------------------------------------------------- tables and lists

  lemma {:induction false} WithoutKeeps(s: seq<Finding>, key: Key)
    requires StrictlySorted(s)
    ensures StrictlySorted(Without(s, key))
    ensures forall f :: f in Without(s, key) <==> f in s && f.key != key
  {
    if s != [] {
      var n := |s| - 1;
      assert s == s[..n] + [s[n]];
      WithoutKeeps(s[..n], key);
      forall f | f in Without(s[..n], key)
        ensures Before(f.key, s[n].key)
      {
        var i :| 0 <= i < n && s[i] == f;
      }
    }
  }

  lemma {:induction false} InsertNew(s: seq<Finding>, f: Finding)
    requires StrictlySorted(s) && forall g | g in s :: g.key != f.key
    ensures StrictlySorted(Insert(s, f))
    ensures forall g :: g in Insert(s, f) <==> g in s || g == f
  {
    if s != [] {
      var n := |s| - 1;
      assert s == s[..n] + [s[n]];
      KeysOrdered(f.key, s[n].key);
      if Before(f.key, s[n].key) {
        InsertNew(s[..n], f);
        var t := Insert(s[..n], f);
        forall i | 0 <= i < |t|
          ensures Before(t[i].key, s[n].key)
        {
          assert t[i] in t;
          assert t[i] != f ==> exists k :: 0 <= k < n && s[k] == t[i];
        }
      } else {
        forall i | 0 <= i < |s|
          ensures Before(s[i].key, f.key)
        {
          if i < n {
            KeysTransitive(s[i].key, s[n].key, f.key);
          }
        }
      }
    }
  }

  /** Replacing or adding an entry, in the list and in the table. */
  lemma ListsPut(s: seq<Finding>, table: map<Key, Finding>, f: Finding)
    requires Lists(s, table)
    ensures Lists(Insert(Without(s, f.key), f), table[f.key := f])
  {
    WithoutKeeps(s, f.key);
    InsertNew(Without(s, f.key), f);
  }

  /** The direct computation lists what the table holds. */
  lemma {:induction false} BlockersList(matches: seq<Match>, threshold: nat)
    ensures Lists(Blockers(matches, threshold), Collect(matches, threshold))
  {
    if matches != [] {
      var n := |matches| - 1;
      BlockersList(matches[..n], threshold);
      if Blocks(matches[n], threshold) {
        ListsPut(Blockers(matches[..n], threshold), Collect(matches[..n], threshold), FindingOf(matches[n]));
      }
    }
  }

  lemma {:induction false} StrictlyDistinct(s: seq<Finding>, f: Finding)
    requires StrictlySorted(s)
    ensures multiset(s)[f] == if f in s then 1 else 0
    ensures forall g | g in s && f in s && g.key == f.key :: g == f
  {
    if s != [] {
      StrictlyDistinct(s[1..], f);
      assert s == [s[0]] + s[1..];
      assert s[0] !in s[1..] by {
        if s[0] in s[1..] {
          var i :| 0 < i < |s| && s[i] == s[0];
          KeysOrdered(s[0].key, s[0].key);
        }
      }
      forall g | g in s && f in s && g.key == f.key
        ensures g == f
      {
        var i :| 0 <= i < |s| && s[i] == g;
        var j :| 0 <= j < |s| && s[j] == f;
        KeysOrdered(g.key, f.key);
      }
    }
  }

  /** A table has only one sorted list. */
  lemma ListedOnce(s: seq<Finding>, t: seq<Finding>, table: map<Key, Finding>)
    requires Lists(s, table) && Lists(t, table)
    ensures s == t
  {
    forall f
      ensures multiset(s)[f] == multiset(t)[f]
    {
      StrictlyDistinct(s, f);
      StrictlyDistinct(t, f);
    }
    assert multiset(s) == multiset(t);
    forall i, j | 0 <= i < j < |t|
      ensures !Before(t[j].key, t[i].key)
    {
      KeysOrdered(t[i].key, t[j].key);
    }
    SortedOnce(s, t);
  }

  /** A match at or above the threshold, or of unknown severity, with no later one for the same key. */
  ghost predicate LastBlocking(matches: seq<Match>, threshold: nat, i: nat) {
    && i < |matches| && !Below(matches[i].severity, threshold)
    && forall j | i < j < |matches| && matches[j].key == matches[i].key :: Below(matches[j].severity, threshold)
  }

  /** The finding of a match: its key, its severity in lower case, and the state of its fix. */
  ghost predicate Reports(f: Finding, m: Match) {
    && f.key == m.key && f.severity == Lower(m.severity)
    && (if m.fixState.Some? && !AllBlank(m.fixState.value) then f.fixState == m.fixState.value
        else f.fixState == "unknown")
  }

  lemma FindingReports(m: Match)
    ensures Reports(FindingOf(m), m)
  {
    if m.fixState.Some? {
      HasTextIff(m.fixState.value);
    }
  }

  lemma {:induction false} CollectLast(matches: seq<Match>, threshold: nat, i: nat)
    requires LastBlocking(matches, threshold, i)
    ensures var table := Collect(matches, threshold);
            matches[i].key in table && Reports(table[matches[i].key], matches[i])
  {
    var n := |matches| - 1;
    BlocksIff(matches[n], threshold);
    if i == n {
      FindingReports(matches[n]);
    } else {
      CollectLast(matches[..n], threshold, i);
    }
  }

  lemma {:induction false} CollectFrom(matches: seq<Match>, threshold: nat, key: Key) returns (i: nat)
    requires key in Collect(matches, threshold)
    ensures LastBlocking(matches, threshold, i) && matches[i].key == key
  {
    var n := |matches| - 1;
    BlocksIff(matches[n], threshold);
    if Blocks(matches[n], threshold) && matches[n].key == key {
      i := n;
    } else {
      i := CollectFrom(matches[..n], threshold, key);
    }
  }

  /** The list has a finding for exactly the keys of such matches, and it reports the last of them. */
  ghost predicate ReportsLast(s: seq<Finding>, matches: seq<Match>, threshold: nat) {
    && (forall f | f in s :: exists i: nat | LastBlocking(matches, threshold, i) :: Reports(f, matches[i]))
    && (forall i: nat | LastBlocking(matches, threshold, i) :: exists f | f in s :: Reports(f, matches[i]))
  }

  lemma ListReportsLast(s: seq<Finding>, matches: seq<Match>, threshold: nat)
    requires Lists(s, Collect(matches, threshold))
    ensures ReportsLast(s, matches, threshold)
  {
    forall f | f in s
      ensures exists i: nat | LastBlocking(matches, threshold, i) :: Reports(f, matches[i])
    {
      var i := CollectFrom(matches, threshold, f.key);
      CollectLast(matches, threshold, i);
    }
    forall i: nat | LastBlocking(matches, threshold, i)
      ensures exists f | f in s :: Reports(f, matches[i])
    {
      CollectLast(matches, threshold, i);
    }
  }

  predicate AllTexts(m: Match) {
    && !AllBlank(m.key.vulnerability) && !AllBlank(m.severity)
    && !AllBlank(m.key.package) && !AllBlank(m.key.version)
  }

  lemma CompleteIff(m: Match)
    ensures Complete(m) <==> AllTexts(m)
  {
    HasTextIff(m.key.vulnerability);
    HasTextIff(m.severity);
    HasTextIff(m.key.package);
    HasTextIff(m.key.version);
  }

  /** The findings of a report as the program computes them: a dictionary in which the last
      blocking match of a key wins, then its values in the order of the keys. */
  method BlockingFindings(matches: seq<Match>, threshold: nat) returns (r: Result<seq<Finding>>)
    ensures r.Err? <==> exists m :: m in matches && !AllTexts(m)
    ensures r.Ok? ==> ReportsLast(r.value, matches, threshold)
    ensures r.Ok? ==> forall i, j | 0 <= i < j < |r.value| :: Before(r.value[i].key, r.value[j].key)
    ensures r.Ok? ==> r.value == Blockers(matches, threshold) && Lists(r.value, Collect(matches, threshold))
  {
    var findings := map[];
    var i := 0;
    while i < |matches|
      invariant i <= |matches| && findings == Collect(matches[..i], threshold)
      invariant forall k | 0 <= k < i :: AllTexts(matches[k])
    {
      var m := matches[i];
      CompleteIff(m);
      if !Complete(m) {
        return Err("incomplete match");
      }
      assert matches[..i + 1][..i] == matches[..i];
      if Blocks(m, threshold) {
        findings := findings[m.key := FindingOf(m)];
      }
      i := i + 1;
    }
    assert matches[..i] == matches;
    BlockersList(matches, threshold);
    var sorted := InKeyOrder(findings);
    ListedOnce(sorted, Blockers(matches, threshold), findings);
    ListReportsLast(sorted, matches, threshold);
    return Ok(sorted);
  }

  method InKeyOrder(findings: map<Key, Finding>) returns (sorted: seq<Finding>)
    requires forall key | key in findings :: findings[key].key == key
    ensures Lists(sorted, findings)
  {
    sorted := [];
    var todo := findings.Keys;
    while todo != {}
      invariant todo <= findings.Keys && StrictlySorted(sorted)
      invariant forall f | f in sorted :: f.key in findings && f.key !in todo && findings[f.key] == f
      invariant forall key | key in findings && key !in todo :: findings[key] in sorted
      decreases todo
    {
      var key :| key in todo;
      InsertNew(sorted, findings[key]);
      sorted := Insert(sorted, findings[key]);
      todo := todo - {key};
    }
  }
}
