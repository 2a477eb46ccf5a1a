/** The scan and the index agree about receipts: what the one writes the other accepts, and what
    the index accepts means the same findings. */
module ScanEvidence {
  import opened KeyOrder
  import opened ScanModel
  import opened ScanFindings

  // ---------------------------------------------------------------- the three-way split

  /** A part has all occurrences of the findings that belong to it, and no others. */
  lemma {:induction false} SelectCount(s: seq<Finding>, keys: set<Key>, f: Finding)
    ensures multiset(Within(s, keys))[f] == if f.key in keys then multiset(s)[f] else 0
    ensures multiset(Outside(s, keys))[f] == if f.key in keys then 0 else multiset(s)[f]
  {
    if s != [] {
      SelectCount(s[1..], keys, f);
      assert s == [s[0]] + s[1..];
    }
  }

  lemma SelectMembers(s: seq<Finding>, keys: set<Key>)
    ensures forall f :: f in Within(s, keys) <==> f in s && f.key in keys
    ensures forall f :: f in Outside(s, keys) <==> f in s && f.key !in keys
  {
  }

  /** Every finding is in exactly one of the three parts. */
  lemma SplitThreeWays(s: seq<Finding>, allow: set<Key>, governed: set<Key>)
    requires allow !! governed
    ensures multiset(Within(s, allow)) + multiset(Outside(s, allow + governed)) + multiset(Within(s, governed))
              == multiset(s)
  {
    var x, y, z := Within(s, allow), Outside(s, allow + governed), Within(s, governed);
    forall f
      ensures (multiset(x) + multiset(y) + multiset(z))[f] == multiset(s)[f]
    {
      SelectCount(s, allow, f);
      SelectCount(s, governed, f);
      SelectCount(s, allow + governed, f);
    }
  }

  lemma SplitSizes(s: seq<Finding>, x: seq<Finding>, y: seq<Finding>, z: seq<Finding>)
    requires multiset(x) + multiset(y) + multiset(z) == multiset(s)
    ensures |x| + |y| + |z| == |s|
  {
    assert |multiset(x) + multiset(y) + multiset(z)| == |x| + |y| + |z|;
  }

  lemma PlainAdjudicate(s: seq<Finding>)
    ensures Plain(Adjudicate(s)) == s
  {
  }

  lemma ThreeListsSorted(b: seq<Finding>, x: seq<Finding>, y: seq<Finding>, z: seq<Finding>)
    requires StrictlySorted(b)
    ensures b == SortByKey(x + y + z) <==> multiset(b) == multiset(x) + multiset(y) + multiset(z)
  {
    SortSorts(x + y + z);
    if multiset(b) == multiset(x) + multiset(y) + multiset(z) {
      SortedOnce(b, SortByKey(x + y + z));
    }
  }

  // ---------------------------------------------------------------- texts

  lemma FindingFilled(m: Match)
    requires Complete(m)
    ensures Filled(FindingOf(m))
  {
  }

  lemma {:induction false} CollectFilled(matches: seq<Match>, threshold: nat)
    requires forall m | m in matches :: Complete(m)
    ensures forall key | key in Collect(matches, threshold) :: Filled(Collect(matches, threshold)[key])
  {
    if matches != [] {
      CollectFilled(matches[..|matches| - 1], threshold);
      FindingFilled(matches[|matches| - 1]);
    }
  }

  /** The keys listed are the keys of the matches at or above the threshold, or of unknown severity. */
  lemma {:induction false} CollectKeys(matches: seq<Match>, threshold: nat)
    ensures forall key :: key in Collect(matches, threshold) <==>
                          exists m :: m in matches && !Below(m.severity, threshold) && m.key == key
  {
    if matches != [] {
      var n := |matches| - 1;
      BlocksIff(matches[n], threshold);
      CollectKeys(matches[..n], threshold);
      assert matches == matches[..n] + [matches[n]];
    }
  }

  lemma BlockerKeys(matches: seq<Match>, threshold: nat, key: Key)
    ensures key in KeysOf(Blockers(matches, threshold)) <==>
            exists m :: m in matches && !Below(m.severity, threshold) && m.key == key
  {
    BlockersList(matches, threshold);
    CollectKeys(matches, threshold);
    var table := Collect(matches, threshold);
    assert key in table ==> table[key] in Blockers(matches, threshold);
  }

  // ---------------------------------------------------------------- scan and index

  lemma SplitSorts(blockers: seq<Finding>, allow: set<Key>, governed: set<Key>)
    requires StrictlySorted(blockers) && allow !! governed
    ensures var x, y, z := Within(blockers, allow), Outside(blockers, allow + governed), Within(blockers, governed);
            blockers == SortByKey(x + y + z) && |blockers| == |x| + |y| + |z|
  {
    var x, y, z := Within(blockers, allow), Outside(blockers, allow + governed), Within(blockers, governed);
    SplitThreeWays(blockers, allow, governed);
    SplitSizes(blockers, x, y, z);
    ThreeListsSorted(blockers, x, y, z);
  }

  lemma SplitMembers(blockers: seq<Finding>, allow: set<Key>, governed: set<Key>)
    requires forall f | f in blockers :: Filled(f)
    ensures forall f | f in Within(blockers, allow) + Outside(blockers, allow + governed) :: Filled(f)
    ensures forall a | a in Adjudicate(Within(blockers, governed)) ::
              Filled(a.finding) && a.finding.key in governed && a.adjudication == NOT_AFFECTED
    ensures KeysOf(Within(blockers, allow)) == allow * KeysOf(blockers)
  {
    SelectMembers(blockers, allow);
    SelectMembers(blockers, governed);
    SelectMembers(blockers, allow + governed);
    assert forall a | a in Adjudicate(Within(blockers, governed)) :: a.finding in Within(blockers, governed);
  }

  /** The receipt a scan writes is always accepted against the same files and policy. */
  lemma ProducerAccepted(image: ImageKey, artifacts: Artifacts, policy: Policy, release: bool, made: int, now: int)
    requires Evaluate(image, artifacts, policy, release, made).Ok? && made <= now
    ensures Accepts(Evaluate(image, artifacts, policy, release, made).value, artifacts, policy, release, now)
  {
    var r := Evaluate(image, artifacts, policy, release, made).value;
    var blockers := Blockers(artifacts.matches, policy.threshold);
    var allow, governed := KeysFor(policy.allowlist, image), KeysFor(policy.adjudications, image);
    BlockersList(artifacts.matches, policy.threshold);
    CollectFilled(artifacts.matches, policy.threshold);
    SplitSorts(blockers, allow, governed);
    SplitMembers(blockers, allow, governed);
    PlainAdjudicate(Within(blockers, governed));
    assert forall f | f in r.allowed || f in r.unallowed :: f in r.allowed + r.unallowed;
  }

  /** The scan passes exactly when every match at or above the threshold, or of unknown severity,
      is allowlisted or adjudicated. */
  lemma PassesIffExcused(image: ImageKey, artifacts: Artifacts, policy: Policy, release: bool, made: int)
    requires Evaluate(image, artifacts, policy, release, made).Ok?
    ensures Evaluate(image, artifacts, policy, release, made).value.passed
            <==> AllExcused(image, artifacts.matches, policy)
  {
    var blockers := Blockers(artifacts.matches, policy.threshold);
    var excused := KeysFor(policy.allowlist, image) + KeysFor(policy.adjudications, image);
    SelectMembers(blockers, excused);
    var unallowed := Outside(blockers, excused);
    forall key {
      BlockerKeys(artifacts.matches, policy.threshold, key);
    }
    if unallowed != [] {
      assert unallowed[0] in unallowed;
      assert unallowed[0].key in KeysOf(blockers);
    } else {
      forall m | m in artifacts.matches && !Below(m.severity, policy.threshold)
        ensures m.key in excused
      {
        assert m.key in KeysOf(blockers);
        var f :| f in blockers && f.key == m.key;
      }
    }
  }

  /** Every match whose severity is none of those below the threshold is covered by a governed
      exception for the image. */
  ghost predicate AllExcused(image: ImageKey, matches: seq<Match>, policy: Policy) {
    forall m | m in matches && !Below(m.severity, policy.threshold) ::
      Entry(image, m.key) in policy.allowlist || Entry(image, m.key) in policy.adjudications
  }

  /** Whoever wrote it: an accepted receipt lists every finding of the report once, and the
      allowlisted ones are exactly those on the allowlist. */
  lemma AcceptedLists(r: Receipt, kept: Artifacts, policy: Policy, release: bool, now: int)
    requires Accepts(r, kept, policy, release, now)
    ensures var blockers := Blockers(kept.matches, policy.threshold);
            && multiset(r.allowed) + multiset(r.unallowed) + multiset(Plain(r.authoritative)) == multiset(blockers)
            && StrictlySorted(blockers)
            && forall f :: f in r.allowed <==> f in blockers && f.key in KeysFor(policy.allowlist, r.image)
  {
    var blockers := Blockers(kept.matches, policy.threshold);
    var allow := KeysFor(policy.allowlist, r.image);
    BlockersList(kept.matches, policy.threshold);
    ThreeListsSorted(blockers, r.allowed, r.unallowed, Plain(r.authoritative));
    AllowedMembers(blockers, r.allowed, multiset(r.unallowed) + multiset(Plain(r.authoritative)), allow);
  }

  lemma AllowedMembers(blockers: seq<Finding>, allowed: seq<Finding>, rest: multiset<Finding>, allow: set<Key>)
    requires StrictlySorted(blockers) && multiset(allowed) + rest == multiset(blockers)
    requires KeysOf(allowed) == allow * KeysOf(blockers)
    ensures forall f :: f in allowed <==> f in blockers && f.key in allow
  {
    forall f
      ensures f in allowed <==> f in blockers && f.key in allow
    {
      if f in allowed {
        assert f in multiset(blockers) && f.key in KeysOf(allowed);
      } else if f in blockers && f.key in allow {
        assert f.key in KeysOf(allowed);
        var g :| g in allowed && g.key == f.key;
        assert g in multiset(blockers);
        StrictlyDistinct(blockers, f);
      }
    }
  }

  /** An accepted passing receipt proves that the scan passes: nothing blocking is unexcused. */
  lemma AcceptedPassIsReal(r: Receipt, kept: Artifacts, policy: Policy, release: bool, now: int)
    requires Accepts(r, kept, policy, release, now) && r.passed
    ensures AllExcused(r.image, kept.matches, policy)
  {
    AcceptedLists(r, kept, policy, release, now);
    var blockers := Blockers(kept.matches, policy.threshold);
    forall m | m in kept.matches && !Below(m.severity, policy.threshold)
      ensures m.key in KeysFor(policy.allowlist, r.image) + KeysFor(policy.adjudications, r.image)
    {
      BlockerKeys(kept.matches, policy.threshold, m.key);
      var f :| f in blockers && f.key == m.key;
      assert f in multiset(blockers);
      if f !in r.allowed {
        assert f in Plain(r.authoritative);
        var i :| 0 <= i < |r.authoritative| && Plain(r.authoritative)[i] == f;
        assert r.authoritative[i] in r.authoritative;
      }
    }
  }

  /** When the two lists of exceptions do not overlap, an accepted passing receipt lists the same
      findings under the same headings as the scan itself. */
  lemma AcceptedPassAgrees(r: Receipt, kept: Artifacts, policy: Policy, release: bool, now: int)
    requires Accepts(r, kept, policy, release, now) && r.passed
    requires KeysFor(policy.allowlist, r.image) !! KeysFor(policy.adjudications, r.image)
    ensures var blockers := Blockers(kept.matches, policy.threshold);
            && multiset(r.allowed) == multiset(Within(blockers, KeysFor(policy.allowlist, r.image)))
            && multiset(Plain(r.authoritative)) == multiset(Within(blockers, KeysFor(policy.adjudications, r.image)))
            && Outside(blockers, KeysFor(policy.allowlist, r.image) + KeysFor(policy.adjudications, r.image)) == []
  {
    var blockers := Blockers(kept.matches, policy.threshold);
    var allow, governed := KeysFor(policy.allowlist, r.image), KeysFor(policy.adjudications, r.image);
    AcceptedLists(r, kept, policy, release, now);
    AcceptedPassIsReal(r, kept, policy, release, now);
    forall f | f in blockers
      ensures f.key in allow + governed
    {
      assert f.key in KeysOf(blockers);
      BlockerKeys(kept.matches, policy.threshold, f.key);
    }
    SplitAgrees(blockers, r.allowed, Plain(r.authoritative), allow, governed);
  }

  lemma SplitAgrees(blockers: seq<Finding>, allowed: seq<Finding>, rest: seq<Finding>,
                    allow: set<Key>, governed: set<Key>)
    requires StrictlySorted(blockers) && multiset(allowed) + multiset(rest) == multiset(blockers) && allow !! governed
    requires forall f :: f in allowed <==> f in blockers && f.key in allow
    requires forall f | f in blockers :: f.key in allow + governed
    ensures multiset(allowed) == multiset(Within(blockers, allow))
    ensures multiset(rest) == multiset(Within(blockers, governed))
    ensures Outside(blockers, allow + governed) == []
  {
    var unallowed := Outside(blockers, allow + governed);
    assert unallowed != [] ==> unallowed[0] in unallowed;
    SelectMembers(blockers, allow + governed);
    SelectMembers(blockers, allow);
    SplitThreeWays(blockers, allow, governed);
    SameOnce(blockers, allowed, multiset(rest), Within(blockers, allow));
    assert multiset(rest) == multiset(blockers) - multiset(allowed);
  }

  /** Among lists without repetition, the same members make the same multiset. */
  lemma SameOnce(all: seq<Finding>, s: seq<Finding>, rest: multiset<Finding>, t: seq<Finding>)
    requires StrictlySorted(all) && multiset(s) + rest == multiset(all) && multiset(t) <= multiset(all)
    requires forall f :: f in s <==> f in t
    ensures multiset(s) == multiset(t)
  {
    forall f
      ensures multiset(s)[f] == multiset(t)[f]
    {
      StrictlyDistinct(all, f);
      assert multiset(s)[f] <= multiset(all)[f] && multiset(t)[f] <= multiset(all)[f];
      assert (f in s <==> multiset(s)[f] > 0) && (f in t <==> multiset(t)[f] > 0);
    }
  }
}
