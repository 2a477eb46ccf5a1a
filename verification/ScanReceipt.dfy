/** What a receipt says, entry by entry: when a scan writes one and with which contents, and exactly
    which receipts the index accepts. */
module ScanReceipt {
  import opened Basics
  import opened KeyOrder
  import opened ScanModel
  import opened ScanFindings
  import opened ScanEvidence

  lemma KeysForIff(entries: seq<Entry>, image: ImageKey, key: Key)
    ensures key in KeysFor(entries, image) <==> Entry(image, key) in entries
  {
  }

  // ---------------------------------------------------------------- severities

  /** The matches with this severity, whatever its letters' case. */
  function WithSeverity(matches: seq<Match>, name: string): set<nat> {
    set i: nat | i < |matches| && Lower(matches[i].severity) == name
  }

  lemma {:induction false} SeveritiesAppend(a: seq<Match>, m: Match)
    ensures Severities(a + [m]) == Severities(a) + multiset{Lower(m.severity)}
  {
    if a == [] {
      assert a + [m] == [m] && [m][1..] == [];
    } else {
      assert (a + [m])[1..] == a[1..] + [m] && (a + [m])[0] == a[0];
      SeveritiesAppend(a[1..], m);
    }
  }

  /** The receipt counts each severity as often as it occurs. */
  lemma {:induction false} SeveritiesCount(matches: seq<Match>, name: string)
    ensures Severities(matches)[name] == |WithSeverity(matches, name)|
  {
    if matches == [] {
      assert WithSeverity(matches, name) == {};
    } else {
      var n := |matches| - 1;
      SeveritiesCount(matches[..n], name);
      SeveritiesAppend(matches[..n], matches[n]);
      assert matches == matches[..n] + [matches[n]];
      WithLast(matches, name);
    }
  }

  lemma WithLast(matches: seq<Match>, name: string)
    requires matches != []
    ensures var n := |matches| - 1;
            |WithSeverity(matches, name)| ==
              |WithSeverity(matches[..n], name)| + if Lower(matches[n].severity) == name then 1 else 0
  {
    var n := |matches| - 1;
    assert WithSeverity(matches, name) ==
           WithSeverity(matches[..n], name) + if Lower(matches[n].severity) == name then {n} else {};
  }

  // ---------------------------------------------------------------- the scan's receipt

  /** A scan writes a receipt unless a match lacks a text, an exception is governed twice, or an
      allowlist entry of the image has no match that would block. */
  lemma EvaluateRefuses(image: ImageKey, artifacts: Artifacts, policy: Policy, release: bool, now: int)
    ensures Evaluate(image, artifacts, policy, release, now).Err? <==>
              || (exists m :: m in artifacts.matches && !AllTexts(m))
              || (exists key :: Entry(image, key) in policy.allowlist && Entry(image, key) in policy.adjudications)
              || (exists key :: Entry(image, key) in policy.allowlist
                                && forall m | m in artifacts.matches && m.key == key ::
                                       Below(m.severity, policy.threshold))
  {
    forall m | m in artifacts.matches
      ensures Complete(m) <==> AllTexts(m)
    {
      CompleteIff(m);
    }
    forall key
      ensures key in KeysFor(policy.allowlist, image) <==> Entry(image, key) in policy.allowlist
      ensures key in KeysFor(policy.adjudications, image) <==> Entry(image, key) in policy.adjudications
      ensures key in KeysOf(Blockers(artifacts.matches, policy.threshold)) <==>
                exists m :: m in artifacts.matches && !Below(m.severity, policy.threshold) && m.key == key
    {
      KeysForIff(policy.allowlist, image, key);
      KeysForIff(policy.adjudications, image, key);
      BlockerKeys(artifacts.matches, policy.threshold, key);
    }
    StaleOrTwice(KeysFor(policy.allowlist, image), KeysFor(policy.adjudications, image),
                 KeysOf(Blockers(artifacts.matches, policy.threshold)));
  }

  lemma StaleOrTwice(allow: set<Key>, governed: set<Key>, blockers: set<Key>)
    ensures allow !! governed <==> !exists key :: key in allow && key in governed
    ensures allow <= blockers <==> !exists key :: key in allow && key !in blockers
  {
  }

  /** Which of the blockers stand under which heading. */
  ghost predicate Divided(r: Receipt, blockers: seq<Finding>, policy: Policy) {
    && (forall f :: f in r.allowed <==> f in blockers && Entry(r.image, f.key) in policy.allowlist)
    && (forall f :: f in Plain(r.authoritative) <==> f in blockers && Entry(r.image, f.key) in policy.adjudications)
    && (forall f :: f in r.unallowed <==>
                      f in blockers && Entry(r.image, f.key) !in policy.allowlist
                      && Entry(r.image, f.key) !in policy.adjudications)
    && forall a | a in r.authoritative :: a.adjudication == NOT_AFFECTED
  }

  /** The receipt of a scan is about this image and these files; it puts each blocking finding under
      its heading, counts the headings, and passes when the second is empty. */
  lemma EvaluateSays(image: ImageKey, artifacts: Artifacts, policy: Policy, release: bool, now: int)
    requires Evaluate(image, artifacts, policy, release, now).Ok?
    ensures var r := Evaluate(image, artifacts, policy, release, now).value;
            && r.image == image && r.imageId == artifacts.imageId && r.artifacts == artifacts
            && r.release == release && r.generatedAt == now && r.severities == Severities(artifacts.matches)
            && Divided(r, Blockers(artifacts.matches, policy.threshold), policy)
            && r.allowedCount == |r.allowed| && r.unallowedCount == |r.unallowed|
            && r.authoritativeCount == |r.authoritative|
            && r.total == |r.allowed| + |r.unallowed| + |r.authoritative| && (r.passed <==> r.unallowed == [])
  {
    var r := Evaluate(image, artifacts, policy, release, now).value;
    var blockers := Blockers(artifacts.matches, policy.threshold);
    var allow, governed := KeysFor(policy.allowlist, image), KeysFor(policy.adjudications, image);
    ProducerAccepted(image, artifacts, policy, release, now, now);
    SelectMembers(blockers, allow);
    SelectMembers(blockers, governed);
    SelectMembers(blockers, allow + governed);
    PlainAdjudicate(Within(blockers, governed));
    forall key
      ensures key in allow <==> Entry(image, key) in policy.allowlist
      ensures key in governed <==> Entry(image, key) in policy.adjudications
    {
      KeysForIff(policy.allowlist, image, key);
      KeysForIff(policy.adjudications, image, key);
    }
  }

  // ---------------------------------------------------------------- the accepted receipts

  /** The checks of a receipt against the files kept beside it, without its lists. */
  ghost predicate Fitting(r: Receipt, kept: Artifacts, release: bool, now: int) {
    && r.release == release && r.generatedAt <= now && r.artifacts == kept && r.imageId == kept.imageId
    && (forall m | m in kept.matches :: AllTexts(m)) && r.severities == Severities(kept.matches)
    && r.allowedCount == |r.allowed| && r.unallowedCount == |r.unallowed| && r.authoritativeCount == |r.authoritative|
    && r.total == |r.allowed| + |r.unallowed| + |r.authoritative| && (r.passed <==> r.unallowed == [])
  }

  /** The lists hold each blocking finding once; as allowed exactly those on the allowlist, and as
      adjudicated only such as are. */
  ghost predicate Listing(r: Receipt, kept: Artifacts, policy: Policy) {
    var blockers := Blockers(kept.matches, policy.threshold);
    && multiset(r.allowed) + multiset(r.unallowed) + multiset(Plain(r.authoritative)) == multiset(blockers)
    && (forall f :: f in r.allowed <==> f in blockers && Entry(r.image, f.key) in policy.allowlist)
    && (forall a | a in r.authoritative ::
          a.adjudication == NOT_AFFECTED && Entry(r.image, a.finding.key) in policy.adjudications)
  }

  lemma TextsComplete(matches: seq<Match>)
    ensures (forall m | m in matches :: Complete(m)) <==> forall m | m in matches :: AllTexts(m)
  {
    forall m {
      CompleteIff(m);
    }
  }

  lemma AcceptedIsFitting(r: Receipt, kept: Artifacts, policy: Policy, release: bool, now: int)
    requires Accepts(r, kept, policy, release, now)
    ensures Fitting(r, kept, release, now) && Listing(r, kept, policy)
  {
    TextsComplete(kept.matches);
    AcceptedLists(r, kept, policy, release, now);
    forall key
      ensures key in KeysFor(policy.allowlist, r.image) <==> Entry(r.image, key) in policy.allowlist
      ensures key in KeysFor(policy.adjudications, r.image) <==> Entry(r.image, key) in policy.adjudications
    {
      KeysForIff(policy.allowlist, r.image, key);
      KeysForIff(policy.adjudications, r.image, key);
    }
  }

  lemma ListedFilled(r: Receipt, kept: Artifacts, policy: Policy)
    requires Listing(r, kept, policy) && forall m | m in kept.matches :: Complete(m)
    ensures (forall f | f in r.allowed :: Filled(f)) && (forall f | f in r.unallowed :: Filled(f))
    ensures forall a | a in r.authoritative :: Filled(a.finding)
  {
    var blockers := Blockers(kept.matches, policy.threshold);
    BlockersList(kept.matches, policy.threshold);
    CollectFilled(kept.matches, policy.threshold);
    forall f | f in multiset(r.allowed) + multiset(r.unallowed) + multiset(Plain(r.authoritative))
      ensures Filled(f)
    {
      assert f in multiset(blockers);
    }
    forall a | a in r.authoritative
      ensures a.finding in Plain(r.authoritative)
    {
      var i :| 0 <= i < |r.authoritative| && r.authoritative[i] == a;
      assert Plain(r.authoritative)[i] == a.finding;
    }
  }

  lemma AllowedKeys(r: Receipt, kept: Artifacts, policy: Policy)
    requires Listing(r, kept, policy)
    ensures KeysOf(r.allowed) == KeysFor(policy.allowlist, r.image) * KeysOf(Blockers(kept.matches, policy.threshold))
  {
    var blockers := Blockers(kept.matches, policy.threshold);
    forall key
      ensures key in KeysOf(r.allowed) <==> key in KeysFor(policy.allowlist, r.image) && key in KeysOf(blockers)
    {
      KeysForIff(policy.allowlist, r.image, key);
      if key in KeysFor(policy.allowlist, r.image) && key in KeysOf(blockers) {
        var f :| f in blockers && f.key == key;
        assert f in r.allowed;
      }
    }
  }

  /** The index accepts exactly the receipts that fit the files and list the blocking findings so. */
  lemma AcceptsIff(r: Receipt, kept: Artifacts, policy: Policy, release: bool, now: int)
    ensures Accepts(r, kept, policy, release, now) <==> Fitting(r, kept, release, now) && Listing(r, kept, policy)
  {
    if Accepts(r, kept, policy, release, now) {
      AcceptedIsFitting(r, kept, policy, release, now);
    } else if Fitting(r, kept, release, now) && Listing(r, kept, policy) {
      var blockers := Blockers(kept.matches, policy.threshold);
      TextsComplete(kept.matches);
      BlockersList(kept.matches, policy.threshold);
      ListedFilled(r, kept, policy);
      AllowedKeys(r, kept, policy);
      ThreeListsSorted(blockers, r.allowed, r.unallowed, Plain(r.authoritative));
      forall a | a in r.authoritative
        ensures a.finding.key in KeysFor(policy.adjudications, r.image)
      {
        KeysForIff(policy.adjudications, r.image, a.finding.key);
      }
    }
  }
}
