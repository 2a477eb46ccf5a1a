/** What planning and pruning again does after a run that failed part-way. */
module PruneRetry {
  import opened Basics
  import opened PruneModel
  import opened Prune
  import opened PruneOrder

  // ---------------------------------------------------------------- the newest releases again

  /** The newest releases are newer than all others. */
  lemma NewestFirst(releases: map<string, Release>, keep: nat, a: string, b: string)
    requires a in Newest(releases, keep) && b in releases && b !in Newest(releases, keep)
    ensures Newer(releases, a, b)
  {
    NewerIsOrder(releases, a, b, b);
    if Newer(releases, b, a) {
      var more, fewer := Ahead(releases, a), Ahead(releases, b);
      forall x | x in fewer
        ensures x in more
      {
        NewerIsOrder(releases, x, b, a);
      }
      SubsetSize(fewer, more);
    }
  }

  /** None of the releases to remove that are still there has come among the newest. */
  ghost predicate NoneRises(left: map<string, Release>, removed: set<string>, keep: nat) {
    forall name | name in removed && name in left :: name !in Newest(left, keep)
  }

  lemma StaysNewest(releases: map<string, Release>, left: map<string, Release>, removed: set<string>,
                    keep: nat, name: string)
    requires Cleared(releases, left, removed) && removed !! Newest(releases, keep)
    requires NoneRises(left, removed, keep) && |Newest(left, keep)| == keep
    requires name in Newest(releases, keep)
    ensures name in Newest(left, keep)
  {
    if name !in Newest(left, keep) {
      forall x | x in Newest(left, keep)
        ensures x in Ahead(releases, name)
      {
        NewestFirst(left, keep, x, name);
      }
      SubsetSize(Newest(left, keep), Ahead(releases, name));
    }
  }

  /** Then the newest releases are the same as before the run. */
  lemma NewestUnmoved(releases: map<string, Release>, left: map<string, Release>, removed: set<string>, keep: nat)
    requires Cleared(releases, left, removed) && removed <= releases.Keys && removed !! Newest(releases, keep)
    requires NoneRises(left, removed, keep)
    ensures Newest(left, keep) == Newest(releases, keep)
  {
    var before, now := Newest(releases, keep), Newest(left, keep);
    NewestCount(releases, keep);
    NewestCount(left, keep);
    assert |releases.Keys| == |releases| && |left.Keys| == |left|;
    if |releases| <= keep {
      SubsetSameSize(before, releases.Keys);
      assert removed == {};
      assert left == releases;
    } else {
      assert before <= left.Keys;
      SubsetSize(before, left.Keys);
      forall name | name in before
        ensures name in now
      {
        StaysNewest(releases, left, removed, keep, name);
      }
      SubsetSameSize(before, now);
    }
  }

  // ---------------------------------------------------------------- planning again

  /** No release to remove that is still there has become protected by being torn. */
  ghost predicate NoneSpared(h: Inventory, left: Inventory, keep: nat) {
    forall name | name in PlanOf(h, keep).removed && name in left.releases ::
      left.releases[name].manifest && name !in Newest(left.releases, keep)
  }

  lemma SameProtected(h: Inventory, left: Inventory, keep: nat)
    requires Between(h, left, keep) && NoneSpared(h, left, keep)
    ensures Protected(left, keep) == Protected(h, keep)
  {
    NewestUnmoved(h.releases, left.releases, PlanOf(h, keep).removed, keep);
  }

  lemma SameProtectedImages(h: Inventory, left: Inventory, keep: nat)
    requires Between(h, left, keep) && Protected(left, keep) == Protected(h, keep)
    ensures PlanOf(left, keep).protectedImages == PlanOf(h, keep).protectedImages
  {
    var names := Protected(h, keep);
    forall name | name in names && name in h.releases
      ensures name in left.releases && left.releases[name] == h.releases[name]
    {
      assert name !in PlanOf(h, keep).removed;
    }
    assert ImagesOf(left.releases, names) == ImagesOf(h.releases, names);
  }

  /** With fewer releases to remove, fewer images are listed. */
  lemma ListedLess(h: Inventory, left: Inventory, keep: nat, image: ImageId, tags: set<string>, kept: set<ImageId>)
    requires Between(h, left, keep) && PlanOf(left, keep).removed <= PlanOf(h, keep).removed
    requires Listed(image, tags, PlanOf(left, keep).removed, ImagesOf(left.releases, PlanOf(left, keep).removed), kept)
    ensures Listed(image, tags, PlanOf(h, keep).removed, ImagesOf(h.releases, PlanOf(h, keep).removed), kept)
  {
    forall tag | tag in tags
      ensures TagOf(tag, PlanOf(h, keep).removed)
    {
      var name :| name in PlanOf(left, keep).removed && TagStem(name) <= tag;
    }
  }

  /** While references are being removed, the same images go. */
  lemma SameImages(h: Inventory, left: Inventory, keep: nat)
    requires Between(h, left, keep) && left.releases == h.releases && Protected(left, keep) == Protected(h, keep)
    requires PlanOf(left, keep).protectedImages == PlanOf(h, keep).protectedImages
    ensures Applied(left, keep).images == Applied(h, keep).images
  {
    var plan := PlanOf(h, keep);
    var planned := PlannedImages(h, plan.removed, plan.protectedImages);
    var todo :| todo <= plan.references && Left(left.images, h, planned, todo)
                && (left.releases != h.releases ==> todo == {});
    forall image | image in left.images
      ensures Listed(image, left.images[image], plan.removed, ImagesOf(h.releases, plan.removed), plan.protectedImages)
              <==> image in planned
    {
      if image in planned {
        assert left.images[image] == TagsLeft(image, h.images[image], todo);
        assert forall tag | tag in left.images[image] :: tag in h.images[image];
      }
    }
    assert PlannedImages(left, plan.removed, plan.protectedImages) == left.images.Keys * planned;
  }

  /** Once directories are being removed, no image is left to go. */
  lemma NoImages(h: Inventory, left: Inventory, keep: nat)
    requires Between(h, left, keep) && left.releases != h.releases && Protected(left, keep) == Protected(h, keep)
    requires PlanOf(left, keep).protectedImages == PlanOf(h, keep).protectedImages
    ensures Applied(left, keep).images == Applied(h, keep).images
  {
    var plan, again := PlanOf(h, keep), PlanOf(left, keep);
    var planned := PlannedImages(h, plan.removed, plan.protectedImages);
    LeftEnd(left.images, h, planned);
    var candidates := ImagesOf(left.releases, again.removed);
    forall image | image in left.images
      ensures !Listed(image, left.images[image], again.removed, candidates, again.protectedImages)
    {
      if Listed(image, left.images[image], again.removed, candidates, again.protectedImages) {
        ListedLess(h, left, keep, image, left.images[image], again.protectedImages);
      }
    }
    assert PlannedImages(left, again.removed, again.protectedImages) == {};
    assert left.images - {} == left.images;
  }

  lemma SameReleases(h: Inventory, left: Inventory, keep: nat)
    requires Between(h, left, keep) && Protected(left, keep) == Protected(h, keep)
    ensures Applied(left, keep).releases == Applied(h, keep).releases
  {
  }

  lemma NotRefused(h: Inventory, left: Inventory, keep: nat)
    requires Between(h, left, keep) && Protected(left, keep) == Protected(h, keep) && !Refuses(h, keep)
    ensures !Refuses(left, keep)
  {
  }

  lemma SparedStays(h: Inventory, left: Inventory, keep: nat, name: string)
    requires name in PlanOf(h, keep).removed && name in left.releases
    requires !left.releases[name].manifest || name in Newest(left.releases, keep)
    ensures name in Applied(left, keep).releases && name !in Applied(h, keep).releases
  {
  }

  /** After a run that failed anywhere, planning and pruning again is accepted and ends with what
      the first plan wanted, exactly when no torn release has lost its manifest or has come among
      the newest by its new modification time. */
  lemma RetryConverges(h: Inventory, left: Inventory, keep: nat)
    requires !Refuses(h, keep) && Between(h, left, keep)
    ensures !Refuses(left, keep) && Applied(left, keep) == Applied(h, keep) <==> NoneSpared(h, left, keep)
  {
    if NoneSpared(h, left, keep) {
      SameProtected(h, left, keep);
      SameProtectedImages(h, left, keep);
      NotRefused(h, left, keep);
      SameReleases(h, left, keep);
      if left.releases == h.releases {
        SameImages(h, left, keep);
      } else {
        NoImages(h, left, keep);
      }
    } else {
      var name :| name in PlanOf(h, keep).removed && name in left.releases
                  && !(left.releases[name].manifest && name !in Newest(left.releases, keep));
      SparedStays(h, left, keep, name);
    }
  }

  // ---------------------------------------------------------------- a host that loses another

  function Plain(mtime: nat): Release {
    Release(None, mtime, true, {}, false)
  }

  /** Four releases without a stamp, newest first. */
  function Four(w: string, x: string, y: string, z: string, oldest: nat): map<string, Release> {
    map[w := Plain(oldest + 3), x := Plain(oldest + 2), y := Plain(oldest + 1), z := Plain(oldest)]
  }

  lemma FourNewest(w: string, x: string, y: string, z: string, oldest: nat)
    requires Different(w, x, y, z)
    ensures Newest(Four(w, x, y, z, oldest), 3) == {w, x, y}
  {
    var releases := Four(w, x, y, z, oldest);
    forall name | name in releases
      ensures !Newer(releases, name, name)
    {
      NewerIsOrder(releases, name, name, name);
    }
    assert Ahead(releases, w) == {} && Ahead(releases, x) == {w};
    assert Ahead(releases, y) == {w, x} && |{w, x}| == 2;
    assert Ahead(releases, z) == {w, x, y} && |{w, x, y}| == 3;
  }

  lemma FourPlan(w: string, x: string, y: string, z: string, oldest: nat, current: string)
    requires Different(w, x, y, z) && WellNamed(w) && WellNamed(x) && WellNamed(y) && WellNamed(z)
    requires current in {w, x, y}
    ensures var h := Inventory(Four(w, x, y, z, oldest), Some(current), {current}, {}, map[]);
            !Refuses(h, 3) && PlanOf(h, 3).removed == {z} && PlanOf(h, 3).references == {}
  {
    FourNewest(w, x, y, z, oldest);
    var h := Inventory(Four(w, x, y, z, oldest), Some(current), {current}, {}, map[]);
    assert Protected(h, 3) == {w, x, y};
    assert h.releases.Keys == {w, x, y, z};
  }

  lemma FourTorn(a: string, b: string, c: string, d: string, left: map<string, Release>)
    requires Different(a, b, c, d) && StoppedAt(Four(a, b, c, d, 1), left, {d}, 0, Torn(true, 5))
    ensures left == Four(d, a, b, c, 2)
  {
    var releases := Four(a, b, c, d, 1);
    var gone, name :|
      gone <= {d} && name in {d} - gone && |gone| == 0 && left == TearOne(releases - gone, name, Torn(true, 5));
    assert gone == {} && name == d && releases - {} == releases;
  }

  /** A host of four releases, the newest of which is current and installed. */
  function FourHost(a: string, b: string, c: string, d: string): Inventory {
    Inventory(Four(a, b, c, d, 1), Some(a), {a}, {}, map[])
  }

  /** A run whose one removal fails after it has changed the directory: the next plan spares that
      release, and wants to remove one of those that the first plan kept. */
  method TornRises(a: string, b: string, c: string, d: string) returns (left: Inventory)
    requires Different(a, b, c, d) && Undated(a) && Undated(b) && Undated(c) && Undated(d)
    ensures var h := FourHost(a, b, c, d);
            && Dated(h.releases) && !Refuses(h, 3) && PlanOf(h, 3).removed == {d} && c in Newest(h.releases, 3)
            && Between(h, left, 3) && !Refuses(left, 3) && PlanOf(left, 3).removed == {c}
  {
    FourDated(a, b, c, d);
    left := FourRises(a, b, c, d);
  }

  lemma FourDated(a: string, b: string, c: string, d: string)
    requires Carries(a, None) && Carries(b, None) && Carries(c, None) && Carries(d, None)
    ensures Dated(Four(a, b, c, d, 1))
  {
    var releases := Four(a, b, c, d, 1);
    forall name | name in releases
      ensures Carries(name, releases[name].stamp)
    {
      assert name in {a, b, c, d} && releases[name].stamp == None;
    }
  }

  /** A run whose plan is made, and whose application fails at this step. */
  method FailsAt(h: Inventory, keep: nat, steps: nat, tear: Tear) returns (left: Inventory)
    requires !Refuses(h, keep) && steps < |PlanOf(h, keep).references| + |PlanOf(h, keep).removed|
    ensures Between(h, left, keep) && Stopped(h, left, keep, steps, tear)
  {
    var plan := MakePlan(h, keep);
    var ok;
    ok, left := Apply(h, plan.value, keep, steps, tear);
  }

  /** It fails at the one directory. */
  method FourFails(a: string, b: string, c: string, d: string) returns (left: Inventory)
    requires Different(a, b, c, d) && WellNamed(a) && WellNamed(b) && WellNamed(c) && WellNamed(d)
    ensures var h := FourHost(a, b, c, d);
            && !Refuses(h, 3) && PlanOf(h, 3).removed == {d} && Between(h, left, 3)
            && left.releases == Four(d, a, b, c, 2) && left.images == map[]
  {
    var h := FourHost(a, b, c, d);
    FourPlan(a, b, c, d, 1, a);
    left := FailsAt(h, 3, 0, Torn(true, 5));
    FourTorn(a, b, c, d, left.releases);
  }

  method FourRises(a: string, b: string, c: string, d: string) returns (left: Inventory)
    requires Different(a, b, c, d) && WellNamed(a) && WellNamed(b) && WellNamed(c) && WellNamed(d)
    ensures var h := FourHost(a, b, c, d);
            && !Refuses(h, 3) && PlanOf(h, 3).removed == {d} && c in Newest(h.releases, 3)
            && Between(h, left, 3) && !Refuses(left, 3) && PlanOf(left, 3).removed == {c}
  {
    FourNewest(a, b, c, d, 1);
    left := FourFails(a, b, c, d);
    FourPlan(d, a, b, c, 2, a);
    assert left == Inventory(Four(d, a, b, c, 2), Some(a), {a}, {}, map[]);
  }
}
