/** The plan is safe, applying it does what it says, and a second plan finds nothing to do. */
module Prune {
  import opened Basics
  import opened KeyOrder
  import opened PruneModel
  import opened PrunePlan

  // ---------------------------------------------------------------- order

  lemma NewerIsOrder(releases: map<string, Release>, a: string, b: string, c: string)
    requires a in releases && b in releases && c in releases
    ensures Newer(releases, a, b) ==> !Newer(releases, b, a)
    ensures a != b ==> Newer(releases, a, b) || Newer(releases, b, a)
    ensures !Newer(releases, a, a)
    ensures Newer(releases, a, b) && Newer(releases, b, c) ==> Newer(releases, a, c)
  {
    TextOrder(a, b);
    TextOrder(a, a);
    if TextBefore(b, a) && TextBefore(c, b) {
      TextTransitive(c, b, a);
    }
  }

  ghost predicate Descending(s: seq<string>, releases: map<string, Release>) {
    && (forall name | name in s :: name in releases)
    && forall i, j | 0 <= i < j < |s| :: Newer(releases, s[i], s[j])
  }

  function Place(s: seq<string>, name: string, releases: map<string, Release>): seq<string>
    requires name in releases && forall other | other in s :: other in releases
  {
    if s == [] || Newer(releases, name, s[0]) then [name] + s else [s[0]] + Place(s[1..], name, releases)
  }

  lemma {:induction false} PlaceKeeps(s: seq<string>, name: string, releases: map<string, Release>)
    requires Descending(s, releases) && name in releases && name !in s
    ensures Descending(Place(s, name, releases), releases)
    ensures forall other :: other in Place(s, name, releases) <==> other in s || other == name
  {
    if s != [] {
      assert s == [s[0]] + s[1..];
      NewerIsOrder(releases, name, s[0], s[0]);
      if Newer(releases, name, s[0]) {
        forall i | 0 <= i < |s|
          ensures Newer(releases, name, s[i])
        {
          if i > 0 {
            NewerIsOrder(releases, name, s[0], s[i]);
          }
        }
      } else {
        PlaceKeeps(s[1..], name, releases);
        var t := Place(s[1..], name, releases);
        forall i | 0 <= i < |t|
          ensures Newer(releases, s[0], t[i])
        {
          assert t[i] in t;
          assert t[i] != name ==> exists k :: 1 <= k < |s| && s[k] == t[i];
        }
      }
    }
  }

  function Members(s: seq<string>): set<string> {
    set name | name in s
  }

  lemma {:induction false} MembersCount(s: seq<string>)
    requires forall i, j | 0 <= i < j < |s| :: s[i] != s[j]
    ensures |Members(s)| == |s|
  {
    if s != [] {
      MembersCount(s[1..]);
      assert s == [s[0]] + s[1..];
      assert Members(s) == {s[0]} + Members(s[1..]);
      assert s[0] !in Members(s[1..]);
    }
  }

  /** The first entries of the sorted list are the releases with few newer ones. */
  lemma FirstAreNewest(s: seq<string>, releases: map<string, Release>, keep: nat)
    requires Descending(s, releases) && Members(s) == releases.Keys
    ensures Members(s[..if keep < |s| then keep else |s|]) == Newest(releases, keep)
  {
    var n := if keep < |s| then keep else |s|;
    forall i | 0 <= i < |s|
      ensures |Ahead(releases, s[i])| == i
    {
      forall name
        ensures name in Ahead(releases, s[i]) <==> name in s[..i]
      {
        if name in Members(s) {
          var k :| 0 <= k < |s| && s[k] == name;
          NewerIsOrder(releases, s[k], s[i], s[i]);
          assert i < k ==> Newer(releases, s[i], s[k]);
        }
      }
      assert Ahead(releases, s[i]) == Members(s[..i]);
      forall j, k | 0 <= j < k < i
        ensures s[j] != s[k]
      {
        NewerIsOrder(releases, s[j], s[k], s[k]);
      }
      MembersCount(s[..i]);
    }
    forall name
      ensures name in s[..n] <==> name in Newest(releases, keep)
    {
      if name in Members(s) {
        var k :| 0 <= k < |s| && s[k] == name;
        assert k < n ==> s[..n][k] == name;
      }
    }
  }

  method SortReleases(releases: map<string, Release>) returns (s: seq<string>)
    ensures Descending(s, releases) && Members(s) == releases.Keys
  {
    s := [];
    var todo := releases.Keys;
    while todo != {}
      invariant todo <= releases.Keys && Descending(s, releases) && Members(s) == releases.Keys - todo
      decreases todo
    {
      var name :| name in todo;
      assert name !in Members(s);
      PlaceKeeps(s, name, releases);
      ghost var before := Members(s);
      s := Place(s, name, releases);
      assert Members(s) == before + {name};
      todo := todo - {name};
    }
  }

  // ---------------------------------------------------------------- planning and applying

  lemma MembersAdd(s: seq<string>, i: nat)
    requires i < |s|
    ensures Members(s[..i + 1]) == Members(s[..i]) + {s[i]}
  {
  }

  /** The partition after some of the releases have been looked at. */
  ghost predicate Sorted(h: Inventory, keep: nat, seen: set<string>, protected: set<string>, removed: set<string>,
                         kept: set<ImageId>)
  {
    && protected == Pinned(h) + Newest(h.releases, keep)
                    + (set name | name in seen && name in h.releases && !h.releases[name].manifest)
    && removed == seen - Protected(h, keep)
    && kept == h.used + ImagesOf(h.releases, seen * Protected(h, keep))
  }

  lemma SortedStep(h: Inventory, keep: nat, seen: set<string>, protected: set<string>, removed: set<string>,
                   kept: set<ImageId>, name: string)
    requires Sorted(h, keep, seen, protected, removed, kept) && name in h.releases && name !in seen
    ensures var manifest := h.releases[name].manifest;
            var protectedNow := if manifest then protected else protected + {name};
            && (name in protectedNow <==> name in Protected(h, keep))
            && Sorted(h, keep, seen + {name}, protectedNow,
                 if name in protectedNow then removed else removed + {name},
                 if name in protectedNow then kept + h.releases[name].images else kept)
  {
  }

  lemma SortedEnd(h: Inventory, keep: nat, protected: set<string>, removed: set<string>, kept: set<ImageId>)
    requires Sorted(h, keep, h.releases.Keys, protected, removed, kept)
    ensures protected == Protected(h, keep) && removed == h.releases.Keys - protected
    ensures kept == h.used + ImagesOf(h.releases, protected)
  {
  }

  /** Sorts the releases into protected and removable ones; fails on an improper name, and on a mount
      in a removable one. */
  method Classify(h: Inventory, keep: nat)
    returns (ok: bool, protected: set<string>, removed: set<string>, kept: set<ImageId>)
    ensures ok <==>
              && AllWellNamed(h)
              && forall name | name in h.releases && name !in Protected(h, keep) :: !h.releases[name].mounted
    ensures ok ==>
              && protected == Protected(h, keep) && removed == h.releases.Keys - protected
              && kept == h.used + ImagesOf(h.releases, protected)
  {
    var s := SortReleases(h.releases);
    FirstAreNewest(s, h.releases, keep);
    protected := Pinned(h) + Members(s[..if keep < |s| then keep else |s|]);
    removed, kept := {}, h.used;
    var i := 0;
    while i < |s|
      invariant i <= |s| && Sorted(h, keep, Members(s[..i]), protected, removed, kept)
      invariant forall name | name in removed :: name in h.releases && !h.releases[name].mounted
      invariant forall name | name in Members(s[..i]) :: WellNamed(name)
    {
      var name := s[i];
      MembersAdd(s, i);
      NotYetSeen(s, h.releases, i);
      SortedStep(h, keep, Members(s[..i]), protected, removed, kept, name);
      if !WellNamed(name) {
        return false, protected, removed, kept;
      }
      if !h.releases[name].manifest {
        protected := protected + {name};
      }
      if name in protected {
        kept := kept + h.releases[name].images;
      } else if h.releases[name].mounted {
        return false, protected, removed, kept;
      } else {
        removed := removed + {name};
      }
      i := i + 1;
    }
    assert s[..i] == s;
    SortedEnd(h, keep, protected, removed, kept);
    ok := true;
  }

  lemma NotYetSeen(s: seq<string>, releases: map<string, Release>, i: nat)
    requires Descending(s, releases) && i < |s|
    ensures s[i] !in Members(s[..i]) && s[i] in releases
  {
    if s[i] in s[..i] {
      var k :| 0 <= k < i && s[k] == s[i];
      NewerIsOrder(releases, s[k], s[i], s[i]);
    }
  }

  method CollectReferences(h: Inventory, removed: set<string>, kept: set<ImageId>) returns (references: set<Reference>)
    ensures references == PlannedReferences(h, PlannedImages(h, removed, kept))
  {
    var candidates := ImagesOf(h.releases, removed);
    references := {};
    var todo := h.images.Keys;
    while todo != {}
      invariant todo <= h.images.Keys
      invariant references == PlannedReferences(h, PlannedImages(h, removed, kept) - todo)
      decreases todo
    {
      var image :| image in todo;
      ghost var before := PlannedImages(h, removed, kept) - todo;
      todo := todo - {image};
      if Listed(image, h.images[image], removed, candidates, kept) {
        assert PlannedImages(h, removed, kept) - todo == before + {image};
        ReferencesAdd(h, before, image);
        references := references + ReferencesTo(image, h.images[image]);
      } else {
        assert PlannedImages(h, removed, kept) - todo == before;
      }
    }
    assert PlannedImages(h, removed, kept) - todo == PlannedImages(h, removed, kept);
  }

  lemma ReferencesAdd(h: Inventory, images: set<ImageId>, image: ImageId)
    requires image in h.images
    ensures PlannedReferences(h, images + {image})
            == PlannedReferences(h, images) + ReferencesTo(image, h.images[image])
  {
  }

  method MakePlan(h: Inventory, keep: nat) returns (plan: Result<Plan>)
    ensures plan.Err? <==> Refuses(h, keep)
    ensures plan.Err? <==>
              || keep < 3 || h.current == None || (exists name :: name in h.releases && !ProperName(name))
              || exists name :: Removable(h, keep, name) && h.releases[name].mounted
    ensures plan.Ok? ==> plan.value == PlanOf(h, keep) && Sorts(h, keep, plan.value)
  {
    RefusesIff(h, keep);
    if keep < 3 {
      return Err("at least three releases required");
    }
    if h.current.None? {
      return Err("current must be a direct managed release");
    }
    var ok, protected, removed, kept := Classify(h, keep);
    if !ok {
      return Err("invalid release directory, or a mount in a candidate release");
    }
    var references := CollectReferences(h, removed, kept);
    PlanSorts(h, keep);
    return Ok(Plan(protected, kept, removed, references));
  }

  function TagsLeft(image: ImageId, tags: set<string>, todo: set<Reference>): set<string> {
    set tag | tag in tags && Reference(tag, image) in todo
  }

  /** The image when some of the planned references are still to be removed. */
  predicate StillThere(image: ImageId, tags: set<string>, todo: set<Reference>) {
    if tags == {} then Reference(image, image) in todo else TagsLeft(image, tags, todo) != {}
  }

  ghost predicate Left(images: map<ImageId, set<string>>, h: Inventory, planned: set<ImageId>, todo: set<Reference>) {
    && (forall image | image in images :: image in h.images)
    && (forall image | image in h.images ::
          if image in planned then
            && (image in images <==> StillThere(image, h.images[image], todo))
            && (image in images ==> images[image] == TagsLeft(image, h.images[image], todo))
          else image in images && images[image] == h.images[image])
  }

  lemma LeftStep(images: map<ImageId, set<string>>, h: Inventory, planned: set<ImageId>,
                 todo: set<Reference>, r: Reference)
    requires Left(images, h, planned, todo) && r in todo && todo <= PlannedReferences(h, planned)
    ensures Left(RemoveReference(images, r), h, planned, todo - {r})
  {
  }

  /** Removing a reference drops the tag; without tags the image is gone. */
  function RemoveReference(images: map<ImageId, set<string>>, r: Reference): map<ImageId, set<string>> {
    if r.image !in images then images
    else
      var tags := images[r.image] - {r.reference};
      if tags == {} then images - {r.image} else images[r.image := tags]
  }

  /** A host on which some of the planned removals have been made: everything else is untouched,
      the references go before the directories, and a directory whose removal failed half-way may
      have lost its manifest and have another modification time. */
  ghost predicate Between(h: Inventory, left: Inventory, keep: nat) {
    var plan := PlanOf(h, keep);
    && left.current == h.current && left.pinned == h.pinned && left.used == h.used
    && Cleared(h.releases, left.releases, plan.removed)
    && (exists todo :: todo <= plan.references
                       && Left(left.images, h, PlannedImages(h, plan.removed, plan.protectedImages), todo)
                       && (left.releases != h.releases ==> todo == {}))
  }

  method RemoveReferences(h: Inventory, keep: nat, steps: nat) returns (left: Inventory, stepsLeft: nat, ok: bool)
    ensures Between(h, left, keep) && left.releases == h.releases
    ensures ok <==> steps >= |PlanOf(h, keep).references|
    ensures ok ==> stepsLeft == steps - |PlanOf(h, keep).references|
    ensures ok ==> left == h.(images := Applied(h, keep).images)
  {
    ghost var plan := PlanOf(h, keep);
    ghost var planned := PlannedImages(h, plan.removed, plan.protectedImages);
    var images, todo := h.images, PlanOf(h, keep).references;
    stepsLeft := steps;
    LeftStart(h, planned);
    while todo != {}
      invariant todo <= plan.references && Left(images, h, planned, todo)
      invariant steps - stepsLeft == |plan.references| - |todo|
      decreases todo
    {
      if stepsLeft == 0 {
        return h.(images := images), 0, false;
      }
      var r :| r in todo;
      LeftStep(images, h, planned, todo, r);
      images := RemoveReference(images, r);
      todo := todo - {r};
      stepsLeft := stepsLeft - 1;
    }
    LeftEnd(images, h, planned);
    return h.(images := images), stepsLeft, true;
  }

  /** Some of these releases are gone, others of them may be torn, and all others are untouched. */
  ghost predicate Cleared(releases: map<string, Release>, left: map<string, Release>, removed: set<string>) {
    && (forall name | name in left ::
          name in releases && (left[name] == releases[name]
                              || (name in removed && TornFrom(releases[name], left[name]))))
    && (forall name | name in releases && name !in removed :: name in left && left[name] == releases[name])
  }

  /** Some of the releases to remove are gone, and the removal of the next one goes through,
      fails, or tears the release. */
  lemma RemovedPartly(releases: map<string, Release>, removed: set<string>, todo: set<string>, name: string, tear: Tear)
    requires name in todo && todo <= removed <= releases.Keys
    ensures var left := releases - (removed - todo);
            && name in left && left - {name} == releases - (removed - (todo - {name}))
            && Cleared(releases, left, removed) && Cleared(releases, TearOne(left, name, tear), removed)
  {
  }

  /** The removal fails at one of the releases after so many others. */
  ghost predicate StoppedAt(releases: map<string, Release>, left: map<string, Release>, removed: set<string>,
                            steps: int, tear: Tear)
    requires removed <= releases.Keys
  {
    exists gone, name | gone <= removed && name in removed - gone ::
      |gone| == steps && left == TearOne(releases - gone, name, tear)
  }

  lemma Stops(releases: map<string, Release>, removed: set<string>, todo: set<string>, name: string, tear: Tear)
    requires name in todo && todo <= removed <= releases.Keys
    ensures StoppedAt(releases, TearOne(releases - (removed - todo), name, tear), removed, |removed| - |todo|, tear)
  {
    var gone := removed - todo;
    assert removed == gone + todo;
    assert gone <= removed && name in removed - gone && |gone| == |removed| - |todo|;
  }

  method RemoveReleases(releases: map<string, Release>, removed: set<string>, steps: nat, tear: Tear)
    returns (ok: bool, left: map<string, Release>)
    requires removed <= releases.Keys
    ensures Cleared(releases, left, removed)
    ensures ok <==> steps >= |removed|
    ensures if ok then left == releases - removed else StoppedAt(releases, left, removed, steps, tear)
  {
    left := releases;
    var todo, stepsLeft: nat := removed, steps;
    while todo != {}
      invariant todo <= removed && left == releases - (removed - todo) && stepsLeft + |removed| - |todo| == steps
      decreases todo
    {
      var name :| name in todo;
      assert |todo| == |todo - {name}| + 1;
      RemovedPartly(releases, removed, todo, name, tear);
      if stepsLeft == 0 {
        Stops(releases, removed, todo, name, tear);
        left := TearOne(left, name, tear);
        return false, left;
      }
      left := left - {name};
      todo := todo - {name};
      stepsLeft := stepsLeft - 1;
    }
    assert removed - todo == removed;
    ok := true;
  }

  /** Applies an approved plan, if it is still the plan of the host.  One of the steps may fail,
      and a failing directory removal may have torn the directory. */
  method Apply(h: Inventory, approved: Plan, keep: nat, steps: nat, tear: Tear) returns (ok: bool, left: Inventory)
    ensures ok <==> !Refuses(h, keep) && PlanOf(h, keep) == approved
                    && steps >= |approved.references| + |approved.removed|
    ensures ok ==> left == Applied(h, keep) && LeavesRest(h, left, approved)
    ensures if Refuses(h, keep) || PlanOf(h, keep) != approved then left == h
            else Between(h, left, keep) && (!ok ==> Stopped(h, left, keep, steps, tear))
  {
    var current := MakePlan(h, keep);
    if current.Err? || current.value != approved {
      return false, h;
    }
    ok, left := ApplyCurrent(h, keep, steps, tear);
    AppliedLeavesRest(h, keep);
  }

  /** A failure after the last reference is gone. */
  ghost predicate Stopped(h: Inventory, left: Inventory, keep: nat, steps: nat, tear: Tear) {
    var plan := PlanOf(h, keep);
    steps >= |plan.references| ==>
      && left.images == Applied(h, keep).images
      && StoppedAt(h.releases, left.releases, plan.removed, steps - |plan.references|, tear)
  }

  method ApplyCurrent(h: Inventory, keep: nat, steps: nat, tear: Tear) returns (ok: bool, left: Inventory)
    ensures ok <==> steps >= |PlanOf(h, keep).references| + |PlanOf(h, keep).removed|
    ensures ok ==> left == Applied(h, keep)
    ensures Between(h, left, keep) && (!ok ==> Stopped(h, left, keep, steps, tear))
  {
    var stepsLeft, releases;
    left, stepsLeft, ok := RemoveReferences(h, keep, steps);
    if ok {
      ok, releases := RemoveReleases(h.releases, PlanOf(h, keep).removed, stepsLeft, tear);
      BetweenCleared(h, keep, releases);
      left := left.(releases := releases);
    }
  }

  lemma BetweenCleared(h: Inventory, keep: nat, releases: map<string, Release>)
    requires Cleared(h.releases, releases, PlanOf(h, keep).removed)
    ensures Between(h, h.(releases := releases, images := Applied(h, keep).images), keep)
  {
    var plan := PlanOf(h, keep);
    assert Left(Applied(h, keep).images, h, PlannedImages(h, plan.removed, plan.protectedImages), {}) by {
      assert forall image | image in h.images :: TagsLeft(image, h.images[image], {}) == {};
    }
  }

  lemma LeftStart(h: Inventory, planned: set<ImageId>)
    requires planned <= h.images.Keys
    ensures Left(h.images, h, planned, PlannedReferences(h, planned))
  {
    var todo := PlannedReferences(h, planned);
    forall image | image in h.images && image in planned
      ensures StillThere(image, h.images[image], todo) && TagsLeft(image, h.images[image], todo) == h.images[image]
    {
      assert forall r | r in ReferencesTo(image, h.images[image]) :: r in todo;
      assert forall tag | tag in h.images[image] :: Reference(tag, image) in ReferencesTo(image, h.images[image]);
    }
  }

  lemma LeftEnd(images: map<ImageId, set<string>>, h: Inventory, planned: set<ImageId>)
    requires Left(images, h, planned, {})
    ensures images == h.images - planned
  {
  }

  // ---------------------------------------------------------------- safety and convergence

  /** In every state that applying a plan can leave, also when it fails part-way, nothing
      protected is missing or changed: not the newest releases, not a pinned one, not one without
      a manifest, and no image that a container, a backup or a protected release uses; and an image
      that goes loses its tags first. */
  lemma EveryStateIsSafe(h: Inventory, left: Inventory, keep: nat)
    requires Between(h, left, keep)
    ensures forall name | name in h.releases
              && (name in Newest(h.releases, keep) || name in Pinned(h) || !h.releases[name].manifest) ::
              name in left.releases && left.releases[name] == h.releases[name]
    ensures forall image | image in h.images && image in h.used ::
              image in left.images && left.images[image] == h.images[image]
    ensures forall name, image | name in h.releases && name !in PlanOf(h, keep).removed
              && image in h.releases[name].images && image in h.images ::
              image in left.images && left.images[image] == h.images[image]
    ensures forall image | image in left.images :: image in h.images && left.images[image] <= h.images[image]
  {
    var plan := PlanOf(h, keep);
    var planned := PlannedImages(h, plan.removed, plan.protectedImages);
    var todo :| todo <= plan.references && Left(left.images, h, planned, todo)
                && (left.releases != h.releases ==> todo == {});
    forall name, image | name in h.releases && name !in plan.removed && image in h.releases[name].images
                    && image in h.images
      ensures image in left.images && left.images[image] == h.images[image]
    {
      assert name in plan.protected && image in plan.protectedImages;
    }
  }

  /** Removing releases can only move others up. */
  lemma NewestStay(releases: map<string, Release>, gone: set<string>, keep: nat, name: string)
    requires name in Newest(releases, keep) && name !in gone
    ensures name in Newest(releases - gone, keep)
  {
    var a, b := Ahead(releases, name), Ahead(releases - gone, name);
    assert b <= a;
    SubsetSize(b, a);
  }

  /** After a plan has been applied, the next plan is not refused and removes nothing. */
  lemma SecondPlanIsEmpty(h: Inventory, keep: nat)
    requires !Refuses(h, keep)
    ensures var after := Applied(h, keep);
            && !Refuses(after, keep)
            && PlanOf(after, keep).removed == {} && PlanOf(after, keep).references == {}
            && Applied(after, keep) == after
  {
    var after := Applied(h, keep);
    var removed := PlanOf(h, keep).removed;
    forall name | name in after.releases
      ensures name in Protected(after, keep)
    {
      if name in Newest(h.releases, keep) {
        NewestStay(h.releases, removed, keep, name);
      }
    }
    var plan := PlanOf(after, keep);
    assert plan.removed == {};
    assert ImagesOf(after.releases, {}) == {};
    forall image | image in after.images
      ensures !Listed(image, after.images[image], {}, {}, plan.protectedImages)
    {
      if after.images[image] != {} {
        var tag :| tag in after.images[image];
        assert !TagOf(tag, {});
      }
    }
    assert PlannedImages(after, {}, plan.protectedImages) == {};
    assert after.releases - {} == after.releases && after.images - {} == after.images;
  }
}
