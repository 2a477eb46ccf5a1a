/** What a plan lists and what its application leaves, said release by release and image by image. */
module PrunePlan {
  import opened Basics
  import opened KeyOrder
  import opened PruneModel

  // ---------------------------------------------------------------- the releases

  /** The number by which a release is ordered: the time stamp of its name, or else its modification
      time in nanoseconds. */
  predicate OrderedBy(r: Release, number: nat) {
    match r.stamp
    case Some(stamp) => number == stamp
    case None => number == r.mtime
  }

  /** The releases that come before another: those with a larger number, and with the same number
      those with a later name. */
  ghost function Earlier(releases: map<string, Release>, name: string): set<string>
    requires name in releases
  {
    set other | other in releases
                && exists a, b | OrderedBy(releases[other], a) && OrderedBy(releases[name], b) ::
                     a > b || (a == b && TextBefore(name, other))
  }

  /** A release may go: it has a manifest, is neither current nor pinned, and at least as many
      releases as are kept come before it. */
  ghost predicate Removable(h: Inventory, keep: nat, name: string) {
    && name in h.releases && h.releases[name].manifest
    && h.current != Some(name) && name !in h.pinned && |Earlier(h.releases, name)| >= keep
  }

  lemma EarlierIsAhead(releases: map<string, Release>, name: string)
    requires name in releases
    ensures Earlier(releases, name) == Ahead(releases, name)
  {
    forall other | other in releases
      ensures other in Earlier(releases, name) <==> other in Ahead(releases, name)
    {
      assert OrderedBy(releases[other], Rank(releases[other])) && OrderedBy(releases[name], Rank(releases[name]));
    }
  }

  lemma RemovableIff(h: Inventory, keep: nat, name: string)
    ensures Removable(h, keep, name) <==> name in h.releases && name !in Protected(h, keep)
  {
    if name in h.releases {
      EarlierIsAhead(h.releases, name);
    }
  }

  // ---------------------------------------------------------------- the images

  /** The tag belongs to the rollback of one of these releases: it begins with the release's name, the
      common part of the release names left out, and a dash. */
  ghost predicate RollbackOf(tag: string, names: set<string>) {
    exists name, stem | name in names :: name == NAME_PREFIX + stem && TAG_PREFIX + stem + "-" <= tag
  }

  lemma RollbackOfIff(tag: string, names: set<string>)
    requires forall name | name in names :: NAME_PREFIX <= name
    ensures RollbackOf(tag, names) <==> TagOf(tag, names)
  {
    if TagOf(tag, names) {
      var name :| name in names && TagStem(name) <= tag;
      assert name == NAME_PREFIX + Stem(name);
    }
    if name, stem :| name in names && name == NAME_PREFIX + stem && TAG_PREFIX + stem + "-" <= tag {
      assert Stem(name) == stem && TagStem(name) <= tag;
    }
  }

  /** An image with this tag, or by itself, is planned to go: nothing that stays uses it; and it has
      only rollback tags of releases that go, or no tag and belongs to one of them. */
  ghost predicate Goes(h: Inventory, plan: Plan, image: ImageId) {
    && image in h.images && image !in plan.protectedImages
    && (h.images[image] == {} ==>
          exists name | name in plan.removed && name in h.releases :: image in h.releases[name].images)
    && forall tag | tag in h.images[image] :: RollbackOf(tag, plan.removed)
  }

  /** The plan says what may go and what stays. */
  ghost predicate Sorts(h: Inventory, keep: nat, plan: Plan) {
    && (forall name :: name in plan.removed <==> Removable(h, keep, name))
    && (forall name | name in h.releases :: name in plan.protected <==> !Removable(h, keep, name))
    && (forall image :: image in plan.protectedImages <==>
          image in h.used
          || exists name | name in h.releases :: !Removable(h, keep, name) && image in h.releases[name].images)
    && (forall r :: r in plan.references <==>
          Goes(h, plan, r.image)
          && (r.reference in h.images[r.image] || (h.images[r.image] == {} && r.reference == r.image)))
  }

  lemma GoesIff(h: Inventory, keep: nat, image: ImageId)
    requires AllWellNamed(h)
    ensures var plan := PlanOf(h, keep);
            Goes(h, plan, image) <==> image in PlannedImages(h, plan.removed, plan.protectedImages)
  {
    var plan := PlanOf(h, keep);
    forall tag
      ensures RollbackOf(tag, plan.removed) <==> TagOf(tag, plan.removed)
    {
      RollbackOfIff(tag, plan.removed);
    }
  }

  lemma KeptImageIff(h: Inventory, keep: nat, image: ImageId)
    ensures image in PlanOf(h, keep).protectedImages <==>
              image in h.used
              || exists name | name in h.releases :: !Removable(h, keep, name) && image in h.releases[name].images
  {
    forall name | name in h.releases
      ensures Removable(h, keep, name) <==> name !in Protected(h, keep)
    {
      RemovableIff(h, keep, name);
    }
  }

  lemma PlanSorts(h: Inventory, keep: nat)
    requires AllWellNamed(h)
    ensures Sorts(h, keep, PlanOf(h, keep))
  {
    var plan := PlanOf(h, keep);
    forall name
      ensures name in plan.removed <==> Removable(h, keep, name)
      ensures name in h.releases ==> (name in plan.protected <==> !Removable(h, keep, name))
    {
      RemovableIff(h, keep, name);
    }
    forall image
      ensures image in plan.protectedImages <==>
                image in h.used
                || exists name | name in h.releases :: !Removable(h, keep, name) && image in h.releases[name].images
    {
      KeptImageIff(h, keep, image);
    }
    forall r: Reference
      ensures r in plan.references <==>
                && Goes(h, plan, r.image)
                && (r.reference in h.images[r.image] || (h.images[r.image] == {} && r.reference == r.image))
    {
      GoesIff(h, keep, r.image);
      ReferenceIff(h, keep, r);
    }
  }

  lemma ReferenceIff(h: Inventory, keep: nat, r: Reference)
    ensures var plan := PlanOf(h, keep);
            r in plan.references <==>
              && r.image in PlannedImages(h, plan.removed, plan.protectedImages)
              && (r.reference in h.images[r.image] || (h.images[r.image] == {} && r.reference == r.image))
  {
    var plan := PlanOf(h, keep);
    if r.image in h.images {
      assert r in ReferencesTo(r.image, h.images[r.image]) <==>
               r.reference in h.images[r.image] || (h.images[r.image] == {} && r.reference == r.image);
    }
  }

  // ---------------------------------------------------------------- refusals

  /** Names as the release pattern has them: the common part, a letter or digit, and then letters,
      digits, dots, underscores and dashes. */
  ghost predicate ProperName(name: string) {
    exists first, rest: string ::
      name == NAME_PREFIX + [first] + rest && Alphanumeric(first) && AllNameCharacters(rest)
  }

  predicate AllNameCharacters(s: string) {
    forall c | c in s :: Alphanumeric(c) || c in ['.', '_', '-']
  }

  lemma WellIsProper(name: string)
    requires WellNamed(name)
    ensures ProperName(name)
  {
    var n := |NAME_PREFIX|;
    var rest := name[n + 1..];
    assert name == NAME_PREFIX + [name[n]] + rest;
    forall k | 0 <= k < |rest|
      ensures Alphanumeric(rest[k]) || rest[k] in ['.', '_', '-']
    {
      assert rest[k] == name[n + 1 + k] && NameCharacter(name[n + 1 + k]);
    }
    assert AllNameCharacters(rest);
  }

  lemma ProperIsWell(name: string, first: char, rest: string)
    requires name == NAME_PREFIX + [first] + rest && Alphanumeric(first) && AllNameCharacters(rest)
    ensures WellNamed(name)
  {
    var n := |NAME_PREFIX|;
    assert name[..n] == NAME_PREFIX && name[n] == first;
    forall k | n < k < |name|
      ensures NameCharacter(name[k])
    {
      assert name[k] == rest[k - n - 1] && rest[k - n - 1] in rest;
    }
  }

  lemma ProperNameIff(name: string)
    ensures ProperName(name) <==> WellNamed(name)
  {
    if WellNamed(name) {
      WellIsProper(name);
    }
    if first, rest: string :| name == NAME_PREFIX + [first] + rest && Alphanumeric(first) && AllNameCharacters(rest) {
      ProperIsWell(name, first, rest);
    }
  }

  /** A plan is refused when fewer than three releases are to be kept, there is no current release, a
      release directory is named improperly, or something is mounted in a release that may go. */
  lemma RefusesIff(h: Inventory, keep: nat)
    ensures Refuses(h, keep) <==>
              || keep < 3 || h.current == None || (exists name :: name in h.releases && !ProperName(name))
              || exists name :: Removable(h, keep, name) && h.releases[name].mounted
  {
    forall name
      ensures ProperName(name) <==> WellNamed(name)
      ensures Removable(h, keep, name) <==> name in h.releases && name !in Protected(h, keep)
    {
      ProperNameIff(name);
      RemovableIff(h, keep, name);
    }
  }

  // ---------------------------------------------------------------- what is left

  /** All references to the image are in the plan. */
  ghost predicate Unreferenced(h: Inventory, plan: Plan, image: ImageId)
    requires image in h.images
  {
    if h.images[image] == {} then Reference(image, image) in plan.references
    else forall tag | tag in h.images[image] :: Reference(tag, image) in plan.references
  }

  /** The removed directories are gone, and so are the images without a reference left; everything
      else is untouched. */
  ghost predicate LeavesRest(h: Inventory, left: Inventory, plan: Plan) {
    && left.current == h.current && left.pinned == h.pinned && left.used == h.used
    && (forall name :: name in left.releases <==> name in h.releases && name !in plan.removed)
    && (forall name | name in left.releases :: left.releases[name] == h.releases[name])
    && (forall image :: image in left.images <==> image in h.images && !Unreferenced(h, plan, image))
    && (forall image | image in left.images :: left.images[image] == h.images[image])
  }

  lemma UnreferencedIff(h: Inventory, keep: nat, image: ImageId)
    requires image in h.images
    ensures var plan := PlanOf(h, keep);
            Unreferenced(h, plan, image) <==> image in PlannedImages(h, plan.removed, plan.protectedImages)
  {
    if h.images[image] == {} {
      ReferenceIff(h, keep, Reference(image, image));
    } else {
      forall tag | tag in h.images[image]
        ensures Reference(tag, image) in PlanOf(h, keep).references <==>
                  var plan := PlanOf(h, keep);
                  image in PlannedImages(h, plan.removed, plan.protectedImages)
      {
        ReferenceIff(h, keep, Reference(tag, image));
      }
      var tag :| tag in h.images[image];
    }
  }

  lemma AppliedLeavesRest(h: Inventory, keep: nat)
    ensures LeavesRest(h, Applied(h, keep), PlanOf(h, keep))
  {
    var plan := PlanOf(h, keep);
    forall image | image in h.images
      ensures Unreferenced(h, plan, image) <==> image in PlannedImages(h, plan.removed, plan.protectedImages)
    {
      UnreferencedIff(h, keep, image);
    }
  }
}
