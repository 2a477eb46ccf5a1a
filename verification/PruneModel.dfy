/** Release retention: what deploy/prune-release-history.py plans to remove, and what is left when
    the plan has been applied. */
module PruneModel {
  import opened Basics
  import opened KeyOrder

  type ImageId = string

  /** A release directory: the time stamp of its name, its modification time, whether it has a
      readable manifest, the images it maps, and whether something is mounted inside. */
  datatype Release = Release(stamp: Option<nat>, mtime: nat, manifest: bool, images: set<ImageId>, mounted: bool)

  /** What a removal may touch and what it must respect.  `current` is where the current link leads,
      unless that is no managed release; `pinned` are the releases named by the installation record,
      the backup receipts, the containers and the symbolic links; `used` are the images of the
      containers and of the backup receipts. */
  datatype Inventory = Inventory(
    releases: map<string, Release>, current: Option<string>, pinned: set<string>, used: set<ImageId>,
    images: map<ImageId, set<string>>)

  /** A reference to remove: a tag, or the ID of an image without tags. */
  datatype Reference = Reference(reference: string, image: ImageId)

  datatype Plan = Plan(
    protected: set<string>, protectedImages: set<ImageId>, removed: set<string>, references: set<Reference>)

  // ---------------------------------------------------------------- the newest releases

  function Rank(r: Release): nat {
    if r.stamp.Some? then r.stamp.value else r.mtime
  }

  /** The order of the releases, newest first. */
  predicate Newer(releases: map<string, Release>, a: string, b: string)
    requires a in releases && b in releases
  {
    Rank(releases[a]) > Rank(releases[b]) || (Rank(releases[a]) == Rank(releases[b]) && TextBefore(b, a))
  }

  function Ahead(releases: map<string, Release>, name: string): set<string>
    requires name in releases
  {
    set other | other in releases && Newer(releases, other, name)
  }

  /** The releases with fewer than `keep` newer ones. */
  function Newest(releases: map<string, Release>, keep: nat): set<string> {
    set name | name in releases && |Ahead(releases, name)| < keep
  }

  // ---------------------------------------------------------------- what a plan says

  function Pinned(h: Inventory): set<string> {
    h.pinned + if h.current.Some? then {h.current.value} else {}
  }

  function Protected(h: Inventory, keep: nat): set<string> {
    Pinned(h) + Newest(h.releases, keep) + (set name | name in h.releases && !h.releases[name].manifest)
  }

  function ImagesOf(releases: map<string, Release>, names: set<string>): set<ImageId> {
    set name, image | name in releases && name in names && image in releases[name].images :: image
  }

  const TAG_PREFIX := "npcink-ai-cloud-rollback:"

  const NAME_PREFIX := "release-"

  /** What the rollback tags of a release start with. */
  function TagStem(name: string): string {
    TAG_PREFIX + Stem(name) + "-"
  }

  function Stem(name: string): string {
    if NAME_PREFIX <= name then name[|NAME_PREFIX|..] else name
  }

  predicate TagOf(tag: string, names: set<string>) {
    exists name | name in names :: TagStem(name) <= tag
  }

  /** Whether an image goes: none of its uses is protected, and either all its tags are rollback
      tags of removed releases, or it has no tag and a removed release maps it. */
  predicate Listed(image: ImageId, tags: set<string>, removed: set<string>,
                   candidates: set<ImageId>, kept: set<ImageId>) {
    && image !in kept
    && if tags == {} then image in candidates else forall tag | tag in tags :: TagOf(tag, removed)
  }

  function ReferencesTo(image: ImageId, tags: set<string>): set<Reference> {
    if tags == {} then {Reference(image, image)} else set tag | tag in tags :: Reference(tag, image)
  }

  function PlannedImages(h: Inventory, removed: set<string>, kept: set<ImageId>): set<ImageId> {
    set image | image in h.images && Listed(image, h.images[image], removed, ImagesOf(h.releases, removed), kept)
  }

  function PlannedReferences(h: Inventory, images: set<ImageId>): set<Reference> {
    set image, r | image in h.images && image in images && r in ReferencesTo(image, h.images[image]) :: r
  }

  predicate Alphanumeric(c: char) {
    'A' <= c <= 'Z' || 'a' <= c <= 'z' || '0' <= c <= '9'
  }

  predicate NameCharacter(c: char) {
    Alphanumeric(c) || c == '.' || c == '_' || c == '-'
  }

  /** The names a release directory may have. */
  predicate WellNamed(name: string) {
    && NAME_PREFIX <= name && |name| > |NAME_PREFIX| && Alphanumeric(name[|NAME_PREFIX|])
    && forall k | |NAME_PREFIX| < k < |name| :: NameCharacter(name[k])
  }

  predicate AllWellNamed(h: Inventory) {
    forall name | name in h.releases :: WellNamed(name)
  }

  /** Refused: fewer than three releases are to be kept, there is no current release, a release
      directory has another name than a release may have, or something is mounted in a release that
      would go. */
  predicate Refuses(h: Inventory, keep: nat) {
    || keep < 3 || h.current.None? || !AllWellNamed(h)
    || exists name | name in h.releases && name !in Protected(h, keep) :: h.releases[name].mounted
  }

  function PlanOf(h: Inventory, keep: nat): Plan {
    var protected := Protected(h, keep);
    var removed := h.releases.Keys - protected;
    var kept := h.used + ImagesOf(h.releases, protected);
    Plan(protected, kept, removed, PlannedReferences(h, PlannedImages(h, removed, kept)))
  }

  /** What the failing removal of a directory has done before it failed: nothing, or it has removed
      some of the contents, perhaps the manifest, and so has changed the modification time. */
  datatype Tear = Whole | Torn(manifest: bool, mtime: nat)

  function TearOne(releases: map<string, Release>, name: string, tear: Tear): map<string, Release>
    requires name in releases
  {
    if tear.Whole? then releases
    else releases[name := releases[name].(manifest := releases[name].manifest && tear.manifest, mtime := tear.mtime)]
  }

  predicate TornFrom(before: Release, after: Release) {
    && after.stamp == before.stamp && after.images == before.images && after.mounted == before.mounted
    && (after.manifest ==> before.manifest)
  }

  /** The host once the plan's references and directories are gone: an image goes with its last
      tag. */
  function Applied(h: Inventory, keep: nat): Inventory {
    var plan := PlanOf(h, keep);
    h.(releases := h.releases - plan.removed, images := h.images - PlannedImages(h, plan.removed, plan.protectedImages))
  }
}
