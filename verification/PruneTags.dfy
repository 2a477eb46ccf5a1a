/** How the plan tells which release a rollback tag or a place among the newest belongs to, and
    where that goes wrong. */
module PruneTags {
  import opened Basics
  import opened PruneModel

  /** The directories the plan looks at are all called so. */
  predicate Named(releases: map<string, Release>) {
    forall name | name in releases :: NAME_PREFIX <= name
  }

  lemma StemTells(a: string, b: string, prefix: string)
    requires prefix <= a && prefix <= b && a[|prefix|..] == b[|prefix|..]
    ensures a == b
  {
  }

  lemma DashedPrefix(a: string, b: string, n: string)
    requires '-' !in n
    ensures a + "-" <= b + "-" + n <==> a == b || a + "-" <= b
  {
    var whole := b + "-" + n;
    if |a| < |b| {
      assert whole[..|a| + 1] == b[..|a| + 1];
    } else if |a| == |b| {
      assert whole[..|a| + 1] == b + "-";
      assert (a + "-")[..|a|] == a && (b + "-")[..|a|] == b;
    } else {
      assert |a| < |whole| ==> whole[|a|] == n[|a| - |b| - 1];
      assert (a + "-")[|a|] == '-';
    }
  }

  lemma UnderPrefix(prefix: string, a: string, b: string)
    ensures prefix + a <= prefix + b <==> a <= b
  {
    assert (prefix + b)[|prefix|..] == b;
    if prefix + a <= prefix + b {
      assert (prefix + a) == (prefix + b)[..|prefix| + |a|];
      assert a == (prefix + a)[|prefix|..] && b[..|a|] == (prefix + b)[..|prefix| + |a|][|prefix|..];
    }
  }

  /** The numbered rollback tag made for one release is taken for a tag of another exactly when
      the name of the first extends the name of the second by a dash. */
  lemma TagTakenIff(prefix: string, stem: string, other: string, n: string)
    requires '-' !in n
    ensures prefix + stem + "-" <= prefix + other + "-" + n <==> stem == other || stem + "-" <= other
  {
    DashedPrefix(stem, other, n);
    assert prefix + stem + "-" == prefix + (stem + "-");
    assert prefix + other + "-" + n == prefix + (other + "-" + n);
    UnderPrefix(prefix, stem + "-", other + "-" + n);
  }

  /** A removed release whose name the given one extends. */
  ghost predicate Overshadowed(name: string, removed: set<string>) {
    exists other | other in removed :: Stem(other) + "-" <= Stem(name)
  }

  lemma KeptTagTakenIff(releases: map<string, Release>, removed: set<string>, name: string, n: string)
    requires Named(releases) && removed <= releases.Keys && name in releases && name !in removed && '-' !in n
    ensures TagOf(TagStem(name) + n, removed) <==> Overshadowed(name, removed)
  {
    forall other | other in removed
      ensures TagStem(other) <= TagStem(name) + n <==> Stem(other) + "-" <= Stem(name)
    {
      TagTakenIff(TAG_PREFIX, Stem(other), Stem(name), n);
      if Stem(other) == Stem(name) {
        StemTells(other, name, NAME_PREFIX);
      }
    }
  }

  /** The rollback image of a kept release, not otherwise protected, is removed exactly when the
      name of the kept release extends the name of a removed one. */
  lemma KeptRollbackListedIff(h: Inventory, keep: nat, name: string, n: string, image: ImageId)
    requires Named(h.releases) && name in h.releases && name in Protected(h, keep) && '-' !in n
    requires image in h.images && h.images[image] == {TagStem(name) + n}
    requires image !in PlanOf(h, keep).protectedImages
    ensures image !in Applied(h, keep).images <==> Overshadowed(name, PlanOf(h, keep).removed)
  {
    var removed := PlanOf(h, keep).removed;
    KeptTagTakenIff(h.releases, removed, name, n);
    assert TagStem(name) + n in h.images[image];
  }

  /** Without such names, a listed image with tags has only tags of removed releases: no rollback
      tag of a kept release is ever removed. */
  lemma ListedTagsAreRemoved(h: Inventory, keep: nat, image: ImageId, name: string, n: string)
    requires Named(h.releases) && '-' !in n && name in h.releases
    requires !Overshadowed(name, PlanOf(h, keep).removed)
    requires image in h.images && TagStem(name) + n in h.images[image] && image !in Applied(h, keep).images
    ensures name in PlanOf(h, keep).removed
  {
    assert TagOf(TagStem(name) + n, PlanOf(h, keep).removed);
    if name !in PlanOf(h, keep).removed {
      KeptTagTakenIff(h.releases, PlanOf(h, keep).removed, name, n);
    }
  }

  // ---------------------------------------------------------------- names that are told apart

  function Dashes(s: string): nat {
    if s == "" then 0 else Dashes(s[..|s| - 1]) + if s[|s| - 1] == '-' then 1 else 0
  }

  lemma {:induction false} DashesAppend(a: string, b: string)
    ensures Dashes(a + b) == Dashes(a) + Dashes(b)
  {
    if b == "" {
      assert a + b == a;
    } else {
      var n := |b| - 1;
      DashesAppend(a, b[..n]);
      assert (a + b)[..|a| + n] == a + b[..n];
    }
  }

  lemma {:induction false} NoDashes(s: string)
    requires '-' !in s
    ensures Dashes(s) == 0
  {
    if s != "" {
      NoDashes(s[..|s| - 1]);
    }
  }

  /** The names deploy/deploy-to-ssh-host.sh gives: digest, time stamp and process number. */
  ghost predicate Generated(name: string) {
    exists digest, stamp, process ::
      '-' !in digest && '-' !in stamp && '-' !in process && Stem(name) == digest + "-" + stamp + "-" + process
  }

  lemma GeneratedDashes(name: string)
    requires Generated(name)
    ensures Dashes(Stem(name)) == 2
  {
    var digest, stamp, process :|
      '-' !in digest && '-' !in stamp && '-' !in process && Stem(name) == digest + "-" + stamp + "-" + process;
    NoDashes(digest);
    NoDashes(stamp);
    NoDashes(process);
    DashesAppend(digest + "-" + stamp + "-", process);
    DashesAppend(digest + "-" + stamp, "-");
    DashesAppend(digest + "-", stamp);
    DashesAppend(digest, "-");
  }

  /** A text with as many dashes does not extend another by a dash. */
  lemma SameDashesApart(a: string, b: string)
    requires Dashes(a) == Dashes(b)
    ensures !(a + "-" <= b)
  {
    if a + "-" <= b {
      var rest := b[|a| + 1..];
      assert b == (a + "-") + rest;
      DashesAppend(a + "-", rest);
      DashesAppend(a, "-");
    }
  }

  /** Generated names never extend one another, so a host with no other names is safe. */
  lemma GeneratedNeverOvershadowed(removed: set<string>, name: string)
    requires Generated(name) && forall other | other in removed :: Generated(other)
    ensures !Overshadowed(name, removed)
  {
    forall other | other in removed
      ensures !(Stem(other) + "-" <= Stem(name))
    {
      GeneratedDashes(name);
      GeneratedDashes(other);
      SameDashesApart(Stem(other), Stem(name));
    }
  }

  // ---------------------------------------------------------------- a host that loses an image

  /** A release is current and installed; another, whose name this one extends, is old and not
      protected otherwise; and an image that nothing else uses has a rollback tag of the pinned one. */
  ghost predicate Exposed(h: Inventory, keep: nat, first: string, pinned: string, image: ImageId) {
    && Named(h.releases) && h.current == Some(pinned) && h.pinned == {pinned} && h.used == {}
    && pinned in h.releases && first in h.releases
    && Stem(first) + "-" <= Stem(pinned) && first != pinned && |Ahead(h.releases, first)| >= keep
    && (forall name | name in h.releases :: h.releases[name].manifest && h.releases[name].images == {})
    && !Refuses(h, keep)
    && image in h.images && h.images[image] == {TagStem(pinned) + "1"}
  }

  /** Then that image goes, although its release stays. */
  lemma ExposedImageLost(h: Inventory, keep: nat, first: string, pinned: string, image: ImageId)
    requires Exposed(h, keep, first, pinned, image)
    ensures pinned in Applied(h, keep).releases
    ensures image !in PlanOf(h, keep).protectedImages && image !in Applied(h, keep).images
  {
    assert first in PlanOf(h, keep).removed && Overshadowed(pinned, PlanOf(h, keep).removed);
    KeptRollbackListedIff(h, keep, pinned, "1", image);
  }

  function Five(first: string, pinned: string, c: string, d: string, e: string): map<string, Release> {
    map[first := Release(None, 1, true, {}, false), pinned := Release(None, 2, true, {}, false),
        c := Release(None, 3, true, {}, false), d := Release(None, 4, true, {}, false),
        e := Release(None, 5, true, {}, false)]
  }

  lemma FiveAhead(first: string, pinned: string, c: string, d: string, e: string)
    requires first != pinned && first != c && first != d && first != e && c != d && c != e && d != e
    requires pinned != c && pinned != d && pinned != e
    ensures |Ahead(Five(first, pinned, c, d, e), first)| >= 3
  {
    var ahead := Ahead(Five(first, pinned, c, d, e), first);
    assert {c, d, e} <= ahead && |{c, d, e}| == 3;
    SubsetSize({c, d, e}, ahead);
  }

  /** Such a host. */
  lemma SomeHostExposed()
    ensures var releases := Five("release-a", "release-a-b", "release-c", "release-d", "release-e");
            Exposed(Inventory(releases, Some("release-a-b"), {"release-a-b"}, {},
                              map["i" := {TagStem("release-a-b") + "1"}]), 3,
                    "release-a", "release-a-b", "i")
  {
    FiveAhead("release-a", "release-a-b", "release-c", "release-d", "release-e");
    var releases := Five("release-a", "release-a-b", "release-c", "release-d", "release-e");
    assert forall name | name in releases :: name[..8] == NAME_PREFIX;
    assert "release-a"[8..] == "a" && "release-a-b"[8..] == "a-b";
  }
}
