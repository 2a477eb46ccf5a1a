/** How many releases a plan leaves, and what "newest" means when only some names have a time
    stamp. */
module PruneOrder {
  import opened Basics
  import opened PruneModel
  import opened Prune

  // ---------------------------------------------------------------- enough releases stay

  /** Any set of releases can be put in order. */
  lemma {:induction false} HasOrder(releases: map<string, Release>, names: set<string>) returns (s: seq<string>)
    requires names <= releases.Keys
    ensures Descending(s, releases) && Members(s) == names
    decreases names
  {
    if names == {} {
      s := [];
    } else {
      var name :| name in names;
      s := HasOrder(releases, names - {name});
      assert name !in Members(s);
      var t := Place(s, name, releases);
      PlaceKeeps(s, name, releases);
      assert Members(t) == Members(s) + {name};
      s := t;
    }
  }

  lemma DescendingDistinct(s: seq<string>, releases: map<string, Release>)
    requires Descending(s, releases)
    ensures forall i, j | 0 <= i < j < |s| :: s[i] != s[j]
  {
    forall i, j | 0 <= i < j < |s|
      ensures s[i] != s[j]
    {
      NewerIsOrder(releases, s[i], s[j], s[j]);
    }
  }

  /** There are as many newest releases as asked for, or all. */
  lemma NewestCount(releases: map<string, Release>, keep: nat)
    ensures |Newest(releases, keep)| == if keep < |releases| then keep else |releases|
  {
    var s := HasOrder(releases, releases.Keys);
    DescendingDistinct(s, releases);
    MembersCount(s);
    var n := if keep < |s| then keep else |s|;
    FirstAreNewest(s, releases, keep);
    MembersCount(s[..n]);
    assert |releases.Keys| == |releases|;
  }

  /** In every state that applying a plan can leave, at least as many releases as asked for are
      there untouched, or all. */
  lemma EnoughSurvive(h: Inventory, left: Inventory, keep: nat)
    requires Between(h, left, keep)
    ensures |Untouched(h, left)| >= if keep < |h.releases| then keep else |h.releases|
  {
    NewestCount(h.releases, keep);
    forall name | name in Newest(h.releases, keep)
      ensures name in Untouched(h, left)
    {
      assert name !in PlanOf(h, keep).removed;
    }
    SubsetSize(Newest(h.releases, keep), Untouched(h, left));
  }

  function Untouched(h: Inventory, left: Inventory): set<string> {
    set name | name in left.releases && name in h.releases && left.releases[name] == h.releases[name]
  }

  /** The plan applied completely is such a state. */
  lemma AppliedIsBetween(h: Inventory, keep: nat)
    ensures Between(h, Applied(h, keep), keep)
  {
    BetweenCleared(h, keep, h.releases - PlanOf(h, keep).removed);
  }

  // ---------------------------------------------------------------- the mixed order

  const FOURTEEN_DIGITS: nat := 100_000_000_000_000

  /** Time stamps have fourteen digits, and the other releases were modified later than about a
      day after the epoch, in nanoseconds. */
  predicate Usual(releases: map<string, Release>) {
    forall name | name in releases ::
      if releases[name].stamp.Some? then releases[name].stamp.value < FOURTEEN_DIGITS
      else releases[name].mtime >= FOURTEEN_DIGITS
  }

  function Unstamped(releases: map<string, Release>): set<string> {
    set name | name in releases && releases[name].stamp.None?
  }

  /** The stamped releases ahead of another. */
  function StampedAhead(releases: map<string, Release>, name: string): set<string>
    requires name in releases
  {
    set other | other in Ahead(releases, name) && releases[other].stamp.Some?
  }

  /** A stamped release is among the newest exactly when all unstamped releases and the stamped
      ones newer than it are fewer than the number to keep: the unstamped ones always come
      first, however old they are. */
  lemma StampedNewestIff(releases: map<string, Release>, keep: nat, name: string)
    requires Usual(releases) && name in releases && releases[name].stamp.Some?
    ensures name in Newest(releases, keep) <==> |Unstamped(releases)| + |StampedAhead(releases, name)| < keep
  {
    assert Ahead(releases, name) == Unstamped(releases) + StampedAhead(releases, name);
    assert Unstamped(releases) !! StampedAhead(releases, name);
  }

  /** A host with one stamped release too many, which is not protected otherwise. */
  ghost predicate Crowded(h: Inventory, keep: nat, stamped: string) {
    && keep >= 3 && Usual(h.releases) && h.current.Some? && Pinned(h) <= Unstamped(h.releases)
    && stamped in h.releases && h.releases[stamped].stamp.Some?
    && h.releases.Keys == Unstamped(h.releases) + {stamped} && |Unstamped(h.releases)| == keep
    && AllWellNamed(h) && forall name | name in h.releases :: h.releases[name].manifest && !h.releases[name].mounted
  }

  /** The stamped release is the one to go, even when it is the latest. */
  lemma StampedIsRemoved(h: Inventory, keep: nat, stamped: string)
    requires Crowded(h, keep, stamped)
    ensures !Refuses(h, keep) && PlanOf(h, keep).removed == {stamped}
  {
    var unstamped, newest := Unstamped(h.releases), Newest(h.releases, keep);
    StampedNewestIff(h.releases, keep, stamped);
    NewestCount(h.releases, keep);
    assert |h.releases.Keys| == |h.releases| && |unstamped + {stamped}| == keep + 1;
    SubsetSameSize(newest, unstamped);
    UnstampedProtected(h, keep, stamped);
  }

  lemma UnstampedProtected(h: Inventory, keep: nat, stamped: string)
    requires Crowded(h, keep, stamped) && Newest(h.releases, keep) == Unstamped(h.releases)
    ensures Protected(h, keep) == Unstamped(h.releases)
  {
  }

  // ---------------------------------------------------------------- such a host

  predicate Digits(s: string) {
    forall k | 0 <= k < |s| :: '0' <= s[k] <= '9'
  }

  function Value(s: string): nat
    requires Digits(s)
  {
    if s == "" then 0 else 10 * Value(s[..|s| - 1]) + (s[|s| - 1] as int - '0' as int)
  }

  function Tens(n: nat): nat {
    if n == 0 then 1 else 10 * Tens(n - 1)
  }

  lemma {:induction false} ValueBelow(s: string)
    requires Digits(s)
    ensures Value(s) < Tens(|s|)
  {
    if s != "" {
      ValueBelow(s[..|s| - 1]);
    }
  }

  predicate Parts(name: string, front: string, digits: string, process: string) {
    && name == front + "-" + digits + "-" + process
    && |digits| == 14 && Digits(digits) && process != "" && Digits(process)
  }

  /** The time stamp that a name carries. */
  ghost predicate Carries(name: string, stamp: Option<nat>) {
    if stamp.None? then forall front, digits, process :: !Parts(name, front, digits, process)
    else exists front, digits, process :: Parts(name, front, digits, process) && Value(digits) == stamp.value
  }

  /** A name without a time stamp. */
  function Short(c: char): string {
    NAME_PREFIX + [c]
  }

  lemma ShortName(c: char)
    requires Alphanumeric(c)
    ensures WellNamed(Short(c)) && Carries(Short(c), None) && Short(c)[|NAME_PREFIX|] == c
  {
  }

  /** The stamps are those of the names. */
  ghost predicate Dated(releases: map<string, Release>) {
    forall name | name in releases :: Carries(name, releases[name].stamp)
  }

  /** A proper name without a time stamp. */
  ghost predicate Undated(name: string) {
    WellNamed(name) && Carries(name, None)
  }

  lemma ShortNames()
    ensures Undated(Short('a')) && Undated(Short('b')) && Undated(Short('c')) && Undated(Short('d'))
    ensures Different(Short('a'), Short('b'), Short('c'), Short('d'))
  {
    ShortName('a');
    ShortName('b');
    ShortName('c');
    ShortName('d');
  }

  predicate Different(w: string, x: string, y: string, z: string) {
    w != x && w != y && w != z && x != y && x != z && y != z
  }

  /** Three releases without a stamp, modified early in January 1970, and one with a stamp. */
  function Latest(a: string, b: string, c: string, stamped: string, stamp: nat, mtime: nat): map<string, Release> {
    var plain := Release(None, FOURTEEN_DIGITS, true, {}, false);
    map[a := plain, b := plain, c := plain, stamped := Release(Some(stamp), mtime, true, {}, false)]
  }

  /** The first of them is the current and the installed release. */
  function LatestHost(a: string, b: string, c: string, stamped: string, stamp: nat, mtime: nat): Inventory {
    Inventory(Latest(a, b, c, stamped, stamp, mtime), Some(a), {a}, {}, map[])
  }

  lemma LatestCrowded(a: string, b: string, c: string, stamped: string, stamp: nat, mtime: nat)
    requires Different(a, b, c, stamped) && stamp < FOURTEEN_DIGITS
    requires WellNamed(a) && WellNamed(b) && WellNamed(c) && WellNamed(stamped)
    ensures Crowded(LatestHost(a, b, c, stamped, stamp, mtime), 3, stamped)
  {
    assert Unstamped(Latest(a, b, c, stamped, stamp, mtime)) == {a, b, c} && |{a, b, c}| == 3;
  }

  function StampedName(digest: string, digits: string, process: string): string {
    NAME_PREFIX + digest + "-" + digits + "-" + process
  }

  /** The parts of a name that the deploy script generates. */
  predicate Generates(digest: string, digits: string, process: string) {
    && digest != "" && (forall k | 0 <= k < |digest| :: Alphanumeric(digest[k]))
    && |digits| == 14 && Digits(digits) && process != "" && Digits(process)
  }

  lemma WellAppended(name: string, s: string)
    requires WellNamed(name) && forall k | 0 <= k < |s| :: Alphanumeric(s[k]) || s[k] == '-'
    ensures WellNamed(name + s)
  {
  }

  lemma StampedNameIsWell(digest: string, digits: string, process: string)
    requires Generates(digest, digits, process)
    ensures WellNamed(StampedName(digest, digits, process))
  {
    assert WellNamed(NAME_PREFIX + digest);
    WellAppended(NAME_PREFIX + digest, "-");
    WellAppended(NAME_PREFIX + digest + "-", digits);
    WellAppended(NAME_PREFIX + digest + "-" + digits, "-");
    WellAppended(NAME_PREFIX + digest + "-" + digits + "-", process);
  }

  lemma StampedNameCarries(digest: string, digits: string, process: string)
    requires Generates(digest, digits, process)
    ensures var name := StampedName(digest, digits, process);
            Carries(name, Some(Value(digits))) && !Carries(name, None)
  {
    assert Parts(StampedName(digest, digits, process), NAME_PREFIX + digest, digits, process);
  }

  lemma FourteenDigits(digits: string)
    requires |digits| == 14 && Digits(digits)
    ensures Value(digits) < FOURTEEN_DIGITS
  {
    ValueBelow(digits);
    assert Tens(14) == FOURTEEN_DIGITS;
  }

  lemma LatestDated(a: string, b: string, c: string, latest: string, stamp: nat, mtime: nat)
    requires Carries(a, None) && Carries(b, None) && Carries(c, None) && Carries(latest, Some(stamp))
    ensures Dated(Latest(a, b, c, latest, stamp, mtime))
  {
    var releases := Latest(a, b, c, latest, stamp, mtime);
    forall name | name in releases
      ensures Carries(name, releases[name].stamp)
    {
      assert name == latest || (name in {a, b, c} && releases[name].stamp == None);
    }
  }

  lemma LatestGoes(a: string, b: string, c: string, latest: string, stamp: nat, mtime: nat)
    requires Different(a, b, c, latest) && stamp < FOURTEEN_DIGITS
    requires WellNamed(a) && WellNamed(b) && WellNamed(c) && WellNamed(latest)
    ensures
      var h := LatestHost(a, b, c, latest, stamp, mtime);
      !Refuses(h, 3) && PlanOf(h, 3).removed == {latest}
  {
    LatestCrowded(a, b, c, latest, stamp, mtime);
    StampedIsRemoved(LatestHost(a, b, c, latest, stamp, mtime), 3, latest);
  }

  /** For every name that the deploy script generates, and every later modification time, a host of
      which it is the latest release and the one to go: three directories with other names are kept,
      one of which is the current and the installed release. */
  lemma LatestIsRemoved(a: string, b: string, c: string, digest: string, digits: string, process: string, mtime: nat)
    requires Undated(a) && Undated(b) && Undated(c) && a != b && a != c && b != c
    requires Generates(digest, digits, process) && mtime > FOURTEEN_DIGITS
    ensures
      var latest := StampedName(digest, digits, process);
      var h := LatestHost(a, b, c, latest, Value(digits), mtime);
      && Dated(h.releases) && !Refuses(h, 3) && PlanOf(h, 3).removed == {latest}
      && forall name | name in h.releases && name != latest :: h.releases[name].mtime < h.releases[latest].mtime
  {
    var latest := StampedName(digest, digits, process);
    StampedNameIsWell(digest, digits, process);
    StampedNameCarries(digest, digits, process);
    FourteenDigits(digits);
    LatestDated(a, b, c, latest, Value(digits), mtime);
    LatestGoes(a, b, c, latest, Value(digits), mtime);
  }

  lemma SubsetSameSize<T>(a: set<T>, b: set<T>)
    requires a <= b && |a| == |b|
    ensures a == b
  {
    assert b == a + (b - a);
  }
}
