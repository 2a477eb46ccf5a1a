/** The findings of an image scan, the receipt written about them, and the checks that read the
    receipt back (scripts/production-image-supply.py). */
module ScanModel {
  import opened Basics
  import opened KeyOrder

  type ImageKey = string
  type ImageId = string

  datatype Match = Match(key: Key, severity: string, fixState: Option<string>)

  datatype Finding = Finding(key: Key, severity: string, fixState: string)

  function Rank(severity: string): Option<nat> {
    if severity == "negligible" then Some(0)
    else if severity == "low" then Some(1)
    else if severity == "medium" then Some(2)
    else if severity == "high" then Some(3)
    else if severity == "critical" then Some(4)
    else None
  }

  /** The known severities, the least first. */
  const LEVELS := ["negligible", "low", "medium", "high", "critical"]

  /** Whether the severity, whatever its letters' case, is one of those before the threshold. */
  predicate Below(severity: string, threshold: nat) {
    exists k | 0 <= k < |LEVELS| :: k < threshold && Lower(severity) == LEVELS[k]
  }

  lemma BlocksIff(m: Match, threshold: nat)
    ensures Blocks(m, threshold) <==> !Below(m.severity, threshold)
  {
    var severity := Lower(m.severity);
    assert LEVELS[0] == "negligible" && LEVELS[1] == "low" && LEVELS[2] == "medium";
    assert LEVELS[3] == "high" && LEVELS[4] == "critical";
    var rank := Rank(severity);
    if rank.Some? {
      assert severity == LEVELS[rank.value];
      RankIs(severity);
    } else {
      assert forall k | 0 <= k < |LEVELS| :: severity != LEVELS[k];
    }
  }

  /** A severity is in one place of the list only. */
  lemma RankIs(severity: string)
    ensures forall k | 0 <= k < |LEVELS| :: severity == LEVELS[k] <==> Rank(severity) == Some(k)
  {
    assert |LEVELS[0]| == 10 && |LEVELS[1]| == 3 && |LEVELS[2]| == 6 && |LEVELS[3]| == 4 && |LEVELS[4]| == 8;
  }

  /** The texts a match must have. */
  predicate Complete(m: Match) {
    HasText(m.key.vulnerability) && HasText(m.severity) && HasText(m.key.package) && HasText(m.key.version)
  }

  /** A match blocks when its severity reaches the threshold or is not known at all. */
  predicate Blocks(m: Match, threshold: nat) {
    var rank := Rank(Lower(m.severity));
    rank.None? || rank.value >= threshold
  }

  function FindingOf(m: Match): Finding {
    Finding(m.key, Lower(m.severity),
            if m.fixState.Some? && HasText(m.fixState.value) then m.fixState.value else "unknown")
  }

  /** One entry for each key: the last blocking match that has it. */
  function Collect(matches: seq<Match>, threshold: nat): map<Key, Finding> {
    if matches == [] then map[]
    else
      var m, rest := matches[|matches| - 1], Collect(matches[..|matches| - 1], threshold);
      if Blocks(m, threshold) then rest[m.key := FindingOf(m)] else rest
  }

  // ---------------------------------------------------------------- sorted lists

  ghost predicate Sorted(s: seq<Finding>) {
    forall i, j | 0 <= i < j < |s| :: !Before(s[j].key, s[i].key)
  }

  ghost predicate StrictlySorted(s: seq<Finding>) {
    forall i, j | 0 <= i < j < |s| :: Before(s[i].key, s[j].key)
  }

  /** Behind every entry that does not come later: sorting keeps the order of equal keys. */
  function Insert(s: seq<Finding>, f: Finding): seq<Finding> {
    if s == [] then [f]
    else if Before(f.key, s[|s| - 1].key) then Insert(s[..|s| - 1], f) + [s[|s| - 1]]
    else s + [f]
  }

  function SortByKey(s: seq<Finding>): seq<Finding> {
    if s == [] then [] else Insert(SortByKey(s[..|s| - 1]), s[|s| - 1])
  }

  /** A sorted list of exactly the entries of a table. */
  ghost predicate Lists(s: seq<Finding>, table: map<Key, Finding>) {
    && StrictlySorted(s)
    && (forall f | f in s :: f.key in table && table[f.key] == f)
    && (forall key | key in table :: table[key].key == key && table[key] in s)
  }

  function Without(s: seq<Finding>, key: Key): seq<Finding> {
    if s == [] then []
    else if s[|s| - 1].key == key then Without(s[..|s| - 1], key)
    else Without(s[..|s| - 1], key) + [s[|s| - 1]]
  }

  /** The blocking findings of a report in order, computed without a table. */
  function Blockers(matches: seq<Match>, threshold: nat): seq<Finding> {
    if matches == [] then []
    else
      var m, rest := matches[|matches| - 1], Blockers(matches[..|matches| - 1], threshold);
      if Blocks(m, threshold) then Insert(Without(rest, m.key), FindingOf(m)) else rest
  }

  function KeysOf(s: seq<Finding>): set<Key> {
    set f | f in s :: f.key
  }

  // ---------------------------------------------------------------- receipts

  datatype Entry = Entry(image: ImageKey, key: Key)

  /** The files an image's receipt is about: the raw report with the identity of the database it
      was made with, and the inspected image. */
  datatype Artifacts = Artifacts(matches: seq<Match>, imageId: ImageId, database: string)

  const NOT_AFFECTED := "authoritatively_not_affected"

  datatype Adjudicated = Adjudicated(finding: Finding, adjudication: string)

  /** `artifacts` stands for the recorded hashes, which determine the files. */
  datatype Receipt = Receipt(
    image: ImageKey, imageId: ImageId, passed: bool,
    allowed: seq<Finding>, unallowed: seq<Finding>, authoritative: seq<Adjudicated>,
    total: int, allowedCount: int, unallowedCount: int, authoritativeCount: int,
    severities: multiset<string>, artifacts: Artifacts, release: bool, generatedAt: int)

  /** The governed exceptions: the allowlist and the authoritative adjudications. */
  datatype Policy = Policy(threshold: nat, allowlist: seq<Entry>, adjudications: seq<Entry>)

  function KeysFor(entries: seq<Entry>, image: ImageKey): set<Key> {
    set e | e in entries && e.image == image :: e.key
  }

  function Within(s: seq<Finding>, keys: set<Key>): seq<Finding> {
    if s == [] then []
    else (if s[0].key in keys then [s[0]] else []) + Within(s[1..], keys)
  }

  function Outside(s: seq<Finding>, keys: set<Key>): seq<Finding> {
    if s == [] then []
    else (if s[0].key in keys then [] else [s[0]]) + Outside(s[1..], keys)
  }

  function Adjudicate(s: seq<Finding>): seq<Adjudicated> {
    seq(|s|, i requires 0 <= i < |s| => Adjudicated(s[i], NOT_AFFECTED))
  }

  function Plain(s: seq<Adjudicated>): seq<Finding> {
    seq(|s|, i requires 0 <= i < |s| => s[i].finding)
  }

  function Severities(matches: seq<Match>): multiset<string> {
    if matches == [] then multiset{}
    else Severities(matches[1..]) + multiset{Lower(matches[0].severity)}
  }

  /** The receipt the scan writes, for a release or for itself, or the reason why it writes none. */
  function Evaluate(image: ImageKey, artifacts: Artifacts, policy: Policy, release: bool, now: int): Result<Receipt> {
    if exists m | m in artifacts.matches :: !Complete(m) then Err("incomplete match")
    else
      var blockers := Blockers(artifacts.matches, policy.threshold);
      var allow, governed := KeysFor(policy.allowlist, image), KeysFor(policy.adjudications, image);
      if !(allow !! governed) then Err("allowlist and adjudications overlap")
      else if !(allow <= KeysOf(blockers)) then Err("stale allowlist entries")
      else
        var authoritative := Adjudicate(Within(blockers, governed));
        var unallowed := Outside(blockers, allow + governed);
        var allowed := Within(blockers, allow);
        Ok(Receipt(image, artifacts.imageId, unallowed == [], allowed, unallowed, authoritative,
                   |blockers|, |allowed|, |unallowed|, |authoritative|, Severities(artifacts.matches),
                   artifacts, release, now))
  }

  predicate Filled(f: Finding) {
    f.key.vulnerability != "" && f.key.package != "" && f.key.version != "" && f.severity != "" && f.fixState != ""
  }

  /** The counts and the status agree with the lists. */
  predicate Consistent(r: Receipt) {
    && r.total >= 0
    && r.allowedCount == |r.allowed| && r.unallowedCount == |r.unallowed| && r.authoritativeCount == |r.authoritative|
    && r.total == r.allowedCount + r.unallowedCount + r.authoritativeCount
    && r.passed == (r.unallowedCount == 0)
  }

  /** What the index accepts as a receipt for the files kept beside it. */
  predicate Accepts(r: Receipt, kept: Artifacts, policy: Policy, release: bool, now: int) {
    && r.release == release && r.generatedAt <= now
    && (forall f | f in r.allowed :: Filled(f))
    && (forall f | f in r.unallowed :: Filled(f))
    && (forall a | a in r.authoritative :: Filled(a.finding) && a.adjudication == NOT_AFFECTED)
    && (forall a | a in r.authoritative :: a.finding.key in KeysFor(policy.adjudications, r.image))
    && Consistent(r)
    && r.artifacts == kept && r.imageId == kept.imageId
    && (forall m | m in kept.matches :: Complete(m))
    && var blockers := Blockers(kept.matches, policy.threshold);
       && blockers == SortByKey(r.allowed + r.unallowed + Plain(r.authoritative))
       && r.severities == Severities(kept.matches)
       && KeysOf(r.allowed) == KeysFor(policy.allowlist, r.image) * KeysOf(blockers)
  }
}
