/** The release index: one verdict from the receipts of all scan targets and the declared
    equivalences of application images (scripts/production-image-supply.py). */
module ScanIndex {
  import opened Basics
  import opened ScanModel
  import opened ScanEvidence

  datatype Output = Output(reference: string, scanByDefault: bool, equivalentTo: Option<ImageKey>)

  /** The image lock: application outputs by key, and the keys of the external service images. */
  datatype Lock = Lock(outputs: map<ImageKey, Output>, externals: set<ImageKey>)

  datatype Equivalence = Equivalence(
    key: ImageKey, reference: string, representative: ImageKey, representativeReference: string,
    imageId: ImageId, representativeImageId: ImageId, passed: bool)

  /** The equivalence file: its own verdict, when it was made, and its records. */
  datatype Evidence = Evidence(passed: bool, generatedAt: int, records: seq<Equivalence>)

  /** What an index is written from: the lock, the receipts with the files kept beside them, the
      governed exceptions, whether it is for a release, the equivalence file if there is one, and
      the clock. */
  datatype Submission = Submission(
    lock: Lock, receipts: seq<Receipt>, kept: map<ImageKey, Artifacts>, policy: Policy,
    release: bool, evidence: Option<Evidence>, now: int)

  datatype Index = Index(passed: bool, required: set<ImageKey>)

  function ScanTargets(lock: Lock): set<ImageKey> {
    lock.outputs.Keys + lock.externals
  }

  function ReleaseTargets(lock: Lock): set<ImageKey> {
    (set key | key in lock.outputs && lock.outputs[key].scanByDefault) + lock.externals
  }

  /** The outputs that are not scanned because another output stands for them. */
  function DeclaredEquivalents(lock: Lock): set<ImageKey> {
    set key | key in lock.outputs && lock.outputs[key].equivalentTo.Some?
  }

  function ImagesOf(receipts: seq<Receipt>): set<ImageKey> {
    set r | r in receipts :: r.image
  }

  predicate Distinct(receipts: seq<Receipt>) {
    forall i, j | 0 <= i < j < |receipts| :: receipts[i].image != receipts[j].image
  }

  /** An equivalence says of a declared pair that both images are the same. */
  predicate Sound(e: Equivalence, lock: Lock) {
    && e.key in lock.outputs && e.passed && e.imageId == e.representativeImageId
    && lock.outputs[e.key].equivalentTo == Some(e.representative)
    && e.reference == lock.outputs[e.key].reference
    && e.representative in lock.outputs && e.representativeReference == lock.outputs[e.representative].reference
  }

  /** The receipt of an image, if there is one. */
  function Find(receipts: seq<Receipt>, image: ImageKey): (r: Option<Receipt>)
    ensures r.Some? ==> r.value in receipts && r.value.image == image
    ensures r.None? ==> image !in ImagesOf(receipts)
  {
    if receipts == [] then None
    else if receipts[0].image == image then Some(receipts[0])
    else Find(receipts[1..], image)
  }

  /** The image of the equivalence is the one its representative's receipt is about. */
  predicate BoundTo(e: Equivalence, receipts: seq<Receipt>) {
    var r := Find(receipts, e.representative);
    r.Some? && e.representativeImageId == r.value.imageId && e.imageId == r.value.imageId
  }

  predicate Valid(s: Submission, r: Receipt) {
    r.image in ScanTargets(s.lock) && r.image in s.kept && Accepts(r, s.kept[r.image], s.policy, s.release, s.now)
  }

  predicate OneDatabase(receipts: seq<Receipt>) {
    forall r, q | r in receipts && q in receipts :: r.artifacts.database == q.artifacts.database
  }

  function KeysOfRecords(records: seq<Equivalence>): set<ImageKey> {
    set e | e in records :: e.key
  }

  /** The equivalence file covers exactly the declared pairs, and all of them hold. */
  predicate Covers(s: Submission, evidence: Evidence) {
    && evidence.passed && evidence.generatedAt <= s.now
    && KeysOfRecords(evidence.records) == DeclaredEquivalents(s.lock)
    && forall e | e in evidence.records :: Sound(e, s.lock) && BoundTo(e, s.receipts)
  }

  predicate Admissible(s: Submission) {
    && s.receipts != [] && Distinct(s.receipts) && OneDatabase(s.receipts)
    && (forall r | r in s.receipts :: Valid(s, r))
    && (s.release ==>
          ImagesOf(s.receipts) == ReleaseTargets(s.lock) && s.evidence.Some? && Covers(s, s.evidence.value))
  }

  /** The record says that this output is the same image as its representative, and the receipt of
      the representative is about that image. */
  ghost predicate Proves(e: Equivalence, s: Submission) {
    && e.passed && e.key in s.lock.outputs && e.representative in s.lock.outputs
    && s.lock.outputs[e.key] == Output(e.reference, s.lock.outputs[e.key].scanByDefault, Some(e.representative))
    && s.lock.outputs[e.representative].reference == e.representativeReference
    && e.imageId == e.representativeImageId
    && exists r | r in s.receipts :: r.image == e.representative && r.imageId == e.imageId
  }

  lemma {:induction false} FindOnly(receipts: seq<Receipt>, r: Receipt)
    requires Distinct(receipts) && r in receipts
    ensures Find(receipts, r.image) == Some(r)
  {
    if receipts[0] != r {
      assert r in receipts[1..];
      var k :| 0 <= k < |receipts[1..]| && receipts[1..][k] == r;
      assert receipts[k + 1] == r;
      FindOnly(receipts[1..], r);
    }
  }

  lemma ProvesIff(e: Equivalence, s: Submission)
    requires Distinct(s.receipts)
    ensures Proves(e, s) <==> Sound(e, s.lock) && BoundTo(e, s.receipts)
  {
    if r :| r in s.receipts && r.image == e.representative && r.imageId == e.imageId {
      FindOnly(s.receipts, r);
    }
  }

  /** The equivalence file passed, is not from the future, has a record for exactly the outputs with
      a representative, and every record is proved. */
  ghost predicate Equates(evidence: Evidence, s: Submission) {
    && evidence.passed && evidence.generatedAt <= s.now
    && (forall key :: (exists e :: e in evidence.records && e.key == key)
                      <==> key in s.lock.outputs && s.lock.outputs[key].equivalentTo.Some?)
    && forall e | e in evidence.records :: Proves(e, s)
  }

  lemma SameKeys(a: set<ImageKey>, b: set<ImageKey>)
    ensures a == b <==> forall key :: key in a <==> key in b
  {
  }

  lemma RecordKeys(evidence: Evidence, s: Submission)
    ensures KeysOfRecords(evidence.records) == DeclaredEquivalents(s.lock) <==>
              forall key :: (exists e :: e in evidence.records && e.key == key)
                            <==> key in s.lock.outputs && s.lock.outputs[key].equivalentTo.Some?
  {
    var a, b := KeysOfRecords(evidence.records), DeclaredEquivalents(s.lock);
    assert forall key :: key in a <==> exists e :: e in evidence.records && e.key == key;
    assert forall key :: key in b <==> key in s.lock.outputs && s.lock.outputs[key].equivalentTo.Some?;
    SameKeys(a, b);
  }

  lemma EquatesIff(evidence: Evidence, s: Submission)
    requires Distinct(s.receipts)
    ensures Equates(evidence, s) <==> Covers(s, evidence)
  {
    forall e | e in evidence.records
      ensures Proves(e, s) <==> Sound(e, s.lock) && BoundTo(e, s.receipts)
    {
      ProvesIff(e, s);
    }
    RecordKeys(evidence, s);
  }

  lemma ReceiptKeys(s: Submission)
    ensures ImagesOf(s.receipts) == ReleaseTargets(s.lock) <==>
              forall key :: (exists r :: r in s.receipts && r.image == key)
                <==> (key in s.lock.outputs && s.lock.outputs[key].scanByDefault) || key in s.lock.externals
  {
    var a, b := ImagesOf(s.receipts), ReleaseTargets(s.lock);
    assert forall key :: key in a <==> exists r :: r in s.receipts && r.image == key;
    assert forall key :: key in b
             <==> (key in s.lock.outputs && s.lock.outputs[key].scanByDefault) || key in s.lock.externals;
    SameKeys(a, b);
  }

  /** A receipt for a scan target, accepted against the files kept for it. */
  ghost predicate Stands(r: Receipt, s: Submission) {
    && (r.image in s.lock.outputs || r.image in s.lock.externals) && r.image in s.kept
    && Accepts(r, s.kept[r.image], s.policy, s.release, s.now)
  }

  /** What may be made an index: receipts, one for each image and all from one database, that stand;
      and for a release, receipts for exactly the images to scan and an equivalence file. */
  lemma AdmissibleIff(s: Submission)
    ensures Admissible(s) <==>
              && s.receipts != [] && (forall r | r in s.receipts :: Stands(r, s))
              && (forall i, j | 0 <= i < j < |s.receipts| :: s.receipts[i].image != s.receipts[j].image)
              && (forall k | 0 <= k < |s.receipts| ::
                    s.receipts[k].artifacts.database == s.receipts[0].artifacts.database)
              && (s.release ==>
                    && (forall key :: (exists r :: r in s.receipts && r.image == key)
                          <==> (key in s.lock.outputs && s.lock.outputs[key].scanByDefault) || key in s.lock.externals)
                    && s.evidence.Some? && Equates(s.evidence.value, s))
  {
    ReceiptKeys(s);
    if s.receipts != [] {
      FirstDatabase(s.receipts);
    }
    if Distinct(s.receipts) && s.evidence.Some? {
      EquatesIff(s.evidence.value, s);
    }
  }

  lemma FirstDatabase(receipts: seq<Receipt>)
    requires receipts != []
    ensures OneDatabase(receipts) <==>
              forall k | 0 <= k < |receipts| :: receipts[k].artifacts.database == receipts[0].artifacts.database
  {
    assert receipts[0] in receipts;
    if OneDatabase(receipts) {
      assert forall k | 0 <= k < |receipts| :: receipts[k] in receipts;
    }
  }

  method ReceiptsValid(s: Submission) returns (ok: bool)
    ensures ok <==> forall r | r in s.receipts :: Valid(s, r)
  {
    for i := 0 to |s.receipts|
      invariant forall k | 0 <= k < i :: Valid(s, s.receipts[k])
    {
      if !Valid(s, s.receipts[i]) {
        return false;
      }
    }
    return true;
  }

  method EvidenceHolds(s: Submission, evidence: Evidence) returns (ok: bool)
    ensures ok <==> Covers(s, evidence)
  {
    if !evidence.passed || evidence.generatedAt > s.now
       || KeysOfRecords(evidence.records) != DeclaredEquivalents(s.lock) {
      return false;
    }
    for i := 0 to |evidence.records|
      invariant forall k | 0 <= k < i :: Sound(evidence.records[k], s.lock) && BoundTo(evidence.records[k], s.receipts)
    {
      if !Sound(evidence.records[i], s.lock) || !BoundTo(evidence.records[i], s.receipts) {
        return false;
      }
    }
    return true;
  }

  /** All receipts are compared with the first. */
  method DatabasesAgree(receipts: seq<Receipt>) returns (ok: bool)
    requires receipts != []
    ensures ok <==> OneDatabase(receipts)
  {
    for i := 0 to |receipts|
      invariant forall k | 0 <= k < i :: receipts[k].artifacts.database == receipts[0].artifacts.database
    {
      if receipts[i].artifacts.database != receipts[0].artifacts.database {
        assert receipts[i] in receipts && receipts[0] in receipts;
        return false;
      }
    }
    return true;
  }

  method WriteIndex(s: Submission) returns (index: Result<Index>)
    ensures index.Ok? <==> Admissible(s)
    ensures index.Ok? ==>
              && (index.value.passed <==> forall r | r in s.receipts :: r.passed)
              && forall key :: key in index.value.required <==> exists r :: r in s.receipts && r.image == key
  {
    if s.receipts == [] || !Distinct(s.receipts) {
      return Err("receipts are missing or repeated");
    }
    var ok := ReceiptsValid(s);
    if !ok {
      return Err("invalid receipt");
    }
    if s.release {
      if ImagesOf(s.receipts) != ReleaseTargets(s.lock) {
        return Err("the receipts do not match the scan targets");
      }
      if s.evidence.None? {
        return Err("image equivalence evidence is required");
      }
      ok := EvidenceHolds(s, s.evidence.value);
      if !ok {
        return Err("image equivalence does not hold");
      }
    }
    ok := DatabasesAgree(s.receipts);
    if !ok {
      return Err("receipts do not share one database");
    }
    var passed := forall r | r in s.receipts :: r.passed;
    return Ok(Index(passed, if s.release then ReleaseTargets(s.lock) else ImagesOf(s.receipts)));
  }

  // ---------------------------------------------------------------- what a passing index means

  predicate AllPassed(s: Submission) {
    forall r | r in s.receipts :: r.passed
  }

  /** The image with this ID has been scanned under some key, and everything blocking in the kept
      report is excused for that key. */
  ghost predicate Vouched(s: Submission, id: ImageId, scanned: ImageKey) {
    && scanned in ReleaseTargets(s.lock) && scanned in s.kept && s.kept[scanned].imageId == id
    && AllExcused(scanned, s.kept[scanned].matches, s.policy)
  }

  lemma ReceiptVouches(s: Submission, r: Receipt)
    requires Admissible(s) && s.release && r in s.receipts && r.passed
    ensures Vouched(s, r.imageId, r.image)
  {
    assert r.image in ImagesOf(s.receipts);
    AcceptedPassIsReal(r, s.kept[r.image], s.policy, s.release, s.now);
  }

  /** Behind a passing release index, every scan target is vouched for by its own scan, and every
      declared equivalent by the scan of its representative, under one and the same image ID. */
  lemma PassedCovers(s: Submission, key: ImageKey)
    requires Admissible(s) && s.release && AllPassed(s)
    ensures key in ReleaseTargets(s.lock) ==>
              exists r :: r in s.receipts && r.image == key && Vouched(s, r.imageId, key)
    ensures key in DeclaredEquivalents(s.lock) ==> exists e ::
              && e in s.evidence.value.records && e.key == key
              && s.lock.outputs[key].equivalentTo == Some(e.representative)
              && Vouched(s, e.imageId, e.representative)
  {
    if key in ReleaseTargets(s.lock) {
      var r :| r in s.receipts && r.image == key;
      ReceiptVouches(s, r);
    }
    if key in DeclaredEquivalents(s.lock) {
      assert key in KeysOfRecords(s.evidence.value.records);
      var e :| e in s.evidence.value.records && e.key == key;
      assert BoundTo(e, s.receipts) && Sound(e, s.lock);
      ReceiptVouches(s, Find(s.receipts, e.representative).value);
    }
  }

  /** Every output is scanned by default or has a representative. */
  predicate Closed(lock: Lock) {
    forall key | key in lock.outputs :: lock.outputs[key].scanByDefault || lock.outputs[key].equivalentTo.Some?
  }

  /** Under such a lock a passing release index vouches for every image of the release. */
  lemma EveryImageVouched(s: Submission, key: ImageKey)
    requires Admissible(s) && s.release && AllPassed(s) && Closed(s.lock) && key in ScanTargets(s.lock)
    ensures exists id, scanned ::
              && (scanned == key || (key in s.lock.outputs && s.lock.outputs[key].equivalentTo == Some(scanned)))
              && Vouched(s, id, scanned)
  {
    PassedCovers(s, key);
  }

  /** Whether the evidence of an admissible release index says anything about a key. */
  predicate Mentioned(s: Submission, key: ImageKey) {
    key in ImagesOf(s.receipts) || (s.evidence.Some? && key in KeysOfRecords(s.evidence.value.records))
  }

  /** A passing index speaks about exactly the outputs that are scanned by default or have a
      representative, and about the external images; any other output of the lock escapes it. */
  lemma MentionedIffDeclared(s: Submission, key: ImageKey)
    requires Admissible(s) && s.release
    ensures Mentioned(s, key) <==> key in ReleaseTargets(s.lock) + DeclaredEquivalents(s.lock)
  {
  }

  /** Whatever the scans themselves wrote for all targets, with one database and an equivalence
      file that covers the lock, makes an admissible index, and it passes exactly when every
      target's scan passes. */
  lemma ProducedIndexAdmissible(s: Submission)
    requires s.receipts != [] && Distinct(s.receipts) && OneDatabase(s.receipts) && s.release
    requires ImagesOf(s.receipts) == ReleaseTargets(s.lock) <= s.kept.Keys
    requires forall r | r in s.receipts ::
               r.image in s.kept && r.generatedAt <= s.now
               && Evaluate(r.image, s.kept[r.image], s.policy, true, r.generatedAt) == Ok(r)
    requires s.evidence.Some? && Covers(s, s.evidence.value)
    ensures Admissible(s)
    ensures AllPassed(s) <==> forall r | r in s.receipts :: AllExcused(r.image, s.kept[r.image].matches, s.policy)
  {
    forall r | r in s.receipts
      ensures Valid(s, r)
      ensures r.passed <==> AllExcused(r.image, s.kept[r.image].matches, s.policy)
    {
      assert r.image in ImagesOf(s.receipts);
      ProducerAccepted(r.image, s.kept[r.image], s.policy, true, r.generatedAt, s.now);
      PassesIffExcused(r.image, s.kept[r.image], s.policy, true, r.generatedAt);
    }
  }
}
