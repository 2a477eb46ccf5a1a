/** The state the post-commit repair of deploy/repair-post-commit-cleanup.py changes: image tags
    on the host, three evidence files, and the deployment lock directory. */
module RepairModel {
  import opened Basics

  type Ref = string
  type Image = string

  const FRONTEND: Ref := "npcink-ai-cloud-frontend:prod"

  /** A line of the rollback map: the release reference, and the rollback tag with the image it
      pins, unless there was no previous image. */
  datatype Record = Record(target: Ref, rollback: Option<Ref>, previous: Option<Image>)

  datatype Path = Marker | RollbackMap | Owner

  datatype Payload = Text(text: string) | Records(records: seq<Record>)

  /** The files the repair may remove, and whether the lock directory is there. */
  datatype Evidence = Evidence(files: map<Path, Payload>, lock: bool)

  datatype Snapshot = Snapshot(tags: map<Ref, Image>, evidence: Evidence)

  /** What can go wrong in a step.  It fails without effect; it takes effect and still fails; it
      does so with an error of a kind that the compensation does not catch; a command claims
      success without effect; an inspection calls an existing image absent.  A step that a fault
      does not concern runs as usual. */
  datatype Fault = Fine | FailsBefore | FailsAfter | Escapes | Ignored | Missed

  predicate Raises(f: Fault) {
    f == FailsBefore || f == FailsAfter || f == Escapes
  }

  predicate Acts(f: Fault) {
    f != FailsBefore && f != Ignored
  }

  datatype Outcome = Done(removedTags: int) | Refused | RolledBack | RestoreFailed | Escaped

  // ---------------------------------------------------------------- what the records ask for

  function RollbackTags(records: seq<Record>): set<Ref> {
    set r | r in records && r.rollback.Some? :: r.rollback.value
  }

  /** No rollback tag is the release reference itself. */
  predicate Separate(records: seq<Record>) {
    FRONTEND !in RollbackTags(records)
  }

  function FrontendRecords(records: seq<Record>): seq<Record> {
    if records == [] then []
    else (if records[0].target == FRONTEND then [records[0]] else []) + FrontendRecords(records[1..])
  }

  /** The one binding of the preserved frontend image, or nothing when it is missing,
      ambiguous or pins another image. */
  function FrontendRollback(records: seq<Record>, preserved: Image): Option<Ref> {
    var found := FrontendRecords(records);
    if |found| != 1 || found[0].rollback.None? || found[0].previous != Some(preserved) then None
    else found[0].rollback
  }

  function Lookup(tags: map<Ref, Image>, ref: Ref): Option<Image> {
    if ref in tags then Some(tags[ref]) else None
  }

  /** The tags after a clean run: the release reference names the preserved image, the rollback
      tags are gone, everything else is as it was. */
  function CleanTags(tags: map<Ref, Image>, records: seq<Record>, preserved: Image): map<Ref, Image> {
    tags[FRONTEND := preserved] - RollbackTags(records)
  }

  /** After a clean run a tag is there when it was there before or is the release reference, unless a
      record names it for the rollback; and only the release reference can name another image. */
  lemma CleanIs(tags: map<Ref, Image>, records: seq<Record>, preserved: Image, ref: Ref)
    ensures var clean := CleanTags(tags, records, preserved);
            && (ref in clean <==>
                  && (ref in tags || ref == FRONTEND)
                  && forall i | 0 <= i < |records| :: records[i].rollback != Some(ref))
            && (ref in clean ==> clean[ref] == if ref == FRONTEND then preserved else tags[ref])
  {
    assert ref in RollbackTags(records) <==> exists i | 0 <= i < |records| :: records[i].rollback == Some(ref);
  }

  /** Nothing has been added or changed. */
  ghost predicate Shrunk<K, V>(from: map<K, V>, to: map<K, V>) {
    forall k | k in to :: k in from && to[k] == from[k]
  }

  /** Part of the way from one set of tags to its clean form. */
  ghost predicate Partway(from: map<Ref, Image>, to: map<Ref, Image>, records: seq<Record>, preserved: Image) {
    && (Shrunk(from, to) || Shrunk(from[FRONTEND := preserved], to))
    && from.Keys - RollbackTags(records) <= to.Keys
  }

  /** A clean run from part of the way ends where a clean run from the start does. */
  lemma PartwayCleansAlike(from: map<Ref, Image>, to: map<Ref, Image>, records: seq<Record>, preserved: Image)
    requires Partway(from, to, records, preserved)
    ensures CleanTags(to, records, preserved) == CleanTags(from, records, preserved)
  {
  }

  /** A clean run keeps the preserved image under its release reference exactly when no rollback
      tag is that reference. */
  lemma CleanKeepsFrontend(tags: map<Ref, Image>, records: seq<Record>, preserved: Image)
    ensures Lookup(CleanTags(tags, records, preserved), FRONTEND) == Some(preserved) <==> Separate(records)
  {
  }

  // ---------------------------------------------------------------- what every state keeps

  /** What one run works on: the evidence it found and the image it preserves. */
  datatype Aim = Aim(before: Evidence, records: seq<Record>, rollback: Ref, preserved: Image)

  predicate Intact(e: Evidence) {
    e.files.Keys == {Marker, RollbackMap, Owner} && e.files[RollbackMap].Records? && e.lock
  }

  /** The evidence binds the preserved frontend image to one rollback tag. */
  predicate Bound(e: Evidence, preserved: Image) {
    Intact(e) && FrontendRollback(e.files[RollbackMap].records, preserved).Some?
  }

  /** The only record of the release reference is this one. */
  ghost predicate OnlyRecord(records: seq<Record>, i: nat) {
    && i < |records| && records[i].target == FRONTEND
    && forall j | 0 <= j < |records| && j != i :: records[j].target != FRONTEND
  }

  lemma {:induction false} NoFrontend(records: seq<Record>)
    requires forall j | 0 <= j < |records| :: records[j].target != FRONTEND
    ensures FrontendRecords(records) == []
  {
    if records != [] {
      NoFrontend(records[1..]);
    }
  }

  lemma {:induction false} OnlyFrontend(records: seq<Record>, i: nat)
    requires OnlyRecord(records, i)
    ensures FrontendRecords(records) == [records[i]]
  {
    if i == 0 {
      NoFrontend(records[1..]);
    } else {
      assert OnlyRecord(records[1..], i - 1);
      OnlyFrontend(records[1..], i - 1);
    }
  }

  lemma {:induction false} FoundFrontend(records: seq<Record>) returns (i: nat)
    requires FrontendRecords(records) != []
    ensures i < |records| && records[i].target == FRONTEND
    ensures |FrontendRecords(records)| == 1 ==> OnlyRecord(records, i)
  {
    if records[0].target == FRONTEND {
      i := 0;
      if |FrontendRecords(records)| == 1 {
        NoneAfter(records[1..]);
      }
    } else {
      i := FoundFrontend(records[1..]);
      i := i + 1;
    }
  }

  lemma {:induction false} NoneAfter(records: seq<Record>)
    requires FrontendRecords(records) == []
    ensures forall j | 0 <= j < |records| :: records[j].target != FRONTEND
  {
    if records != [] {
      NoneAfter(records[1..]);
    }
  }

  /** The evidence that a run works on: all three files and the lock are there, and the rollback map
      has one record of the release reference, with a rollback tag that pins the preserved image. */
  lemma BoundIff(e: Evidence, preserved: Image)
    ensures Bound(e, preserved) <==>
              && e.lock && e.files.Keys == {Marker, RollbackMap, Owner} && e.files[RollbackMap].Records?
              && exists i: nat | OnlyRecord(e.files[RollbackMap].records, i) ::
                   e.files[RollbackMap].records[i].rollback.Some?
                   && e.files[RollbackMap].records[i].previous == Some(preserved)
  {
    if Intact(e) {
      var records := e.files[RollbackMap].records;
      if FrontendRecords(records) != [] {
        var i := FoundFrontend(records);
        if OnlyRecord(records, i) {
          OnlyFrontend(records, i);
        }
      }
      if i: nat :| OnlyRecord(records, i) && records[i].rollback.Some? && records[i].previous == Some(preserved) {
        OnlyFrontend(records, i);
      }
    }
  }

  /** And the rollback tag of that record is the one the run uses. */
  lemma AimIs(e: Evidence, preserved: Image, i: nat)
    requires Bound(e, preserved) && OnlyRecord(RecordsOf(e), i)
    ensures RecordsOf(e)[i].rollback == Some(AimOf(e, preserved).rollback)
    ensures AimOf(e, preserved).before == e && AimOf(e, preserved).records == RecordsOf(e)
            && AimOf(e, preserved).preserved == preserved
  {
    OnlyFrontend(RecordsOf(e), i);
  }

  function RecordsOf(e: Evidence): seq<Record>
    requires Intact(e)
  {
    e.files[RollbackMap].records
  }

  function AimOf(e: Evidence, preserved: Image): Aim
    requires Bound(e, preserved)
  {
    Aim(e, RecordsOf(e), FrontendRollback(RecordsOf(e), preserved).value, preserved)
  }

  /** An absent lock directory means that the three files are absent too. */
  predicate LockLast(e: Evidence) {
    !e.lock ==> e.files == map[]
  }

  /** The preserved image is found under its release reference, or under its rollback tag as long
      as no evidence has been touched. */
  predicate Named(s: Snapshot, aim: Aim) {
    || Lookup(s.tags, FRONTEND) == Some(aim.preserved)
    || (s.evidence == aim.before && Lookup(s.tags, aim.rollback) == Some(aim.preserved))
  }

  /** Some tag that a run looks at names the preserved image. */
  predicate NamesImage(tags: map<Ref, Image>, aim: Aim) {
    Lookup(tags, FRONTEND) == Some(aim.preserved) || Lookup(tags, aim.rollback) == Some(aim.preserved)
  }

  /** A run can start here: the evidence binds the preserved image and some tag still names it. */
  predicate Startable(s: Snapshot, preserved: Image) {
    Bound(s.evidence, preserved) && NamesImage(s.tags, AimOf(s.evidence, preserved))
  }

  predicate Safe(s: Snapshot, aim: Aim) {
    LockLast(s.evidence) && (Separate(aim.records) ==> Named(s, aim))
  }

  ghost predicate AllSafe(history: seq<Snapshot>, aim: Aim) {
    forall s | s in history :: Safe(s, aim)
  }
}
