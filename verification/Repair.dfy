/** The repair itself, step by step, with every step free to fail. */
module Repair {
  import opened Basics
  import opened RepairModel
  import opened RepairAccount
  import opened RepairSweep

  const TERMINAL_FILES := [Marker, RollbackMap, Owner]

  class Host {
    var tags: map<Ref, Image>
    var files: map<Path, Payload>
    var lock: bool

    /** What befalls each step, in order of execution. */
    const faults: nat -> Fault
    var clock: nat

    /** Every state the current run has brought about. */
    ghost var history: seq<Snapshot>

    constructor (tags: map<Ref, Image>, evidence: Evidence, faults: nat -> Fault)
      ensures this.tags == tags && Evidence() == evidence && this.faults == faults
      ensures clock == 0 && history == []
    {
      this.tags := tags;
      files, lock := evidence.files, evidence.lock;
      this.faults := faults;
      clock := 0;
      history := [];
    }

    function Evidence(): Evidence
      reads this
    {
      RepairModel.Evidence(files, lock)
    }

    function Now(): Snapshot
      reads this
    {
      Snapshot(tags, Evidence())
    }

    // -------------------------------------------------------------- single steps

    /** A step that only looks: health, absence of one-off work, the checks before any change. */
    method Look() returns (ok: bool)
      modifies this`clock
      ensures clock == old(clock) + 1 && ok == !Raises(faults(old(clock)))
    {
      ok := !Raises(faults(clock));
      clock := clock + 1;
    }

    method Inspect(ref: Ref) returns (ok: bool, image: Option<Image>)
      modifies this`clock
      ensures clock == old(clock) + 1 && ok == !Raises(faults(old(clock)))
      ensures image == if faults(old(clock)) == Missed then None else Lookup(tags, ref)
    {
      ok := !Raises(faults(clock));
      image := if faults(clock) == Missed then None else Lookup(tags, ref);
      clock := clock + 1;
    }

    method Tag(source: Ref, ref: Ref) returns (ok: bool)
      requires source in tags
      modifies this`tags, this`clock, this`history
      ensures clock == old(clock) + 1 && ok == !Raises(faults(old(clock)))
      ensures tags == if Acts(faults(old(clock))) then old(tags)[ref := old(tags)[source]] else old(tags)
      ensures history == old(history) + [Now()]
    {
      if Acts(faults(clock)) {
        tags := tags[ref := tags[source]];
      }
      ok := !Raises(faults(clock));
      clock := clock + 1;
      history := history + [Now()];
    }

    method RemoveTag(ref: Ref) returns (ok: bool)
      modifies this`tags, this`clock, this`history
      ensures clock == old(clock) + 1 && ok == !Raises(faults(old(clock)))
      ensures tags == if Acts(faults(old(clock))) then old(tags) - {ref} else old(tags)
      ensures history == old(history) + [Now()]
    {
      if Acts(faults(clock)) {
        tags := tags - {ref};
      }
      ok := !Raises(faults(clock));
      clock := clock + 1;
      history := history + [Now()];
    }

    /** Removes a file and flushes its directory; the flush may fail after the removal. */
    method Unlink(path: Path) returns (ok: bool)
      modifies this`files, this`clock, this`history
      ensures clock == old(clock) + 1 && ok == !(path !in old(files) || Raises(faults(old(clock))))
      ensures files == if faults(old(clock)) == FailsBefore then old(files) else old(files) - {path}
      ensures history == old(history) + [Now()]
    {
      ok := path in files && !Raises(faults(clock));
      if faults(clock) != FailsBefore {
        files := files - {path};
      }
      clock := clock + 1;
      history := history + [Now()];
    }

    /** Removes the empty lock directory and looks whether it is gone. */
    method ReleaseLock() returns (ok: bool)
      modifies this`lock, this`clock, this`history
      ensures clock == old(clock) + 1
      ensures ok ==> !lock
      ensures !ok ==> !old(lock) || Owner in files || Raises(faults(old(clock))) || faults(old(clock)) == Ignored
      ensures lock == (old(lock) && (Owner in files || !Acts(faults(old(clock)))))
      ensures history == old(history) + [Now()]
    {
      ok := lock && Owner !in files && !Raises(faults(clock));
      lock := lock && (Owner in files || !Acts(faults(clock)));
      ok := ok && !lock;
      clock := clock + 1;
      history := history + [Now()];
    }

    method MakeLock() returns (ok: bool)
      modifies this`lock, this`clock, this`history
      ensures clock == old(clock) + 1 && ok == !Raises(faults(old(clock)))
      ensures lock == (old(lock) || faults(old(clock)) != FailsBefore)
      ensures history == old(history) + [Now()]
    {
      ok := !Raises(faults(clock));
      lock := lock || faults(clock) != FailsBefore;
      clock := clock + 1;
      history := history + [Now()];
    }

    /** Puts a file back unless it is there; the flush may fail after the file is in place. */
    method RestoreFile(path: Path, payload: Payload) returns (ok: bool)
      modifies this`files, this`clock, this`history
      ensures clock == old(clock) + 1
      ensures ok == (path in old(files) || !Raises(faults(old(clock))))
      ensures files == if path in old(files) || faults(old(clock)) == FailsBefore then old(files)
                       else old(files)[path := payload]
      ensures history == old(history) + [Now()]
    {
      ok := path in files || !Raises(faults(clock));
      if path !in files && faults(clock) != FailsBefore {
        files := files[path := payload];
      }
      clock := clock + 1;
      history := history + [Now()];
    }

    // -------------------------------------------------------------- the phases

    /** Tags the preserved image from its rollback tag, and looks whether that worked. */
    method TagFrontend(aim: Aim) returns (ok: bool)
      requires Evidence() == aim.before && LockLast(aim.before) && AllSafe(history, aim)
      modifies this`tags, this`clock, this`history
      ensures old(clock) < clock <= old(clock) + 3 && AllSafe(history, aim)
      ensures tags == old(tags) || tags == old(tags)[FRONTEND := aim.preserved]
      ensures ok ==> tags == old(tags)[FRONTEND := aim.preserved] && clock == old(clock) + 3
      ensures NamesImage(old(tags), aim) ==> NamesImage(tags, aim)
      ensures !ok && old(Lookup(tags, aim.rollback)) == Some(aim.preserved) ==> FaultIn(faults, old(clock), clock)
    {
      var start := clock;
      var target, rollback;
      ok, rollback := Inspect(aim.rollback);
      if !ok || rollback != Some(aim.preserved) {
        assert Lookup(tags, aim.rollback) == Some(aim.preserved) ==> faults(start) != Fine;
        return false;
      }
      ok := Tag(aim.rollback, FRONTEND);
      if !ok {
        assert faults(start + 1) != Fine;
        return;
      }
      ok, target := Inspect(FRONTEND);
      if !ok || target != Some(aim.preserved) {
        assert faults(start + 1) != Fine || faults(start + 2) != Fine;
        return false;
      }
    }

    /** Makes the release reference name the preserved image, from its rollback tag if need be. */
    method EnsureFrontend(aim: Aim) returns (ok: bool)
      requires Evidence() == aim.before && LockLast(aim.before) && AllSafe(history, aim)
      modifies this`tags, this`clock, this`history
      ensures clock >= old(clock) && AllSafe(history, aim)
      ensures tags == old(tags) || tags == old(tags)[FRONTEND := aim.preserved]
      ensures ok ==> tags == old(tags)[FRONTEND := aim.preserved]
      ensures ok ==> clock == SweepStart(faults, old(tags), aim.preserved, old(clock)) - 1
      ensures clock < SweepStart(faults, old(tags), aim.preserved, old(clock))
      ensures NamesImage(old(tags), aim) ==> NamesImage(tags, aim)
      ensures !ok && NamesImage(old(tags), aim) ==> FaultIn(faults, old(clock), clock)
    {
      var start, target := clock, None;
      ok, target := Inspect(FRONTEND);
      if !ok {
        assert faults(start) != Fine;
      } else if target == Some(aim.preserved) {
        assert tags == tags[FRONTEND := aim.preserved];
      } else {
        ok := TagFrontend(aim);
        assert Lookup(old(tags), FRONTEND) == Some(aim.preserved) ==> faults(start) != Fine;
      }
    }

    /** Removes one rollback tag if it is there, and looks again. */
    method RemoveRollbackTag(aim: Aim, record: Record) returns (ok: bool, removed: bool)
      requires Evidence() == aim.before && Intact(aim.before) && AllSafe(history, aim)
      requires record in aim.records && record.rollback.Some?
      requires Separate(aim.records) ==> Lookup(tags, FRONTEND) == Some(aim.preserved)
      modifies this`tags, this`clock, this`history
      ensures clock >= old(clock) && AllSafe(history, aim)
      ensures tags == old(tags) || tags == old(tags) - {record.rollback.value}
      ensures ok ==> Progress(tags.Keys, clock, if removed then 1 else 0)
                     == SweepOne(faults, Progress(old(tags.Keys), old(clock), 0), record)
      // The tag stays when the first inspection misses it, or when the removal is ignored and the
      // second inspection misses it; a removal is counted when the first inspection finds the tag.
      ensures ok ==> (record.rollback.value in tags <==>
                        record.rollback.value in old(tags)
                        && (faults(old(clock)) == Missed
                            || (faults(old(clock) + 1) == Ignored && faults(old(clock) + 2) == Missed)))
      ensures ok ==> (removed <==> record.rollback.value in old(tags) && faults(old(clock)) != Missed)
      ensures !ok ==> Prevented(faults, old(clock), clock, old(clock))
    {
      var rollback, start := record.rollback.value, clock;
      var image;
      removed := false;
      ok, image := Inspect(rollback);
      if !ok {
        assert faults(start) != Fine;
        return;
      }
      if image.None? {
        return;
      }
      ok := RemoveTag(rollback);
      if !ok {
        assert faults(start + 1) != Fine;
        return;
      }
      assert tags.Keys == old(tags.Keys) - {rollback} || tags == old(tags);
      ok, image := Inspect(rollback);
      if !ok || image.Some? {
        assert Raises(faults(start + 2)) || faults(start + 1) == Ignored;
        return false, false;
      }
      removed := true;
    }

    /** Removes every rollback tag of the records that is there. */
    method RemoveRollbackTags(aim: Aim) returns (ok: bool, removed: nat)
      requires Evidence() == aim.before && Intact(aim.before) && AllSafe(history, aim)
      requires Lookup(tags, FRONTEND) == Some(aim.preserved)
      modifies this`tags, this`clock, this`history
      ensures clock >= old(clock) && AllSafe(history, aim)
      ensures Thinned(old(tags), tags, aim.records)
      ensures ok ==> Progress(tags.Keys, clock, removed)
                     == Sweep(faults, Progress(old(tags.Keys), old(clock), 0), aim.records)
      ensures !ok ==> Prevented(faults, old(clock), clock, old(clock))
    {
      removed := 0;
      ghost var p := Progress(tags.Keys, clock, 0);
      var i := 0;
      while i < |aim.records|
        invariant i <= |aim.records| && clock >= old(clock) && AllSafe(history, aim)
        invariant Thinned(old(tags), tags, aim.records)
        invariant Progress(tags.Keys, clock, removed) == Sweep(faults, p, aim.records[..i])
      {
        ghost var before := tags;
        ghost var at := Progress(tags.Keys, clock, 0);
        SweepNext(faults, p, aim.records, i);
        if aim.records[i].rollback.Some? {
          var one;
          ok, one := RemoveRollbackTag(aim, aim.records[i]);
          ThinnedMore(old(tags), before, tags, aim.records, aim.records[i]);
          if !ok {
            return;
          }
          SweepOneCounts(faults, at, removed, aim.records[i]);
          removed := removed + if one then 1 else 0;
        }
        i := i + 1;
      }
      assert aim.records[..i] == aim.records;
      ok := true;
    }

    /** Removes the failure marker and the rollback map, in this order. */
    method UnlinkRecords(aim: Aim) returns (ok: bool)
      requires Evidence() == aim.before && Intact(aim.before) && AllSafe(history, aim)
      requires Separate(aim.records) ==> Lookup(tags, FRONTEND) == Some(aim.preserved)
      modifies this`files, this`clock, this`history
      ensures clock >= old(clock) && AllSafe(history, aim) && Shrunk(aim.before.files, files)
      ensures ok == (!Raises(faults(old(clock))) && !Raises(faults(old(clock) + 1)))
      ensures ok ==> files.Keys == {Owner} && clock == old(clock) + 2
      ensures ok ==>
                history == old(history) + [Snapshot(tags, RepairModel.Evidence(old(files) - {Marker}, lock)), Now()]
      ensures !ok ==> Prevented(faults, old(clock), clock, old(clock))
    {
      ok := Unlink(Marker);
      if !ok {
        assert Raises(faults(old(clock)));
        return;
      }
      ok := Unlink(RollbackMap);
      assert !ok ==> faults(old(clock) + 1) != Fine && faults(old(clock) + 1) != Missed;
    }

    /** Removes the owner proof, then the lock directory. */
    method UnlinkLock(aim: Aim) returns (ok: bool)
      requires lock && files.Keys == {Owner} && Shrunk(aim.before.files, files) && AllSafe(history, aim)
      requires Separate(aim.records) ==> Lookup(tags, FRONTEND) == Some(aim.preserved)
      modifies this`files, this`lock, this`clock, this`history
      ensures clock >= old(clock) && AllSafe(history, aim) && Shrunk(aim.before.files, files)
      ensures ok ==> files == map[] && !lock
      ensures ok ==> history == old(history) + [Snapshot(tags, RepairModel.Evidence(map[], true)), Now()]
      ensures !ok ==> Prevented(faults, old(clock), clock, old(clock)) && LockLast(Evidence())
    {
      ok := Unlink(Owner);
      if !ok {
        assert Raises(faults(old(clock)));
        return;
      }
      ok := ReleaseLock();
      assert !ok ==> faults(old(clock) + 1) != Fine && faults(old(clock) + 1) != Missed;
    }

    /** Removes the evidence and releases the lock, the marker first and the lock last.  Between
        the removals it looks twice; an error there that the compensation does not catch escapes. */
    method Terminalize(aim: Aim) returns (ok: bool, escaped: bool)
      requires Evidence() == aim.before && Intact(aim.before) && AllSafe(history, aim)
      requires Separate(aim.records) ==> Lookup(tags, FRONTEND) == Some(aim.preserved)
      modifies this`files, this`lock, this`clock, this`history
      ensures clock >= old(clock) && AllSafe(history, aim) && !(ok && escaped)
      ensures ok ==> files == map[] && !lock
      ensures !ok ==> Prevented(faults, old(clock), clock, old(clock))
      ensures !ok ==> Shrunk(aim.before.files, files) && LockLast(Evidence())
      ensures escaped <==> EscapesFrom(faults, old(clock))
      ensures escaped ==> files.Keys == {Owner} && lock
    {
      escaped := false;
      ok := UnlinkRecords(aim);
      if ok {
        ok, escaped := LookTwice();
        if ok {
          ok := UnlinkLock(aim);
        }
      }
    }

    /** The looks at health and at one-off work, and whether an error there escapes. */
    method LookTwice() returns (ok: bool, escaped: bool)
      modifies this`clock
      ensures clock >= old(clock) && !(ok && escaped)
      ensures ok ==> !Raises(faults(old(clock))) && !Raises(faults(old(clock) + 1))
      ensures !ok ==> Prevented(faults, old(clock), clock, old(clock))
      ensures escaped <==> faults(old(clock)) == Escapes
                           || (!Raises(faults(old(clock))) && faults(old(clock) + 1) == Escapes)
    {
      var start := clock;
      ok := Look();
      if !ok {
        assert Raises(faults(start));
        return false, faults(start) == Escapes;
      }
      ok := Look();
      assert !ok ==> Raises(faults(start + 1));
      escaped := !ok && faults(start + 1) == Escapes;
    }

    /** Puts back whatever is missing, the lock directory first. */
    method Restore(aim: Aim) returns (ok: bool)
      requires Intact(aim.before) && Shrunk(aim.before.files, files) && LockLast(Evidence()) && AllSafe(history, aim)
      requires Separate(aim.records) ==> Lookup(tags, FRONTEND) == Some(aim.preserved)
      modifies this`files, this`lock, this`clock, this`history
      ensures clock >= old(clock) && AllSafe(history, aim)
      ensures ok ==> Evidence() == aim.before
      ensures !ok ==> FaultIn(faults, old(clock), clock)
    {
      ok := true;
      if !lock {
        ok := MakeLock();
        if !ok {
          assert faults(old(clock)) != Fine;
          return;
        }
      }
      var i := 0;
      while i < |TERMINAL_FILES|
        invariant i <= |TERMINAL_FILES| && clock >= old(clock) && lock && AllSafe(history, aim)
        invariant Shrunk(aim.before.files, files) && forall k | 0 <= k < i :: TERMINAL_FILES[k] in files
      {
        var start := clock;
        ok := RestoreFile(TERMINAL_FILES[i], aim.before.files[TERMINAL_FILES[i]]);
        if !ok {
          assert faults(start) != Fine;
          return;
        }
        i := i + 1;
      }
      assert TERMINAL_FILES[0] in files && TERMINAL_FILES[1] in files && TERMINAL_FILES[2] in files;
      ok := true;
    }

    /** Repairs the release reference and removes the rollback tags; no evidence is touched. */
    method RepairTags(aim: Aim) returns (ok: bool, removed: nat)
      requires Evidence() == aim.before && Intact(aim.before) && AllSafe(history, aim)
      modifies this`tags, this`clock, this`history
      ensures clock >= old(clock) && AllSafe(history, aim)
      ensures Partway(old(tags), tags, aim.records, aim.preserved)
      ensures ok ==>
                Swept(faults, old(tags), tags, Start(faults, old(tags), aim.preserved, old(clock)),
                      Progress(tags.Keys, clock, removed), aim.records, aim.preserved)
      ensures ok && Separate(aim.records) ==> Lookup(tags, FRONTEND) == Some(aim.preserved)
      ensures ok ==> clock >= SweepStart(faults, old(tags), aim.preserved, old(clock))
      ensures !ok && NamesImage(old(tags), aim) ==>
                Prevented(faults, old(clock), clock, SweepStart(faults, old(tags), aim.preserved, old(clock)))
      ensures NamesImage(old(tags), aim) && Separate(aim.records) ==> NamesImage(tags, aim)
    {
      removed := 0;
      ok := EnsureFrontend(aim);
      if ok {
        ok := Look();
        assert !ok ==> faults(clock - 1) != Fine;
      }
      if ok {
        ghost var tagged := tags;
        assert tagged.Keys == old(tags).Keys + {FRONTEND};
        ok, removed := RemoveRollbackTags(aim);
        if ok {
          CleanIff(faults, SweepStart(faults, old(tags), aim.preserved, old(clock)), old(tags), tags,
                   aim.records, aim.preserved);
        }
      }
    }

    /** The terminal steps with their compensation. */
    method Close(aim: Aim, removed: nat) returns (outcome: Outcome)
      requires Evidence() == aim.before && Intact(aim.before) && AllSafe(history, aim)
      requires Separate(aim.records) ==> Lookup(tags, FRONTEND) == Some(aim.preserved)
      modifies this`files, this`lock, this`clock, this`history
      ensures AllSafe(history, aim) && Closed(faults, aim, Evidence(), old(clock), clock, outcome, removed)
    {
      var ok, escaped := Terminalize(aim);
      if ok {
        return Done(removed);
      }
      if escaped {
        return Escaped;
      }
      ghost var mid := clock;
      ok := Restore(aim);
      return if ok then RolledBack else RestoreFailed;
    }

    /** The tags, and a last look before the evidence is touched. */
    method Prepare(aim: Aim) returns (ok: bool, removed: nat, ghost end: Progress)
      requires Evidence() == aim.before && Intact(aim.before) && AllSafe(history, aim)
      modifies this`tags, this`clock, this`history
      ensures AllSafe(history, aim) && Prepared(faults, aim, old(tags), tags, old(clock), clock, ok, end)
      ensures ok ==> end.counted == removed && (Separate(aim.records) ==> Lookup(tags, FRONTEND) == Some(aim.preserved))
    {
      ok, removed := RepairTags(aim);
      end := Progress(tags.Keys, clock, removed);
      if ok {
        ok := Look();
        assert !ok ==> Raises(faults(clock - 1));
      }
    }

    /** Everything that changes something, once the first checks have passed. */
    method Proceed(aim: Aim) returns (outcome: Outcome, ghost end: Progress)
      requires Evidence() == aim.before && Intact(aim.before) && AllSafe(history, aim)
      modifies this`tags, this`files, this`lock, this`clock, this`history
      ensures AllSafe(history, aim) && Account(faults, aim, old(tags), Now(), old(clock), clock, outcome, end)
    {
      ghost var from, begin := tags, clock;
      var ok, removed;
      ok, removed, end := Prepare(aim);
      ghost var mid := clock;
      if ok {
        outcome := Close(aim, removed);
        AccountClosed(faults, aim, from, Now(), begin, mid, clock, outcome, removed, end);
      } else {
        outcome := Refused;
        AccountRefused(faults, aim, from, tags, begin, clock, end);
      }
    }

    /** The whole repair, from the first check to the released lock. */
    method Repair(preserved: Image) returns (outcome: Outcome, ghost end: Progress)
      modifies this
      ensures clock > old(clock)
      // A run that fails its first checks or finds no usable evidence changes nothing.
      ensures Raises(faults(old(clock))) || !Bound(old(Evidence()), preserved) ==>
                outcome.Refused? && Now() == old(Now()) && history == []
      // For any other run see Account; and every state it goes through is safe.
      ensures !Raises(faults(old(clock))) && Bound(old(Evidence()), preserved) ==>
                var aim := AimOf(old(Evidence()), preserved);
                AllSafe(history, aim) && Account(faults, aim, old(tags), Now(), old(clock) + 1, clock, outcome, end)
    {
      history := [];
      end := Progress({}, clock, 0);
      var ok := Look();
      if !ok || !Bound(Evidence(), preserved) {
        return Refused, end;
      }
      outcome, end := Proceed(AimOf(Evidence(), preserved));
    }

    /** A failed run, repeated when nothing goes wrong any more, ends where one clean run from the
        original state would have ended. */
    method RepairTwice(preserved: Image) returns (first: Outcome, second: Outcome, ghost mid: nat)
      requires Startable(Now(), preserved) && Separate(RecordsOf(Evidence()))
      modifies this
      ensures old(clock) <= mid <= clock
      ensures (first.Refused? || first.RolledBack?) && !FaultIn(faults, mid, clock) ==>
                && second.Done? && Evidence() == RepairModel.Evidence(map[], false)
                && tags == CleanTags(old(tags), RecordsOf(old(Evidence())), preserved)
                && Lookup(tags, FRONTEND) == Some(preserved)
    {
      ghost var end, records := Progress({}, 0, 0), RecordsOf(Evidence());
      first, end := Repair(preserved);
      mid, second := clock, first;
      if first.Refused? || first.RolledBack? {
        PartwayCleansAlike(old(tags), tags, records, preserved);
        CleanKeepsFrontend(tags, records, preserved);
        second := RepairFinely(preserved);
      }
    }

    /** A run without faults from a state it can start from succeeds completely. */
    method RepairFinely(preserved: Image) returns (outcome: Outcome)
      requires Startable(Now(), preserved)
      modifies this
      ensures clock >= old(clock)
      ensures !FaultIn(faults, old(clock), clock) ==>
                && outcome.Done? && Evidence() == RepairModel.Evidence(map[], false)
                && tags == CleanTags(old(tags), RecordsOf(old(Evidence())), preserved)
    {
      ghost var records, begin := RecordsOf(Evidence()), Start(faults, tags, preserved, clock + 1);
      ghost var end;
      outcome, end := Repair(preserved);
      assert !FaultIn(faults, old(clock), clock) ==> faults(old(clock)) == Fine;
      if !FaultIn(faults, old(clock), clock) {
        SweepsClean(faults, begin, records);
        SweptIff(faults, begin, records);
      }
    }
  }

  /** A run whose one inspection of the sweep misses: it completes, and leaves the rollback tag
      behind. */
  method OverlookedTag() returns (host: Host)
    ensures Lookup(host.tags, "r") == Some("i") && host.Evidence() == RepairModel.Evidence(map[], false)
  {
    var records := [Record(FRONTEND, Some("r"), Some("i"))];
    var evidence := RepairModel.Evidence(map[Marker := Text(""), RollbackMap := Records(records),
                                    Owner := Text("")], true);
    var faults: Faults := c => if c == 3 then Missed else Fine;
    host := new Host(map[FRONTEND := "i", "r" := "i"], evidence, faults);
    assert FrontendRecords(records[1..]) == [] && FrontendRollback(records, "i") == Some("r");
    ghost var from := host.tags;
    ghost var begin := Start(faults, from, "i", 1);
    var outcome;
    ghost var end;
    outcome, end := host.Repair("i");
    assert begin == Progress({FRONTEND, "r"}, 3, 0);
    assert Overlooks(faults, 3) && StepOf(faults, begin, records, 0) == 3;
    SurvivesIff(faults, begin, records, "r");
  }

  /** Some tags of the records are gone, and nothing else has changed. */
  ghost predicate Thinned(from: map<Ref, Image>, to: map<Ref, Image>, records: seq<Record>) {
    Shrunk(from, to) && from.Keys - RollbackTags(records) <= to.Keys
  }

  lemma ThinnedMore(from: map<Ref, Image>, mid: map<Ref, Image>, to: map<Ref, Image>,
                    records: seq<Record>, record: Record)
    requires Thinned(from, mid, records) && record in records && record.rollback.Some?
    requires to == mid || to == mid - {record.rollback.value}
    ensures Thinned(from, to, records)
  {
    assert record.rollback.value in RollbackTags(records);
  }

  lemma SweepNext(faults: Faults, p: Progress, records: seq<Record>, i: nat)
    requires i < |records|
    ensures Sweep(faults, p, records[..i + 1]) == SweepOne(faults, Sweep(faults, p, records[..i]), records[i])
  {
    assert records[..i + 1][..i] == records[..i];
  }

  lemma SweepOneCounts(faults: Faults, p: Progress, counted: nat, record: Record)
    requires p.counted == 0
    ensures SweepOne(faults, p.(counted := counted), record)
            == SweepOne(faults, p, record).(counted := counted + SweepOne(faults, p, record).counted)
  {
  }
}
