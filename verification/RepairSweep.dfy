/** Which rollback tags a sweep over the records leaves behind, for any faults. */
module RepairSweep {
  import opened Basics
  import opened RepairModel

  type Faults = nat -> Fault

  /** A removal that begins at this step overlooks its tag: the inspection calls it absent, or the
      removal is ignored and the inspection after it calls it absent. */
  predicate Overlooks(faults: Faults, c: nat) {
    faults(c) == Missed || (faults(c + 1) == Ignored && faults(c + 2) == Missed)
  }

  /** What a sweep has come to: the tags that are there, the step it has reached, and the removals
      it has counted. */
  datatype Progress = Progress(there: set<Ref>, clock: nat, counted: nat)

  /** One record of the sweep: an inspection, and unless it finds nothing a removal and a second
      inspection. */
  function SweepOne(faults: Faults, p: Progress, record: Record): Progress {
    if record.rollback.None? then p
    else if record.rollback.value !in p.there || faults(p.clock) == Missed then p.(clock := p.clock + 1)
    else
      Progress(if Overlooks(faults, p.clock) then p.there else p.there - {record.rollback.value},
               p.clock + 3, p.counted + 1)
  }

  function Sweep(faults: Faults, p: Progress, records: seq<Record>): Progress {
    if records == [] then p
    else SweepOne(faults, Sweep(faults, p, records[..|records| - 1]), records[|records| - 1])
  }

  /** The step at which the sweep comes to a record. */
  function StepOf(faults: Faults, p: Progress, records: seq<Record>, i: nat): nat
    requires i <= |records|
  {
    Sweep(faults, p, records[..i]).clock
  }

  /** A tag stays exactly when it was there and every record that names it overlooks it. */
  lemma {:induction false} SurvivesIff(faults: Faults, p: Progress, records: seq<Record>, ref: Ref)
    ensures ref in Sweep(faults, p, records).there <==>
              (ref in p.there
               && forall i | 0 <= i < |records| && records[i].rollback == Some(ref) ::
                    Overlooks(faults, StepOf(faults, p, records, i)))
  {
    if records != [] {
      var n := |records| - 1;
      var before := records[..n];
      SurvivesIff(faults, p, before, ref);
      forall i | 0 <= i <= n
        ensures StepOf(faults, p, records, i) == Sweep(faults, p, before[..i]).clock
      {
        assert records[..i] == before[..i];
      }
      assert forall i | 0 <= i < n ::
          records[i] == before[i] && StepOf(faults, p, records, i) == StepOf(faults, p, before, i);
      assert before[..n] == before;
      OneSurvivesIff(faults, Sweep(faults, p, before), records[n], ref);
    }
  }

  lemma OneSurvivesIff(faults: Faults, p: Progress, record: Record, ref: Ref)
    ensures ref in SweepOne(faults, p, record).there <==>
              ref in p.there && (record.rollback == Some(ref) ==> Overlooks(faults, p.clock))
  {
  }

  /** All rollback tags are gone exactly when for each one that was there some record's removal
      does not overlook it. */
  ghost predicate NoneOverlooked(faults: Faults, p: Progress, records: seq<Record>) {
    forall ref | ref in p.there && ref in RollbackTags(records) ::
      exists i :: 0 <= i < |records| && records[i].rollback == Some(ref)
                  && !Overlooks(faults, StepOf(faults, p, records, i))
  }

  lemma SweptIff(faults: Faults, p: Progress, records: seq<Record>)
    ensures Sweep(faults, p, records).there !! RollbackTags(records) <==> NoneOverlooked(faults, p, records)
  {
    var left := Sweep(faults, p, records).there;
    forall ref
      ensures ref in left <==>
                (ref in p.there
                 && forall i | 0 <= i < |records| && records[i].rollback == Some(ref) ::
                      Overlooks(faults, StepOf(faults, p, records, i)))
    {
      SurvivesIff(faults, p, records, ref);
    }
  }

  /** Only rollback tags of the records can go. */
  lemma {:induction false} SweepOnlyTags(faults: Faults, p: Progress, records: seq<Record>)
    ensures p.there - RollbackTags(records) <= Sweep(faults, p, records).there <= p.there
  {
    if records != [] {
      var n := |records| - 1;
      SweepOnlyTags(faults, p, records[..n]);
      assert records == records[..n] + [records[n]];
      assert RollbackTags(records[..n]) <= RollbackTags(records);
      assert records[n].rollback.Some? ==> records[n].rollback.value in RollbackTags(records);
    }
  }

  predicate NeverMissed(faults: Faults, from: nat, to: nat) {
    forall c | from <= c < to :: faults(c) != Missed
  }

  /** When no inspection of the sweep misses, every rollback tag goes and the count is right. */
  lemma {:induction false} SweepsClean(faults: Faults, p: Progress, records: seq<Record>)
    requires NeverMissed(faults, p.clock, Sweep(faults, p, records).clock)
    ensures var q := Sweep(faults, p, records);
            q.clock >= p.clock && q.counted - p.counted == |p.there| - |q.there| && q.there !! RollbackTags(records)
  {
    if records != [] {
      var n := |records| - 1;
      var before := Sweep(faults, p, records[..n]);
      assert SweepOne(faults, before, records[n]).clock >= before.clock;
      SweepsClean(faults, p, records[..n]);
      assert records == records[..n] + [records[n]];
      assert RollbackTags(records) == RollbackTags(records[..n])
                + if records[n].rollback.Some? then {records[n].rollback.value} else {};
    }
  }

  /** What is left is the clean form exactly when nothing has been overlooked. */
  lemma CleanIff(faults: Faults, clock: nat, tags: map<Ref, Image>, left: map<Ref, Image>,
                 records: seq<Record>, preserved: Image)
    requires Shrunk(tags[FRONTEND := preserved], left)
    requires left.Keys == Sweep(faults, Progress(tags.Keys + {FRONTEND}, clock, 0), records).there
    ensures left == CleanTags(tags, records, preserved)
            <==> NoneOverlooked(faults, Progress(tags.Keys + {FRONTEND}, clock, 0), records)
  {
    var p := Progress(tags.Keys + {FRONTEND}, clock, 0);
    SweptIff(faults, p, records);
    SweepOnlyTags(faults, p, records);
    var clean := CleanTags(tags, records, preserved);
    assert clean.Keys == p.there - RollbackTags(records);
  }
}
