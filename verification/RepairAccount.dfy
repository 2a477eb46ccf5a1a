/** What a whole run of the repair reports, for every pattern of faults. */
module RepairAccount {
  import opened Basics
  import opened RepairModel
  import opened RepairSweep

  ghost predicate FaultIn(faults: Faults, from: nat, to: nat) {
    exists c | from <= c < to :: faults(c) != Fine
  }

  ghost predicate FaultsTwice(faults: Faults, from: nat, to: nat) {
    exists mid: nat | from <= mid <= to :: FaultIn(faults, from, mid) && FaultIn(faults, mid, to)
  }

  /** A fault strikes that is no missed inspection of the sweep, which begins at the third step. */
  ghost predicate Prevented(faults: Faults, from: nat, to: nat, sweep: nat) {
    exists c | from <= c < to :: faults(c) != Fine && (faults(c) == Missed ==> c < sweep)
  }

  /** An error that the compensation does not catch strikes one of the two looks between the
      removals, which begin at this step. */
  predicate EscapesFrom(faults: Faults, begin: nat) {
    && !Raises(faults(begin)) && !Raises(faults(begin + 1))
    && (faults(begin + 2) == Escapes || (!Raises(faults(begin + 2)) && faults(begin + 3) == Escapes))
  }

  /** The step at which the sweep begins: the release reference is right and seen to be right, or
      it takes three more steps to make it so. */
  function SweepStart(faults: Faults, tags: map<Ref, Image>, preserved: Image, begin: nat): nat {
    begin + (if Lookup(tags, FRONTEND) == Some(preserved) && faults(begin) != Missed then 1 else 4) + 1
  }

  /** Where the sweep begins, and with which tags. */
  function Start(faults: Faults, tags: map<Ref, Image>, preserved: Image, begin: nat): Progress {
    Progress(tags.Keys + {FRONTEND}, SweepStart(faults, tags, preserved, begin), 0)
  }

  /** What a run that has swept the tags from this beginning has made of them. */
  ghost predicate Swept(faults: Faults, from: map<Ref, Image>, to: map<Ref, Image>, begin: Progress, end: Progress,
                        records: seq<Record>, preserved: Image)
  {
    && end == Sweep(faults, begin, records) && to.Keys == end.there
    && (to == CleanTags(from, records, preserved) <==> NoneOverlooked(faults, begin, records))
  }

  /** The tags, up to the point where the evidence may be touched. */
  ghost predicate Prepared(faults: Faults, aim: Aim, from: map<Ref, Image>, to: map<Ref, Image>,
                           begin: nat, clock: nat, ok: bool, end: Progress)
  {
    && begin <= clock && Partway(from, to, aim.records, aim.preserved)
    && (ok ==>
          && Swept(faults, from, to, Start(faults, from, aim.preserved, begin), end, aim.records, aim.preserved)
          && clock == end.clock + 1 && clock >= SweepStart(faults, from, aim.preserved, begin))
    && (!ok && NamesImage(from, aim) ==>
          Prevented(faults, begin, clock, SweepStart(faults, from, aim.preserved, begin)))
    && (NamesImage(from, aim) && Separate(aim.records) ==> NamesImage(to, aim))
  }

  /** The terminal steps with their compensation. */
  ghost predicate Closed(faults: Faults, aim: Aim, after: Evidence, begin: nat, clock: nat,
                         outcome: Outcome, removed: nat) {
    && begin <= clock && !outcome.Refused?
    && (outcome.Done? ==> after == Evidence(map[], false) && outcome.removedTags == removed)
    && (outcome.RolledBack? ==> after == aim.before)
    && (outcome.RestoreFailed? ==> FaultsTwice(faults, begin, clock))
    && (outcome.Escaped? <==> EscapesFrom(faults, begin))
    && (outcome.Escaped? ==> after.files.Keys == {Owner} && after.lock)
    && (!outcome.Done? ==> Prevented(faults, begin, clock, begin))
  }

  /** A whole run that began with these tags at this step. */
  ghost predicate Account(faults: Faults, aim: Aim, from: map<Ref, Image>, now: Snapshot,
                          begin: nat, clock: nat, outcome: Outcome, end: Progress)
  {
    && begin <= clock && Partway(from, now.tags, aim.records, aim.preserved)
    // On success the evidence and the lock are gone.
    && (outcome.Done? ==> now.evidence == Evidence(map[], false) && outcome.removedTags == end.counted)
    // A run that gets to the evidence has swept the tags: they are clean exactly when no removal
    // has been overlooked.  An error escapes exactly at the looks between the removals.
    && (!outcome.Refused? ==>
          && Swept(faults, from, now.tags, Start(faults, from, aim.preserved, begin), end, aim.records, aim.preserved)
          && end.clock <= clock && (outcome.Escaped? <==> EscapesFrom(faults, end.clock + 1)))
    // A failure leaves the evidence as it was, unless an error escapes or putting the evidence
    // back fails too.
    && (outcome.Refused? || outcome.RolledBack? ==> now.evidence == aim.before)
    && (outcome.Escaped? ==> !Intact(now.evidence))
    && (outcome.RestoreFailed? ==> FaultsTwice(faults, begin, clock))
    // While some tag names the image, only a fault prevents success, and no missed inspection of
    // the sweep; and a failure that keeps the evidence leaves such a tag.
    && (NamesImage(from, aim) && !outcome.Done? ==>
          Prevented(faults, begin, clock, SweepStart(faults, from, aim.preserved, begin)))
    && (NamesImage(from, aim) && Separate(aim.records) ==> NamesImage(now.tags, aim))
  }

  lemma AccountRefused(faults: Faults, aim: Aim, from: map<Ref, Image>, to: map<Ref, Image>,
                       begin: nat, clock: nat, end: Progress)
    requires Prepared(faults, aim, from, to, begin, clock, false, end)
    ensures Account(faults, aim, from, Snapshot(to, aim.before), begin, clock, Refused, end)
  {
  }

  lemma AccountClosed(faults: Faults, aim: Aim, from: map<Ref, Image>, now: Snapshot,
                      begin: nat, mid: nat, clock: nat, outcome: Outcome, removed: nat, end: Progress)
    requires Prepared(faults, aim, from, now.tags, begin, mid, true, end) && end.counted == removed
    requires Closed(faults, aim, now.evidence, mid, clock, outcome, removed)
    ensures Account(faults, aim, from, now, begin, clock, outcome, end)
  {
    if outcome.Done? {
    } else {
      PreventedWider(faults, begin, mid, clock, SweepStart(faults, from, aim.preserved, begin));
      if outcome.RestoreFailed? {
        FaultsTwiceWider(faults, begin, mid, clock);
      }
    }
  }

  lemma FaultsTwiceWider(faults: Faults, begin: nat, mid: nat, clock: nat)
    requires begin <= mid
    ensures FaultsTwice(faults, mid, clock) ==> FaultsTwice(faults, begin, clock)
  {
    if FaultsTwice(faults, mid, clock) {
      var m: nat :| mid <= m <= clock && FaultIn(faults, mid, m) && FaultIn(faults, m, clock);
      assert FaultIn(faults, begin, m);
    }
  }

  lemma PreventedWider(faults: Faults, begin: nat, mid: nat, clock: nat, sweep: nat)
    requires begin <= mid && sweep <= mid
    ensures Prevented(faults, mid, clock, mid) ==> Prevented(faults, begin, clock, sweep)
  {
  }
}
