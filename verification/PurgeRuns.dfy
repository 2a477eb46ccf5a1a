/** What every run of the purge programs keeps, for any interleaving, any failures and any clock. */
module PurgeRuns {
  import opened Basics
  import opened PurgeModel

  /** The row agrees with itself and with the claims issued so far. */
  predicate RowOk(w: World) {
    && (w.row.status == Available <==> w.runs == [])
    && (w.row.status == Purged <==> w.row.purgedAt.Some?)
    && (w.row.claim.Some? ==>
          && w.row.status == PurgePending
          && w.row.claim.value.id == |w.runs| - 1
          && w.row.claim.value.expires == w.runs[|w.runs| - 1].lease)
    && (w.row.status == Purged <==> w.runs != [] && w.runs[|w.runs| - 1].won)
  }

  predicate Working(r: Run) {
    r.phase == Holding || r.phase == Deleted || r.phase == DeleteFailed
  }

  predicate RunOk(w: World, i: nat)
    requires i < |w.runs|
  {
    var r := w.runs[i];
    // A run loses its claim only after its lease.
    && (Working(r) && !Holds(w.row, i) ==> i < |w.runs| - 1 && r.lease <= w.now)
    // Who has deleted the bytes, or finalized the row, finds them gone.
    && (r.phase == Deleted || r.won ==> w.bytes.None?)
    // Only the run of the last claim can have finalized the row.
    && (r.won ==> i == |w.runs| - 1)
    && (r.phase == Finalized || r.phase == Reported ==> r.won)
    && (Working(r) ==> !r.won)
  }

  predicate Inv(w: World) {
    RowOk(w) && forall i {:trigger w.runs[i]} {:trigger RunOk(w, i)} :: 0 <= i < |w.runs| ==> RunOk(w, i)
  }

  lemma FreshInv(w: World)
    requires Fresh(w)
    ensures Inv(w)
  {
  }

  lemma AddRunKeeps(w: World, agent: Agent)
    requires Inv(w) && w.row.status != Purged && w.row.purgedAt.None?
    requires w.row.claim.Some? ==> w.row.claim.value.expires <= w.now
    ensures Inv(AddRun(w, agent))
  {
  }

  lemma AdvanceKeeps(w: World, e: Event, n: nat)
    requires Inv(w) && n < |w.runs|
    requires e.Delete? || e.Finalize? || e.Release? || e.Check? || e.Crash?
    ensures Inv(Advance(w, e, n, w.runs[n]))
  {
  }

  lemma StepKeeps(w: World, e: Event)
    requires Inv(w)
    ensures Inv(Step(w, e))
  {
    var v := Step(w, e);
    match e
    case Pass(_) => assert forall i :: 0 <= i < |v.runs| ==> RunOk(w, i) ==> RunOk(v, i);
    case Account(_) => assert forall i :: 0 <= i < |v.runs| ==> RunOk(w, i) ==> RunOk(v, i);
    case StartOperator(_) => if v != w { AddRunKeeps(w, Operator); }
    case StartSweeper => if v != w { AddRunKeeps(w, Sweeper); }
    case _ => if e.run < |w.runs| { AdvanceKeeps(w, e, e.run); }
  }

  /** Every reachable state satisfies the invariant. */
  lemma {:induction false} RunKeeps(w: World, events: seq<Event>)
    requires Inv(w)
    ensures Inv(RunAll(w, events))
    decreases |events|
  {
    if events != [] {
      StepKeeps(w, events[0]);
      RunKeeps(Step(w, events[0]), events[1..]);
    }
  }

  // ---------------------------------------------------------------- deletion and fencing

  /** Bytes are removed only by a run whose claim has been committed, never from an available
      artifact.  The run still holds its claim exactly when no later run has claimed. */
  lemma DeletionNeedsClaim(w: World, e: Event)
    requires Inv(w) && w.bytes.Some? && Step(w, e).bytes != w.bytes
    ensures e.Delete? && e.run < |w.runs| && w.runs[e.run].phase == Holding && w.row.status != Available
    ensures Holds(w.row, e.run) <==> e.run == |w.runs| - 1
  {
  }

  /** Within its lease a run's claim cannot be taken away: its deletion is fenced and its
      finalization will succeed. */
  lemma LeaseFences(w: World, i: nat)
    requires Inv(w) && i < |w.runs| && Working(w.runs[i]) && w.now < w.runs[i].lease
    ensures Holds(w.row, i) && i == |w.runs| - 1
    ensures w.runs[i].phase == Deleted ==> Step(w, Finalize(i)).runs[i].won
  {
  }

  /** A published artifact with one acknowledged delivery. */
  function Published(blob: Blob): World {
    World(Row(Available, None, None, 0, None, 0.0, blob), Some(blob), [true], Audit(1, 0, 0, 1), [], 0.0)
  }

  /** The deletion itself is not fenced: when the script claims the artifact and then waits until
      its lease is over, and the service claims it again, the script still removes the bytes. */
  lemma StaleDeletion(blob: Blob)
    requires Admitted(Request(blob, 1))
    ensures
      var w := RunAll(Published(blob), [StartOperator(Request(blob, 1)), Pass(LEASE), StartSweeper]);
      && Fresh(Published(blob)) && |w.runs| == 2 && w.runs[0].phase == Holding
      && w.bytes == Some(blob) && w.row.claim == Some(Claim(1, LEASE + LEASE)) && !Holds(w.row, 0)
      && Step(w, Delete(0, Succeeds)).bytes.None?
  {
    var start := StartOperator(Request(blob, 1));
    RunAllThree(Published(blob), [start, Pass(LEASE), StartSweeper]);
    var claimed := Step(Published(blob), start);
    assert claimed == AddRun(Published(blob), Operator);
    var w := Step(Step(claimed, Pass(LEASE)), StartSweeper);
    assert w.runs[0].phase == Holding && w.row.claim == Some(Claim(1, LEASE + LEASE));
  }

  // ---------------------------------------------------------------- finalization

  /** The row becomes purged only through the run that holds its claim and has deleted the bytes;
      a finalization succeeds exactly when no later run has claimed, and otherwise changes nothing. */
  lemma OnlyHolderFinalizes(w: World, e: Event)
    requires Inv(w)
    ensures w.row.status != Purged && Step(w, e).row.status == Purged ==>
              && e.Finalize? && e.run < |w.runs| && w.runs[e.run].phase == Deleted
              && Holds(w.row, e.run) && w.bytes.None?
    ensures e.Finalize? && e.run < |w.runs| && w.runs[e.run].phase == Deleted ==>
              if e.run == |w.runs| - 1 then Step(w, e).row.status == Purged && Step(w, e).runs[e.run].won
              else Step(w, e).row == w.row && !Step(w, e).runs[e.run].won
  {
  }

  /** At most one run ever finalizes; a purged row has one that did, its bytes are gone, and only
      that run can report success. */
  lemma AtMostOneWinner(w: World)
    requires Inv(w)
    ensures forall i, j :: 0 <= i < |w.runs| && 0 <= j < |w.runs| && w.runs[i].won && w.runs[j].won ==> i == j
    ensures w.row.status == Purged <==> exists i :: 0 <= i < |w.runs| && w.runs[i].won
    ensures w.row.status == Purged ==> w.bytes.None?
    ensures forall i :: 0 <= i < |w.runs| && w.runs[i].phase == Reported ==> w.runs[i].won
  {
  }

  /** A purged artifact stays as it is, whatever happens. */
  lemma {:induction false} PurgedForEver(w: World, events: seq<Event>)
    requires Inv(w) && w.row.status == Purged
    ensures RunAll(w, events).row == w.row && RunAll(w, events).bytes.None?
    decreases |events|
  {
    AtMostOneWinner(w);
    if events != [] {
      var e := events[0];
      StepKeeps(w, e);
      assert forall i :: 0 <= i < |w.runs| ==> RunOk(w, i);
      assert Step(w, e).row == w.row;
      PurgedForEver(Step(w, e), events[1..]);
    }
  }

  // ---------------------------------------------------------------- audit rows

  /** The last checks of the winner fail only because of foreign accounting. */
  lemma WinnerReports(w: World, i: nat)
    requires Inv(w) && i < |w.runs| && w.runs[i].phase == Finalized
    ensures Step(w, Check(i)).runs[i].phase == Reported <==> w.audit == w.runs[i].audit
  {
  }

  // ---------------------------------------------------------------- the script alone

  predicate NoSweeper(events: seq<Event>) {
    forall e | e in events :: !e.StartSweeper?
  }

  /** The operator's script claims an artifact at most once in its life. */
  lemma OperatorClaimsFirst(w: World, request: Request)
    requires Inv(w) && Step(w, StartOperator(request)) != w
    ensures w.runs == [] && |Step(w, StartOperator(request)).runs| == 1
  {
  }

  /** Among runs of the script alone at most one reaches the deletion and at most one reports. */
  lemma {:induction false} ScriptAlone(w: World, events: seq<Event>)
    requires Inv(w) && |w.runs| <= 1 && NoSweeper(events)
    ensures |RunAll(w, events).runs| <= 1
    decreases |events|
  {
    if events != [] {
      assert !events[0].StartSweeper? && NoSweeper(events[1..]);
      StepKeeps(w, events[0]);
      ScriptAlone(Step(w, events[0]), events[1..]);
    }
  }

  /** In particular no finalization of the script is superseded. */
  lemma ScriptNeverSuperseded(w: World, events: seq<Event>)
    requires Fresh(w) && NoSweeper(events)
    ensures var v := RunAll(w, events);
            |v.runs| <= 1 && forall i :: 0 <= i < |v.runs| && Working(v.runs[i]) ==> Holds(v.row, i)
  {
    FreshInv(w);
    RunKeeps(w, events);
    ScriptAlone(w, events);
    var v := RunAll(w, events);
    assert forall i :: 0 <= i < |v.runs| ==> RunOk(v, i);
  }

  /** Some run of the script has claimed. */
  predicate ByOperator(w: World) {
    exists i | 0 <= i < |w.runs| :: w.runs[i].agent == Operator
  }

  lemma StepByOperator(w: World, e: Event)
    ensures Step(w, e).acked == w.acked
    ensures ByOperator(Step(w, e)) ==>
              ByOperator(w)
              || (1 <= |w.acked| <= MAX_DELIVERIES && (forall k | 0 <= k < |w.acked| :: w.acked[k]) && w.audit.runs == 1
                  && w.audit.deliveries == |w.acked| && w.bytes == Some(w.row.blob))
  {
    var v := Step(w, e);
    if ByOperator(v) {
      var i :| 0 <= i < |v.runs| && v.runs[i].agent == Operator;
      assert i < |w.runs| ==> w.runs[i].agent == v.runs[i].agent;
    }
  }

  /** Over every run, the script has claimed an artifact only if all its deliveries, at least one, are
      acknowledged. */
  lemma {:induction false} OperatorOnlyAcknowledged(w: World, events: seq<Event>)
    requires ByOperator(w) ==> 1 <= |w.acked| <= MAX_DELIVERIES && forall k | 0 <= k < |w.acked| :: w.acked[k]
    ensures var v := RunAll(w, events);
            && v.acked == w.acked
            && (ByOperator(v) ==> 1 <= |w.acked| <= MAX_DELIVERIES && forall k | 0 <= k < |w.acked| :: w.acked[k])
    decreases |events|
  {
    if events != [] {
      StepByOperator(w, events[0]);
      OperatorOnlyAcknowledged(Step(w, events[0]), events[1..]);
    }
  }

  /** After a failed deletion the holder gives its claim back, and the next attempt waits: half a minute
      after the script, and longer with each attempt after the service. */
  lemma FailedDeletionWaits(w: World, i: nat)
    requires i < |w.runs| && w.runs[i].phase == DeleteFailed && Holds(w.row, i)
    ensures var v, r := Step(w, Release(i)), w.runs[i];
            && v.row.claim == None && v.row.status == PurgePending && v.bytes == w.bytes
            && v.row.nextAttempt
               == Some(w.now + match r.agent case Operator => OPERATOR_RETRY case Sweeper => RetryDelay(r.attempt))
  {
  }

  /** The service takes a row when its time to live is over, unless it is purged, claimed by a run
      whose lease has not ended, or waiting for a retry. */
  lemma SweeperStartsIff(w: World)
    ensures Step(w, StartSweeper) != w <==>
              && w.row.status in {Available, PurgePending} && w.row.purgedAt.None? && w.now >= w.row.expiresAt
              && (forall time: Time | w.row.nextAttempt == Some(time) :: w.now >= time)
              && (forall other | w.row.claim == Some(other) :: w.now >= other.expires)
  {
    assert |AddRun(w, Sweeper).runs| == |w.runs| + 1;
  }

  // ---------------------------------------------------------------- progress

  predicate Due(row: Row, now: Time) {
    && row.expiresAt <= now
    && (row.nextAttempt.Some? ==> row.nextAttempt.value <= now)
    && (row.claim.Some? ==> row.claim.value.expires <= now)
  }

  /** The purge is complete, by one more run than before. */
  predicate Completed(w: World, v: World) {
    var i := |w.runs|;
    |v.runs| == i + 1 && v.runs[..i] == w.runs && v.runs[i].won && v.row.status == Purged && v.bytes.None?
  }

  /** A new run of the service that nothing disturbs wins. */
  lemma SweeperFinishes(w: World, i: nat)
    requires Inv(w) && w.row.status != Purged && Due(w.row, w.now) && i == |w.runs|
    ensures Completed(w, Step(Step(Step(w, StartSweeper), Delete(i, Succeeds)), Finalize(i)))
  {
    var b := Step(w, StartSweeper);
    assert b == AddRun(w, Sweeper) && b.runs[i].phase == Holding && Holds(b.row, i);
    var c := Step(b, Delete(i, Succeeds));
    assert c.runs[i].phase == Deleted && c.row == b.row;
  }

  /** No crash or failure leaves an artifact that cannot be purged: once its times have passed,
      one undisturbed run of the service completes the purge. */
  lemma NeverStuck(w: World, time: Time)
    requires Inv(w) && w.row.status != Purged && time > 0.0 && Due(w.row, w.now + time)
    ensures var i := |w.runs|;
            Completed(w, RunAll(w, [Pass(time), StartSweeper, Delete(i, Succeeds), Finalize(i)]))
  {
    var i := |w.runs|;
    var a := Step(w, Pass(time));
    assert a.row == w.row && a.now == w.now + time && a.runs == w.runs;
    StepKeeps(w, Pass(time));
    SweeperFinishes(a, i);
    RunAllFour(w, Pass(time), StartSweeper, Delete(i, Succeeds), Finalize(i));
  }

  lemma RunAllThree(w: World, events: seq<Event>)
    requires |events| == 3
    ensures RunAll(w, events) == Step(Step(Step(w, events[0]), events[1]), events[2])
  {
    var a := Step(w, events[0]);
    var b := Step(a, events[1]);
    assert RunAll(w, events) == RunAll(a, events[1..]);
    assert RunAll(a, events[1..]) == RunAll(b, events[1..][1..]);
    assert RunAll(b, events[1..][1..]) == RunAll(Step(b, events[2]), events[1..][1..][1..]);
  }

  lemma RunAllFour(w: World, a: Event, b: Event, c: Event, d: Event)
    ensures RunAll(w, [a, b, c, d]) == Step(Step(Step(Step(w, a), b), c), d)
  {
    assert [a, b, c, d][1..] == [b, c, d];
    RunAllThree(Step(w, a), [b, c, d]);
  }
}
