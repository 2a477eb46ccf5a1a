/** The media artifact row, its stored bytes, and the steps of the two programs that purge it: the
    operator's cleanup script (scripts/production_wordpress_roundtrip_cleanup.py) and the lifecycle
    service (app/domain/media_artifacts/lifecycle.py). */
module PurgeModel {
  import opened Basics

  type Time = real

  const LEASE: Time := 300.0
  const OPERATOR_RETRY: Time := 30.0
  const RETRY_MAX: Time := 3600.0

  datatype Status = Available | PurgePending | Purged

  datatype Blob = Blob(checksum: string, size: nat)

  datatype Audit = Audit(runs: nat, providerCalls: nat, ledgerEntries: nat, deliveries: nat)

  /** The claim pair of a row is set and cleared together. */
  datatype Claim = Claim(id: nat, expires: Time)

  datatype Row = Row(
    status: Status, purgedAt: Option<Time>, claim: Option<Claim>, attempts: nat, nextAttempt: Option<Time>,
    expiresAt: Time, blob: Blob)

  /** What the operator states about the artifact. */
  datatype Request = Request(blob: Blob, deliveries: nat)

  const MAX_BYTES := 67_108_864
  const MAX_DELIVERIES := 8

  /** The requests that the script passes on at all. */
  predicate Admitted(request: Request) {
    1 <= request.blob.size <= MAX_BYTES && 1 <= request.deliveries <= MAX_DELIVERIES
  }

  datatype Answer = Refused | AlreadyPurged | Claimed

  // ---------------------------------------------------------------- transactions on the row

  /** The operator's first transaction; `acked` lists the artifact's deliveries. */
  function OperatorAnswer(row: Row, bytes: Option<Blob>, acked: seq<bool>, audit: Audit, request: Request): Answer {
    if row.blob != request.blob || |acked| != request.deliveries || false in acked then Refused
    else if audit.runs != 1 || audit.deliveries != request.deliveries then Refused
    else if row.status == Purged && row.purgedAt.Some? then (if bytes.Some? then Refused else AlreadyPurged)
    else if row.status != Available || row.purgedAt.Some? || row.claim.Some? then Refused
    else if bytes != Some(request.blob) then Refused
    else Claimed
  }

  function ClaimRow(row: Row, id: nat, now: Time): Row {
    row.(status := PurgePending, claim := Some(Claim(id, now + LEASE)),
         attempts := row.attempts + 1, nextAttempt := None)
  }

  /** When the lifecycle service takes the row: its time to live is over, no retry is pending, and
      there is no claim or an expired one. */
  predicate SweeperTakes(row: Row, now: Time) {
    && row.expiresAt <= now && row.purgedAt.None? && row.status != Purged
    && (row.nextAttempt.None? || row.nextAttempt.value <= now)
    && (row.claim.None? || row.claim.value.expires <= now)
  }

  /** The condition of every later update: the row is still pending under the given claim. */
  predicate Holds(row: Row, id: nat) {
    row.claim.Some? && row.claim.value.id == id && row.status == PurgePending && row.purgedAt.None?
  }

  function FinalizeRow(row: Row, id: nat, now: Time): Row {
    if Holds(row, id) then row.(status := Purged, purgedAt := Some(now), claim := None, nextAttempt := None) else row
  }

  function ReleaseRow(row: Row, id: nat, retryAt: Time): Row {
    if Holds(row, id) then row.(claim := None, nextAttempt := Some(retryAt)) else row
  }

  function Power(n: nat): nat {
    if n == 0 then 1 else 2 * Power(n - 1)
  }

  /** The service waits longer after each attempt, up to an hour. */
  function RetryDelay(attempt: nat): (delay: Time)
    ensures OPERATOR_RETRY <= delay <= RETRY_MAX
  {
    if attempt >= 8 then RETRY_MAX
    else
      var delay := OPERATOR_RETRY * Power(if attempt == 0 then 0 else attempt - 1) as real;
      PowerPositive(if attempt == 0 then 0 else attempt - 1);
      if delay < RETRY_MAX then delay else RETRY_MAX
  }

  /** The delay begins at half a minute and doubles with each further attempt, up to an hour. */
  lemma RetryDoubles(attempt: nat)
    ensures RetryDelay(0) == RetryDelay(1) == OPERATOR_RETRY
    ensures attempt >= 1 ==>
              RetryDelay(attempt + 1) ==
                if 2.0 * RetryDelay(attempt) < RETRY_MAX then 2.0 * RetryDelay(attempt) else RETRY_MAX
  {
    assert Power(7) == 128;
    if 1 <= attempt < 8 {
      assert Power(attempt) == 2 * Power(attempt - 1);
    }
  }

  lemma {:induction false} PowerPositive(n: nat)
    ensures Power(n) >= 1
  {
    if n > 0 {
      PowerPositive(n - 1);
    }
  }

  // ---------------------------------------------------------------- runs and their steps

  datatype Agent = Operator | Sweeper

  /** How far a run has come since its claim was committed. */
  datatype Phase = Holding | Deleted | DeleteFailed | Finalized | Reported | Stopped

  /** A run since its claim; `won` says that its finalization changed the row. */
  datatype Run = Run(agent: Agent, lease: Time, attempt: nat, audit: Audit, phase: Phase, won: bool)

  /** The runs are numbered by their claims; a new claim gets the next number. */
  datatype World = World(row: Row, bytes: Option<Blob>, acked: seq<bool>, audit: Audit, runs: seq<Run>, now: Time)

  datatype DeleteEffect = Succeeds | FailsBefore | FailsAfter

  datatype Event =
    | Pass(time: Time)
    | Account(audit: Audit)
    | StartOperator(request: Request)
    | StartSweeper
    | Delete(run: nat, effect: DeleteEffect)
    | Finalize(run: nat)
    | Release(run: nat)
    | Check(run: nat)
    | Crash(run: nat)

  function AddRun(w: World, agent: Agent): World {
    w.(row := ClaimRow(w.row, |w.runs|, w.now),
       runs := w.runs + [Run(agent, w.now + LEASE, w.row.attempts + 1, w.audit, Holding, false)])
  }

  /** Events that do not fit the state change nothing, so every sequence of events is a run of
      the system. */
  function Step(w: World, e: Event): World {
    match e
    case Pass(time) => if time > 0.0 then w.(now := w.now + time) else w
    case Account(audit) => w.(audit := audit)
    case StartOperator(request) =>
      if Admitted(request) && OperatorAnswer(w.row, w.bytes, w.acked, w.audit, request).Claimed?
      then AddRun(w, Operator) else w
    case StartSweeper => if SweeperTakes(w.row, w.now) then AddRun(w, Sweeper) else w
    case _ => if e.run < |w.runs| then Advance(w, e, e.run, w.runs[e.run]) else w
  }

  function Advance(w: World, e: Event, i: nat, r: Run): World
    requires i < |w.runs| && r == w.runs[i]
  {
    match (r.phase, e)
    case (Holding, Delete(_, effect)) =>
      w.(bytes := if effect.FailsBefore? then w.bytes else None,
         runs := w.runs[i := r.(phase := if effect.Succeeds? then Deleted else DeleteFailed)])
    case (Deleted, Finalize(_)) =>
      var won := Holds(w.row, i);
      w.(row := FinalizeRow(w.row, i, w.now),
         runs := w.runs[i := r.(phase := if won then Finalized else Stopped, won := won)])
    case (DeleteFailed, Release(_)) =>
      var delay := if r.agent.Operator? then OPERATOR_RETRY else RetryDelay(r.attempt);
      w.(row := ReleaseRow(w.row, i, w.now + delay), runs := w.runs[i := r.(phase := Stopped)])
    case (Finalized, Check(_)) =>
      var clean := w.bytes.None? && w.audit == r.audit && w.row.status == Purged && w.row.purgedAt.Some?;
      w.(runs := w.runs[i := r.(phase := if clean then Reported else Stopped)])
    case (_, Crash(_)) => w.(runs := w.runs[i := r.(phase := Stopped)])
    case _ => w
  }

  function RunAll(w: World, events: seq<Event>): World
    decreases |events|
  {
    if events == [] then w else RunAll(Step(w, events[0]), events[1..])
  }

  /** A published artifact that no run has claimed yet. */
  predicate Fresh(w: World) {
    w.row.status == Available && w.row.purgedAt.None? && w.row.claim.None? && w.runs == []
  }
}
