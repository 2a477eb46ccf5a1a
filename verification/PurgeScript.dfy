/** The cleanup script's transactions and its deletion, as it performs them on one artifact. */
module PurgeScript {
  import opened Basics
  import opened PurgeModel

  datatype Outcome = NotClaimed(answer: Answer) | DeletionFailed | Superseded | ChecksFailed | Success

  class Artifact {
    var status: Status
    var purgedAt: Option<Time>
    var claim: Option<Claim>
    var attempts: nat
    var nextAttempt: Option<Time>
    var bytes: Option<Blob>
    const expiresAt: Time
    const blob: Blob

    constructor (row: Row, bytes: Option<Blob>)
      ensures Row() == row && this.bytes == bytes
    {
      status, purgedAt, claim := row.status, row.purgedAt, row.claim;
      attempts, nextAttempt := row.attempts, row.nextAttempt;
      expiresAt, blob := row.expiresAt, row.blob;
      this.bytes := bytes;
    }

    function Row(): Row
      reads this
    {
      PurgeModel.Row(status, purgedAt, claim, attempts, nextAttempt, expiresAt, blob)
    }

    /** The first transaction, up to its commit. */
    method Claim(acked: seq<bool>, audit: Audit, request: Request, id: nat, now: Time) returns (answer: Answer)
      modifies this`status, this`claim, this`attempts, this`nextAttempt
      ensures answer == OperatorAnswer(old(Row()), bytes, acked, audit, request)
      // It claims exactly what the request describes: an artifact with these bytes and this many
      // deliveries, all acknowledged, with the audit counts to match, that nobody has purged or claimed.
      ensures answer == Claimed <==>
                && blob == request.blob && bytes == Some(request.blob)
                && |acked| == request.deliveries && (forall k | 0 <= k < |acked| :: acked[k])
                && audit.runs == 1 && audit.deliveries == request.deliveries
                && old(status) == Available && old(purgedAt).None? && old(claim).None?
      ensures answer == AlreadyPurged <==>
                && blob == request.blob && bytes.None?
                && |acked| == request.deliveries && (forall k | 0 <= k < |acked| :: acked[k])
                && audit.runs == 1 && audit.deliveries == request.deliveries
                && old(status) == Purged && old(purgedAt).Some?
      ensures answer == Claimed ==>
                && status == PurgePending && claim == Some(PurgeModel.Claim(id, now + LEASE))
                && attempts == old(attempts) + 1 && nextAttempt.None?
      ensures answer != Claimed ==> Row() == old(Row())
    {
      if blob != request.blob || |acked| != request.deliveries {
        return Refused;
      }
      var i := 0;
      while i < |acked|
        invariant i <= |acked| && false !in acked[..i]
      {
        if !acked[i] {
          return Refused;
        }
        i := i + 1;
      }
      if audit.runs != 1 || audit.deliveries != request.deliveries {
        return Refused;
      }
      if status == Purged && purgedAt.Some? {
        return if bytes.Some? then Refused else AlreadyPurged;
      }
      if status != Available || purgedAt.Some? || claim.Some? || bytes != Some(request.blob) {
        return Refused;
      }
      status := PurgePending;
      claim := Some(PurgeModel.Claim(id, now + LEASE));
      attempts := attempts + 1;
      nextAttempt := None;
      return Claimed;
    }

    method DeleteBytes(effect: DeleteEffect) returns (ok: bool)
      modifies this`bytes
      ensures ok == effect.Succeeds?
      ensures bytes == if effect.FailsBefore? then old(bytes) else None
    {
      if !effect.FailsBefore? {
        bytes := None;
      }
      ok := effect.Succeeds?;
    }

    /** The conditional update after a successful deletion; counts the rows it changed. */
    method UpdateFinalized(id: nat, now: Time) returns (rowcount: nat)
      modifies this`status, this`purgedAt, this`claim, this`nextAttempt
      ensures Row() == FinalizeRow(old(Row()), id, now)
      ensures rowcount <= 1
      ensures rowcount == 1 <==>
                && old(status) == PurgePending && old(purgedAt).None?
                && old(claim).Some? && old(claim).value.id == id
      ensures rowcount == 1 ==> status == Purged && purgedAt == Some(now) && claim.None? && nextAttempt.None?
      ensures rowcount == 0 ==> Row() == old(Row())
    {
      rowcount := 0;
      if claim.Some? && claim.value.id == id && status == PurgePending && purgedAt.None? {
        status := Purged;
        purgedAt := Some(now);
        claim := None;
        nextAttempt := None;
        rowcount := 1;
      }
    }

    /** The conditional update after a failed deletion. */
    method UpdateReleased(id: nat, retryAt: Time)
      modifies this`claim, this`nextAttempt
      ensures Row() == ReleaseRow(old(Row()), id, retryAt)
      ensures if status == PurgePending && purgedAt.None? && old(claim).Some? && old(claim).value.id == id
              then claim.None? && nextAttempt == Some(retryAt)
              else claim == old(claim) && nextAttempt == old(nextAttempt)
    {
      if claim.Some? && claim.value.id == id && status == PurgePending && purgedAt.None? {
        claim := None;
        nextAttempt := Some(retryAt);
      }
    }

    /** The script undisturbed: it succeeds exactly when it can claim and delete and the audit counts
        are the same afterwards; its other checks never fail; and a failed deletion leaves the
        artifact pending for a retry. */
    method Cleanup(acked: seq<bool>, audit: Audit, after: Audit, request: Request,
                   id: nat, effect: DeleteEffect, now: Time)
      returns (outcome: Outcome)
      modifies this
      ensures var answer := OperatorAnswer(old(Row()), old(bytes), acked, audit, request);
              if !answer.Claimed? then outcome == NotClaimed(answer) && Row() == old(Row()) && bytes == old(bytes)
              else if !effect.Succeeds? then outcome == DeletionFailed
              else outcome == if after == audit then Success else ChecksFailed
      ensures outcome == Success <==>
                && effect == Succeeds && after == audit
                && blob == request.blob && old(bytes) == Some(request.blob)
                && |acked| == request.deliveries && (forall k | 0 <= k < |acked| :: acked[k])
                && audit.runs == 1 && audit.deliveries == request.deliveries
                && old(status) == Available && old(purgedAt).None? && old(claim).None?
      ensures outcome == Success || outcome == ChecksFailed ==>
                && status == Purged && purgedAt == Some(now) && claim.None? && nextAttempt.None?
                && bytes.None? && attempts == old(attempts) + 1
      ensures outcome == DeletionFailed ==>
                && status == PurgePending && purgedAt.None? && claim.None?
                && nextAttempt == Some(now + OPERATOR_RETRY) && attempts == old(attempts) + 1
                && bytes == if effect.FailsBefore? then old(bytes) else None
    {
      var answer := Claim(acked, audit, request, id, now);
      if !answer.Claimed? {
        return NotClaimed(answer);
      }
      var ok := DeleteBytes(effect);
      if !ok {
        UpdateReleased(id, now + OPERATOR_RETRY);
        return DeletionFailed;
      }
      var rowcount := UpdateFinalized(id, now);
      if rowcount != 1 {
        return Superseded;
      }
      if bytes.Some? || after != audit || status != Purged || purgedAt.None? {
        return ChecksFailed;
      }
      return Success;
    }
  }
}
