/** Any number of claimers, retries, failures and closings over one ledger file: the budgets
    hold, claims are never lost, and validation never refuses what the program itself wrote. */
module LedgerRuns {
  import opened Basics
  import opened LedgerModel
  import opened LedgerAnswers

  // ---------------------------------------------------------------- reachable ledgers

  /** All identifiers are stored in normal form. */
  ghost predicate Canonical(l: Ledger) {
    && (forall id | id in l.items :: Normalize(id) == id)
    && (forall k | 0 <= k < |l.claims| ::
          Normalize(l.claims[k].dispatchId) == l.claims[k].dispatchId
          && Normalize(l.claims[k].itemId) == l.claims[k].itemId)
  }

  ghost predicate Good(file: Option<Ledger>, name: string) {
    file.Some? ==> Valid(file.value) && Canonical(file.value) && file.value.experimentId == name
  }

  /** The clock always yields a time stamp. */
  predicate Stamped(op: Operation) {
    op.now != ""
  }

  /** Nothing stands against a new claim. */
  ghost predicate Claimable(l: Ledger, item: string, dispatch: string) {
    && IsIdentifier(item) && IsIdentifier(dispatch) && FindClaim(l.claims, dispatch).None?
    && l.status.Open? && item in l.items && l.remainingCalls >= 1 && l.items[item].remainingCalls >= 1
  }

  lemma ClaimedItems(l: Ledger, item: string, dispatch: string, now: string)
    requires ValidItems(l) && ValidCounts(l) && Normalize(item) == item
    requires item in l.items && l.items[item].remainingCalls >= 1
    ensures var n := WithClaim(l, item, dispatch, now);
            ValidItems(n) && ValidCounts(n) && n.items.Keys == l.items.Keys && Budgets(n.items) == Budgets(l.items)
  {
    var n := WithClaim(l, item, dispatch, now);
    assert Budgets(n.items) == Budgets(l.items);
    assert item in n.items;
    forall id | id in n.items
      ensures ValidItem(id, n.items[id]) && n.items[id].claimedCalls == CountFor(n.claims, id)
    {
      ClaimedItem(l, item, dispatch, now, id);
    }
  }

  lemma ClaimedItem(l: Ledger, item: string, dispatch: string, now: string, id: string)
    requires ValidItems(l) && ValidCounts(l) && Normalize(item) == item
    requires item in l.items && l.items[item].remainingCalls >= 1 && id in l.items
    ensures var n := WithClaim(l, item, dispatch, now);
            ValidItem(id, n.items[id]) && n.items[id].claimedCalls == CountFor(n.claims, id)
  {
    CountAppend(l.claims, Claim(dispatch, item, now), id);
    assert ValidItem(id, l.items[id]) && l.items[id].claimedCalls == CountFor(l.claims, id);
  }

  lemma ClaimedClaims(l: Ledger, item: string, dispatch: string, now: string)
    requires ValidClaims(l.claims, l.items) && Canonical(l) && Claimable(l, item, dispatch) && now != ""
    ensures var n := WithClaim(l, item, dispatch, now); ValidClaims(n.claims, n.items) && Canonical(n)
  {
    var n, claim := WithClaim(l, item, dispatch, now), Claim(dispatch, item, now);
    IdentifierIsNormal(item);
    IdentifierIsNormal(dispatch);
    assert n.claims == l.claims + [claim] && n.items.Keys == l.items.Keys;
    assert forall k | 0 <= k < |l.claims| :: Normalize(l.claims[k].dispatchId) != dispatch;
    assert ValidClaim(claim, n.items);
    ClaimAppends(l.claims, claim, l.items, n.items);
    ClaimsNormal(l, n, claim);
  }

  lemma ClaimsNormal(l: Ledger, n: Ledger, claim: Claim)
    requires Canonical(l) && n.claims == l.claims + [claim] && n.items.Keys == l.items.Keys
    requires Normalize(claim.dispatchId) == claim.dispatchId && Normalize(claim.itemId) == claim.itemId
    ensures Canonical(n)
  {
  }

  lemma ClaimAppends(claims: seq<Claim>, claim: Claim, items: map<string, Item>, more: map<string, Item>)
    requires ValidClaims(claims, items) && ValidClaim(claim, more) && items.Keys == more.Keys
    requires forall k | 0 <= k < |claims| :: Normalize(claims[k].dispatchId) != Normalize(claim.dispatchId)
    ensures ValidClaims(claims + [claim], more)
  {
  }

  lemma ClaimIsValid(l: Ledger, item: string, dispatch: string, now: string)
    requires Valid(l) && Canonical(l) && Claimable(l, item, dispatch) && now != ""
    ensures var n := WithClaim(l, item, dispatch, now); Valid(n) && Canonical(n)
  {
    IdentifierIsNormal(item);
    ClaimedItems(l, item, dispatch, now);
    ClaimedClaims(l, item, dispatch, now);
  }

  lemma {:induction false} NormalBudgetsCanonical(raw: seq<(string, int)>)
    requires NormalBudgets(raw).Some?
    ensures var m := NormalBudgets(raw).value;
            forall id | id in m :: IsIdentifier(id) && Normalize(id) == id && CallLimit(m[id])
    decreases |raw|
  {
    if raw != [] {
      var n := |raw| - 1;
      NormalBudgetsCanonical(raw[..n]);
      IdentifierIsNormal(Normalize(raw[n].0));
    }
  }

  lemma NewIsValid(name: string, maxCalls: int, raw: seq<(string, int)>, now: string)
    requires IsIdentifier(name) && now != "" && CallLimit(maxCalls) && NormalBudgets(raw).Some?
    requires NormalBudgets(raw).value != map[] && Sum(NormalBudgets(raw).value) == maxCalls
    ensures var l := NewLedger(name, maxCalls, NormalBudgets(raw).value, now);
            Valid(l) && Canonical(l) && Budgets(l.items) == NormalBudgets(raw).value
  {
    var m := NormalBudgets(raw).value;
    NormalBudgetsCanonical(raw);
    NewItemsValid(name, maxCalls, m, now);
    NewHeaderValid(name, maxCalls, m, now);
  }

  lemma NewHeaderValid(name: string, maxCalls: int, m: map<string, int>, now: string)
    requires IsIdentifier(name) && now != "" && CallLimit(maxCalls)
    requires var l := NewLedger(name, maxCalls, m, now); ValidItems(l) && ValidCounts(l)
    ensures Valid(NewLedger(name, maxCalls, m, now))
  {
    IdentifierIsNormal(name);
  }

  lemma NewItemsValid(name: string, maxCalls: int, m: map<string, int>, now: string)
    requires m != map[] && Sum(m) == maxCalls
    requires forall id | id in m :: IsIdentifier(id) && Normalize(id) == id && CallLimit(m[id])
    ensures var l := NewLedger(name, maxCalls, m, now);
            ValidItems(l) && ValidCounts(l) && Canonical(l) && Budgets(l.items) == m
  {
    var l := NewLedger(name, maxCalls, m, now);
    assert Budgets(l.items) == m;
    var some :| some in m;
    assert some in l.items;
    forall id | id in l.items
      ensures ValidItem(id, l.items[id]) && l.items[id].claimedCalls == CountFor([], id)
    {
      assert l.items[id] == Item(m[id], 0, m[id]);
    }
  }

  // ---------------------------------------------------------------- one operation

  /** Nothing a ledger records is ever taken back: claims are only appended, budgets never
      change, and a closed ledger never changes at all. */
  ghost predicate Extends(a: Option<Ledger>, b: Option<Ledger>) {
    a.Some? ==>
      && b.Some? && a.value.claims <= b.value.claims
      && a.value.maxCalls == b.value.maxCalls && Budgets(a.value.items) == Budgets(b.value.items)
      && a.value.experimentId == b.value.experimentId && a.value.createdAt == b.value.createdAt
      && (a.value.status.Closed? ==> a == b)
  }

  ghost function Pairs(claims: seq<Claim>): set<(string, string)> {
    set k | 0 <= k < |claims| :: (claims[k].dispatchId, claims[k].itemId)
  }

  ghost predicate Backed(response: Response, file: Option<Ledger>) {
    response.Granted? ==>
      file.Some? && (response.receipt.dispatchId, response.receipt.itemId) in Pairs(file.value.claims)
  }

  lemma GoodReads(file: Option<Ledger>, name: string)
    requires Good(file, name)
    ensures ReadRefusal(file, name) == if file.None? then Some(NoLedger) else None
  {
  }

  lemma ClaimGoesThrough(file: Option<Ledger>, name: string, op: Operation)
    requires op.ClaimOp? && file.Some? && ReadRefusal(file, name) == None
    requires Claimable(file.value, Normalize(op.item), Normalize(op.dispatch))
    ensures var item, dispatch := Normalize(op.item), Normalize(op.dispatch);
            var n := WithClaim(file.value, item, dispatch, op.now);
            Apply(file, name, op)
            == Write(file, n, op.fault, Granted(ReceiptFor(n, Claim(dispatch, item, op.now), false)))
  {
  }

  /** A claim that cannot go through leaves the file as it is. */
  lemma ClaimStops(file: Option<Ledger>, name: string, op: Operation)
    requires op.ClaimOp? && ReadRefusal(file, name) == if file.None? then Some(NoLedger) else None
    requires file.None? || !Claimable(file.value, Normalize(op.item), Normalize(op.dispatch))
    ensures var r := Apply(file, name, op); r.0 == file && Backed(r.1, file) && r.1 != Refused(InvalidLedger)
  {
    if file.Some? && IsIdentifier(Normalize(op.item)) && IsIdentifier(Normalize(op.dispatch)) {
      if FindClaim(file.value.claims, Normalize(op.dispatch)).Some? {
        ClaimRepeats(file.value, name, op);
      } else {
        ClaimRefused(file.value, name, op);
      }
    }
  }

  lemma ClaimRepeats(l: Ledger, name: string, op: Operation)
    requires op.ClaimOp? && ReadRefusal(Some(l), name).None?
    requires IsIdentifier(Normalize(op.item)) && IsIdentifier(Normalize(op.dispatch))
    requires FindClaim(l.claims, Normalize(op.dispatch)).Some?
    ensures var r := Apply(Some(l), name, op); r.0 == Some(l) && Backed(r.1, r.0) && r.1 != Refused(InvalidLedger)
  {
    var claim := l.claims[FindClaim(l.claims, Normalize(op.dispatch)).value];
    assert (claim.dispatchId, claim.itemId) in Pairs(l.claims);
  }

  lemma ClaimRefused(l: Ledger, name: string, op: Operation)
    requires op.ClaimOp? && ReadRefusal(Some(l), name).None?
    requires IsIdentifier(Normalize(op.item)) && IsIdentifier(Normalize(op.dispatch))
    requires FindClaim(l.claims, Normalize(op.dispatch)).None?
    requires !Claimable(l, Normalize(op.item), Normalize(op.dispatch))
    ensures var r := Apply(Some(l), name, op); r.0 == Some(l) && r.1.Refused? && r.1 != Refused(InvalidLedger)
  {
  }

  /** Replacing the file by a valid extension. */
  lemma WriteKeeps(file: Option<Ledger>, name: string, l: Ledger, fault: WriteFault, response: Response)
    requires Good(file, name) && Good(Some(l), name) && Extends(file, Some(l))
    requires Backed(response, Some(l)) && response != Refused(InvalidLedger)
    ensures var r := Write(file, l, fault, response);
            Good(r.0, name) && Extends(file, r.0) && Backed(r.1, r.0) && r.1 != Refused(InvalidLedger)
  {
  }

  lemma ClaimStep(file: Option<Ledger>, name: string, op: Operation)
    requires Good(file, name) && Stamped(op) && op.ClaimOp?
    ensures var r := Apply(file, name, op);
            Good(r.0, name) && Extends(file, r.0) && Backed(r.1, r.0) && r.1 != Refused(InvalidLedger)
  {
    var item, dispatch := Normalize(op.item), Normalize(op.dispatch);
    GoodReads(file, name);
    if file.None? || !Claimable(file.value, item, dispatch) {
      ClaimStops(file, name, op);
    } else {
      ClaimGoesThrough(file, name, op);
      var l := file.value;
      var n := WithClaim(l, item, dispatch, op.now);
      ClaimIsValid(l, item, dispatch, op.now);
      IdentifierIsNormal(item);
      ClaimedItems(l, item, dispatch, op.now);
      assert n.claims[|l.claims|] == Claim(dispatch, item, op.now);
      assert (dispatch, item) in Pairs(n.claims);
      WriteKeeps(file, name, n, op.fault, Granted(ReceiptFor(n, Claim(dispatch, item, op.now), false)));
    }
  }

  lemma CloseIsValid(l: Ledger, reason: string, now: string)
    requires Valid(l) && Canonical(l) && IsReasonCode(reason) && now != ""
    ensures var n := l.(status := Closed, closedAt := Some(now), closeReason := reason, updatedAt := now);
            Valid(n) && Canonical(n)
  {
    IdentifierIsNormal(reason);
    var n := l.(status := Closed, closedAt := Some(now), closeReason := reason, updatedAt := now);
    assert ValidItems(n) && ValidClaims(n.claims, n.items) && ValidCounts(n) && ValidClosing(n);
  }

  lemma CloseStep(file: Option<Ledger>, name: string, op: Operation)
    requires Good(file, name) && Stamped(op) && op.CloseOp?
    ensures var r := Apply(file, name, op);
            Good(r.0, name) && Extends(file, r.0) && Backed(r.1, r.0) && r.1 != Refused(InvalidLedger)
  {
    var reason := Normalize(op.reasonCode);
    GoodReads(file, name);
    if IsReasonCode(reason) && file.Some? && file.value.status.Open? {
      var n := file.value.(status := Closed, closedAt := Some(op.now), closeReason := reason, updatedAt := op.now);
      CloseIsValid(file.value, reason, op.now);
      assert Extends(file, Some(n));
      WriteKeeps(file, name, n, op.fault, Accepted(false));
      CloseGoesThrough(file.value, name, op);
    } else {
      CloseStops(file, name, op);
    }
  }

  lemma CloseGoesThrough(l: Ledger, name: string, op: Operation)
    requires op.CloseOp? && ReadRefusal(Some(l), name).None? && IsReasonCode(Normalize(op.reasonCode)) && l.status.Open?
    ensures var n := l.(status := Closed, closedAt := Some(op.now), closeReason := Normalize(op.reasonCode),
                        updatedAt := op.now);
            Apply(Some(l), name, op) == Write(Some(l), n, op.fault, Accepted(false))
  {
  }

  lemma CloseStops(file: Option<Ledger>, name: string, op: Operation)
    requires op.CloseOp? && ReadRefusal(file, name) == if file.None? then Some(NoLedger) else None
    requires !IsReasonCode(Normalize(op.reasonCode)) || file.None? || file.value.status.Closed?
    ensures var r := Apply(file, name, op); r.0 == file && !r.1.Granted? && r.1 != Refused(InvalidLedger)
  {
  }

  lemma InitializeStep(file: Option<Ledger>, name: string, op: Operation)
    requires Good(file, name) && IsIdentifier(name) && Stamped(op) && op.InitializeOp?
    ensures var r := Apply(file, name, op);
            Good(r.0, name) && Extends(file, r.0) && Backed(r.1, r.0) && r.1 != Refused(InvalidLedger)
    ensures file.Some? ==> Apply(file, name, op).0 == file
  {
    var budgets := NormalBudgets(op.budgets);
    if file.None? && CallLimit(op.maxCalls) && budgets.Some? && budgets.value != map[]
       && Sum(budgets.value) == op.maxCalls {
      var l := NewLedger(name, op.maxCalls, budgets.value, op.now);
      NewIsValid(name, op.maxCalls, op.budgets, op.now);
      WriteKeeps(file, name, l, op.fault, Accepted(false));
      assert Apply(file, name, op) == Write(file, l, op.fault, Accepted(false));
    } else {
      assert Apply(file, name, op).0 == file;
    }
  }

  /** Every operation, whatever fails in it, leaves a ledger that passes validation, so the
      validation on reading and before writing never refuses; it takes nothing back; and every
      receipt is backed by a recorded claim. */
  lemma StepKeeps(file: Option<Ledger>, name: string, op: Operation)
    requires Good(file, name) && IsIdentifier(name) && Stamped(op)
    ensures var r := Apply(file, name, op);
            Good(r.0, name) && Extends(file, r.0) && Backed(r.1, r.0) && r.1 != Refused(InvalidLedger)
  {
    match op
    case InitializeOp(_, _, _, _) => InitializeStep(file, name, op);
    case ClaimOp(_, _, _, _) => ClaimStep(file, name, op);
    case CloseOp(_, _, _) => CloseStep(file, name, op);
  }

  // ---------------------------------------------------------------- when a claim is refused

  function Claimed(items: map<string, Item>): map<string, int> {
    map id | id in items :: items[id].claimedCalls
  }

  function Remaining(items: map<string, Item>): map<string, int> {
    map id | id in items :: items[id].remainingCalls
  }

  ghost function Tally(claims: seq<Claim>, items: map<string, Item>): map<string, int> {
    map id | id in items :: CountFor(claims, id)
  }

  lemma {:induction false} TallySum(claims: seq<Claim>, items: map<string, Item>)
    requires forall k | 0 <= k < |claims| :: Normalize(claims[k].itemId) in items
    ensures Sum(Tally(claims, items)) == |claims|
  {
    if claims == [] {
      SumZero(Tally(claims, items));
    } else {
      var id, rest := Normalize(claims[0].itemId), Tally(claims[1..], items);
      TallySum(claims[1..], items);
      SumUpdate(rest, id, rest[id] + 1);
      assert Tally(claims, items) == rest[id := rest[id] + 1];
    }
  }

  /** The experiment's remaining calls are the items' remaining calls together, so the
      experiment is exhausted exactly when every item is. */
  lemma ExhaustedTogether(l: Ledger)
    requires Valid(l)
    ensures l.remainingCalls == Sum(Remaining(l.items))
    ensures l.remainingCalls < 1 <==> forall id | id in l.items :: l.items[id].remainingCalls < 1
  {
    var remaining := Remaining(l.items);
    RemainingSum(l);
    assert forall id | id in l.items :: ValidItem(id, l.items[id]);
    assert forall id | id in remaining :: remaining[id] == l.items[id].remainingCalls >= 0;
    SumZero(remaining);
    assert (forall id | id in remaining :: remaining[id] == 0)
           <==> forall id | id in l.items :: l.items[id].remainingCalls < 1;
  }

  lemma RemainingSum(l: Ledger)
    requires ValidItems(l) && ValidClaims(l.claims, l.items) && ValidCounts(l)
    ensures l.remainingCalls == Sum(Remaining(l.items))
  {
    forall k | 0 <= k < |l.claims|
      ensures Normalize(l.claims[k].itemId) in l.items
    {
      assert ValidClaim(l.claims[k], l.items);
    }
    TallySum(l.claims, l.items);
    forall id | id in l.items
      ensures Budgets(l.items)[id] == Tally(l.claims, l.items)[id] + Remaining(l.items)[id]
    {
      assert ValidItem(id, l.items[id]);
    }
    SumAdds(Budgets(l.items), Tally(l.claims, l.items), Remaining(l.items));
  }

  lemma NotClaimable(l: Ledger, name: string, item: string, dispatch: string, now: string)
    requires !Claimable(l, Normalize(item), Normalize(dispatch)) && FindClaim(l.claims, Normalize(dispatch)).None?
    ensures Apply(Some(l), name, ClaimOp(item, dispatch, now, NoFault)).1.Refused?
  {
  }

  /** A new dispatch is granted exactly when the ledger is open and its item has calls left. */
  lemma GrantedIff(l: Ledger, name: string, item: string, dispatch: string, now: string)
    requires Good(Some(l), name) && IsIdentifier(name) && now != ""
    requires IsIdentifier(Normalize(item)) && IsIdentifier(Normalize(dispatch))
    requires forall k | 0 <= k < |l.claims| :: l.claims[k].dispatchId != Normalize(dispatch)
    ensures Apply(Some(l), name, ClaimOp(item, dispatch, now, NoFault)).1.Granted?
            <==> l.status.Open? && Normalize(item) in l.items && l.items[Normalize(item)].remainingCalls >= 1
  {
    var i, d := Normalize(item), Normalize(dispatch);
    ItemImpliesExperiment(l, i);
    if Claimable(l, i, d) {
      ClaimableGranted(l, name, item, dispatch, now);
    } else {
      NotClaimable(l, name, item, dispatch, now);
    }
  }

  lemma ItemImpliesExperiment(l: Ledger, item: string)
    requires Valid(l)
    ensures item in l.items && l.items[item].remainingCalls >= 1 ==> l.remainingCalls >= 1
  {
    ExhaustedTogether(l);
  }

  lemma ClaimableGranted(l: Ledger, name: string, item: string, dispatch: string, now: string)
    requires Good(Some(l), name) && now != "" && Claimable(l, Normalize(item), Normalize(dispatch))
    ensures Apply(Some(l), name, ClaimOp(item, dispatch, now, NoFault)).1.Granted?
  {
    var i, d, op := Normalize(item), Normalize(dispatch), ClaimOp(item, dispatch, now, NoFault);
    var n := WithClaim(l, i, d, now);
    ClaimIsValid(l, i, d, now);
    GoodReads(Some(l), name);
    ClaimGoesThrough(Some(l), name, op);
    WriteSucceeds(Some(l), n, Granted(ReceiptFor(n, Claim(d, i, now), false)));
    assert Apply(Some(l), name, op).1 == Granted(ReceiptFor(n, Claim(d, i, now), false));
  }

  lemma WriteSucceeds(file: Option<Ledger>, l: Ledger, response: Response)
    requires Valid(l)
    ensures Write(file, l, NoFault, response) == (Some(l), response)
  {
  }

  /** Asking again for a recorded dispatch returns its receipt and changes nothing, even after
      closing; asking for it under another item is refused. */
  lemma Replay(l: Ledger, name: string, claim: Claim, item: string, now: string, fault: WriteFault)
    requires Good(Some(l), name) && claim in l.claims && IsIdentifier(item)
    ensures var r := Apply(Some(l), name, ClaimOp(item, claim.dispatchId, now, fault));
            && r.0 == Some(l)
            && if item == claim.itemId then
                 && r.1.Granted? && Tells(r.1.receipt, l, claim.itemId, claim.dispatchId)
                 && r.1.receipt.claimedAt == claim.claimedAt && r.1.receipt.replay
               else r.1 == Refused(OtherItem)
  {
    assert ValidClaim(claim, l.items);
    IdentifierIsNormal(item);
    FoundAgain(l, claim);
    GoodReads(Some(l), name);
    if item == claim.itemId {
      ReceiptTells(l, claim, true);
      assert Apply(Some(l), name, ClaimOp(item, claim.dispatchId, now, fault)).1 == Granted(ReceiptFor(l, claim, true));
    }
  }

  lemma FoundAgain(l: Ledger, claim: Claim)
    requires ValidClaims(l.claims, l.items) && claim in l.claims
    ensures var found := FindClaim(l.claims, claim.dispatchId); found.Some? && l.claims[found.value] == claim
  {
  }

  // ---------------------------------------------------------------- whole runs

  /** The operations of all claimers in the order in which they take the lock. */
  ghost function Run(file: Option<Ledger>, name: string, ops: seq<Operation>): (Option<Ledger>, seq<Response>)
    decreases |ops|
  {
    if ops == [] then (file, [])
    else
      var first := Apply(file, name, ops[0]);
      var rest := Run(first.0, name, ops[1..]);
      (rest.0, [first.1] + rest.1)
  }

  ghost function Grants(responses: seq<Response>): set<(string, string)> {
    set k | 0 <= k < |responses| && responses[k].Granted? ::
      (responses[k].receipt.dispatchId, responses[k].receipt.itemId)
  }

  lemma ExtendsTransitive(a: Option<Ledger>, b: Option<Ledger>, c: Option<Ledger>)
    requires Extends(a, b) && Extends(b, c)
    ensures Extends(a, c)
  {
  }

  lemma PairsGrow(a: Option<Ledger>, b: Option<Ledger>)
    requires Extends(a, b) && a.Some?
    ensures Pairs(a.value.claims) <= Pairs(b.value.claims)
  {
  }

  /** Over a whole run the ledger stays valid and only grows. */
  lemma {:induction false} RunKeeps(file: Option<Ledger>, name: string, ops: seq<Operation>)
    requires Good(file, name) && IsIdentifier(name) && forall k | 0 <= k < |ops| :: Stamped(ops[k])
    ensures Good(Run(file, name, ops).0, name) && Extends(file, Run(file, name, ops).0)
    decreases |ops|
  {
    if ops != [] {
      var first := Apply(file, name, ops[0]);
      StepKeeps(file, name, ops[0]);
      RunKeeps(first.0, name, ops[1..]);
      ExtendsTransitive(file, first.0, Run(first.0, name, ops[1..]).0);
    }
  }

  /** No receipt handed out during a run is ever lost, and no operation of a run finds or makes
      an invalid ledger. */
  lemma {:induction false} ReceiptsKept(file: Option<Ledger>, name: string, ops: seq<Operation>, k: nat)
    requires Good(file, name) && IsIdentifier(name) && forall k | 0 <= k < |ops| :: Stamped(ops[k])
    requires k < |Run(file, name, ops).1|
    ensures var r := Run(file, name, ops); Backed(r.1[k], r.0) && r.1[k] != Refused(InvalidLedger)
    decreases |ops|
  {
    var first := Apply(file, name, ops[0]);
    var rest := Run(first.0, name, ops[1..]);
    StepKeeps(file, name, ops[0]);
    if k > 0 {
      ReceiptsKept(first.0, name, ops[1..], k - 1);
    } else if first.1.Granted? {
      RunKeeps(first.0, name, ops[1..]);
      PairsGrow(first.0, rest.0);
    }
  }

  ghost function DispatchesFor(pairs: set<(string, string)>, item: string): set<string> {
    set p | p in pairs && p.1 == item :: p.0
  }

  lemma {:induction false} PairsCounted(claims: seq<Claim>, item: string)
    requires forall k | 0 <= k < |claims| :: Normalize(claims[k].itemId) == claims[k].itemId
    ensures |Pairs(claims)| <= |claims|
    ensures |DispatchesFor(Pairs(claims), item)| <= CountFor(claims, item)
  {
    if claims == [] {
      assert DispatchesFor(Pairs(claims), item) == {};
    } else {
      var rest, p := claims[1..], (claims[0].dispatchId, claims[0].itemId);
      PairsCounted(rest, item);
      PairsSplit(claims);
      assert DispatchesFor(Pairs(claims), item)
             == DispatchesFor(Pairs(rest), item) + (if p.1 == item then {p.0} else {});
    }
  }

  lemma PairsSplit(claims: seq<Claim>)
    requires claims != []
    ensures Pairs(claims) == Pairs(claims[1..]) + {(claims[0].dispatchId, claims[0].itemId)}
  {
  }

  /** For any number of claimers, retries, failures and closings: the distinct dispatches ever
      granted for an item never exceed its budget, all grants together never exceed the
      experiment's, and a dispatch is bound to one item for ever. */
  lemma BudgetsHold(file: Option<Ledger>, name: string, ops: seq<Operation>)
    requires Good(file, name) && IsIdentifier(name) && forall k | 0 <= k < |ops| :: Stamped(ops[k])
    ensures var r := Run(file, name, ops);
            var granted := Grants(r.1);
            if r.0.None? then granted == {} else
              && granted <= Pairs(r.0.value.claims) && |granted| <= r.0.value.maxCalls
              && (forall p | p in granted :: p.1 in r.0.value.items)
              && (forall item | item in r.0.value.items ::
                    |DispatchesFor(granted, item)| <= r.0.value.items[item].maxCalls)
              && (forall p, q | p in granted && q in granted && p.0 == q.0 :: p.1 == q.1)
  {
    var r := Run(file, name, ops);
    var granted := Grants(r.1);
    RunKeeps(file, name, ops);
    forall p | p in granted
      ensures r.0.Some? && p in Pairs(r.0.value.claims)
    {
      var k :| 0 <= k < |r.1| && r.1[k].Granted? && (r.1[k].receipt.dispatchId, r.1[k].receipt.itemId) == p;
      ReceiptsKept(file, name, ops, k);
    }
    if r.0.Some? {
      GrantsFit(r.0.value, granted);
    }
  }

  lemma GrantsFit(l: Ledger, granted: set<(string, string)>)
    requires Valid(l) && Canonical(l) && granted <= Pairs(l.claims)
    ensures |granted| <= l.maxCalls
    ensures forall p | p in granted :: p.1 in l.items
    ensures forall item | item in l.items :: |DispatchesFor(granted, item)| <= l.items[item].maxCalls
    ensures forall p, q | p in granted && q in granted && p.0 == q.0 :: p.1 == q.1
  {
    TotalFits(l, granted);
    forall item | item in l.items
      ensures |DispatchesFor(granted, item)| <= l.items[item].maxCalls
    {
      ItemFits(l, granted, item);
    }
    forall p, q | p in granted && q in granted && p.0 == q.0
      ensures p.1 == q.1 && p.1 in l.items
    {
      OneItem(l, p, q);
    }
  }

  lemma TotalFits(l: Ledger, granted: set<(string, string)>)
    requires Valid(l) && Canonical(l) && granted <= Pairs(l.claims)
    ensures |granted| <= l.maxCalls
  {
    PairsCounted(l.claims, "");
    SubsetSize(granted, Pairs(l.claims));
    NeverNegative(l);
  }

  lemma NeverNegative(l: Ledger)
    requires Valid(l)
    ensures l.remainingCalls >= 0
  {
    ExhaustedTogether(l);
    assert forall id | id in l.items :: ValidItem(id, l.items[id]);
    SumZero(Remaining(l.items));
  }

  lemma ItemFits(l: Ledger, granted: set<(string, string)>, item: string)
    requires Valid(l) && Canonical(l) && granted <= Pairs(l.claims) && item in l.items
    ensures |DispatchesFor(granted, item)| <= l.items[item].maxCalls
  {
    PairsCounted(l.claims, item);
    SubsetSize(DispatchesFor(granted, item), DispatchesFor(Pairs(l.claims), item));
    assert ValidItem(item, l.items[item]);
  }

  /** A dispatch is claimed once. */
  lemma ClaimedOnce(claims: seq<Claim>, i: nat, j: nat)
    requires DistinctDispatches(claims) && i < |claims| && j < |claims| && claims[i].dispatchId == claims[j].dispatchId
    ensures i == j
  {
  }

  lemma OneItem(l: Ledger, p: (string, string), q: (string, string))
    requires Valid(l) && Canonical(l) && p in Pairs(l.claims) && q in Pairs(l.claims) && p.0 == q.0
    ensures p.1 == q.1 && p.1 in l.items
  {
    var i :| 0 <= i < |l.claims| && (l.claims[i].dispatchId, l.claims[i].itemId) == p;
    var j :| 0 <= j < |l.claims| && (l.claims[j].dispatchId, l.claims[j].itemId) == q;
    ClaimedOnce(l.claims, i, j);
    assert ValidClaim(l.claims[i], l.items);
  }
}
