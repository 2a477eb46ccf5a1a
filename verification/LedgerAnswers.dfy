/** What a ledger file, and the answer of each operation on it, mean in terms of the recorded claims
    and the budgets. */
module LedgerAnswers {
  import opened Basics
  import opened LedgerModel

  // ---------------------------------------------------------------- counts and budgets

  function ClaimsFor(claims: seq<Claim>, item: string): set<nat> {
    set k: nat | k < |claims| && Normalize(claims[k].itemId) == item
  }

  lemma {:induction false} CountForIs(claims: seq<Claim>, item: string)
    ensures CountFor(claims, item) == |ClaimsFor(claims, item)|
  {
    if claims == [] {
      assert ClaimsFor(claims, item) == {};
    } else {
      var n := |claims| - 1;
      CountForIs(claims[..n], item);
      CountAppend(claims[..n], claims[n], item);
      assert claims == claims[..n] + [claims[n]];
      ClaimsForLast(claims, item);
    }
  }

  lemma ClaimsForLast(claims: seq<Claim>, item: string)
    requires claims != []
    ensures var n := |claims| - 1;
            |ClaimsFor(claims, item)| ==
              |ClaimsFor(claims[..n], item)| + if Normalize(claims[n].itemId) == item then 1 else 0
  {
    var n := |claims| - 1;
    assert ClaimsFor(claims, item) ==
           ClaimsFor(claims[..n], item) + if Normalize(claims[n].itemId) == item then {n} else {};
  }

  /** Proper budgets: identifiers that stay different in normal form, each with a proper limit. */
  ghost predicate Proper(raw: seq<(string, int)>) {
    && (forall k | 0 <= k < |raw| :: IsIdentifier(Normalize(raw[k].0)) && 1 <= raw[k].1 <= MAX_CALLS_LIMIT)
    && forall j, k | 0 <= j < k < |raw| :: Normalize(raw[j].0) != Normalize(raw[k].0)
  }

  /** These budgets under their normal forms. */
  ghost predicate Holds(m: map<string, int>, raw: seq<(string, int)>) {
    && (forall id | id in m :: exists k | 0 <= k < |raw| :: Normalize(raw[k].0) == id)
    && forall k | 0 <= k < |raw| :: Normalize(raw[k].0) in m && m[Normalize(raw[k].0)] == raw[k].1
  }

  lemma ProperLast(raw: seq<(string, int)>)
    requires raw != []
    ensures var n := |raw| - 1;
            Proper(raw) <==>
              && Proper(raw[..n]) && IsIdentifier(Normalize(raw[n].0)) && CallLimit(raw[n].1)
              && forall j | 0 <= j < n :: Normalize(raw[j].0) != Normalize(raw[n].0)
  {
  }

  lemma HoldsLast(m: map<string, int>, raw: seq<(string, int)>)
    requires raw != [] && Holds(m, raw[..|raw| - 1]) && Normalize(raw[|raw| - 1].0) !in m
    ensures Holds(m[Normalize(raw[|raw| - 1].0) := raw[|raw| - 1].1], raw)
  {
    var n := |raw| - 1;
    forall id | id in m
      ensures exists k | 0 <= k < |raw| :: Normalize(raw[k].0) == id
    {
      var k :| 0 <= k < |raw[..n]| && Normalize(raw[..n][k].0) == id;
      assert raw[k] == raw[..n][k];
    }
    assert forall k | 0 <= k < n :: raw[k] == raw[..n][k];
  }

  lemma TakenIff(m: map<string, int>, raw: seq<(string, int)>, id: string)
    requires Holds(m, raw)
    ensures id in m <==> exists k | 0 <= k < |raw| :: Normalize(raw[k].0) == id
  {
  }

  /** The budgets are normalised exactly when they are proper, and then kept. */
  lemma {:induction false} NormalBudgetsIff(raw: seq<(string, int)>)
    ensures NormalBudgets(raw).Some? <==> Proper(raw)
    ensures NormalBudgets(raw).Some? ==> Holds(NormalBudgets(raw).value, raw)
  {
    if raw != [] {
      var n := |raw| - 1;
      NormalBudgetsIff(raw[..n]);
      ProperLast(raw);
      if NormalBudgets(raw[..n]).Some? {
        NormalBudgetsStep(raw, NormalBudgets(raw[..n]).value);
      }
    }
  }

  lemma NormalBudgetsStep(raw: seq<(string, int)>, m: map<string, int>)
    requires raw != [] && Holds(m, raw[..|raw| - 1])
    ensures var id := Normalize(raw[|raw| - 1].0);
            && (id in m <==> exists j | 0 <= j < |raw| - 1 :: Normalize(raw[j].0) == id)
            && (id !in m ==> Holds(m[id := raw[|raw| - 1].1], raw))
  {
    var n := |raw| - 1;
    var id := Normalize(raw[n].0);
    TakenIff(m, raw[..n], id);
    assert forall j | 0 <= j < n :: raw[j] == raw[..n][j];
    if id !in m {
      HoldsLast(m, raw);
    }
  }

  // ---------------------------------------------------------------- valid ledgers

  /** Each item is named and limited properly, counts its own claims, and has the rest left. */
  ghost predicate ItemsAgree(l: Ledger) {
    forall id | id in l.items ::
      var item, claimed := l.items[id], |ClaimsFor(l.claims, id)|;
      && IsIdentifier(Normalize(id)) && 1 <= item.maxCalls <= MAX_CALLS_LIMIT && claimed <= item.maxCalls
      && item.claimedCalls == claimed && item.remainingCalls == item.maxCalls - claimed
  }

  /** Each claim is named and dated, is for an item of the ledger, and no dispatch has two. */
  ghost predicate ClaimsAgree(l: Ledger) {
    && (forall k | 0 <= k < |l.claims| ::
          && IsIdentifier(Normalize(l.claims[k].dispatchId)) && IsIdentifier(Normalize(l.claims[k].itemId))
          && Normalize(l.claims[k].itemId) in l.items && l.claims[k].claimedAt != "")
    && forall j, k | 0 <= j < k < |l.claims| :: Normalize(l.claims[j].dispatchId) != Normalize(l.claims[k].dispatchId)
  }

  lemma ItemsAgreeIff(l: Ledger)
    ensures ItemsAgree(l) <==>
              forall id | id in l.items ::
                ValidItem(id, l.items[id]) && l.items[id].claimedCalls == CountFor(l.claims, id)
  {
    forall id | id in l.items
      ensures CountFor(l.claims, id) == |ClaimsFor(l.claims, id)|
    {
      CountForIs(l.claims, id);
    }
  }

  lemma ClaimsAgreeIff(l: Ledger)
    ensures ClaimsAgree(l) <==> ValidClaims(l.claims, l.items)
  {
  }

  /** An open ledger has no closing, a closed one has a time and a reason. */
  predicate ClosingAgrees(l: Ledger) {
    match l.status
    case Open => l.closedAt == None && l.closeReason == ""
    case Closed => l.closedAt.Some? && l.closedAt.value != "" && IsReasonCode(Normalize(l.closeReason))
  }

  lemma ClosingAgreesIff(l: Ledger)
    ensures ClosingAgrees(l) <==> ValidClosing(l)
  {
  }

  /** The totals of the experiment. */
  ghost predicate TotalsAgree(l: Ledger) {
    && 1 <= l.maxCalls <= MAX_CALLS_LIMIT && Sum(Budgets(l.items)) == l.maxCalls
    && l.claimedCalls == |l.claims| && l.remainingCalls == l.maxCalls - |l.claims|
  }

  lemma PartsAgree(l: Ledger)
    ensures l.items != map[] && TotalsAgree(l) && ItemsAgree(l) <==>
              CallLimit(l.maxCalls) && ValidItems(l) && ValidCounts(l)
  {
    ItemsAgreeIff(l);
  }

  /** What the checks of a ledger accept. */
  lemma ValidIff(l: Ledger)
    ensures Valid(l) <==>
              && IsIdentifier(Normalize(l.experimentId)) && l.items != map[]
              && TotalsAgree(l) && ItemsAgree(l) && ClaimsAgree(l) && ClosingAgrees(l)
              && l.createdAt != "" && l.updatedAt != ""
  {
    PartsAgree(l);
    ClaimsAgreeIff(l);
    ClosingAgreesIff(l);
  }

  // ---------------------------------------------------------------- claims

  predicate Recorded(l: Ledger, dispatch: string) {
    exists k | 0 <= k < |l.claims| :: l.claims[k].dispatchId == dispatch
  }

  /** The receipt of a claim tells the recorded claim, how many calls the experiment and the item
      have used, and how many they have left. */
  ghost predicate Tells(r: Receipt, l: Ledger, item: string, dispatch: string) {
    && r.itemId == item && r.dispatchId == dispatch && item in l.items
    && Claim(dispatch, item, r.claimedAt) in l.claims
    && r.experimentClaimed == |l.claims| && r.experimentRemaining == l.maxCalls - |l.claims|
    && r.itemClaimed == |ClaimsFor(l.claims, item)|
    && r.itemRemaining == l.items[item].maxCalls - |ClaimsFor(l.claims, item)|
  }

  lemma ReceiptTells(l: Ledger, claim: Claim, replay: bool)
    requires Valid(l) && claim in l.claims && claim.itemId in l.items
    ensures Tells(ReceiptFor(l, claim, replay), l, claim.itemId, claim.dispatchId)
    ensures ReceiptFor(l, claim, replay).claimedAt == claim.claimedAt && ReceiptFor(l, claim, replay).replay == replay
  {
    CountForIs(l.claims, claim.itemId);
    assert ValidItem(claim.itemId, l.items[claim.itemId]);
  }

  /** The ledger with one claim more. */
  ghost predicate Claims(l: Ledger, n: Ledger, item: string, dispatch: string, now: string) {
    && item in l.items && item in n.items && n.items.Keys == l.items.Keys
    && n == l.(claims := l.claims + [Claim(dispatch, item, now)], items := n.items, updatedAt := now,
               claimedCalls := l.claimedCalls + 1, remainingCalls := l.remainingCalls - 1)
    && n.items[item] == Item(l.items[item].maxCalls, l.items[item].claimedCalls + 1, l.items[item].remainingCalls - 1)
    && forall id | id in l.items && id != item :: n.items[id] == l.items[id]
  }

  /** Why a claim is refused. */
  ghost predicate Refuses(reason: Refusal, file: Option<Ledger>, name: string, item: string, dispatch: string,
                          fault: WriteFault)
  {
    match reason
    case BadArgument => !IsIdentifier(item) || !IsIdentifier(dispatch)
    case NoLedger => file.None?
    case InvalidLedger => file.Some?
    case OtherItem => file.Some?
                      && exists k | 0 <= k < |file.value.claims| ::
                           file.value.claims[k].dispatchId == dispatch && file.value.claims[k].itemId != item
    case LedgerClosed => file.Some? && !Recorded(file.value, dispatch) && file.value.status == Closed
    case UnknownItem => file.Some? && !Recorded(file.value, dispatch) && item !in file.value.items
    case ExperimentExhausted => file.Some? && !Recorded(file.value, dispatch) && file.value.remainingCalls < 1
    case ItemExhausted => file.Some? && !Recorded(file.value, dispatch) && item in file.value.items
                          && file.value.items[item].remainingCalls < 1
    case WriteFailed => file.Some? && !Recorded(file.value, dispatch) && fault != NoFault
    case _ => false
  }

  /** A valid ledger of this experiment. */
  ghost predicate Readable(file: Option<Ledger>, name: string) {
    file.Some? && Valid(file.value) && file.value.experimentId == name
  }

  /** What a claim may answer, and leave. */
  ghost predicate ClaimAnswers(file: Option<Ledger>, after: Option<Ledger>, r: Response, name: string,
                               item: string, dispatch: string, now: string, fault: WriteFault)
  {
    match r
    case Granted(receipt) =>
      && Readable(file, name) && Readable(after, name) && Tells(receipt, after.value, item, dispatch)
      && (receipt.replay <==> Recorded(file.value, dispatch))
      && (if receipt.replay then after == file
          else receipt.claimedAt == now && Claims(file.value, after.value, item, dispatch, now))
    case Accepted(_) => false
    case Refused(reason) =>
      && Refuses(reason, file, name, item, dispatch, fault)
      && if reason == WriteFailed && fault == AfterReplace then
           Readable(file, name) && Readable(after, name) && Claims(file.value, after.value, item, dispatch, now)
         else after == file
  }

  lemma ClaimSaysRecorded(l: Ledger, name: string, rawItem: string, rawDispatch: string, now: string,
                          fault: WriteFault)
    requires var item, dispatch := Normalize(rawItem), Normalize(rawDispatch);
             IsIdentifier(item) && IsIdentifier(dispatch) && Recorded(l, dispatch)
    requires ReadRefusal(Some(l), name).None?
    ensures var r := ApplyClaim(Some(l), name, rawItem, rawDispatch, now, fault);
            ClaimAnswers(Some(l), r.0, r.1, name, Normalize(rawItem), Normalize(rawDispatch), now, fault)
  {
    var item, dispatch := Normalize(rawItem), Normalize(rawDispatch);
    var claim := l.claims[FindClaim(l.claims, dispatch).value];
    assert ValidClaim(claim, l.items);
    if claim.itemId == item {
      IdentifierIsNormal(item);
      ReceiptTells(l, claim, true);
      assert claim == Claim(dispatch, item, claim.claimedAt);
    }
  }

  lemma WithClaimClaims(l: Ledger, item: string, dispatch: string, now: string)
    requires item in l.items
    ensures var n := WithClaim(l, item, dispatch, now);
            Claims(l, n, item, dispatch, now) && Claim(dispatch, item, now) in n.claims
  {
    var n := WithClaim(l, item, dispatch, now);
    assert n.claims[|l.claims|] == Claim(dispatch, item, now);
  }

  /** A new claim that is written, or not. */
  lemma WrittenAnswers(l: Ledger, n: Ledger, receipt: Receipt, name: string, item: string, dispatch: string,
                       now: string, fault: WriteFault)
    requires Claims(l, n, item, dispatch, now) && Readable(Some(l), name) && !Recorded(l, dispatch)
    requires !receipt.replay && receipt.claimedAt == now && (Valid(n) ==> Tells(receipt, n, item, dispatch))
    ensures var r := Write(Some(l), n, fault, Granted(receipt));
            ClaimAnswers(Some(l), r.0, r.1, name, item, dispatch, now, fault)
  {
    var r := Write(Some(l), n, fault, Granted(receipt));
    if !Valid(n) {
      assert r == (Some(l), Refused(InvalidLedger));
    } else if fault == BeforeReplace {
      assert r == (Some(l), Refused(WriteFailed));
    } else {
      WrittenReadable(l, n, name);
      assert r == (Some(n), if fault == AfterReplace then Refused(WriteFailed) else Granted(receipt));
    }
  }

  lemma WrittenReadable(l: Ledger, n: Ledger, name: string)
    requires Readable(Some(l), name) && n.experimentId == l.experimentId && Valid(n)
    ensures Readable(Some(n), name)
  {
  }

  lemma ClaimSaysWritten(l: Ledger, name: string, item: string, dispatch: string, now: string, fault: WriteFault)
    requires item in l.items && !Recorded(l, dispatch) && Readable(Some(l), name)
    ensures var n := WithClaim(l, item, dispatch, now);
            var r := Write(Some(l), n, fault, Granted(ReceiptFor(n, Claim(dispatch, item, now), false)));
            ClaimAnswers(Some(l), r.0, r.1, name, item, dispatch, now, fault)
  {
    var n := WithClaim(l, item, dispatch, now);
    var receipt := ReceiptFor(n, Claim(dispatch, item, now), false);
    WithClaimClaims(l, item, dispatch, now);
    NewReceipt(n, item, dispatch, now);
    WrittenAnswers(l, n, receipt, name, item, dispatch, now, fault);
  }

  lemma NewReceipt(n: Ledger, item: string, dispatch: string, now: string)
    requires item in n.items && Claim(dispatch, item, now) in n.claims
    ensures var receipt := ReceiptFor(n, Claim(dispatch, item, now), false);
            !receipt.replay && receipt.claimedAt == now && (Valid(n) ==> Tells(receipt, n, item, dispatch))
  {
    if Valid(n) {
      ReceiptTells(n, Claim(dispatch, item, now), false);
    }
  }

  lemma ClaimSaysNew(l: Ledger, name: string, rawItem: string, rawDispatch: string, now: string, fault: WriteFault)
    requires var item, dispatch := Normalize(rawItem), Normalize(rawDispatch);
             IsIdentifier(item) && IsIdentifier(dispatch) && !Recorded(l, dispatch)
    requires ReadRefusal(Some(l), name).None?
    ensures var r := ApplyClaim(Some(l), name, rawItem, rawDispatch, now, fault);
            ClaimAnswers(Some(l), r.0, r.1, name, Normalize(rawItem), Normalize(rawDispatch), now, fault)
  {
    var item, dispatch := Normalize(rawItem), Normalize(rawDispatch);
    if l.status.Open? && item in l.items && l.remainingCalls >= 1 && l.items[item].remainingCalls >= 1 {
      NewClaimWrites(l, name, rawItem, rawDispatch, now, fault);
      ClaimSaysWritten(l, name, item, dispatch, now, fault);
    } else {
      NewClaimRefused(l, name, rawItem, rawDispatch, now, fault);
    }
  }

  lemma NewClaimWrites(l: Ledger, name: string, rawItem: string, rawDispatch: string, now: string, fault: WriteFault)
    requires var item, dispatch := Normalize(rawItem), Normalize(rawDispatch);
             && IsIdentifier(item) && IsIdentifier(dispatch) && !Recorded(l, dispatch)
             && l.status.Open? && item in l.items && l.remainingCalls >= 1 && l.items[item].remainingCalls >= 1
    requires ReadRefusal(Some(l), name).None?
    ensures var item, dispatch := Normalize(rawItem), Normalize(rawDispatch);
            var n := WithClaim(l, item, dispatch, now);
            ApplyClaim(Some(l), name, rawItem, rawDispatch, now, fault)
            == Write(Some(l), n, fault, Granted(ReceiptFor(n, Claim(dispatch, item, now), false)))
  {
    assert FindClaim(l.claims, Normalize(rawDispatch)).None?;
  }

  lemma NewClaimRefused(l: Ledger, name: string, rawItem: string, rawDispatch: string, now: string, fault: WriteFault)
    requires var item, dispatch := Normalize(rawItem), Normalize(rawDispatch);
             && IsIdentifier(item) && IsIdentifier(dispatch) && !Recorded(l, dispatch)
             && !(l.status.Open? && item in l.items && l.remainingCalls >= 1 && l.items[item].remainingCalls >= 1)
    requires ReadRefusal(Some(l), name).None?
    ensures var r := ApplyClaim(Some(l), name, rawItem, rawDispatch, now, fault);
            && r.0 == Some(l) && r.1.Refused?
            && Refuses(r.1.reason, r.0, name, Normalize(rawItem), Normalize(rawDispatch), fault)
  {
    assert FindClaim(l.claims, Normalize(rawDispatch)).None?;
  }

  /** Every claim answers so. */
  lemma ClaimSays(file: Option<Ledger>, name: string, rawItem: string, rawDispatch: string, now: string,
                  fault: WriteFault)
    ensures var r := ApplyClaim(file, name, rawItem, rawDispatch, now, fault);
            ClaimAnswers(file, r.0, r.1, name, Normalize(rawItem), Normalize(rawDispatch), now, fault)
  {
    var item, dispatch := Normalize(rawItem), Normalize(rawDispatch);
    if IsIdentifier(item) && IsIdentifier(dispatch) && ReadRefusal(file, name).None? {
      if Recorded(file.value, dispatch) {
        ClaimSaysRecorded(file.value, name, rawItem, rawDispatch, now, fault);
      } else {
        ClaimSaysNew(file.value, name, rawItem, rawDispatch, now, fault);
      }
    }
  }

  // ---------------------------------------------------------------- beginnings and ends

  /** A new ledger with these budgets. */
  ghost predicate Begins(l: Ledger, name: string, maxCalls: int, raw: seq<(string, int)>, now: string) {
    && l == Ledger(name, Open, maxCalls, 0, maxCalls, l.items, [], now, now, None, "")
    && Holds(Budgets(l.items), raw)
    && forall id | id in l.items :: l.items[id] == Item(l.items[id].maxCalls, 0, l.items[id].maxCalls)
  }

  /** Budgets that make up the total. */
  ghost predicate AddsUp(maxCalls: int, raw: seq<(string, int)>) {
    && 1 <= maxCalls <= MAX_CALLS_LIMIT && raw != [] && Proper(raw)
    && forall m: map<string, int> | Holds(m, raw) :: Sum(m) == maxCalls
  }

  /** What the initialisation may answer, and leave: it makes a new ledger, or confirms one with the
      same budgets, and never changes one. */
  ghost predicate InitializeAnswers(file: Option<Ledger>, after: Option<Ledger>, r: Response, name: string,
                                    maxCalls: int, raw: seq<(string, int)>, now: string, fault: WriteFault)
  {
    && (file.Some? ==> after == file)
    && (file.None? && after.Some? ==>
          fault != BeforeReplace && AddsUp(maxCalls, raw) && Begins(after.value, name, maxCalls, raw, now))
    && (r == Accepted(false) ==> file.None? && after.Some? && fault == NoFault)
    && (r == Refused(WriteFailed) && fault == AfterReplace ==> file.None? && after.Some?)
    && (r == Accepted(true) ==>
          && Readable(file, name) && AddsUp(maxCalls, raw)
          && file.value.maxCalls == maxCalls && Holds(Budgets(file.value.items), raw))
    && (r == Refused(DifferentBudget) ==>
          && Readable(file, name)
          && !(file.value.maxCalls == maxCalls && Holds(Budgets(file.value.items), raw)))
    && (r == Refused(BadArgument) <==> !AddsUp(maxCalls, raw))
    && (r == Refused(WriteFailed) ==> file.None? && fault != NoFault)
    && (r.Refused? ==> r.reason in {BadArgument, InvalidLedger, DifferentBudget, WriteFailed})
    && !r.Granted?
  }

  lemma HoldsOne(a: map<string, int>, b: map<string, int>, raw: seq<(string, int)>)
    requires Holds(a, raw) && Holds(b, raw)
    ensures a == b
  {
    forall id
      ensures (id in a <==> id in b) && (id in a ==> a[id] == b[id])
    {
      if id in a {
        var k :| 0 <= k < |raw| && Normalize(raw[k].0) == id;
      }
      if id in b {
        var k :| 0 <= k < |raw| && Normalize(raw[k].0) == id;
      }
    }
    assert a == b;
  }

  lemma AddsUpIff(maxCalls: int, raw: seq<(string, int)>)
    ensures AddsUp(maxCalls, raw) <==>
              && CallLimit(maxCalls) && NormalBudgets(raw).Some? && NormalBudgets(raw).value != map[]
              && Sum(NormalBudgets(raw).value) == maxCalls
  {
    NormalBudgetsIff(raw);
    if Proper(raw) {
      var m := NormalBudgets(raw).value;
      assert raw != [] ==> Normalize(raw[0].0) in m;
      forall other: map<string, int> | Holds(other, raw)
        ensures other == m
      {
        HoldsOne(other, m, raw);
      }
    }
  }

  lemma NewBegins(name: string, maxCalls: int, raw: seq<(string, int)>, now: string)
    requires NormalBudgets(raw).Some?
    ensures Begins(NewLedger(name, maxCalls, NormalBudgets(raw).value, now), name, maxCalls, raw, now)
  {
    NormalBudgetsIff(raw);
    assert Budgets(NewLedger(name, maxCalls, NormalBudgets(raw).value, now).items) == NormalBudgets(raw).value;
  }

  lemma SameBudgets(items: map<string, Item>, raw: seq<(string, int)>)
    requires NormalBudgets(raw).Some?
    ensures Budgets(items) == NormalBudgets(raw).value <==> Holds(Budgets(items), raw)
  {
    NormalBudgetsIff(raw);
    if Holds(Budgets(items), raw) {
      HoldsOne(Budgets(items), NormalBudgets(raw).value, raw);
    }
  }

  lemma InitializeSaysNew(name: string, maxCalls: int, raw: seq<(string, int)>, now: string, fault: WriteFault)
    requires AddsUp(maxCalls, raw) && NormalBudgets(raw).Some?
    ensures var l := NewLedger(name, maxCalls, NormalBudgets(raw).value, now);
            var r := Write(None, l, fault, Accepted(false));
            InitializeAnswers(None, r.0, r.1, name, maxCalls, raw, now, fault)
  {
    NewBegins(name, maxCalls, raw, now);
  }

  lemma InitializeSaysAgain(l: Ledger, name: string, maxCalls: int, raw: seq<(string, int)>, now: string,
                            fault: WriteFault)
    requires AddsUp(maxCalls, raw) && NormalBudgets(raw).Some?
    requires CallLimit(maxCalls) && NormalBudgets(raw).value != map[] && Sum(NormalBudgets(raw).value) == maxCalls
    ensures var r := ApplyInitialize(Some(l), name, maxCalls, raw, now, fault);
            InitializeAnswers(Some(l), r.0, r.1, name, maxCalls, raw, now, fault)
  {
    SameBudgets(l.items, raw);
  }

  /** Every initialisation answers so. */
  lemma InitializeSays(file: Option<Ledger>, name: string, maxCalls: int, raw: seq<(string, int)>, now: string,
                       fault: WriteFault)
    ensures var r := ApplyInitialize(file, name, maxCalls, raw, now, fault);
            InitializeAnswers(file, r.0, r.1, name, maxCalls, raw, now, fault)
  {
    AddsUpIff(maxCalls, raw);
    if AddsUp(maxCalls, raw) {
      if file.Some? {
        InitializeSaysAgain(file.value, name, maxCalls, raw, now, fault);
      } else {
        InitializeSaysNew(name, maxCalls, raw, now, fault);
      }
    }
  }

  /** What closing may answer, and leave: it marks an open ledger, or confirms the reason of a closed
      one. */
  ghost predicate CloseAnswers(file: Option<Ledger>, after: Option<Ledger>, r: Response, name: string,
                               reason: string, now: string, fault: WriteFault)
  {
    && (after != file ==>
          && Readable(file, name) && file.value.status == Open && IsReasonCode(reason) && fault != BeforeReplace
          && after == Some(file.value.(status := Closed, closedAt := Some(now), closeReason := reason,
                                             updatedAt := now)))
    && (r == Accepted(false) ==> after != file && fault == NoFault)
    && (r == Refused(WriteFailed) && fault == AfterReplace ==> after != file)
    && (r == Accepted(true) ==> Readable(file, name) && file.value.status == Closed && file.value.closeReason == reason)
    && (r == Refused(OtherReason) ==>
          Readable(file, name) && file.value.status == Closed && file.value.closeReason != reason)
    && (r == Refused(BadArgument) <==> !IsReasonCode(reason))
    && (r == Refused(NoLedger) ==> file.None?)
    && (r == Refused(WriteFailed) ==> Readable(file, name) && file.value.status == Open && fault != NoFault)
    && (r.Refused? ==> r.reason in {BadArgument, NoLedger, InvalidLedger, OtherReason, WriteFailed})
    && !r.Granted?
  }

  lemma CloseSaysOpen(l: Ledger, name: string, reason: string, now: string, fault: WriteFault)
    requires l.status.Open? && IsReasonCode(reason) && Readable(Some(l), name)
    ensures var n := l.(status := Closed, closedAt := Some(now), closeReason := reason, updatedAt := now);
            var r := Write(Some(l), n, fault, Accepted(false));
            CloseAnswers(Some(l), r.0, r.1, name, reason, now, fault)
  {
  }

  /** Every closing answers so. */
  lemma CloseSays(file: Option<Ledger>, name: string, rawReason: string, now: string, fault: WriteFault)
    ensures var r := ApplyClose(file, name, rawReason, now, fault);
            CloseAnswers(file, r.0, r.1, name, Normalize(rawReason), now, fault)
  {
    var reason := Normalize(rawReason);
    if IsReasonCode(reason) && ReadRefusal(file, name).None? && file.value.status.Open? {
      CloseSaysOpen(file.value, name, reason, now, fault);
    }
  }
}
