/** The ledger's operations as the program performs them, each under the experiment lock. */
module LedgerFile {
  import opened Basics
  import opened LedgerModel
  import opened LedgerAnswers

  // ---------------------------------------------------------------- validation

  /** The check of the items: shape, counters, and the sum of the budgets. */
  method ItemsAreValid(l: Ledger) returns (ok: bool)
    ensures ok <==> (forall id | id in l.items :: ValidItem(id, l.items[id])) && Sum(Budgets(l.items)) == l.maxCalls
  {
    var total := 0;
    var todo := l.items.Keys;
    ghost var left := Budgets(l.items);
    while todo != {}
      invariant todo <= l.items.Keys && left == map id | id in todo :: l.items[id].maxCalls
      invariant total + Sum(left) == Sum(Budgets(l.items))
      invariant forall id | id in l.items && id !in todo :: ValidItem(id, l.items[id])
      decreases todo
    {
      var id :| id in todo;
      if !ValidItem(id, l.items[id]) {
        return false;
      }
      SumWithout(left, id);
      left := left - {id};
      total := total + l.items[id].maxCalls;
      todo := todo - {id};
    }
    ok := total == l.maxCalls;
  }

  ghost function Dispatches(claims: seq<Claim>): set<string> {
    set k | 0 <= k < |claims| :: Normalize(claims[k].dispatchId)
  }

  lemma WellFormedAppend(claims: seq<Claim>, claim: Claim, items: map<string, Item>)
    ensures ValidClaims(claims + [claim], items) <==>
      ValidClaims(claims, items) && ValidClaim(claim, items) && Normalize(claim.dispatchId) !in Dispatches(claims)
    ensures Dispatches(claims + [claim]) == Dispatches(claims) + {Normalize(claim.dispatchId)}
  {
    var all, n := claims + [claim], |claims|;
    assert all[n] == claim && forall k | 0 <= k < n :: all[k] == claims[k];
    if Normalize(claim.dispatchId) in Dispatches(claims) {
      var k :| 0 <= k < n && Normalize(claims[k].dispatchId) == Normalize(claim.dispatchId);
      assert Normalize(all[k].dispatchId) == Normalize(all[n].dispatchId);
    }
  }

  lemma WellFormedPrefix(claims: seq<Claim>, i: nat, items: map<string, Item>)
    requires i <= |claims| && !ValidClaims(claims[..i], items)
    ensures !ValidClaims(claims, items)
  {
  }

  ghost predicate Counts(counted: map<string, int>, claims: seq<Claim>, items: map<string, Item>) {
    counted.Keys == items.Keys && forall id | id in items :: counted[id] == CountFor(claims, id)
  }

  lemma CountsAppend(counted: map<string, int>, claims: seq<Claim>, claim: Claim, items: map<string, Item>)
    requires Counts(counted, claims, items) && Normalize(claim.itemId) in items
    ensures var item := Normalize(claim.itemId);
            Counts(counted[item := counted[item] + 1], claims + [claim], items)
  {
    forall id { CountAppend(claims, claim, id); }
  }

  /** One round of the check: the claim spoils the ledger, or it is counted. */
  lemma CountStep(claims: seq<Claim>, i: nat, counted: map<string, int>, items: map<string, Item>)
    requires i < |claims| && Counts(counted, claims[..i], items) && ValidClaims(claims[..i], items)
    ensures var claim, seen := claims[i], Dispatches(claims[..i]);
            var item, dispatch := Normalize(claim.itemId), Normalize(claim.dispatchId);
            if !ValidClaim(claim, items) || dispatch in seen then !ValidClaims(claims, items)
            else
              && ValidClaims(claims[..i + 1], items) && Dispatches(claims[..i + 1]) == seen + {dispatch}
              && Counts(counted[item := counted[item] + 1], claims[..i + 1], items)
  {
    var claim := claims[i];
    assert claims[..i + 1] == claims[..i] + [claim];
    WellFormedAppend(claims[..i], claim, items);
    if !ValidClaims(claims[..i + 1], items) {
      WellFormedPrefix(claims, i + 1, items);
    } else {
      CountsAppend(counted, claims[..i], claim, items);
    }
  }

  /** The check of the claims one by one, counting them per item. */
  method CountClaims(l: Ledger) returns (ok: bool, counted: map<string, int>)
    ensures ok <==> ValidClaims(l.claims, l.items)
    ensures ok ==> Counts(counted, l.claims, l.items)
  {
    var seen: set<string> := {};
    counted := map id | id in l.items :: 0;
    for i := 0 to |l.claims|
      invariant seen == Dispatches(l.claims[..i])
      invariant Counts(counted, l.claims[..i], l.items)
      invariant ValidClaims(l.claims[..i], l.items)
    {
      var claim := l.claims[i];
      var dispatch, item := Normalize(claim.dispatchId), Normalize(claim.itemId);
      CountStep(l.claims, i, counted, l.items);
      if !ValidClaim(claim, l.items) || dispatch in seen {
        return false, counted;
      }
      seen := seen + {dispatch};
      counted := counted[item := counted[item] + 1];
    }
    assert l.claims[..|l.claims|] == l.claims;
    ok := true;
  }

  method CountsAgree(items: map<string, Item>, counted: map<string, int>) returns (ok: bool)
    requires counted.Keys == items.Keys
    ensures ok <==> forall id | id in items :: items[id].claimedCalls == counted[id]
  {
    var todo := items.Keys;
    while todo != {}
      invariant todo <= items.Keys
      invariant forall id | id in items && id !in todo :: items[id].claimedCalls == counted[id]
      decreases todo
    {
      var id :| id in todo;
      if items[id].claimedCalls != counted[id] {
        return false;
      }
      todo := todo - {id};
    }
    ok := true;
  }

  lemma CountedIsValid(l: Ledger, counted: map<string, int>)
    requires Counts(counted, l.claims, l.items)
    requires l.claimedCalls == |l.claims| && l.remainingCalls == l.maxCalls - |l.claims|
    ensures ValidCounts(l) <==> forall id | id in l.items :: l.items[id].claimedCalls == counted[id]
  {
  }

  method Validate(l: Ledger) returns (ok: bool)
    ensures ok <==> Valid(l)
  {
    if !IsIdentifier(Normalize(l.experimentId)) || !CallLimit(l.maxCalls) || l.items == map[] {
      return false;
    }
    var itemsOk := ItemsAreValid(l);
    if !itemsOk {
      return false;
    }
    var claimsOk, counted := CountClaims(l);
    if !claimsOk {
      return false;
    }
    if l.claimedCalls != |l.claims| || l.remainingCalls != l.maxCalls - |l.claims| {
      return false;
    }
    var countsOk := CountsAgree(l.items, counted);
    CountedIsValid(l, counted);
    ok := countsOk && l.createdAt != "" && l.updatedAt != "" && ValidClosing(l);
  }

  /** The budgets under normalised identifiers, and their total. */
  method NormalizeAll(budgets: seq<(string, int)>) returns (items: Option<map<string, int>>, total: int)
    ensures items == NormalBudgets(budgets)
    ensures items.Some? ==> total == Sum(items.value)
  {
    var m := map[];
    total := 0;
    for i := 0 to |budgets|
      invariant NormalBudgets(budgets[..i]) == Some(m) && total == Sum(m)
    {
      var id := Normalize(budgets[i].0);
      assert budgets[..i + 1][..i] == budgets[..i];
      if !IsIdentifier(id) || id in m || !CallLimit(budgets[i].1) {
        NormalPrefix(budgets, i + 1);
        return None, 0;
      }
      SumWithout(m[id := budgets[i].1], id);
      assert m[id := budgets[i].1] - {id} == m;
      m := m[id := budgets[i].1];
      total := total + budgets[i].1;
    }
    assert budgets[..|budgets|] == budgets;
    items := Some(m);
  }

  /** The search for an earlier claim of the same dispatch. */
  method Find(claims: seq<Claim>, dispatch: string) returns (found: Option<nat>)
    ensures found == FindClaim(claims, dispatch)
  {
    var k := 0;
    while k < |claims| && claims[k].dispatchId != dispatch
      invariant 0 <= k <= |claims|
      invariant FindClaim(claims, dispatch) ==
                var rest := FindClaim(claims[k..], dispatch); if rest.None? then None else Some(rest.value + k)
    {
      assert claims[k..][1..] == claims[k + 1..];
      k := k + 1;
    }
    found := if k < |claims| then Some(k) else None;
  }

  // ---------------------------------------------------------------- the file

  class LedgerFile {
    const name: string
    var file: Option<Ledger>

    constructor (name: string, found: Option<Ledger>)
      ensures this.name == name && file == found
    {
      this.name := name;
      file := found;
    }

    method Read() returns (refusal: Option<Refusal>)
      ensures refusal == ReadRefusal(file, name)
    {
      if file.None? {
        return Some(NoLedger);
      }
      var ok := Validate(file.value);
      refusal := if !ok || file.value.experimentId != name then Some(InvalidLedger) else None;
    }

    /** Validates once more, then replaces the file atomically. */
    method Replace(l: Ledger, fault: WriteFault, response: Response) returns (r: Response)
      modifies this`file
      ensures (file, r) == Write(old(file), l, fault, response)
    {
      var ok := Validate(l);
      if !ok {
        return Refused(InvalidLedger);
      }
      if fault.BeforeReplace? {
        return Refused(WriteFailed);
      }
      file := Some(l);
      r := if fault.AfterReplace? then Refused(WriteFailed) else response;
    }

    method Initialize(maxCalls: int, budgets: seq<(string, int)>, now: string, fault: WriteFault)
        returns (r: Response)
      modifies this`file
      ensures (file, r) == Apply(old(file), name, InitializeOp(maxCalls, budgets, now, fault))
      ensures InitializeAnswers(old(file), file, r, name, maxCalls, budgets, now, fault)
    {
      InitializeSays(file, name, maxCalls, budgets, now, fault);
      if !CallLimit(maxCalls) {
        return Refused(BadArgument);
      }
      var normal, total := NormalizeAll(budgets);
      if normal.None? {
        return Refused(BadArgument);
      }
      var items := normal.value;
      if items == map[] || total != maxCalls {
        return Refused(BadArgument);
      }
      if file.Some? {
        var refusal := Read();
        if refusal.Some? {
          return Refused(refusal.value);
        }
        return if file.value.maxCalls == maxCalls && Budgets(file.value.items) == items
               then Accepted(true) else Refused(DifferentBudget);
      }
      r := Replace(NewLedger(name, maxCalls, items, now), fault, Accepted(false));
    }

    method ClaimDispatch(rawItem: string, rawDispatch: string, now: string, fault: WriteFault) returns (r: Response)
      modifies this`file
      ensures (file, r) == Apply(old(file), name, ClaimOp(rawItem, rawDispatch, now, fault))
      ensures ClaimAnswers(old(file), file, r, name, Normalize(rawItem), Normalize(rawDispatch), now, fault)
    {
      ClaimSays(file, name, rawItem, rawDispatch, now, fault);
      var item, dispatch := Normalize(rawItem), Normalize(rawDispatch);
      if !IsIdentifier(item) || !IsIdentifier(dispatch) {
        return Refused(BadArgument);
      }
      var refusal := Read();
      if refusal.Some? {
        return Refused(refusal.value);
      }
      var l := file.value;
      var found := Find(l.claims, dispatch);
      if found.Some? {
        var claim := l.claims[found.value];
        if claim.itemId != item {
          return Refused(OtherItem);
        }
        IdentifierIsNormal(item);
        assert ValidClaim(claim, l.items);
        return Granted(ReceiptFor(l, claim, true));
      }
      if l.status.Closed? {
        return Refused(LedgerClosed);
      }
      if item !in l.items {
        return Refused(UnknownItem);
      }
      if l.remainingCalls < 1 {
        return Refused(ExperimentExhausted);
      }
      if l.items[item].remainingCalls < 1 {
        return Refused(ItemExhausted);
      }
      var next := WithClaim(l, item, dispatch, now);
      r := Replace(next, fault, Granted(ReceiptFor(next, Claim(dispatch, item, now), false)));
    }

    method Close(rawReason: string, now: string, fault: WriteFault) returns (r: Response)
      modifies this`file
      ensures (file, r) == Apply(old(file), name, CloseOp(rawReason, now, fault))
      ensures CloseAnswers(old(file), file, r, name, Normalize(rawReason), now, fault)
    {
      CloseSays(file, name, rawReason, now, fault);
      var reason := Normalize(rawReason);
      if !IsReasonCode(reason) {
        return Refused(BadArgument);
      }
      var refusal := Read();
      if refusal.Some? {
        return Refused(refusal.value);
      }
      var l := file.value;
      if l.status.Closed? {
        return if l.closeReason != reason then Refused(OtherReason) else Accepted(true);
      }
      r := Replace(l.(status := Closed, closedAt := Some(now), closeReason := reason, updatedAt := now),
                   fault, Accepted(false));
    }
  }

  lemma {:induction false} NormalPrefix(budgets: seq<(string, int)>, i: nat)
    requires i <= |budgets| && NormalBudgets(budgets[..i]).None?
    ensures NormalBudgets(budgets).None?
    decreases |budgets| - i
  {
    if i == |budgets| {
      assert budgets[..i] == budgets;
    } else {
      assert budgets[..i + 1][..i] == budgets[..i];
      NormalPrefix(budgets, i + 1);
    }
  }
}
