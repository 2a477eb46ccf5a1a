/** The dispatch budget ledger of scripts/provider_call_ledger.py: one file per experiment,
    read, checked, changed and replaced under an exclusive lock. */
module LedgerModel {
  import opened Basics

  const MAX_CALLS_LIMIT := 10000

  datatype Status = Open | Closed

  datatype Item = Item(maxCalls: int, claimedCalls: int, remainingCalls: int)

  datatype Claim = Claim(dispatchId: string, itemId: string, claimedAt: string)

  datatype Ledger = Ledger(
    experimentId: string, status: Status, maxCalls: int, claimedCalls: int, remainingCalls: int,
    items: map<string, Item>, claims: seq<Claim>,
    createdAt: string, updatedAt: string, closedAt: Option<string>, closeReason: string)

  // ---------------------------------------------------------------- identifiers

  function StripBack(s: string): string {
    if s != [] && Blank(s[|s| - 1]) then StripBack(s[..|s| - 1]) else s
  }

  function Normalize(s: string): string {
    Lower(StripBack(StripFront(s)))
  }

  lemma {:induction false} StripBackIs(s: string)
    ensures var t := StripBack(s);
            && |t| <= |s| && t == s[..|t|] && AllBlank(s[|t|..]) && (t != [] ==> !Blank(t[|t| - 1]))
  {
    if s != [] && Blank(s[|s| - 1]) {
      var u := s[..|s| - 1];
      StripBackIs(u);
      var t := StripBack(u);
      assert s[|t|..] == u[|t|..] + [s[|s| - 1]] && s[..|t|] == u[..|t|];
    }
  }

  /** A text in white space: its middle neither begins nor ends with any. */
  ghost predicate Padded(s: string, front: string, middle: string, back: string) {
    && s == front + middle + back && AllBlank(front) && AllBlank(back)
    && (middle != [] ==> !Blank(middle[0]) && !Blank(middle[|middle| - 1]))
  }

  /** The normal form is the text without the white space around it, in lower case. */
  lemma NormalizeIs(s: string) returns (front: string, middle: string, back: string)
    ensures Padded(s, front, middle, back) && Normalize(s) == Lower(middle)
  {
    var t := StripFront(s);
    StripFrontIs(s);
    StripBackIs(t);
    middle := StripBack(t);
    front, back := s[..|s| - |t|], t[|middle|..];
  }

  predicate LetterOrDigit(c: char) {
    'a' <= c <= 'z' || '0' <= c <= '9'
  }

  predicate IdentifierTail(s: string) {
    2 <= |s| <= 63 && forall k | 0 <= k < |s| :: LetterOrDigit(s[k]) || s[k] == '.' || s[k] == '_' || s[k] == '-'
  }

  predicate IsIdentifier(s: string) {
    s != [] && LetterOrDigit(s[0]) && IdentifierTail(s[1..])
  }

  predicate IsReasonCode(s: string) {
    s != [] && 'a' <= s[0] <= 'z' && IdentifierTail(s[1..])
  }

  /** Identifiers have 3 to 64 characters, small letters, digits and separators. */
  lemma IdentifierShape(s: string)
    ensures IsIdentifier(s) <==>
              && 3 <= |s| <= 64 && LetterOrDigit(s[0])
              && forall c | c in s :: LetterOrDigit(c) || c in ['.', '_', '-']
    ensures IsReasonCode(s) <==> IsIdentifier(s) && 'a' <= s[0] <= 'z'
  {
    if s != [] {
      assert forall c :: c in s <==> c == s[0] || c in s[1..];
      assert forall k | 0 <= k < |s[1..]| :: s[1..][k] in s[1..];
    }
  }

  lemma IdentifierIsNormal(s: string)
    requires IsIdentifier(s) || IsReasonCode(s)
    ensures Normalize(s) == s
  {
  }

  // ---------------------------------------------------------------- sums over items

  ghost function Sum(m: map<string, int>): int {
    if m == map[] then 0
    else var k :| k in m; m[k] + Sum(m - {k})
  }

  lemma {:induction false} SumWithout(m: map<string, int>, key: string)
    requires key in m
    ensures Sum(m) == m[key] + Sum(m - {key})
    decreases |m|
  {
    var k :| k in m && Sum(m) == m[k] + Sum(m - {k});
    if k != key {
      SumWithout(m - {k}, key);
      SumWithout(m - {key}, k);
      assert m - {k} - {key} == m - {key} - {k};
    }
  }

  lemma SumUpdate(m: map<string, int>, key: string, value: int)
    requires key in m
    ensures Sum(m[key := value]) == Sum(m) - m[key] + value
  {
    SumWithout(m, key);
    SumWithout(m[key := value], key);
    assert m[key := value] - {key} == m - {key};
  }

  lemma {:induction false} SumAdds(a: map<string, int>, b: map<string, int>, c: map<string, int>)
    requires a.Keys == b.Keys == c.Keys && forall k | k in a :: a[k] == b[k] + c[k]
    ensures Sum(a) == Sum(b) + Sum(c)
    decreases |a|
  {
    if a == map[] {
      assert b == map[] && c == map[];
    } else {
      var k :| k in a;
      SumWithout(a, k);
      SumWithout(b, k);
      SumWithout(c, k);
      SumAdds(a - {k}, b - {k}, c - {k});
    }
  }

  lemma {:induction false} SumZero(m: map<string, int>)
    requires forall k | k in m :: m[k] >= 0
    ensures Sum(m) >= 0 && (Sum(m) == 0 <==> forall k | k in m :: m[k] == 0)
    decreases |m|
  {
    if m != map[] {
      var k :| k in m;
      SumWithout(m, k);
      SumZero(m - {k});
      if forall j | j in m - {k} :: (m - {k})[j] == 0 {
        assert forall j | j in m && j != k :: m[j] == (m - {k})[j];
      } else {
        var j :| j in m - {k} && (m - {k})[j] != 0;
        assert m[j] != 0;
      }
    }
  }

  function Budgets(items: map<string, Item>): map<string, int> {
    map k | k in items :: items[k].maxCalls
  }

  // ---------------------------------------------------------------- what a valid ledger is

  predicate CallLimit(n: int) {
    1 <= n <= MAX_CALLS_LIMIT
  }

  function CountFor(claims: seq<Claim>, item: string): nat {
    if claims == [] then 0
    else (if Normalize(claims[0].itemId) == item then 1 else 0) + CountFor(claims[1..], item)
  }

  lemma {:induction false} CountAppend(claims: seq<Claim>, claim: Claim, item: string)
    ensures CountFor(claims + [claim], item)
            == CountFor(claims, item) + if Normalize(claim.itemId) == item then 1 else 0
  {
    if claims == [] {
      assert claims + [claim] == [claim] && [claim][1..] == [];
    } else {
      assert (claims + [claim])[1..] == claims[1..] + [claim];
      CountAppend(claims[1..], claim, item);
    }
  }

  predicate ValidItem(id: string, item: Item) {
    && IsIdentifier(Normalize(id)) && CallLimit(item.maxCalls)
    && 0 <= item.claimedCalls <= item.maxCalls
    && item.remainingCalls == item.maxCalls - item.claimedCalls
  }

  predicate ValidClaim(claim: Claim, items: map<string, Item>) {
    && IsIdentifier(Normalize(claim.dispatchId)) && IsIdentifier(Normalize(claim.itemId))
    && Normalize(claim.itemId) in items && claim.claimedAt != ""
  }

  ghost predicate DistinctDispatches(claims: seq<Claim>) {
    forall i, j | 0 <= i < j < |claims| :: Normalize(claims[i].dispatchId) != Normalize(claims[j].dispatchId)
  }

  predicate ValidClosing(l: Ledger) {
    if l.status.Open? then l.closedAt.None? && l.closeReason == ""
    else l.closedAt.Some? && l.closedAt.value != "" && IsReasonCode(Normalize(l.closeReason))
  }

  ghost predicate ValidItems(l: Ledger) {
    && l.items != map[] && (forall id | id in l.items :: ValidItem(id, l.items[id]))
    && Sum(Budgets(l.items)) == l.maxCalls
  }

  ghost predicate ValidClaims(claims: seq<Claim>, items: map<string, Item>) {
    (forall k | 0 <= k < |claims| :: ValidClaim(claims[k], items)) && DistinctDispatches(claims)
  }

  ghost predicate ValidCounts(l: Ledger) {
    && l.claimedCalls == |l.claims| && l.remainingCalls == l.maxCalls - |l.claims|
    && forall id | id in l.items :: l.items[id].claimedCalls == CountFor(l.claims, id)
  }

  ghost predicate Valid(l: Ledger) {
    && IsIdentifier(Normalize(l.experimentId)) && CallLimit(l.maxCalls)
    && ValidItems(l) && ValidClaims(l.claims, l.items) && ValidCounts(l)
    && l.createdAt != "" && l.updatedAt != ""
    && ValidClosing(l)
  }

  // ---------------------------------------------------------------- operations

  /** How the replacement of the file can fail, or the process die: before it, leaving the old
      file, or after it, leaving the new one.  Either way the caller gets no receipt. */
  datatype WriteFault = NoFault | BeforeReplace | AfterReplace

  datatype Refusal =
    | BadArgument | NoLedger | InvalidLedger | DifferentBudget | OtherItem | LedgerClosed | UnknownItem
    | ExperimentExhausted | ItemExhausted | OtherReason | WriteFailed

  datatype Receipt = Receipt(
    itemId: string, dispatchId: string, claimedAt: string, replay: bool,
    experimentClaimed: int, experimentRemaining: int, itemClaimed: int, itemRemaining: int)

  datatype Response =
    | Granted(receipt: Receipt)
    | Accepted(replay: bool)
    | Refused(reason: Refusal)

  datatype Operation =
    | InitializeOp(maxCalls: int, budgets: seq<(string, int)>, now: string, fault: WriteFault)
    | ClaimOp(item: string, dispatch: string, now: string, fault: WriteFault)
    | CloseOp(reasonCode: string, now: string, fault: WriteFault)

  /** The refusal of a read, if any. */
  ghost function ReadRefusal(file: Option<Ledger>, name: string): Option<Refusal> {
    if file.None? then Some(NoLedger)
    else if !Valid(file.value) || file.value.experimentId != name then Some(InvalidLedger)
    else None
  }

  ghost function Write(file: Option<Ledger>, l: Ledger, fault: WriteFault, response: Response)
    : (Option<Ledger>, Response) {
    if !Valid(l) then (file, Refused(InvalidLedger))
    else if fault.BeforeReplace? then (file, Refused(WriteFailed))
    else (Some(l), if fault.AfterReplace? then Refused(WriteFailed) else response)
  }

  /** The position of the first claim with this dispatch identifier. */
  function FindClaim(claims: seq<Claim>, dispatch: string): (r: Option<nat>)
    ensures r.Some? ==> r.value < |claims| && claims[r.value].dispatchId == dispatch
    ensures r.None? ==> forall k | 0 <= k < |claims| :: claims[k].dispatchId != dispatch
  {
    if claims == [] then None
    else if claims[0].dispatchId == dispatch then Some(0)
    else
      var rest := FindClaim(claims[1..], dispatch);
      if rest.None? then None else Some(rest.value + 1)
  }

  function WithClaim(l: Ledger, item: string, dispatch: string, now: string): Ledger
    requires item in l.items
  {
    var i := l.items[item];
    l.(claims := l.claims + [Claim(dispatch, item, now)],
       claimedCalls := l.claimedCalls + 1, remainingCalls := l.remainingCalls - 1,
       items := l.items[item := Item(i.maxCalls, i.claimedCalls + 1, i.remainingCalls - 1)],
       updatedAt := now)
  }

  function ReceiptFor(l: Ledger, claim: Claim, replay: bool): Receipt
    requires claim.itemId in l.items
  {
    var i := l.items[claim.itemId];
    Receipt(claim.itemId, claim.dispatchId, claim.claimedAt, replay,
            l.claimedCalls, l.remainingCalls, i.claimedCalls, i.remainingCalls)
  }

  ghost function ApplyClaim(file: Option<Ledger>, name: string, rawItem: string, rawDispatch: string,
                            now: string, fault: WriteFault): (Option<Ledger>, Response)
  {
    var item, dispatch := Normalize(rawItem), Normalize(rawDispatch);
    if !IsIdentifier(item) || !IsIdentifier(dispatch) then (file, Refused(BadArgument))
    else if ReadRefusal(file, name).Some? then (file, Refused(ReadRefusal(file, name).value))
    else
      var l := file.value;
      var found := FindClaim(l.claims, dispatch);
      if found.Some? then
        var claim := l.claims[found.value];
        if claim.itemId != item then (file, Refused(OtherItem))
        else
          IdentifierIsNormal(item);
          assert ValidClaim(claim, l.items);
          (file, Granted(ReceiptFor(l, claim, true)))
      else if l.status.Closed? then (file, Refused(LedgerClosed))
      else if item !in l.items then (file, Refused(UnknownItem))
      else if l.remainingCalls < 1 then (file, Refused(ExperimentExhausted))
      else if l.items[item].remainingCalls < 1 then (file, Refused(ItemExhausted))
      else
        var next := WithClaim(l, item, dispatch, now);
        Write(file, next, fault, Granted(ReceiptFor(next, Claim(dispatch, item, now), false)))
  }

  ghost function ApplyClose(file: Option<Ledger>, name: string, rawReason: string, now: string,
                            fault: WriteFault): (Option<Ledger>, Response)
  {
    var reason := Normalize(rawReason);
    if !IsReasonCode(reason) then (file, Refused(BadArgument))
    else if ReadRefusal(file, name).Some? then (file, Refused(ReadRefusal(file, name).value))
    else if file.value.status.Closed? then
      (file, if file.value.closeReason != reason then Refused(OtherReason) else Accepted(true))
    else
      var next := file.value.(status := Closed, closedAt := Some(now), closeReason := reason, updatedAt := now);
      Write(file, next, fault, Accepted(false))
  }

  /** The budgets under their normalised identifiers; no two may coincide. */
  function NormalBudgets(budgets: seq<(string, int)>): Option<map<string, int>> {
    if budgets == [] then Some(map[])
    else
      var n := |budgets| - 1;
      var rest := NormalBudgets(budgets[..n]);
      var id := Normalize(budgets[n].0);
      if rest.None? || !IsIdentifier(id) || id in rest.value || !CallLimit(budgets[n].1) then None
      else Some(rest.value[id := budgets[n].1])
  }

  function NewLedger(name: string, maxCalls: int, budgets: map<string, int>, now: string): Ledger {
    Ledger(name, Open, maxCalls, 0, maxCalls, map id | id in budgets :: Item(budgets[id], 0, budgets[id]),
           [], now, now, None, "")
  }

  ghost function ApplyInitialize(file: Option<Ledger>, name: string, maxCalls: int, raw: seq<(string, int)>,
                                 now: string, fault: WriteFault): (Option<Ledger>, Response)
  {
    var budgets := NormalBudgets(raw);
    if !CallLimit(maxCalls) || budgets.None? || budgets.value == map[] || Sum(budgets.value) != maxCalls then
      (file, Refused(BadArgument))
    else if file.Some? then
      if ReadRefusal(file, name).Some? then (file, Refused(ReadRefusal(file, name).value))
      else if file.value.maxCalls == maxCalls && Budgets(file.value.items) == budgets.value then (file, Accepted(true))
      else (file, Refused(DifferentBudget))
    else Write(file, NewLedger(name, maxCalls, budgets.value, now), fault, Accepted(false))
  }

  ghost function Apply(file: Option<Ledger>, name: string, op: Operation): (Option<Ledger>, Response) {
    match op
    case InitializeOp(maxCalls, budgets, now, fault) => ApplyInitialize(file, name, maxCalls, budgets, now, fault)
    case ClaimOp(item, dispatch, now, fault) => ApplyClaim(file, name, item, dispatch, now, fault)
    case CloseOp(reason, now, fault) => ApplyClose(file, name, reason, now, fault)
  }
}
