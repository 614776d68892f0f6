/** The transaction ledger of api/transaction.js: the `/create` handler's validation, the saved
    transaction record, and `updateBalance`, which keeps one running balance record per user. */
module Ledger {
  import opened Common

  /** A saved transaction document; `kind` is the schema's `type` field, stored lower-cased. */
  datatype Transaction = Transaction(
    userId: UserId,
    amount: int,
    category: string,
    paymentMethod: string,
    date: int,
    note: string,
    kind: string,
    createdAt: int)

  /** A balance document; `updatedAt` is absent until the first update. */
  datatype BalanceRec = BalanceRec(balance: int, createdAt: int, updatedAt: Option<int>)

  /** The contribution of one transaction to a running balance. */
  function Signed(amount: int, kind: string): int
  {
    if kind == "income" then amount else if kind == "expense" then -amount else 0
  }

  predicate IsKnownKind(kind: string)
  {
    kind == "income" || kind == "expense"
  }

  /** The balance record `updateBalance` saves for a user whose record is `rec` (None: no record yet). */
  function ApplyDelta(rec: Option<BalanceRec>, amount: int, kind: string, now: int): (r: BalanceRec)
    ensures rec.Some? ==> r.balance == rec.value.balance + Signed(amount, kind)
    ensures rec.Some? ==> r.createdAt == rec.value.createdAt && r.updatedAt == Some(now)
    ensures rec.None? ==> r.balance == (if kind == "income" then amount else -amount)
    ensures rec.None? ==> r.createdAt == now && r.updatedAt.None?
    ensures IsKnownKind(kind) ==> r.balance == (if rec.Some? then rec.value.balance else 0) + Signed(amount, kind)
  {
    match rec
    case Some(b) =>
      var balance := if kind == "income" then b.balance + amount
                     else if kind == "expense" then b.balance - amount
                     else b.balance;
      BalanceRec(balance, b.createdAt, Some(now))
    case None =>
      BalanceRec(if kind == "income" then amount else -amount, now, None)
  }

  /** Folds `updateBalance` over a sequence of (amount, kind) updates. */
  function Replay(rec: Option<BalanceRec>, updates: seq<(int, string)>, now: int): Option<BalanceRec>
  {
    if updates == [] then rec
    else Some(ApplyDelta(Replay(rec, updates[..|updates| - 1], now), updates[|updates| - 1].0, updates[|updates| - 1].1, now))
  }

  function SignedSum(updates: seq<(int, string)>): int
  {
    if updates == [] then 0
    else SignedSum(updates[..|updates| - 1]) + Signed(updates[|updates| - 1].0, updates[|updates| - 1].1)
  }

  /** From no balance record, income and expense updates leave the balance at their signed sum. */
  lemma {:induction false} ReplayFromNothing(updates: seq<(int, string)>, now: int)
    requires forall k :: 0 <= k < |updates| ==> IsKnownKind(updates[k].1)
    ensures updates != [] ==> Replay(None, updates, now).Some?
    ensures updates != [] ==> Replay(None, updates, now).value.balance == SignedSum(updates)
    ensures updates == [] ==> Replay(None, updates, now).None?
  {
    if updates != [] {
      var front := updates[..|updates| - 1];
      ReplayFromNothing(front, now);
    }
  }

  /** The signed total of the transactions of user `u`. */
  function SignedTotal(txs: seq<Transaction>, u: UserId): int
  {
    if txs == [] then 0
    else
      var t := txs[|txs| - 1];
      SignedTotal(txs[..|txs| - 1], u) + (if t.userId == u then Signed(t.amount, t.kind) else 0)
  }

  lemma SignedTotalAppend(txs: seq<Transaction>, t: Transaction, u: UserId)
    ensures SignedTotal(txs + [t], u) == SignedTotal(txs, u) + (if t.userId == u then Signed(t.amount, t.kind) else 0)
  {
    assert (txs + [t])[..|txs|] == txs;
  }

  /** A user's balance as a number: 0 when the user has no balance record. */
  function BalanceOf(balances: map<UserId, BalanceRec>, u: UserId): int
  {
    if u in balances then balances[u].balance else 0
  }

  function Lookup(balances: map<UserId, BalanceRec>, u: UserId): Option<BalanceRec>
  {
    if u in balances then Some(balances[u]) else None
  }

  predicate AllKnownKinds(txs: seq<Transaction>)
  {
    forall k :: 0 <= k < |txs| ==> IsKnownKind(txs[k].kind)
  }

  /** Every user's balance (0 without a record) is the signed total of their transactions. */
  ghost predicate Balanced(balances: map<UserId, BalanceRec>, txs: seq<Transaction>)
  {
    forall u :: BalanceOf(balances, u) == SignedTotal(txs, u)
  }

  /** The request body of `/create`; "" stands for an empty or missing field. */
  datatype CreateInput = CreateInput(
    amount: string,
    category: string,
    userId: UserId,
    paymentMethod: string,
    date: string,
    note: string,
    kind: string)

  datatype CreateError = EmptyInputFields | NotDigits | InvalidDate | InvalidType

  /** The `/create` checks in the handler's order; `parsedDate` is `new Date(date)` of the
      trimmed date, None for an Invalid Date. */
  function CheckCreateInput(input: CreateInput, parsedDate: Option<int>): (r: Option<CreateError>)
    ensures r == Some(EmptyInputFields) <==>
      Trim(input.amount) == [] || input.userId == [] || Trim(input.category) == []
      || Trim(input.paymentMethod) == [] || Trim(input.date) == [] || Trim(input.kind) == []
    ensures r == Some(NotDigits) <==> r != Some(EmptyInputFields) && !IsDecimal(Trim(input.amount))
    ensures r == Some(InvalidDate) <==>
      r != Some(EmptyInputFields) && IsDecimal(Trim(input.amount)) && parsedDate.None?
    ensures r == Some(InvalidType) <==>
      r != Some(EmptyInputFields) && IsDecimal(Trim(input.amount)) && parsedDate.Some?
      && !IsKnownKind(ToLower(Trim(input.kind)))
    ensures r.None? ==> IsDecimal(Trim(input.amount)) && parsedDate.Some? && IsKnownKind(ToLower(Trim(input.kind)))
  {
    if Trim(input.amount) == [] || input.userId == [] || Trim(input.category) == []
       || Trim(input.paymentMethod) == [] || Trim(input.date) == [] || Trim(input.kind) == []
    then Some(EmptyInputFields)
    else if !IsDecimal(Trim(input.amount)) then Some(NotDigits)
    else if parsedDate.None? then Some(InvalidDate)
    else if !IsKnownKind(ToLower(Trim(input.kind))) then Some(InvalidType)
    else None
  }

  /** The document `/create` saves: trimmed fields, `parseInt` of the amount, lower-cased type,
      and an empty note when none was sent. */
  function NewTransaction(input: CreateInput, date: int, now: int): (t: Transaction)
    requires IsDecimal(Trim(input.amount))
    ensures t.amount == DecimalValue(Trim(input.amount)) && t.createdAt == now
    ensures t.kind == ToLower(Trim(input.kind)) && t.userId == input.userId && t.date == date
  {
    Transaction(input.userId, DecimalValue(Trim(input.amount)), Trim(input.category), Trim(input.paymentMethod),
                date, if input.note != [] then Trim(input.note) else [], ToLower(Trim(input.kind)), now)
  }

  datatype CreateOutcome =
    | Rejected(reason: CreateError)
    | SaveFailed
    | BalanceUpdateFailed(saved: Transaction)
    | Created(tx: Transaction)

  /** The transaction and balance collections. */
  class Ledger {
    var transactions: seq<Transaction>
    var balances: map<UserId, BalanceRec>

    /** Every stored transaction is income or expense, and every user's balance (0 without a
        record) is the signed total of their transactions. */
    ghost predicate Consistent()
      reads this
    {
      AllKnownKinds(transactions) && Balanced(balances, transactions)
    }

    constructor ()
      ensures transactions == [] && balances == map[]
      ensures Consistent()
    {
      transactions := [];
      balances := map[];
    }

    /** `updateBalance(userId, amount, type)`: read the record, adjust it, save it or insert a
        new one; `saveOk` is whether the save succeeds (a failure is thrown to the caller). */
    method UpdateBalance(userId: UserId, amount: int, kind: string, now: int, saveOk: bool) returns (ok: bool)
      modifies this
      ensures ok == saveOk
      ensures transactions == old(transactions)
      ensures ok ==> balances == old(balances)[userId := ApplyDelta(Lookup(old(balances), userId), amount, kind, now)]
      ensures !ok ==> balances == old(balances)
    {
      if userId in balances {
        var rec := balances[userId];
        if kind == "income" {
          rec := rec.(balance := rec.balance + amount);
        } else if kind == "expense" {
          rec := rec.(balance := rec.balance - amount);
        }
        rec := rec.(updatedAt := Some(now));
        if saveOk {
          balances := balances[userId := rec];
        }
      } else {
        var rec := BalanceRec(if kind == "income" then amount else -amount, now, None);
        if saveOk {
          balances := balances[userId := rec];
        }
      }
      ok := saveOk;
    }

    /** `POST /create`. The invalid-date branch answers without returning, so control reaches the
        save with an Invalid Date, which the store refuses; `txSaveOk` and `balanceSaveOk` say
        whether the two saves succeed. The balance is touched only after the transaction is saved. */
    method CreateTransaction(input: CreateInput, parsedDate: Option<int>, now: int, txSaveOk: bool, balanceSaveOk: bool)
      returns (r: CreateOutcome)
      modifies this
      ensures var check := CheckCreateInput(input, parsedDate);
              && (r.Rejected? <==> check.Some?)
              && (r.Rejected? ==> r.reason == check.value)
              && (r.SaveFailed? <==> check.None? && !txSaveOk)
              && (r.BalanceUpdateFailed? <==> check.None? && txSaveOk && !balanceSaveOk)
              && (r.Created? <==> check.None? && txSaveOk && balanceSaveOk)
      ensures (r.Rejected? || r.SaveFailed?) ==> transactions == old(transactions) && balances == old(balances)
      ensures r.BalanceUpdateFailed? ==>
        && r.saved == NewTransaction(input, parsedDate.value, now)
        && transactions == old(transactions) + [r.saved]
        && balances == old(balances)
      ensures r.Created? ==>
        && r.tx == NewTransaction(input, parsedDate.value, now)
        && transactions == old(transactions) + [r.tx]
        && balances == old(balances)[r.tx.userId := ApplyDelta(Lookup(old(balances), r.tx.userId), r.tx.amount, r.tx.kind, now)]
      ensures old(Consistent()) && !r.BalanceUpdateFailed? ==> Consistent()
    {
      var check := CheckCreateInput(input, parsedDate);
      if check.Some? && check.value != InvalidDate {
        return Rejected(check.value);
      }
      // The Invalid Date case falls through to the save, which cannot store it.
      if !(txSaveOk && parsedDate.Some?) {
        r := if check.Some? then Rejected(check.value) else SaveFailed;
        return;
      }
      var tx := NewTransaction(input, parsedDate.value, now);
      ghost var before := transactions;
      transactions := transactions + [tx];
      var ok := UpdateBalance(tx.userId, tx.amount, tx.kind, now, balanceSaveOk);
      if ok {
        r := Created(tx);
        if old(Consistent()) {
          CreatedKeepsConsistency(before, old(balances), tx, now);
        }
      } else {
        r := BalanceUpdateFailed(tx);
      }
    }
  }

  /** Appending a known-kind transaction and applying its delta keeps balances equal to signed totals. */
  lemma CreatedKeepsConsistency(txs: seq<Transaction>, balances: map<UserId, BalanceRec>, tx: Transaction, now: int)
    requires IsKnownKind(tx.kind) && AllKnownKinds(txs)
    requires Balanced(balances, txs)
    ensures AllKnownKinds(txs + [tx])
    ensures Balanced(balances[tx.userId := ApplyDelta(Lookup(balances, tx.userId), tx.amount, tx.kind, now)], txs + [tx])
  {
    var after := balances[tx.userId := ApplyDelta(Lookup(balances, tx.userId), tx.amount, tx.kind, now)];
    forall u
      ensures BalanceOf(after, u) == SignedTotal(txs + [tx], u)
    {
      SignedTotalAppend(txs, tx, u);
    }
  }
}
