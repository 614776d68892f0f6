/** The budget routes of api/budget.js over the budget collection, keyed by document id:
    create, read by user, spent-only update, full update and delete, each with its checks. */
module Budgets {
  import opened Common

  type BudgetId = string

  /** A numeric body field as the handlers see it: absent, a JSON number, a non-empty string
      that `Number` and `parseFloat` both read as `value` (such as "0" or "12.5"), or a value for
      which `isNaN` holds. */
  datatype Field = Missing | Num(value: real) | NumericText(value: real) | NotANumber

  /** `!field` is false: a non-empty string, or a number other than 0. */
  predicate Truthy(f: Field)
  {
    f.NotANumber? || f.NumericText? || (f.Num? && f.value != 0.0)
  }

  /** `isNaN(field)`; an absent field is `undefined`, which is NaN. */
  predicate IsNaN(f: Field)
  {
    f.Missing? || f.NotANumber?
  }

  /** A date body field: its text ("" when absent) and `new Date(text)`, None for an Invalid Date. */
  datatype DateField = DateField(text: string, time: Option<int>)

  /** The fields the create and full-update routes read from the body. */
  datatype BudgetInput = BudgetInput(
    userId: UserId,
    category: string,
    amount: Field,
    spentAmount: Field,
    startDate: DateField,
    endDate: DateField,
    note: Option<string>)

  datatype Budget = Budget(
    userId: UserId,
    category: string,
    amount: real,
    spentAmount: real,
    startDate: int,
    endDate: int,
    note: Option<string>,
    createdAt: int)

  datatype BudgetError = EmptyInputFields | NotNumbers

  /** The checks shared by create and full update, in the handlers' order. */
  function CheckBudgetInput(input: BudgetInput): (r: Option<BudgetError>)
    ensures r == Some(EmptyInputFields) <==>
      input.userId == [] || input.category == [] || !Truthy(input.amount)
      || input.startDate.text == [] || input.endDate.text == []
    ensures r == Some(NotNumbers) <==>
      r != Some(EmptyInputFields) && (IsNaN(input.amount) || IsNaN(input.spentAmount))
    ensures r.None? ==> !IsNaN(input.amount) && !IsNaN(input.spentAmount)
    ensures r.None? && input.amount.Num? ==> input.amount.value != 0.0
  {
    if input.userId == [] || input.category == [] || !Truthy(input.amount)
       || input.startDate.text == [] || input.endDate.text == []
    then Some(EmptyInputFields)
    else if IsNaN(input.amount) || IsNaN(input.spentAmount) then Some(NotNumbers)
    else None
  }

  /** The create route's defaults: `spentAmount = 0` and `note = null` when not sent. */
  function WithDefaults(input: BudgetInput): (r: BudgetInput)
    ensures input.spentAmount.Missing? ==> r.spentAmount == Num(0.0)
    ensures !input.spentAmount.Missing? ==> r.spentAmount == input.spentAmount
    ensures r.(spentAmount := input.spentAmount) == input
  {
    if input.spentAmount.Missing? then input.(spentAmount := Num(0.0)) else input
  }

  /** Both dates convert, so the store can cast the document. */
  predicate DatesValid(input: BudgetInput)
  {
    input.startDate.time.Some? && input.endDate.time.Some?
  }

  /** The fields of a budget after a full update with a checked `input`; the creation time stays,
      and an absent note leaves the stored note in place. */
  function Overwrite(b: Budget, input: BudgetInput): (r: Budget)
    requires CheckBudgetInput(input).None? && DatesValid(input)
    ensures r.createdAt == b.createdAt
    ensures r.note == (if input.note.Some? then input.note else b.note)
    ensures r.userId == input.userId && r.category == input.category
    ensures r.amount == input.amount.value && r.spentAmount == input.spentAmount.value
    ensures r.startDate == input.startDate.time.value && r.endDate == input.endDate.time.value
  {
    Budget(input.userId, input.category, input.amount.value, input.spentAmount.value,
           input.startDate.time.value, input.endDate.time.value,
           if input.note.Some? then input.note else b.note, b.createdAt)
  }

  /** The budgets of user `u`: `Budget.find({ userId })`. */
  function UserBudgets(budgets: map<BudgetId, Budget>, u: UserId): (r: map<BudgetId, Budget>)
    ensures forall id :: id in r <==> id in budgets && budgets[id].userId == u
    ensures forall id :: id in r ==> r[id] == budgets[id]
  {
    map id | id in budgets && budgets[id].userId == u :: budgets[id]
  }

  /** Storing a budget under a new id adds it to its owner's budgets and to no one else's. */
  lemma UserBudgetsAfterInsert(budgets: map<BudgetId, Budget>, id: BudgetId, b: Budget, u: UserId)
    requires id !in budgets
    ensures UserBudgets(budgets[id := b], u) == (if b.userId == u then UserBudgets(budgets, u)[id := b] else UserBudgets(budgets, u))
  {
    var before, after := UserBudgets(budgets, u), UserBudgets(budgets[id := b], u);
    if b.userId == u {
      assert forall k :: k in after <==> k in before[id := b];
    } else {
      assert forall k :: k in after <==> k in before;
    }
  }

  /** Removing a budget removes it from its owner's budgets and changes no one else's. */
  lemma UserBudgetsAfterDelete(budgets: map<BudgetId, Budget>, id: BudgetId, u: UserId)
    ensures UserBudgets(budgets - {id}, u) == UserBudgets(budgets, u) - {id}
  {
    var before, after := UserBudgets(budgets, u), UserBudgets(budgets - {id}, u);
    assert forall k :: k in after <==> k in before - {id};
  }

  /** Changing only the spent amount leaves every user's set of budget ids as it was. */
  lemma UserBudgetsAfterSpentUpdate(budgets: map<BudgetId, Budget>, id: BudgetId, spent: real, u: UserId)
    requires id in budgets
    ensures (UserBudgets(budgets[id := budgets[id].(spentAmount := spent)], u)).Keys == UserBudgets(budgets, u).Keys
  {
    var before, after := UserBudgets(budgets, u), UserBudgets(budgets[id := budgets[id].(spentAmount := spent)], u);
    assert forall k :: k in after <==> k in before;
  }

  datatype CreateOutcome = Rejected(reason: BudgetError) | CreateFailed | Created(id: BudgetId)

  datatype ReadOutcome = NoBudgets | Found(budgets: map<BudgetId, Budget>)

  datatype SpentOutcome = SpentNotNumber | SpentNotFound | SpentUpdated(budget: Budget)

  datatype UpdateOutcome = UpdateRejected(reason: BudgetError) | UpdateFailed | NotFound | Updated(budget: Budget)

  datatype DeleteOutcome = DeleteNotFound | Deleted(budget: Budget)

  /** Every stored budget passed the create checks: it has an owner and a category. Its amount
      may be 0, since the text "0" passes the presence check. */
  ghost predicate WellFormed(b: Budget)
  {
    b.userId != [] && b.category != []
  }

  /** The budget collection. */
  class BudgetTable {
    var budgets: map<BudgetId, Budget>

    ghost predicate Valid()
      reads this
    {
      forall id :: id in budgets ==> WellFormed(budgets[id])
    }

    constructor ()
      ensures budgets == map[] && Valid()
    {
      budgets := map[];
    }

    /** `POST /create`; `newId` is the id the store assigns, `now` the clock. A date the store
        cannot cast makes the save fail. */
    method Create(input: BudgetInput, newId: BudgetId, now: int) returns (r: CreateOutcome)
      requires newId !in budgets
      requires Valid()
      modifies this
      ensures var full := WithDefaults(input);
              && (r.Rejected? <==> CheckBudgetInput(full).Some?)
              && (r.Rejected? ==> r.reason == CheckBudgetInput(full).value)
              && (r.CreateFailed? <==> CheckBudgetInput(full).None? && !DatesValid(full))
      ensures !r.Created? ==> budgets == old(budgets)
      ensures r.Created? ==>
        && r.id == newId && newId in budgets
        && budgets == old(budgets)[newId := budgets[newId]]
        && var b := budgets[newId];
           && b.userId == input.userId && b.category == input.category
           && b.amount == input.amount.value
           && b.spentAmount == (if input.spentAmount.Missing? then 0.0 else input.spentAmount.value)
           && b.startDate == input.startDate.time.value && b.endDate == input.endDate.time.value
           && b.note == input.note && b.createdAt == now
      ensures Valid()
    {
      var full := WithDefaults(input);
      var check := CheckBudgetInput(full);
      if check.Some? {
        return Rejected(check.value);
      }
      if !DatesValid(full) {
        return CreateFailed;
      }
      var b := Budget(full.userId, full.category, full.amount.value, full.spentAmount.value,
                      full.startDate.time.value, full.endDate.time.value, full.note, now);
      budgets := budgets[newId := b];
      r := Created(newId);
    }

    /** `GET /:userId`: the user's budgets, or a failure when there are none. */
    function ForUser(u: UserId): (r: ReadOutcome)
      reads this
      ensures r.NoBudgets? <==> forall id :: id in budgets ==> budgets[id].userId != u
      ensures r.Found? ==> r.budgets == UserBudgets(budgets, u) && |r.budgets| > 0
    {
      var mine := UserBudgets(budgets, u);
      if |mine| > 0 then Found(mine)
      else
        assert mine.Keys == {};
        NoBudgets
    }

    /** `PUT /update/:id` with `updateSpentAmountOnly`: only the spent amount of that one
        budget changes. */
    method UpdateSpentOnly(id: BudgetId, spentAmount: Field) returns (r: SpentOutcome)
      requires Valid()
      modifies this
      ensures r.SpentNotNumber? <==> IsNaN(spentAmount)
      ensures r.SpentNotFound? <==> !IsNaN(spentAmount) && id !in old(budgets)
      ensures !r.SpentUpdated? ==> budgets == old(budgets)
      ensures r.SpentUpdated? ==>
        && r.budget == old(budgets)[id].(spentAmount := spentAmount.value)
        && budgets == old(budgets)[id := r.budget]
      ensures Valid()
    {
      if IsNaN(spentAmount) {
        return SpentNotNumber;
      }
      if id !in budgets {
        return SpentNotFound;
      }
      var b := budgets[id].(spentAmount := spentAmount.value);
      budgets := budgets[id := b];
      r := SpentUpdated(b);
    }

    /** `PUT /update/:id` without `updateSpentAmountOnly`: the create checks (with no default for
        the spent amount), then every listed field of that one budget is overwritten. */
    method UpdateFull(id: BudgetId, input: BudgetInput) returns (r: UpdateOutcome)
      requires Valid()
      modifies this
      ensures (r.UpdateRejected? <==> CheckBudgetInput(input).Some?)
      ensures r.UpdateRejected? ==> r.reason == CheckBudgetInput(input).value
      ensures r.UpdateFailed? <==> CheckBudgetInput(input).None? && !DatesValid(input)
      ensures r.NotFound? <==> CheckBudgetInput(input).None? && DatesValid(input) && id !in old(budgets)
      ensures !r.Updated? ==> budgets == old(budgets)
      ensures r.Updated? ==>
        && id in old(budgets)
        && r.budget == Overwrite(old(budgets)[id], input)
        && budgets == old(budgets)[id := r.budget]
      ensures Valid()
    {
      var check := CheckBudgetInput(input);
      if check.Some? {
        return UpdateRejected(check.value);
      }
      if !DatesValid(input) {
        return UpdateFailed;
      }
      if id !in budgets {
        return NotFound;
      }
      var b := Overwrite(budgets[id], input);
      budgets := budgets[id := b];
      r := Updated(b);
    }

    /** `DELETE /delete/:id`: removes exactly that budget. */
    method Delete(id: BudgetId) returns (r: DeleteOutcome)
      requires Valid()
      modifies this
      ensures r.DeleteNotFound? <==> id !in old(budgets)
      ensures r.DeleteNotFound? ==> budgets == old(budgets)
      ensures r.Deleted? ==> r.budget == old(budgets)[id] && budgets == old(budgets) - {id}
      ensures Valid()
    {
      if id !in budgets {
        return DeleteNotFound;
      }
      r := Deleted(budgets[id]);
      budgets := budgets - {id};
    }
  }

  /** An amount sent as the text "0" passes both checks, so a budget of 0 can be stored. */
  lemma ZeroTextAmountAccepted(input: BudgetInput)
    requires input.userId != [] && input.category != []
    requires input.startDate.text != [] && input.endDate.text != []
    requires input.amount == NumericText(0.0) && input.spentAmount.Num?
    ensures CheckBudgetInput(input).None?
    ensures CheckBudgetInput(input.(amount := Num(0.0))) == Some(EmptyInputFields)
  {
  }

  /** A created budget is read back among its owner's budgets, and the owner's read succeeds. */
  method CreateThenRead(input: BudgetInput, newId: BudgetId, now: int) returns (created: CreateOutcome, read: ReadOutcome)
    requires CheckBudgetInput(WithDefaults(input)).None? && DatesValid(input)
    ensures created == Created(newId)
    ensures read.Found? && newId in read.budgets && read.budgets[newId].userId == input.userId
  {
    var table := new BudgetTable();
    created := table.Create(input, newId, now);
    read := table.ForUser(input.userId);
    assert newId in UserBudgets(table.budgets, input.userId);
  }
}
