/** Creating an expense with equal splits, as the `useExpenses` hook's
    `createExpense` and the `POST /api/auth/expenses` route handler do it:
    insert the expense stamped with the session user as payer, insert one
    split of `amount / splitWith.length` per listed user, then log an
    analytics row. The database is modelled by the sequence of writes
    issued; the id the database gives the new expense is a parameter, and
    so is which request fails. */
module ExpenseCreation {
  import opened JsValues
  import SpendingStats

  type UserId = string

  /** The body the caller passes (`expenseData`, or the request's JSON). A
      missing field is `None`. */
  datatype ExpenseInput = ExpenseInput(
    title: string,
    amount: real,
    category: Option<string>,
    groupId: Option<string>,
    description: Option<string>,
    splitWith: Option<seq<UserId>>)

  /** The row the route handler inserts into `expenses`, its fields named
      after the table's columns. */
  datatype ExpenseRecord = ExpenseRecord(
    title: string,
    amount: real,
    category: Option<string>,
    groupId: Option<string>,
    description: Option<string>,
    paidById: Option<UserId>)

  /** A row inserted into `expense_splits`. */
  datatype SplitRecord = SplitRecord(expenseId: string, userId: UserId, amount: real)

  /** The row inserted into `analytics`. */
  datatype AnalyticsRecord = AnalyticsRecord(
    userId: Option<UserId>,
    groupId: Option<string>,
    category: Option<string>,
    amount: real,
    expenseId: string)

  /** The hook inserts `{ ...expenseData, paid_by_id }`: every field of the
      caller's object under the caller's own key, plus the payer; the route
      handler inserts an ExpenseRecord. */
  datatype Write =
    | InsertExpense(expense: ExpenseRecord)
    | InsertSpread(fields: ExpenseInput, paidById: Option<UserId>)
    | InsertSplits(splits: seq<SplitRecord>)
    | InsertAnalytics(row: AnalyticsRecord)

  /** The key `name` when the value is defined: a field whose value is
      `undefined` is dropped when the row is serialised. */
  function KeyIf<T>(v: Option<T>, name: string): (ks: set<string>)
    ensures name in ks <==> v.Some?
    ensures ks <= {name}
  {
    if v.Some? then {name} else {}
  }

  /** The keys of the object an expense insert sends. */
  function ExpenseKeys(w: Write): set<string>
    requires w.InsertExpense? || w.InsertSpread?
  {
    match w
    case InsertExpense(e) =>
      {"title", "amount"} + KeyIf(e.category, "category") + KeyIf(e.description, "description")
        + KeyIf(e.groupId, "group_id") + KeyIf(e.paidById, "paid_by_id")
    case InsertSpread(d, payer) =>
      {"title", "amount"} + KeyIf(d.category, "category") + KeyIf(d.description, "description")
        + KeyIf(d.groupId, "groupId") + KeyIf(d.splitWith, "splitWith") + KeyIf(payer, "paid_by_id")
  }

  /** Which request fails, if any. A failed analytics insert is not
      checked by either caller. */
  datatype Fault = NoFault | ExpenseInsertFails | SplitsInsertFails | AnalyticsInsertFails

  // ---------------------------------------------------------------------
  // Equal shares

  /** `splitWith.map(userId => ({ expense_id, user_id: userId, amount: amount / splitWith.length }))`:
      one split per listed user, in order, each referencing the expense and
      each an equal share of the amount. */
  function EqualShares(expenseId: string, users: seq<UserId>, amount: real): (splits: seq<SplitRecord>)
    ensures |splits| == |users|
    ensures forall i :: 0 <= i < |splits| ==>
              && splits[i].expenseId == expenseId
              && splits[i].userId == users[i]
              && splits[i].amount * (|users| as real) == amount
  {
    if |users| == 0 then []
    else seq(|users|, i requires 0 <= i < |users| => SplitRecord(expenseId, users[i], amount / (|users| as real)))
  }

  function TotalOf(splits: seq<SplitRecord>): real
  {
    if |splits| == 0 then 0.0 else TotalOf(splits[..|splits| - 1]) + splits[|splits| - 1].amount
  }

  lemma {:induction false} TotalOfEqual(splits: seq<SplitRecord>, share: real)
    requires forall i :: 0 <= i < |splits| ==> splits[i].amount == share
    ensures TotalOf(splits) == (|splits| as real) * share
  {
    if |splits| > 0 {
      TotalOfEqual(splits[..|splits| - 1], share);
    }
  }

  /** With at least one user, the shares add up to the amount exactly. */
  lemma EqualSharesTotal(expenseId: string, users: seq<UserId>, amount: real)
    requires |users| > 0
    ensures TotalOf(EqualShares(expenseId, users, amount)) == amount
  {
    TotalOfEqual(EqualShares(expenseId, users, amount), amount / (|users| as real));
  }

  // ---------------------------------------------------------------------
  // The hook

  /** What `createExpense` does: the writes issued, and the created
      expense's id, or `None` when it threw. */
  datatype Outcome = Outcome(writes: seq<Write>, created: Option<string>)

  /** `createExpense(expenseData)`. The expense row is the caller's object
      spread, so it carries the group under the key `groupId` and the
      member list under `splitWith`, and never a `group_id`. Without a
      session the payer is left unset; a missing `splitWith` throws after
      the expense is inserted. */
  function CreateExpense(session: Option<UserId>, data: ExpenseInput, newId: string, fault: Fault): (r: Outcome)
    ensures |r.writes| >= 1 && r.writes[0] == InsertSpread(data, session)
    ensures "group_id" !in ExpenseKeys(r.writes[0])
    ensures "groupId" in ExpenseKeys(r.writes[0]) <==> data.groupId.Some?
    ensures "splitWith" in ExpenseKeys(r.writes[0]) <==> data.splitWith.Some?
    ensures "paid_by_id" in ExpenseKeys(r.writes[0]) <==> session.Some?
    ensures r.created.Some? <==> fault != ExpenseInsertFails && fault != SplitsInsertFails && data.splitWith.Some?
    ensures r.created.Some? ==>
              && r.created.value == newId
              && |r.writes| == 3
              && r.writes[1] == InsertSplits(EqualShares(newId, data.splitWith.value, data.amount))
              && r.writes[2] == InsertAnalytics(AnalyticsRecord(session, data.groupId, data.category, data.amount, newId))
    ensures r.created.None? ==> |r.writes| <= 2
  {
    var insert := InsertSpread(data, session);
    if fault == ExpenseInsertFails || data.splitWith.None? then Outcome([insert], None)
    else
      var splits := InsertSplits(EqualShares(newId, data.splitWith.value, data.amount));
      if fault == SplitsInsertFails then Outcome([insert, splits], None)
      else
        var analytics := InsertAnalytics(AnalyticsRecord(session, data.groupId, data.category, data.amount, newId));
        Outcome([insert, splits, analytics], Some(newId))
  }

  /** When the hook succeeds with a non-empty `splitWith`, the inserted
      splits add up to the expense's amount. */
  lemma CreatedSplitsAddUp(session: Option<UserId>, data: ExpenseInput, newId: string, fault: Fault)
    requires data.splitWith.Some? && |data.splitWith.value| > 0
    ensures var r := CreateExpense(session, data, newId, fault);
            r.created.Some? ==> TotalOf(r.writes[1].splits) == r.writes[0].fields.amount
  {
    EqualSharesTotal(newId, data.splitWith.value, data.amount);
  }

  // ---------------------------------------------------------------------
  // The route handler

  datatype Response = Unauthorized | Created(expenseId: string) | ServerError

  /** `POST /api/auth/expenses`: 401 and no write without a session; the
      expense is stored with its category defaulted and the session user as
      payer; the splits follow; the analytics row carries the category as
      sent. 201 on success, 500 when a checked request fails or `splitWith`
      is missing. */
  function PostExpense(session: Option<UserId>, body: ExpenseInput, newId: string, fault: Fault)
    : (r: (Response, seq<Write>))
    ensures session.None? <==> r.0 == Unauthorized
    ensures session.None? ==> r.1 == []
    ensures session.Some? ==>
              && |r.1| >= 1
              && r.1[0] == InsertExpense(ExpenseRecord(body.title, body.amount, Some(SpendingStats.CategoryOrDefault(body.category)),
                                                       body.groupId, body.description, session))
              && ("group_id" in ExpenseKeys(r.1[0]) <==> body.groupId.Some?)
              && "groupId" !in ExpenseKeys(r.1[0]) && "splitWith" !in ExpenseKeys(r.1[0])
    ensures r.0.Created? <==> session.Some? && fault != ExpenseInsertFails && fault != SplitsInsertFails && body.splitWith.Some?
    ensures r.0.Created? ==>
              && r.0.expenseId == newId
              && r.1 == [r.1[0],
                         InsertSplits(EqualShares(newId, body.splitWith.value, body.amount)),
                         InsertAnalytics(AnalyticsRecord(session, body.groupId, body.category, body.amount, newId))]
  {
    if session.None? then (Unauthorized, [])
    else
      var insert := InsertExpense(ExpenseRecord(body.title, body.amount, Some(SpendingStats.CategoryOrDefault(body.category)),
                                                body.groupId, body.description, session));
      if fault == ExpenseInsertFails || body.splitWith.None? then (ServerError, [insert])
      else
        var splits := InsertSplits(EqualShares(newId, body.splitWith.value, body.amount));
        if fault == SplitsInsertFails then (ServerError, [insert, splits])
        else
          var analytics := InsertAnalytics(AnalyticsRecord(session, body.groupId, body.category, body.amount, newId));
          (Created(newId), [insert, splits, analytics])
  }
}
