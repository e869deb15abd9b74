/**
 * What each ledger handler of expense_tracker/routes.py does to the store,
 * as a function from the store before the request to the status it answers
 * with and the store after it. `uid` is the logged-in user (`current_user.id`).
 * A handler whose request fails part-way keeps what it already committed:
 * a category created before the failure stays.
 */
module Ledger {
  import opened Wrappers
  import opened Http
  import opened Calendar
  import opened Query
  import opened Models

  datatype Outcome = Outcome(status: int, db: Db)

  /** The category a ledger row is filed under, and the store once it exists. */
  datatype Resolved = Resolved(id: int, db: Db)

  /**
   * The get-or-create of a category each add and update performs: the
   * caller's first category with this name, or else a new one.
   */
  function ResolveCategory(s: Db, uid: int, name: string): (r: Resolved)
    ensures r.id in r.db.categories && r.db.categories[r.id] == Category(name, uid)
    ensures r.db.(categories := s.categories, categoriesBound := s.categoriesBound) == s
  {
    match FindCategory(s, uid, name)
    case Some(k) => Resolved(k, s)
    case None =>
      var id := NextRowid(s.categories, s.categoriesBound);
      Resolved(id, s.(categories := s.categories[id := Category(name, uid)], categoriesBound := id + 1))
  }

  /** The income row stored for `date`: month and year are derived from it. */
  function IncomeOn(amount: int, date: Date, cid: int, uid: int): Income
    requires 1 <= date.month <= 12
  {
    Income(amount, date, MonthName(date.month), date.year, cid, uid)
  }

  function ExpenseOn(description: string, amount: int, date: Date, cid: int, uid: int): Expense
    requires 1 <= date.month <= 12
  {
    Expense(description, amount, date, MonthName(date.month), date.year, cid, uid)
  }

  /**
   * add_income: parses the date first; a missing category name or amount is
   * only refused by the NOT NULL columns when the row is written, so a missing
   * amount fails after the new category has been committed. No 400 check.
   */
  function AddIncome(s: Db, uid: int, amount: Option<int>, category: Option<string>, date: DateArg): Outcome {
    match Strptime(date)
    case None => Outcome(ServerError, s)
    case Some(d) =>
      if category.None? then Outcome(ServerError, s)
      else
        var r := ResolveCategory(s, uid, category.value);
        if amount.None? then Outcome(ServerError, r.db)
        else
          var id := NextRowid(r.db.incomes, r.db.incomesBound);
          Outcome(Created, r.db.(incomes := r.db.incomes[id := IncomeOn(amount.value, d, r.id, uid)],
                                 incomesBound := id + 1))
  }

  /** The row `id` exists and belongs to the caller (`filter_by(id=..., user_id=...)`). */
  predicate OwnsIncome(s: Db, uid: int, id: int) {
    id in s.incomes && s.incomes[id].userId == uid
  }

  predicate OwnsExpense(s: Db, uid: int, id: int) {
    id in s.expenses && s.expenses[id].userId == uid
  }

  /**
   * update_income: 400 when amount, category or date is falsy; 404 when the
   * row is not the caller's; then the category is resolved (and committed)
   * before the date is parsed.
   */
  function UpdateIncome(s: Db, uid: int, id: int, amount: Option<int>, category: Option<string>,
                        date: DateArg): Outcome
  {
    if NoNumber(amount) || NoText(category) || date.Absent? then Outcome(BadRequest, s)
    else if !OwnsIncome(s, uid, id) then Outcome(NotFound, s)
    else
      var r := ResolveCategory(s, uid, category.value);
      match Strptime(date)
      case None => Outcome(ServerError, r.db)
      case Some(d) => Outcome(Ok, r.db.(incomes := r.db.incomes[id := IncomeOn(amount.value, d, r.id, uid)]))
  }

  function DeleteIncome(s: Db, uid: int, id: int): Outcome {
    if !OwnsIncome(s, uid, id) then Outcome(NotFound, s)
    else Outcome(Ok, s.(incomes := s.incomes - {id}))
  }

  /** add_expense: 400 when any field is falsy; the category is committed before the date is parsed. */
  function AddExpense(s: Db, uid: int, description: Option<string>, amount: Option<int>,
                      category: Option<string>, date: DateArg): Outcome
  {
    if NoText(description) || NoNumber(amount) || NoText(category) || date.Absent? then Outcome(BadRequest, s)
    else
      var r := ResolveCategory(s, uid, category.value);
      match Strptime(date)
      case None => Outcome(ServerError, r.db)
      case Some(d) =>
        var id := NextRowid(r.db.expenses, r.db.expensesBound);
        Outcome(Created, r.db.(expenses := r.db.expenses[id := ExpenseOn(description.value, amount.value, d, r.id, uid)],
                               expensesBound := id + 1))
  }

  function UpdateExpense(s: Db, uid: int, id: int, description: Option<string>, amount: Option<int>,
                         category: Option<string>, date: DateArg): Outcome
  {
    if NoText(description) || NoNumber(amount) || NoText(category) || date.Absent? then Outcome(BadRequest, s)
    else if !OwnsExpense(s, uid, id) then Outcome(NotFound, s)
    else
      var r := ResolveCategory(s, uid, category.value);
      match Strptime(date)
      case None => Outcome(ServerError, r.db)
      case Some(d) =>
        Outcome(Ok, r.db.(expenses := r.db.expenses[id := ExpenseOn(description.value, amount.value, d, r.id, uid)]))
  }

  function DeleteExpense(s: Db, uid: int, id: int): Outcome {
    if !OwnsExpense(s, uid, id) then Outcome(NotFound, s)
    else Outcome(Ok, s.(expenses := s.expenses - {id}))
  }

  /** `filter_by(month=month, year=year, user_id=uid)` on income. */
  function IncomeIn(uid: int, month: string, year: YearArg): Income -> bool {
    (i: Income) => i.userId == uid && i.month == month && YearIs(year, i.year)
  }

  function ExpenseIn(uid: int, month: string, year: YearArg): Expense -> bool {
    (e: Expense) => e.userId == uid && e.month == month && YearIs(year, e.year)
  }

  function IncomeRowsIn(s: Db, uid: int, month: string, year: YearArg): seq<Income> {
    Select(s.incomes, IncomeIn(uid, month, year), 0, s.incomesBound)
  }

  function ExpenseRowsIn(s: Db, uid: int, month: string, year: YearArg): seq<Expense> {
    Select(s.expenses, ExpenseIn(uid, month, year), 0, s.expensesBound)
  }

  datatype Balance = MissingPeriod | Totals(income: int, expense: int, balance: int)

  /**
   * get_balance: the caller's income and expense totals for the period. The
   * source subtracts only when income is non-zero and negates otherwise; the
   * two branches agree.
   */
  function GetBalance(s: Db, uid: int, month: Option<string>, year: YearArg): (r: Balance)
    ensures r.Totals? ==> r.balance == r.income - r.expense
    ensures r.MissingPeriod? <==> NoText(month) || year.NoYear?
  {
    if NoText(month) || year.NoYear? then MissingPeriod
    else
      var totalIncome := SumIncome(IncomeRowsIn(s, uid, month.value, year));
      var totalExpense := SumExpense(ExpenseRowsIn(s, uid, month.value, year));
      Totals(totalIncome, totalExpense, if totalIncome != 0 then totalIncome - totalExpense else -totalExpense)
  }

  /** reset_income: zeroes the amount of the first matching income row only. */
  function ResetIncome(s: Db, uid: int, month: Option<string>, year: YearArg): Outcome {
    if NoText(month) || NoJsonYear(year) then Outcome(BadRequest, s)
    else
      match FirstKey(s.incomes, IncomeIn(uid, month.value, year), 0, s.incomesBound)
      case None => Outcome(NotFound, s)
      case Some(k) => Outcome(Ok, s.(incomes := s.incomes[k := s.incomes[k].(amount := 0)]))
  }

  /** The ids reset_expenses fetches and then deletes one by one. */
  function ExpenseKeysIn(s: Db, uid: int, month: string, year: YearArg): seq<int> {
    SelectKeys(s.expenses, ExpenseIn(uid, month, year), 0, s.expensesBound)
  }

  function Without<V>(m: map<int, V>, keys: seq<int>): map<int, V> {
    map k | k in m && k !in keys :: m[k]
  }

  /** Deleting one more id of `keys` removes it from what is left. */
  lemma WithoutOneMore<V>(m: map<int, V>, keys: seq<int>, i: int)
    requires 0 <= i < |keys|
    ensures Without(m, keys[..i + 1]) == Without(m, keys[..i]) - {keys[i]}
  {
    assert keys[..i + 1] == keys[..i] + [keys[i]];
    var a, b := Without(m, keys[..i + 1]), Without(m, keys[..i]) - {keys[i]};
    assert forall k :: k in a <==> k in b;
  }

  /** reset_expenses: deletes every matching expense row. */
  function ResetExpenses(s: Db, uid: int, month: Option<string>, year: YearArg): Outcome {
    if NoText(month) || NoJsonYear(year) then Outcome(BadRequest, s)
    else
      var keys := ExpenseKeysIn(s, uid, month.value, year);
      if keys == [] then Outcome(NotFound, s)
      else Outcome(Ok, s.(expenses := Without(s.expenses, keys)))
  }

  /** The rows an export writes, and the status of the request. */
  datatype Export = Export(status: int, income: seq<Income>, expenses: seq<Expense>)

  /** 404 when the period holds neither income nor expenses. */
  function Gathered(income: seq<Income>, expenses: seq<Expense>): Export {
    if |income| == 0 && |expenses| == 0 then Export(NotFound, [], []) else Export(Ok, income, expenses)
  }

  /** Expenses of `uid` dated in [start, end). */
  function ExpenseDuring(uid: int, start: Date, end: Date): Expense -> bool {
    (e: Expense) => e.userId == uid && !Before(e.date, start) && Before(e.date, end)
  }

  /**
   * export_monthly_data's row selection: income by its stored month and
   * year, expenses by date from the first of the month to the first of the
   * next. As written the end is `datetime(year, month + 1, 1)`, which raises
   * for December; with `wrapDecember` it is 1 January of the next year.
   */
  function MonthlyExport(s: Db, uid: int, month: Option<string>, year: YearArg, wrapDecember: bool): Export {
    if NoText(month) || year.NoYear? || year.NotANumber? then Export(BadRequest, [], [])
    else
      match MonthNumber(month.value)
      case None => Export(BadRequest, [], [])
      case Some(n) =>
        var y := year.n;
        var start := MakeDate(y, n, 1);
        var stop := if wrapDecember && n == 12 then MakeDate(y + 1, 1, 1) else MakeDate(y, n + 1, 1);
        if start.None? || stop.None? then Export(BadRequest, [], [])
        else
          Gathered(Select(s.incomes, IncomeIn(uid, month.value, year), 0, s.incomesBound),
                   Select(s.expenses, ExpenseDuring(uid, start.value, stop.value), 0, s.expensesBound))
  }

  /** export_monthly_data as written. */
  function ExportMonthlyAsWritten(s: Db, uid: int, month: Option<string>, year: YearArg): Export {
    MonthlyExport(s, uid, month, year, false)
  }

  /** export_monthly_data with December's window ending on 1 January of the next year. */
  function ExportMonthly(s: Db, uid: int, month: Option<string>, year: YearArg): Export {
    MonthlyExport(s, uid, month, year, true)
  }

  function IncomeOfYear(uid: int, y: int): Income -> bool {
    (i: Income) => i.userId == uid && i.year == y
  }

  /**
   * export_yearly_data's row selection: a missing or non-integer year means
   * the current one; income by stored year, expenses by date within the
   * year; a year `datetime` cannot hold (or whose successor it cannot) is 500.
   */
  function ExportYearly(s: Db, uid: int, year: YearArg, currentYear: int): Export {
    var y := if year.Year? then year.n else currentYear;
    var start, stop := MakeDate(y, 1, 1), MakeDate(y + 1, 1, 1);
    if start.None? || stop.None? then Export(ServerError, [], [])
    else
      Gathered(Select(s.incomes, IncomeOfYear(uid, y), 0, s.incomesBound),
               Select(s.expenses, ExpenseDuring(uid, start.value, stop.value), 0, s.expensesBound))
  }

  /** The rows of `m` not owned by `uid` (a bulk `filter_by(user_id=uid).delete()`). */
  function Disowned<V>(m: map<int, V>, owner: V -> int, uid: int): map<int, V> {
    map k | k in m && owner(m[k]) != uid :: m[k]
  }

  /** delete_account: expenses, income, feedback, categories, then the user row. */
  function DeleteAccount(s: Db, uid: int): Outcome {
    Outcome(Ok, s.(expenses := Disowned(s.expenses, ExpenseOwner, uid),
                   incomes := Disowned(s.incomes, IncomeOwner, uid),
                   feedback := Disowned(s.feedback, FeedbackOwner, uid),
                   categories := Disowned(s.categories, CategoryOwner, uid),
                   users := s.users - {uid}))
  }
}
