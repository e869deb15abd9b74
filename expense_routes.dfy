/**
 * The expense-tracker route handlers (expense_tracker/routes.py) as methods
 * that update the tables in place. Each is proved to perform exactly the
 * transition of the same name in module Ledger, and so to keep the store
 * invariant and leave other users' rows alone.
 */
module ExpenseRoutes {
  import opened Wrappers
  import opened Http
  import opened Calendar
  import opened Query
  import opened Models
  import opened Ledger
  import opened LedgerInvariant
  import opened ExportView
  import opened Store

  /** get_or_create_category: the caller's first category of that name, else a new one. */
  method GetOrCreateCategory(db: Database, uid: int, name: string) returns (cid: int)
    requires db.Valid() && uid in db.users
    modifies db
    ensures Resolved(cid, db.Snapshot()) == ResolveCategory(old(db.Snapshot()), uid, name)
    ensures db.Valid() && OwnedCategory(db.users, db.categories, uid, cid)
  {
    ResolveCategoryKeepsValid(db.Snapshot(), uid, name);
    var found := FirstKey(db.categories, CategoryNamed(uid, name), 0, db.categoriesBound);
    if found.Some? {
      cid := found.value;
    } else {
      cid := NextRowid(db.categories, db.categoriesBound);
      db.categories := db.categories[cid := Category(name, uid)];
      db.categoriesBound := cid + 1;
    }
  }

  method AddIncome(db: Database, uid: int, amount: Option<int>, category: Option<string>, date: DateArg)
    returns (status: int)
    requires db.Valid() && uid in db.users
    modifies db
    ensures Outcome(status, db.Snapshot()) == Ledger.AddIncome(old(db.Snapshot()), uid, amount, category, date)
    ensures db.Valid() && OthersUntouched(old(db.Snapshot()), db.Snapshot(), uid)
  {
    AddIncomeKeepsValid(db.Snapshot(), uid, amount, category, date);
    AddIncomeLeavesOthers(db.Snapshot(), uid, amount, category, date);
    var parsed := Strptime(date);
    if parsed.None? {
      return ServerError;
    }
    if category.None? {
      return ServerError;
    }
    var cid := GetOrCreateCategory(db, uid, category.value);
    if amount.None? {
      return ServerError;
    }
    var d := parsed.value;
    var id := NextRowid(db.incomes, db.incomesBound);
    db.incomes := db.incomes[id := Income(amount.value, d, MonthName(d.month), d.year, cid, uid)];
    db.incomesBound := id + 1;
    status := Created;
  }

  method UpdateIncome(db: Database, uid: int, id: int, amount: Option<int>, category: Option<string>,
                      date: DateArg)
    returns (status: int)
    requires db.Valid() && uid in db.users
    modifies db
    ensures Outcome(status, db.Snapshot()) == Ledger.UpdateIncome(old(db.Snapshot()), uid, id, amount, category, date)
    ensures db.Valid() && OthersUntouched(old(db.Snapshot()), db.Snapshot(), uid)
  {
    UpdateIncomeKeepsValid(db.Snapshot(), uid, id, amount, category, date);
    UpdateIncomeLeavesOthers(db.Snapshot(), uid, id, amount, category, date);
    if NoNumber(amount) || NoText(category) || date.Absent? {
      return BadRequest;
    }
    if !(id in db.incomes && db.incomes[id].userId == uid) {
      return NotFound;
    }
    var cid := GetOrCreateCategory(db, uid, category.value);
    var parsed := Strptime(date);
    if parsed.None? {
      return ServerError;
    }
    var d := parsed.value;
    db.incomes := db.incomes[id := db.incomes[id].(amount := amount.value, categoryId := cid, date := d,
                                                   month := MonthName(d.month), year := d.year)];
    status := Ok;
  }

  method DeleteIncome(db: Database, uid: int, id: int) returns (status: int)
    requires db.Valid()
    modifies db
    ensures Outcome(status, db.Snapshot()) == Ledger.DeleteIncome(old(db.Snapshot()), uid, id)
    ensures db.Valid() && OthersUntouched(old(db.Snapshot()), db.Snapshot(), uid)
  {
    DeleteKeepsValid(db.Snapshot(), uid, id);
    DeleteLeavesOthers(db.Snapshot(), uid, id);
    if !(id in db.incomes && db.incomes[id].userId == uid) {
      return NotFound;
    }
    db.incomes := db.incomes - {id};
    status := Ok;
  }

  method AddExpense(db: Database, uid: int, description: Option<string>, amount: Option<int>,
                    category: Option<string>, date: DateArg)
    returns (status: int)
    requires db.Valid() && uid in db.users
    modifies db
    ensures Outcome(status, db.Snapshot()) == Ledger.AddExpense(old(db.Snapshot()), uid, description, amount, category, date)
    ensures db.Valid() && OthersUntouched(old(db.Snapshot()), db.Snapshot(), uid)
  {
    AddExpenseKeepsValid(db.Snapshot(), uid, description, amount, category, date);
    AddExpenseLeavesOthers(db.Snapshot(), uid, description, amount, category, date);
    if NoText(description) || NoNumber(amount) || NoText(category) || date.Absent? {
      return BadRequest;
    }
    var cid := GetOrCreateCategory(db, uid, category.value);
    var parsed := Strptime(date);
    if parsed.None? {
      return ServerError;
    }
    var d := parsed.value;
    var id := NextRowid(db.expenses, db.expensesBound);
    db.expenses := db.expenses[id := Expense(description.value, amount.value, d, MonthName(d.month), d.year, cid, uid)];
    db.expensesBound := id + 1;
    status := Created;
  }

  method UpdateExpense(db: Database, uid: int, id: int, description: Option<string>, amount: Option<int>,
                       category: Option<string>, date: DateArg)
    returns (status: int)
    requires db.Valid() && uid in db.users
    modifies db
    ensures Outcome(status, db.Snapshot())
         == Ledger.UpdateExpense(old(db.Snapshot()), uid, id, description, amount, category, date)
    ensures db.Valid() && OthersUntouched(old(db.Snapshot()), db.Snapshot(), uid)
  {
    UpdateExpenseKeepsValid(db.Snapshot(), uid, id, description, amount, category, date);
    UpdateExpenseLeavesOthers(db.Snapshot(), uid, id, description, amount, category, date);
    if NoText(description) || NoNumber(amount) || NoText(category) || date.Absent? {
      return BadRequest;
    }
    if !(id in db.expenses && db.expenses[id].userId == uid) {
      return NotFound;
    }
    var cid := GetOrCreateCategory(db, uid, category.value);
    var parsed := Strptime(date);
    if parsed.None? {
      return ServerError;
    }
    var d := parsed.value;
    db.expenses := db.expenses[id := db.expenses[id].(description := description.value, amount := amount.value,
                                                      categoryId := cid, date := d,
                                                      month := MonthName(d.month), year := d.year)];
    status := Ok;
  }

  method DeleteExpense(db: Database, uid: int, id: int) returns (status: int)
    requires db.Valid()
    modifies db
    ensures Outcome(status, db.Snapshot()) == Ledger.DeleteExpense(old(db.Snapshot()), uid, id)
    ensures db.Valid() && OthersUntouched(old(db.Snapshot()), db.Snapshot(), uid)
  {
    DeleteKeepsValid(db.Snapshot(), uid, id);
    DeleteLeavesOthers(db.Snapshot(), uid, id);
    if !(id in db.expenses && db.expenses[id].userId == uid) {
      return NotFound;
    }
    db.expenses := db.expenses - {id};
    status := Ok;
  }

  method ResetIncome(db: Database, uid: int, month: Option<string>, year: YearArg) returns (status: int)
    requires db.Valid()
    modifies db
    ensures Outcome(status, db.Snapshot()) == Ledger.ResetIncome(old(db.Snapshot()), uid, month, year)
    ensures db.Valid() && OthersUntouched(old(db.Snapshot()), db.Snapshot(), uid)
  {
    ResetIncomeKeepsValid(db.Snapshot(), uid, month, year);
    ResetIncomeLeavesOthers(db.Snapshot(), uid, month, year);
    if NoText(month) || NoJsonYear(year) {
      return BadRequest;
    }
    var first := FirstKey(db.incomes, IncomeIn(uid, month.value, year), 0, db.incomesBound);
    if first.None? {
      return NotFound;
    }
    var k := first.value;
    db.incomes := db.incomes[k := db.incomes[k].(amount := 0)];
    status := Ok;
  }

  /** reset_expenses: fetches the period's rows, then deletes them one at a time. */
  method ResetExpenses(db: Database, uid: int, month: Option<string>, year: YearArg) returns (status: int)
    requires db.Valid()
    modifies db
    ensures Outcome(status, db.Snapshot()) == Ledger.ResetExpenses(old(db.Snapshot()), uid, month, year)
    ensures db.Valid() && OthersUntouched(old(db.Snapshot()), db.Snapshot(), uid)
  {
    ResetExpensesKeepsValid(db.Snapshot(), uid, month, year);
    ResetExpensesLeavesOthers(db.Snapshot(), uid, month, year);
    if NoText(month) || NoJsonYear(year) {
      return BadRequest;
    }
    var keys := SelectKeys(db.expenses, ExpenseIn(uid, month.value, year), 0, db.expensesBound);
    if keys == [] {
      return NotFound;
    }
    for i := 0 to |keys|
      invariant db.expenses == Without(old(db.expenses), keys[..i])
      invariant db.Snapshot() == old(db.Snapshot()).(expenses := db.expenses)
    {
      WithoutOneMore(old(db.expenses), keys, i);
      db.expenses := db.expenses - {keys[i]};
    }
    assert keys[..|keys|] == keys;
    status := Ok;
  }

  /**
   * export_monthly_data: gathers the month's rows and lays them out; 400 for
   * a bad month or year, 404 when there is nothing to export. The source's
   * window end is the first of month + 1 (`wrapDecember` false); with
   * `wrapDecember` December's window ends on 1 January of the next year.
   */
  method ExportMonthlyData(db: Database, uid: int, month: Option<string>, year: YearArg, wrapDecember: bool)
    returns (status: int, rows: seq<Row>)
    ensures var x := Ledger.MonthlyExport(db.Snapshot(), uid, month, year, wrapDecember);
      status == x.status && rows == (if status == Ok then Layout(x.income, x.expenses, db.categories) else [])
  {
    if NoText(month) || year.NoYear? || year.NotANumber? {
      return BadRequest, [];
    }
    var n := MonthNumber(month.value);
    if n.None? {
      return BadRequest, [];
    }
    var y := year.n;
    var start := MakeDate(y, n.value, 1);
    var stop := if wrapDecember && n.value == 12 then MakeDate(y + 1, 1, 1) else MakeDate(y, n.value + 1, 1);
    if start.None? || stop.None? {
      return BadRequest, [];
    }
    var income := Select(db.incomes, IncomeIn(uid, month.value, year), 0, db.incomesBound);
    var expenses := Select(db.expenses, ExpenseDuring(uid, start.value, stop.value), 0, db.expensesBound);
    assert Ledger.MonthlyExport(db.Snapshot(), uid, month, year, wrapDecember) == Gathered(income, expenses);
    if |income| == 0 && |expenses| == 0 {
      return NotFound, [];
    }
    rows := ExportToXlsx(income, expenses, db.categories);
    status := Ok;
  }

  /** export_yearly_data: a missing or non-integer year means `currentYear`. */
  method ExportYearlyData(db: Database, uid: int, year: YearArg, currentYear: int)
    returns (status: int, rows: seq<Row>)
    ensures var x := Ledger.ExportYearly(db.Snapshot(), uid, year, currentYear);
      status == x.status && rows == (if status == Ok then Layout(x.income, x.expenses, db.categories) else [])
  {
    var y := if year.Year? then year.n else currentYear;
    var start, stop := MakeDate(y, 1, 1), MakeDate(y + 1, 1, 1);
    if start.None? || stop.None? {
      return ServerError, [];
    }
    var income := Select(db.incomes, IncomeOfYear(uid, y), 0, db.incomesBound);
    var expenses := Select(db.expenses, ExpenseDuring(uid, start.value, stop.value), 0, db.expensesBound);
    assert Ledger.ExportYearly(db.Snapshot(), uid, year, currentYear) == Gathered(income, expenses);
    if |income| == 0 && |expenses| == 0 {
      return NotFound, [];
    }
    rows := ExportToXlsx(income, expenses, db.categories);
    status := Ok;
  }

  /** delete_account: the bulk deletes in order, then the user row, then logout. */
  method DeleteAccount(db: Database, session: Session, uid: int) returns (status: int)
    requires db.Valid()
    modifies db, session
    ensures Outcome(status, db.Snapshot()) == Ledger.DeleteAccount(old(db.Snapshot()), uid)
    ensures db.Valid() && OthersUntouched(old(db.Snapshot()), db.Snapshot(), uid)
    ensures HoldingsOf(db.Snapshot(), uid) == Holdings(None, map[], map[], map[], map[])
    ensures session.principal == None && session.otpVerifiedUserId == old(session.otpVerifiedUserId)
  {
    DeleteAccountKeepsValid(db.Snapshot(), uid);
    DeleteAccountRemovesOnlyCaller(db.Snapshot(), uid);
    db.expenses := Disowned(db.expenses, ExpenseOwner, uid);
    db.incomes := Disowned(db.incomes, IncomeOwner, uid);
    db.feedback := Disowned(db.feedback, FeedbackOwner, uid);
    db.categories := Disowned(db.categories, CategoryOwner, uid);
    db.users := db.users - {uid};
    session.principal := None;
    status := Ok;
  }
}
