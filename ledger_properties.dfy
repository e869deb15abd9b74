/**
 * What the ledger transitions of module Ledger promise beyond the store
 * invariant: category creation is idempotent; status codes and stored rows
 * follow the request; balances, resets and exports select the period's rows.
 */
module LedgerProperties {
  import opened Wrappers
  import opened Http
  import opened Calendar
  import opened Query
  import opened Models
  import opened Ledger

  /** Resolving the same name twice reuses the category the first call produced. */
  lemma {:induction false} ResolveCategoryIdempotent(s: Db, uid: int, name: string)
    requires IdsBelow(s.categories, s.categoriesBound)
    ensures var r := ResolveCategory(s, uid, name);
      ResolveCategory(r.db, uid, name) == r
  {
    var r := ResolveCategory(s, uid, name);
    if FindCategory(s, uid, name).None? {
      var id := NextRowid(s.categories, s.categoriesBound);
      NextRowidScan(s.categories, CategoryNamed(uid, name), 0, s.categoriesBound);
      FirstKeyAfterInsert(s.categories, CategoryNamed(uid, name), 0, id, Category(name, uid));
    }
  }

  /** The caller's categories named `name`. */
  function CategoriesNamed(s: Db, uid: int, name: string): set<int> {
    set k | k in s.categories && s.categories[k].userId == uid && s.categories[k].name == name
  }

  /** With at most one such category before, exactly one exists after the get-or-create. */
  lemma {:induction false} ResolveCategoryLeavesOne(s: Db, uid: int, name: string)
    requires IdsBelow(s.categories, s.categoriesBound)
    requires |CategoriesNamed(s, uid, name)| <= 1
    ensures |CategoriesNamed(ResolveCategory(s, uid, name).db, uid, name)| == 1
  {
    var r := ResolveCategory(s, uid, name);
    match FindCategory(s, uid, name)
    case Some(k) =>
      assert k in CategoriesNamed(s, uid, name);
    case None =>
      var id := NextRowid(s.categories, s.categoriesBound);
      assert CategoriesNamed(s, uid, name) == {};
      assert CategoriesNamed(r.db, uid, name) == {id};
  }

  /**
   * Two expenses added under the same category name leave exactly one
   * category of that name (when there was at most one before).
   */
  lemma AddExpenseTwiceOneCategory(s: Db, uid: int, d1: Option<string>, a1: Option<int>, t1: DateArg,
                                   d2: Option<string>, a2: Option<int>, t2: DateArg, name: string)
    requires IdsBelow(s.categories, s.categoriesBound)
    requires |CategoriesNamed(s, uid, name)| <= 1
    requires AddExpense(s, uid, d1, a1, Some(name), t1).status != BadRequest
    requires var s1 := AddExpense(s, uid, d1, a1, Some(name), t1).db;
             AddExpense(s1, uid, d2, a2, Some(name), t2).status != BadRequest
    ensures var s1 := AddExpense(s, uid, d1, a1, Some(name), t1).db;
            var s2 := AddExpense(s1, uid, d2, a2, Some(name), t2).db;
            |CategoriesNamed(s2, uid, name)| == 1 && s2.categories == s1.categories
  {
    var r := ResolveCategory(s, uid, name);
    ResolveCategoryLeavesOne(s, uid, name);
    ResolveCategoryIdempotent(s, uid, name);
    var s1 := AddExpense(s, uid, d1, a1, Some(name), t1).db;
    assert s1.categories == r.db.categories && s1.categoriesBound == r.db.categoriesBound;
    assert FindCategory(s1, uid, name) == FindCategory(r.db, uid, name);
  }

  /**
   * add_income never answers 400: it stores the row (201) exactly when the
   * date parses and both category and amount are present, and fails with 500
   * otherwise. The stored row takes its month and year from the date and the
   * next rowid. A 500 for a missing amount comes after the category's commit,
   * so the caller then holds a category of that name and nothing else changed.
   */
  lemma AddIncomeStoresRow(s: Db, uid: int, amount: Option<int>, category: Option<string>, date: DateArg)
    ensures var o := AddIncome(s, uid, amount, category, date);
      && (o.status == Created || o.status == ServerError)
      && (o.status == Created <==> Strptime(date).Some? && category.Some? && amount.Some?)
      && (o.status == ServerError && (Strptime(date).None? || category.None?) ==> o.db == s)
      && (o.status == ServerError && Strptime(date).Some? && category.Some? ==>
            && o.db == s.(categories := o.db.categories, categoriesBound := o.db.categoriesBound)
            && exists c :: c in o.db.categories && o.db.categories[c] == Category(category.value, uid))
      && (o.status == Created ==>
            var id := NextRowid(s.incomes, s.incomesBound);
            var d := Strptime(date).value;
            && id in o.db.incomes
            && o.db.incomes == s.incomes[id := o.db.incomes[id]]
            && o.db == s.(incomes := o.db.incomes, incomesBound := id + 1,
                          categories := o.db.categories, categoriesBound := o.db.categoriesBound)
            && var i := o.db.incomes[id];
               i.amount == amount.value && i.date == d && i.userId == uid
               && i.month == MonthName(d.month) && i.year == d.year
               && o.db.categories[i.categoryId] == Category(category.value, uid))
  {
    if Strptime(date).Some? && category.Some? {
      var r := ResolveCategory(s, uid, category.value);
      assert r.db.categories[r.id] == Category(category.value, uid);
    }
  }

  /**
   * add_expense: 400 with nothing changed when a field is falsy; otherwise
   * 500 when the date does not parse and 201 when it does, the new row
   * taking its month and year from the date and the next rowid. The
   * category is committed before the date is parsed, so after a 500 the
   * caller holds a category of that name and nothing else changed.
   */
  lemma AddExpenseStoresRow(s: Db, uid: int, description: Option<string>, amount: Option<int>,
                            category: Option<string>, date: DateArg)
    ensures var o := AddExpense(s, uid, description, amount, category, date);
      && (o.status == BadRequest <==> NoText(description) || NoNumber(amount) || NoText(category) || date.Absent?)
      && (o.status == BadRequest ==> o.db == s)
      && (o.status == Created <==> o.status != BadRequest && Strptime(date).Some?)
      && (o.status != BadRequest && o.status != Created ==> o.status == ServerError)
      && (o.status == ServerError ==>
            && o.db == s.(categories := o.db.categories, categoriesBound := o.db.categoriesBound)
            && exists c :: c in o.db.categories && o.db.categories[c] == Category(category.value, uid))
      && (o.status == Created ==>
            var id := NextRowid(s.expenses, s.expensesBound);
            var d := Strptime(date).value;
            && id in o.db.expenses
            && o.db.expenses == s.expenses[id := o.db.expenses[id]]
            && o.db == s.(expenses := o.db.expenses, expensesBound := id + 1,
                          categories := o.db.categories, categoriesBound := o.db.categoriesBound)
            && var e := o.db.expenses[id];
               e.description == description.value && e.amount == amount.value && e.date == d && e.userId == uid
               && e.month == MonthName(d.month) && e.year == d.year
               && o.db.categories[e.categoryId] == Category(category.value, uid))
  {
    if !(NoText(description) || NoNumber(amount) || NoText(category) || date.Absent?) {
      var r := ResolveCategory(s, uid, category.value);
      assert r.db.categories[r.id] == Category(category.value, uid);
    }
  }

  /**
   * update_income: 400 on a falsy field, then 404 unless the row is the
   * caller's, both with nothing changed; on success the row is rewritten
   * with the month and year recomputed from the new date.
   */
  lemma UpdateIncomeRewritesRow(s: Db, uid: int, id: int, amount: Option<int>, category: Option<string>,
                                date: DateArg)
    ensures var o := UpdateIncome(s, uid, id, amount, category, date);
      && (o.status == BadRequest <==> NoNumber(amount) || NoText(category) || date.Absent?)
      && (o.status == NotFound <==> o.status != BadRequest && !OwnsIncome(s, uid, id))
      && (o.status == BadRequest || o.status == NotFound ==> o.db == s)
      && (o.status == Ok <==> o.status != BadRequest && OwnsIncome(s, uid, id) && Strptime(date).Some?)
      && (o.status == Ok ==>
            var d := Strptime(date).value;
            && o.db.incomes == s.incomes[id := o.db.incomes[id]]
            && var i := o.db.incomes[id];
               i.amount == amount.value && i.date == d && i.userId == uid
               && i.month == MonthName(d.month) && i.year == d.year
               && o.db.categories[i.categoryId] == Category(category.value, uid))
  {
  }

  lemma UpdateExpenseRewritesRow(s: Db, uid: int, id: int, description: Option<string>, amount: Option<int>,
                                 category: Option<string>, date: DateArg)
    ensures var o := UpdateExpense(s, uid, id, description, amount, category, date);
      && (o.status == BadRequest <==> NoText(description) || NoNumber(amount) || NoText(category) || date.Absent?)
      && (o.status == NotFound <==> o.status != BadRequest && !OwnsExpense(s, uid, id))
      && (o.status == BadRequest || o.status == NotFound ==> o.db == s)
      && (o.status == Ok <==> o.status != BadRequest && OwnsExpense(s, uid, id) && Strptime(date).Some?)
      && (o.status == Ok ==>
            var d := Strptime(date).value;
            && o.db.expenses == s.expenses[id := o.db.expenses[id]]
            && var e := o.db.expenses[id];
               e.description == description.value && e.amount == amount.value && e.date == d && e.userId == uid
               && e.month == MonthName(d.month) && e.year == d.year
               && o.db.categories[e.categoryId] == Category(category.value, uid))
  {
  }

  /** Deleting succeeds exactly on the caller's own row, which is the only thing removed. */
  lemma DeleteRemovesOwnRow(s: Db, uid: int, id: int)
    ensures var o := DeleteIncome(s, uid, id);
      (o.status == Ok <==> OwnsIncome(s, uid, id))
      && (o.status != Ok ==> o.status == NotFound && o.db == s)
      && (o.status == Ok ==> id !in o.db.incomes && o.db == s.(incomes := o.db.incomes)
                             && forall k :: k in s.incomes && k != id ==> k in o.db.incomes)
    ensures var o := DeleteExpense(s, uid, id);
      (o.status == Ok <==> OwnsExpense(s, uid, id))
      && (o.status != Ok ==> o.status == NotFound && o.db == s)
      && (o.status == Ok ==> id !in o.db.expenses && o.db == s.(expenses := o.db.expenses)
                             && forall k :: k in s.expenses && k != id ==> k in o.db.expenses)
  {
  }

  /** The income ids a reset or balance query for the period matches. */
  function IncomeKeysIn(s: Db, uid: int, month: string, year: YearArg): seq<int> {
    SelectKeys(s.incomes, IncomeIn(uid, month, year), 0, s.incomesBound)
  }

  /**
   * reset_income: 404 exactly when the period holds none of the caller's
   * income; otherwise only the first matching row (lowest id) has its
   * amount set to 0 and every other row, matching or not, is kept as is.
   */
  lemma {:induction false} ResetIncomeZeroesFirstMatch(s: Db, uid: int, month: string, year: YearArg)
    requires month != [] && !NoJsonYear(year)
    ensures var o := ResetIncome(s, uid, Some(month), year);
      var keys := IncomeKeysIn(s, uid, month, year);
      && (o.status == NotFound <==> IncomeRowsIn(s, uid, month, year) == [])
      && (o.status != NotFound ==> o.status == Ok)
      && (o.status == NotFound ==> o.db == s)
      && (o.status == Ok ==> keys != [] && o.db == s.(incomes := s.incomes[keys[0] := s.incomes[keys[0]].(amount := 0)]))
  {
    FirstKeyIsFirstSelected(s.incomes, IncomeIn(uid, month, year), 0, s.incomesBound);
  }

  /**
   * reset_expenses: 404 exactly when the period holds none of the caller's
   * expenses; otherwise every matching row is gone, every other row stays,
   * and the period's expense total is 0.
   */
  lemma {:induction false} ResetExpensesClearsPeriod(s: Db, uid: int, month: string, year: YearArg)
    requires IdsBelow(s.expenses, s.expensesBound)
    requires month != [] && !NoJsonYear(year)
    ensures var o := ResetExpenses(s, uid, Some(month), year);
      && (o.status == NotFound <==> ExpenseRowsIn(s, uid, month, year) == [])
      && (o.status != NotFound ==> o.status == Ok)
      && (o.status == NotFound ==> o.db == s)
      && (o.status == Ok ==>
            && o.db == s.(expenses := o.db.expenses)
            && ExpenseRowsIn(o.db, uid, month, year) == []
            && GetBalance(o.db, uid, Some(month), year).expense == 0
            && forall k :: k in o.db.expenses <==> k in s.expenses && !ExpenseIn(uid, month, year)(s.expenses[k]))
    ensures forall k :: k in ResetExpenses(s, uid, Some(month), year).db.expenses ==>
              ResetExpenses(s, uid, Some(month), year).db.expenses[k] == s.expenses[k]
  {
    var o := ResetExpenses(s, uid, Some(month), year);
    var p := ExpenseIn(uid, month, year);
    if o.status == Ok {
      forall k ensures k in o.db.expenses <==> k in s.expenses && !p(s.expenses[k]) {
        if k in s.expenses {
          assert 0 <= k < s.expensesBound;
          assert k in ExpenseKeysIn(s, uid, month, year) <==> p(s.expenses[k]);
        }
      }
      SelectKeysNone(o.db.expenses, p, 0, o.db.expensesBound);
    }
  }

  /** `SumIncome` of rows with one more row at the end. */
  lemma SumIncomeAppend(rows: seq<Income>, x: Income)
    ensures SumIncome(rows + [x]) == SumIncome(rows) + x.amount
  {
    assert (rows + [x])[..|rows|] == rows;
  }

  lemma SumExpenseAppend(rows: seq<Expense>, x: Expense)
    ensures SumExpense(rows + [x]) == SumExpense(rows) + x.amount
  {
    assert (rows + [x])[..|rows|] == rows;
  }

  /** Storing a matching income row under the next rowid raises the period's income total by its amount. */
  lemma IncomeInsertRaisesTotal(s: Db, s': Db, uid: int, month: string, y: int, row: Income)
    requires IdsBelow(s.incomes, s.incomesBound)
    requires var id := NextRowid(s.incomes, s.incomesBound); s'.incomes == s.incomes[id := row] && s'.incomesBound == id + 1
    requires month != [] && IncomeIn(uid, month, Year(y))(row)
    ensures GetBalance(s', uid, Some(month), Year(y)).income == GetBalance(s, uid, Some(month), Year(y)).income + row.amount
  {
    SelectAfterInsert(s.incomes, IncomeIn(uid, month, Year(y)), s.incomesBound, row);
    SumIncomeAppend(IncomeRowsIn(s, uid, month, Year(y)), row);
  }

  lemma ExpenseInsertRaisesTotal(s: Db, s': Db, uid: int, month: string, y: int, row: Expense)
    requires IdsBelow(s.expenses, s.expensesBound)
    requires var id := NextRowid(s.expenses, s.expensesBound); s'.expenses == s.expenses[id := row] && s'.expensesBound == id + 1
    requires month != [] && ExpenseIn(uid, month, Year(y))(row)
    ensures GetBalance(s', uid, Some(month), Year(y)).expense == GetBalance(s, uid, Some(month), Year(y)).expense + row.amount
  {
    SelectAfterInsert(s.expenses, ExpenseIn(uid, month, Year(y)), s.expensesBound, row);
    SumExpenseAppend(ExpenseRowsIn(s, uid, month, Year(y)), row);
  }

  /** A successful add_income raises the income total of its date's period by its amount. */
  lemma AddIncomeRaisesIncomeTotal(s: Db, uid: int, amount: Option<int>, category: Option<string>, date: DateArg)
    requires IdsBelow(s.incomes, s.incomesBound)
    requires AddIncome(s, uid, amount, category, date).status == Created
    ensures var d := Strptime(date).value;
      var month, year := Some(MonthName(d.month)), Year(d.year);
      GetBalance(AddIncome(s, uid, amount, category, date).db, uid, month, year).income
        == GetBalance(s, uid, month, year).income + amount.value
  {
    var d := Strptime(date).value;
    var r := ResolveCategory(s, uid, category.value);
    var row := IncomeOn(amount.value, d, r.id, uid);
    var s' := AddIncome(s, uid, amount, category, date).db;
    var id := NextRowid(s.incomes, s.incomesBound);
    assert s'.incomes == s.incomes[id := row] && s'.incomesBound == id + 1;
    IncomeInsertRaisesTotal(s, s', uid, MonthName(d.month), d.year, row);
  }

  /** A successful add_expense raises the expense total of its date's period by its amount. */
  lemma AddExpenseRaisesExpenseTotal(s: Db, uid: int, description: Option<string>, amount: Option<int>,
                                     category: Option<string>, date: DateArg)
    requires IdsBelow(s.expenses, s.expensesBound)
    requires AddExpense(s, uid, description, amount, category, date).status == Created
    ensures var d := Strptime(date).value;
      var month, year := Some(MonthName(d.month)), Year(d.year);
      GetBalance(AddExpense(s, uid, description, amount, category, date).db, uid, month, year).expense
        == GetBalance(s, uid, month, year).expense + amount.value
  {
    var d := Strptime(date).value;
    var r := ResolveCategory(s, uid, category.value);
    var row := ExpenseOn(description.value, amount.value, d, r.id, uid);
    var s' := AddExpense(s, uid, description, amount, category, date).db;
    var id := NextRowid(s.expenses, s.expensesBound);
    assert s'.expenses == s.expenses[id := row] && s'.expensesBound == id + 1;
    ExpenseInsertRaisesTotal(s, s', uid, MonthName(d.month), d.year, row);
  }

  /** Every expense row carries the month name and year of its date (part of `Valid`). */
  predicate ExpensePeriodsDerived(s: Db) {
    forall k :: k in s.expenses ==> PeriodOf(s.expenses[k].date, s.expenses[k].month, s.expenses[k].year)
  }

  /** For a stored row, the date window of month `n` and the stored month name select alike. */
  lemma ExpenseWindowIsPeriod(e: Expense, uid: int, n: int, y: int)
    requires PeriodOf(e.date, e.month, e.year) && 1 <= n <= 12
    ensures ExpenseDuring(uid, Date(y, n, 1), NextMonthStart(y, n))(e) <==> ExpenseIn(uid, MonthName(n), Year(y))(e)
  {
    InMonthWindow(e.date, y, n);
    if e.date.month != n {
      MonthNamesDistinct(e.date.month, n);
    }
  }

  /**
   * With December's window corrected, a monthly export of a month named as
   * `strftime('%B')` writes exactly the rows the balance of that period
   * sums: income by stored month and year, and expenses by date, which the
   * store keeps in step with their stored month and year. It is 404 exactly
   * when both are empty.
   */
  lemma MonthlyExportMatchesBalance(s: Db, uid: int, n: int, y: int)
    requires ExpensePeriodsDerived(s)
    requires 1 <= n <= 12 && MinYear <= y <= MaxYear && (n == 12 ==> y < MaxYear)
    ensures var x := ExportMonthly(s, uid, Some(MonthName(n)), Year(y));
      var income, expenses := IncomeRowsIn(s, uid, MonthName(n), Year(y)), ExpenseRowsIn(s, uid, MonthName(n), Year(y));
      && (x.status == Ok || x.status == NotFound)
      && (x.status == NotFound <==> income == [] && expenses == [])
      && (x.status == Ok ==> x.income == income && x.expenses == expenses)
  {
    MonthNumberOfName(n);
    MonthlyExportWindow(s, uid, MonthName(n), n, y);
    MonthWindowIsPeriod(s.expenses, s.expensesBound, uid, n, y);
  }

  /** The corrected monthly export of a known month gathers its income rows and the rows of its date window. */
  lemma MonthlyExportWindow(s: Db, uid: int, month: string, n: int, y: int)
    requires month != [] && MonthNumber(month) == Some(n) && MinYear <= y <= MaxYear && (n == 12 ==> y < MaxYear)
    ensures 1 <= n <= 12
    ensures ExportMonthly(s, uid, Some(month), Year(y))
         == Gathered(IncomeRowsIn(s, uid, month, Year(y)),
                     Select(s.expenses, ExpenseDuring(uid, Date(y, n, 1), NextMonthStart(y, n)), 0, s.expensesBound))
  {
    assert MakeDate(y, n, 1) == Some(Date(y, n, 1));
    assert (if n == 12 then MakeDate(y + 1, 1, 1) else MakeDate(y, n + 1, 1)) == Some(NextMonthStart(y, n));
  }

  /** Over rows that carry their date's month and year, the month's date window selects the period's rows. */
  lemma MonthWindowIsPeriod(m: map<int, Expense>, next: int, uid: int, n: int, y: int)
    requires forall k :: k in m ==> PeriodOf(m[k].date, m[k].month, m[k].year)
    requires 1 <= n <= 12
    ensures Select(m, ExpenseDuring(uid, Date(y, n, 1), NextMonthStart(y, n)), 0, next)
         == Select(m, ExpenseIn(uid, MonthName(n), Year(y)), 0, next)
  {
    var start, stop := Date(y, n, 1), NextMonthStart(y, n);
    forall k | 0 <= k < next && k in m
      ensures ExpenseDuring(uid, start, stop)(m[k]) <==> ExpenseIn(uid, MonthName(n), Year(y))(m[k])
    {
      ExpenseWindowIsPeriod(m[k], uid, n, y);
    }
    SelectKeysCongruent(m, ExpenseDuring(uid, start, stop), ExpenseIn(uid, MonthName(n), Year(y)), 0, next);
  }

  /**
   * As written, a monthly export of December (however the name is cased)
   * is 400 for every store and every year: the end of its window is
   * `datetime(year, 13, 1)`, which raises.
   */
  lemma DecemberExportAsWrittenRejected(s: Db, uid: int, month: string, year: YearArg)
    requires MonthNumber(month) == Some(12)
    ensures ExportMonthlyAsWritten(s, uid, Some(month), year).status == BadRequest
  {
    assert MakeDate(if year.Year? then year.n else 0, 13, 1).None?;
  }

  /** Corrected, December of any year before 9999 is answered with its rows or 404, never 400. */
  lemma DecemberExportCorrected(s: Db, uid: int, month: string, y: int)
    requires MonthNumber(month) == Some(12) && MinYear <= y < MaxYear
    ensures ExportMonthly(s, uid, Some(month), Year(y)).status != BadRequest
  {
    assert MakeDate(y, 12, 1).Some? && MakeDate(y + 1, 1, 1).Some?;
  }

  /** Expenses of `uid` whose stored year is `y`: what the yearly export's date window selects. */
  function ExpenseOfYear(uid: int, y: int): Expense -> bool {
    (e: Expense) => e.userId == uid && e.year == y
  }

  /**
   * The yearly export selects income by stored year and expenses by date
   * within the year; on a store whose rows carry the year of their date the
   * two criteria agree, and a missing or non-integer year means the current one.
   */
  lemma YearlyExportSelectsYear(s: Db, uid: int, year: YearArg, currentYear: int)
    requires ExpensePeriodsDerived(s)
    ensures var y := if year.Year? then year.n else currentYear;
      var x := ExportYearly(s, uid, year, currentYear);
      var income, expenses := Select(s.incomes, IncomeOfYear(uid, y), 0, s.incomesBound),
                              Select(s.expenses, ExpenseOfYear(uid, y), 0, s.expensesBound);
      && (x.status == ServerError <==> !(MinYear <= y < MaxYear))
      && (x.status == NotFound <==> MinYear <= y < MaxYear && income == [] && expenses == [])
      && (x.status == Ok ==> x.income == income && x.expenses == expenses)
  {
    var y := if year.Year? then year.n else currentYear;
    if MinYear <= y < MaxYear {
      var start, stop := Date(y, 1, 1), Date(y + 1, 1, 1);
      assert MakeDate(y, 1, 1) == Some(start) && MakeDate(y + 1, 1, 1) == Some(stop);
      forall k | 0 <= k < s.expensesBound && k in s.expenses
        ensures ExpenseDuring(uid, start, stop)(s.expenses[k]) <==> ExpenseOfYear(uid, y)(s.expenses[k])
      {
        InYearWindow(s.expenses[k].date, y);
      }
      SelectKeysCongruent(s.expenses, ExpenseDuring(uid, start, stop), ExpenseOfYear(uid, y), 0, s.expensesBound);
    }
  }
}
