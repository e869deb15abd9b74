/**
 * Every ledger transition of module Ledger keeps the store invariant
 * `Models.Valid` and leaves every other user's rows as they were.
 */
module LedgerInvariant {
  import opened Wrappers
  import opened Http
  import opened Calendar
  import opened Query
  import opened Models
  import opened Ledger

  /** No row of any user other than `uid` is added, removed or changed. */
  ghost predicate OthersUntouched(s: Db, s': Db, uid: int) {
    forall v :: v != uid ==> HoldingsOf(s', v) == HoldingsOf(s, v)
  }

  lemma OthersUntouchedTransitive(a: Db, b: Db, c: Db, uid: int)
    requires OthersUntouched(a, b, uid) && OthersUntouched(b, c, uid)
    ensures OthersUntouched(a, c, uid)
  {
  }

  /** Rows that pointed at an existing category still do once categories are only added. */
  lemma ConsistentUnderNewCategories(s: Db, categories: map<int, Category>)
    requires IncomesConsistent(s.incomes, s.users, s.categories)
    requires ExpensesConsistent(s.expenses, s.users, s.categories)
    requires forall k :: k in s.categories ==> k in categories && categories[k] == s.categories[k]
    ensures IncomesConsistent(s.incomes, s.users, categories)
    ensures ExpensesConsistent(s.expenses, s.users, categories)
  {
    forall k | k in s.incomes ensures IncomeConsistent(s.users, categories, s.incomes[k]) {
      assert IncomeConsistent(s.users, s.categories, s.incomes[k]);
    }
    forall k | k in s.expenses ensures ExpenseConsistent(s.users, categories, s.expenses[k]) {
      assert ExpenseConsistent(s.users, s.categories, s.expenses[k]);
    }
  }

  /** The get-or-create keeps the invariant and hands back a category of the caller's. */
  lemma ResolveCategoryKeepsValid(s: Db, uid: int, name: string)
    requires Valid(s) && uid in s.users
    ensures var r := ResolveCategory(s, uid, name);
      Valid(r.db) && OwnedCategory(r.db.users, r.db.categories, uid, r.id)
      && forall k :: k in s.categories ==> k in r.db.categories && r.db.categories[k] == s.categories[k]
  {
    var r := ResolveCategory(s, uid, name);
    if FindCategory(s, uid, name).None? {
      assert s.categoriesBound !in s.categories;
      ConsistentUnderNewCategories(s, r.db.categories);
    }
  }

  /** A category it creates is the caller's, at a fresh id. */
  lemma ResolveCategoryLeavesOthers(s: Db, uid: int, name: string)
    requires IdsBelow(s.categories, s.categoriesBound)
    ensures OthersUntouched(s, ResolveCategory(s, uid, name).db, uid)
  {
    var r := ResolveCategory(s, uid, name);
    forall v | v != uid ensures HoldingsOf(r.db, v) == HoldingsOf(s, v) {
      OwnedUnchanged(s.categories, r.db.categories, CategoryOwner, v);
    }
  }

  /** Writing a consistent income row at a used or fresh id below the counter keeps the invariant. */
  lemma PutIncomeKeepsValid(s: Db, k: int, i: Income, next: int)
    requires Valid(s) && IncomeConsistent(s.users, s.categories, i)
    requires 1 <= k < next && s.incomesBound <= next
    ensures Valid(s.(incomes := s.incomes[k := i], incomesBound := next))
  {
  }

  lemma PutExpenseKeepsValid(s: Db, k: int, e: Expense, next: int)
    requires Valid(s) && ExpenseConsistent(s.users, s.categories, e)
    requires 1 <= k < next && s.expensesBound <= next
    ensures Valid(s.(expenses := s.expenses[k := e], expensesBound := next))
  {
  }

  /** Writing a row of the caller's over nothing or over a row of theirs touches no one else. */
  lemma PutIncomeLeavesOthers(s: Db, uid: int, k: int, i: Income, next: int)
    requires i.userId == uid && (k in s.incomes ==> s.incomes[k].userId == uid)
    ensures OthersUntouched(s, s.(incomes := s.incomes[k := i], incomesBound := next), uid)
  {
    var s' := s.(incomes := s.incomes[k := i], incomesBound := next);
    forall v | v != uid ensures HoldingsOf(s', v) == HoldingsOf(s, v) {
      OwnedUnchanged(s.incomes, s'.incomes, IncomeOwner, v);
    }
  }

  lemma PutExpenseLeavesOthers(s: Db, uid: int, k: int, e: Expense, next: int)
    requires e.userId == uid && (k in s.expenses ==> s.expenses[k].userId == uid)
    ensures OthersUntouched(s, s.(expenses := s.expenses[k := e], expensesBound := next), uid)
  {
    var s' := s.(expenses := s.expenses[k := e], expensesBound := next);
    forall v | v != uid ensures HoldingsOf(s', v) == HoldingsOf(s, v) {
      OwnedUnchanged(s.expenses, s'.expenses, ExpenseOwner, v);
    }
  }

  /** add_income keeps the invariant on every path, including the 500 after a category was committed. */
  lemma AddIncomeKeepsValid(s: Db, uid: int, amount: Option<int>, category: Option<string>, date: DateArg)
    requires Valid(s) && uid in s.users
    ensures Valid(AddIncome(s, uid, amount, category, date).db)
  {
    if Strptime(date).Some? && category.Some? {
      var d := Strptime(date).value;
      ResolveCategoryKeepsValid(s, uid, category.value);
      var r := ResolveCategory(s, uid, category.value);
      if amount.Some? {
        PutIncomeKeepsValid(r.db, r.db.incomesBound, IncomeOn(amount.value, d, r.id, uid), r.db.incomesBound + 1);
      }
    }
  }

  lemma AddIncomeLeavesOthers(s: Db, uid: int, amount: Option<int>, category: Option<string>, date: DateArg)
    requires IdsBounded(s)
    ensures OthersUntouched(s, AddIncome(s, uid, amount, category, date).db, uid)
  {
    if Strptime(date).Some? && category.Some? {
      var d := Strptime(date).value;
      ResolveCategoryLeavesOthers(s, uid, category.value);
      var r := ResolveCategory(s, uid, category.value);
      if amount.Some? {
        PutIncomeLeavesOthers(r.db, uid, r.db.incomesBound, IncomeOn(amount.value, d, r.id, uid), r.db.incomesBound + 1);
        OthersUntouchedTransitive(s, r.db, AddIncome(s, uid, amount, category, date).db, uid);
      }
    }
  }

  lemma UpdateIncomeKeepsValid(s: Db, uid: int, id: int, amount: Option<int>, category: Option<string>,
                               date: DateArg)
    requires Valid(s) && uid in s.users
    ensures Valid(UpdateIncome(s, uid, id, amount, category, date).db)
  {
    if !(NoNumber(amount) || NoText(category) || date.Absent?) && OwnsIncome(s, uid, id) {
      ResolveCategoryKeepsValid(s, uid, category.value);
      var r := ResolveCategory(s, uid, category.value);
      if Strptime(date).Some? {
        var d := Strptime(date).value;
        PutIncomeKeepsValid(r.db, id, IncomeOn(amount.value, d, r.id, uid), r.db.incomesBound);
      }
    }
  }

  lemma UpdateIncomeLeavesOthers(s: Db, uid: int, id: int, amount: Option<int>, category: Option<string>,
                                 date: DateArg)
    requires IdsBounded(s)
    ensures OthersUntouched(s, UpdateIncome(s, uid, id, amount, category, date).db, uid)
  {
    if !(NoNumber(amount) || NoText(category) || date.Absent?) && OwnsIncome(s, uid, id) {
      ResolveCategoryLeavesOthers(s, uid, category.value);
      var r := ResolveCategory(s, uid, category.value);
      if Strptime(date).Some? {
        var d := Strptime(date).value;
        PutIncomeLeavesOthers(r.db, uid, id, IncomeOn(amount.value, d, r.id, uid), r.db.incomesBound);
        OthersUntouchedTransitive(s, r.db, UpdateIncome(s, uid, id, amount, category, date).db, uid);
      }
    }
  }

  lemma AddExpenseKeepsValid(s: Db, uid: int, description: Option<string>, amount: Option<int>,
                             category: Option<string>, date: DateArg)
    requires Valid(s) && uid in s.users
    ensures Valid(AddExpense(s, uid, description, amount, category, date).db)
  {
    if !(NoText(description) || NoNumber(amount) || NoText(category) || date.Absent?) {
      ResolveCategoryKeepsValid(s, uid, category.value);
      var r := ResolveCategory(s, uid, category.value);
      if Strptime(date).Some? {
        var d := Strptime(date).value;
        PutExpenseKeepsValid(r.db, r.db.expensesBound, ExpenseOn(description.value, amount.value, d, r.id, uid),
                             r.db.expensesBound + 1);
      }
    }
  }

  lemma AddExpenseLeavesOthers(s: Db, uid: int, description: Option<string>, amount: Option<int>,
                               category: Option<string>, date: DateArg)
    requires IdsBounded(s)
    ensures OthersUntouched(s, AddExpense(s, uid, description, amount, category, date).db, uid)
  {
    if !(NoText(description) || NoNumber(amount) || NoText(category) || date.Absent?) {
      ResolveCategoryLeavesOthers(s, uid, category.value);
      var r := ResolveCategory(s, uid, category.value);
      if Strptime(date).Some? {
        var d := Strptime(date).value;
        PutExpenseLeavesOthers(r.db, uid, r.db.expensesBound, ExpenseOn(description.value, amount.value, d, r.id, uid),
                               r.db.expensesBound + 1);
        OthersUntouchedTransitive(s, r.db, AddExpense(s, uid, description, amount, category, date).db, uid);
      }
    }
  }

  lemma UpdateExpenseKeepsValid(s: Db, uid: int, id: int, description: Option<string>, amount: Option<int>,
                                category: Option<string>, date: DateArg)
    requires Valid(s) && uid in s.users
    ensures Valid(UpdateExpense(s, uid, id, description, amount, category, date).db)
  {
    if !(NoText(description) || NoNumber(amount) || NoText(category) || date.Absent?) && OwnsExpense(s, uid, id) {
      ResolveCategoryKeepsValid(s, uid, category.value);
      var r := ResolveCategory(s, uid, category.value);
      if Strptime(date).Some? {
        var d := Strptime(date).value;
        PutExpenseKeepsValid(r.db, id, ExpenseOn(description.value, amount.value, d, r.id, uid), r.db.expensesBound);
      }
    }
  }

  lemma UpdateExpenseLeavesOthers(s: Db, uid: int, id: int, description: Option<string>, amount: Option<int>,
                                  category: Option<string>, date: DateArg)
    requires IdsBounded(s)
    ensures OthersUntouched(s, UpdateExpense(s, uid, id, description, amount, category, date).db, uid)
  {
    if !(NoText(description) || NoNumber(amount) || NoText(category) || date.Absent?) && OwnsExpense(s, uid, id) {
      ResolveCategoryLeavesOthers(s, uid, category.value);
      var r := ResolveCategory(s, uid, category.value);
      if Strptime(date).Some? {
        var d := Strptime(date).value;
        PutExpenseLeavesOthers(r.db, uid, id, ExpenseOn(description.value, amount.value, d, r.id, uid),
                               r.db.expensesBound);
        OthersUntouchedTransitive(s, r.db, UpdateExpense(s, uid, id, description, amount, category, date).db, uid);
      }
    }
  }

  /** Deleting a row of the caller's keeps the invariant: nothing refers to income or expense rows. */
  lemma DeleteKeepsValid(s: Db, uid: int, id: int)
    requires Valid(s)
    ensures Valid(DeleteIncome(s, uid, id).db) && Valid(DeleteExpense(s, uid, id).db)
  {
  }

  lemma DeleteLeavesOthers(s: Db, uid: int, id: int)
    ensures OthersUntouched(s, DeleteIncome(s, uid, id).db, uid)
    ensures OthersUntouched(s, DeleteExpense(s, uid, id).db, uid)
  {
    var a, b := DeleteIncome(s, uid, id).db, DeleteExpense(s, uid, id).db;
    forall v | v != uid ensures HoldingsOf(a, v) == HoldingsOf(s, v) && HoldingsOf(b, v) == HoldingsOf(s, v) {
      OwnedUnchanged(s.incomes, a.incomes, IncomeOwner, v);
      OwnedUnchanged(s.expenses, b.expenses, ExpenseOwner, v);
    }
  }

  /** reset_income changes at most the amount of one of the caller's rows. */
  lemma ResetIncomeKeepsValid(s: Db, uid: int, month: Option<string>, year: YearArg)
    requires Valid(s)
    ensures Valid(ResetIncome(s, uid, month, year).db)
  {
    if !(NoText(month) || NoJsonYear(year)) {
      match FirstKey(s.incomes, IncomeIn(uid, month.value, year), 0, s.incomesBound)
      case None =>
      case Some(k) =>
        assert IncomeConsistent(s.users, s.categories, s.incomes[k]);
        PutIncomeKeepsValid(s, k, s.incomes[k].(amount := 0), s.incomesBound);
    }
  }

  lemma ResetIncomeLeavesOthers(s: Db, uid: int, month: Option<string>, year: YearArg)
    ensures OthersUntouched(s, ResetIncome(s, uid, month, year).db, uid)
  {
    if !(NoText(month) || NoJsonYear(year)) {
      match FirstKey(s.incomes, IncomeIn(uid, month.value, year), 0, s.incomesBound)
      case None =>
      case Some(k) =>
        assert IncomeIn(uid, month.value, year)(s.incomes[k]);
        PutIncomeLeavesOthers(s, uid, k, s.incomes[k].(amount := 0), s.incomesBound);
    }
  }

  /** reset_expenses removes only rows, which nothing refers to. */
  lemma ResetExpensesKeepsValid(s: Db, uid: int, month: Option<string>, year: YearArg)
    requires Valid(s)
    ensures Valid(ResetExpenses(s, uid, month, year).db)
  {
    var s' := ResetExpenses(s, uid, month, year).db;
    assert forall k :: k in s'.expenses ==> k in s.expenses && s'.expenses[k] == s.expenses[k];
  }

  /** reset_expenses removes only rows of the caller's. */
  lemma ResetExpensesLeavesOthers(s: Db, uid: int, month: Option<string>, year: YearArg)
    ensures OthersUntouched(s, ResetExpenses(s, uid, month, year).db, uid)
  {
    var o := ResetExpenses(s, uid, month, year);
    if !(NoText(month) || NoJsonYear(year)) {
      var p := ExpenseIn(uid, month.value, year);
      forall v | v != uid ensures HoldingsOf(o.db, v) == HoldingsOf(s, v) {
        forall k | k in s.expenses && ExpenseOwner(s.expenses[k]) == v
          ensures k in o.db.expenses && o.db.expenses[k] == s.expenses[k]
        {
          assert !p(s.expenses[k]);
        }
        OwnedUnchanged(s.expenses, o.db.expenses, ExpenseOwner, v);
      }
    }
  }

  /** After a bulk delete of `uid`'s rows, `uid` owns nothing and everyone else owns what they did. */
  lemma OwnedAfterDisowned<V>(m: map<int, V>, owner: V -> int, uid: int, v: int)
    ensures Owned(Disowned(m, owner, uid), owner, v) == if v == uid then map[] else Owned(m, owner, v)
  {
    var d := Disowned(m, owner, uid);
    if v == uid {
      assert forall k :: k !in Owned(d, owner, v);
    } else {
      OwnedUnchanged(m, d, owner, v);
    }
  }

  /** delete_account keeps the invariant: no remaining row points at the removed user or their categories. */
  lemma DeleteAccountKeepsValid(s: Db, uid: int)
    requires Valid(s)
    ensures Valid(DeleteAccount(s, uid).db)
  {
    var s' := DeleteAccount(s, uid).db;
    forall k | k in s'.incomes ensures IncomeConsistent(s'.users, s'.categories, s'.incomes[k]) {
      assert IncomeConsistent(s.users, s.categories, s.incomes[k]);
    }
    forall k | k in s'.expenses ensures ExpenseConsistent(s'.users, s'.categories, s'.expenses[k]) {
      assert ExpenseConsistent(s.users, s.categories, s.expenses[k]);
    }
  }

  /** delete_account removes every row of the caller's and the user row, and nothing of anyone else. */
  lemma DeleteAccountRemovesOnlyCaller(s: Db, uid: int)
    ensures var o := DeleteAccount(s, uid);
      && o.status == Ok && OthersUntouched(s, o.db, uid)
      && HoldingsOf(o.db, uid) == Holdings(None, map[], map[], map[], map[])
  {
    var o := DeleteAccount(s, uid);
    forall v ensures HoldingsOf(o.db, v) == if v == uid then Holdings(None, map[], map[], map[], map[]) else HoldingsOf(s, v) {
      OwnedAfterDisowned(s.categories, CategoryOwner, uid, v);
      OwnedAfterDisowned(s.incomes, IncomeOwner, uid, v);
      OwnedAfterDisowned(s.expenses, ExpenseOwner, uid, v);
      OwnedAfterDisowned(s.feedback, FeedbackOwner, uid, v);
    }
  }
}
