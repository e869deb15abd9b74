/**
 * The tables of the store (authentication/models.py and
 * expense_tracker/models.py). A NOT NULL column is a plain field; the two
 * nullable OTP columns are Options. Each table is a map from row id to row,
 * with a bound that every id in use lies below; queries scan up to it.
 * The id columns are `Integer, primary_key=True` on SQLite, so a new row
 * gets one more than the largest id in use (`Query.NextRowid`), and the id
 * of a deleted highest row is handed out again.
 */
module Models {
  import opened Wrappers
  import opened Calendar
  import opened Passwords
  import opened Query

  /** `user`: email is unique; `otp` and `otp_created_at` are null while no OTP is pending. */
  datatype User = User(name: string, email: string, password: Digest, isAdmin: bool,
                       otp: Option<Digest>, otpCreatedAt: Option<int>)

  /** `categories`: nothing makes (name, user_id) unique. */
  datatype Category = Category(name: string, userId: int)

  /** `income`: month and year are stored beside the date they derive from. */
  datatype Income = Income(amount: int, date: Date, month: string, year: int, categoryId: int, userId: int)

  /** `expenses`: an income's columns plus a description. */
  datatype Expense = Expense(description: string, amount: int, date: Date, month: string, year: int,
                             categoryId: int, userId: int)

  /** `feedback`: user_id carries no foreign key. */
  datatype Feedback = Feedback(userId: int, message: string)

  datatype Db = Db(users: map<int, User>, categories: map<int, Category>, incomes: map<int, Income>,
                   expenses: map<int, Expense>, feedback: map<int, Feedback>,
                   usersBound: int, categoriesBound: int, incomesBound: int, expensesBound: int)

  /** A freshly created database: every table empty, every bound at 1. */
  const Empty := Db(map[], map[], map[], map[], map[], 1, 1, 1, 1)

  /** The unique constraint on `user.email`. */
  predicate EmailsUnique(users: map<int, User>) {
    forall a, b :: a in users && b in users && users[a].email == users[b].email ==> a == b
  }

  /** The OTP hash and its timestamp are written together by `save_otp`. */
  predicate OtpConsistent(u: User) {
    u.otp.Some? ==> u.otpCreatedAt.Some?
  }

  /** The stored month and year are the English month name and the year of a valid date. */
  predicate PeriodOf(d: Date, month: string, year: int) {
    ValidDate(d) && month == MonthName(d.month) && year == d.year
  }

  /** Category `cid` exists and belongs to user `uid`, who exists. */
  predicate OwnedCategory(users: map<int, User>, categories: map<int, Category>, uid: int, cid: int) {
    uid in users && cid in categories && categories[cid].userId == uid
  }

  predicate IncomeConsistent(users: map<int, User>, categories: map<int, Category>, i: Income) {
    PeriodOf(i.date, i.month, i.year) && OwnedCategory(users, categories, i.userId, i.categoryId)
  }

  predicate ExpenseConsistent(users: map<int, User>, categories: map<int, Category>, e: Expense) {
    PeriodOf(e.date, e.month, e.year) && OwnedCategory(users, categories, e.userId, e.categoryId)
  }

  /** Every id is positive and below its table's scan bound. */
  predicate IdsBounded(s: Db) {
    && 1 <= s.usersBound && 1 <= s.categoriesBound && 1 <= s.incomesBound && 1 <= s.expensesBound
    && IdsBelow(s.users, s.usersBound)
    && IdsBelow(s.categories, s.categoriesBound)
    && IdsBelow(s.incomes, s.incomesBound)
    && IdsBelow(s.expenses, s.expensesBound)
  }

  /** The `unique=True` email column, and an OTP hash never stored without its timestamp. */
  predicate UsersValid(users: map<int, User>) {
    EmailsUnique(users) && forall k :: k in users ==> OtpConsistent(users[k])
  }

  /** The `category.user_id` foreign key. */
  predicate CategoriesOwned(categories: map<int, Category>, users: map<int, User>) {
    forall k :: k in categories ==> categories[k].userId in users
  }

  /** Every income row carries its date's period and a category of its owner's. */
  predicate IncomesConsistent(incomes: map<int, Income>, users: map<int, User>, categories: map<int, Category>) {
    forall k :: k in incomes ==> IncomeConsistent(users, categories, incomes[k])
  }

  predicate ExpensesConsistent(expenses: map<int, Expense>, users: map<int, User>, categories: map<int, Category>) {
    forall k :: k in expenses ==> ExpenseConsistent(users, categories, expenses[k])
  }

  /** What every handler keeps true of the store. */
  ghost predicate Valid(s: Db) {
    && IdsBounded(s)
    && UsersValid(s.users)
    && CategoriesOwned(s.categories, s.users)
    && IncomesConsistent(s.incomes, s.users, s.categories)
    && ExpensesConsistent(s.expenses, s.users, s.categories)
  }

  /** The empty store satisfies the invariant. */
  lemma EmptyValid()
    ensures Valid(Empty)
  {
  }

  /** Under the unique constraint, an email names at most one user. */
  lemma EmailIdentifiesUser(s: Db, a: int, b: int)
    requires Valid(s)
    requires a in s.users && b in s.users && s.users[a].email == s.users[b].email
    ensures a == b
  {
  }

  function UserWithEmail(email: string): User -> bool {
    (u: User) => u.email == email
  }

  /** `User.query.filter_by(email=email).first()`. */
  function FindUserByEmail(s: Db, email: string): Option<int> {
    FirstKey(s.users, UserWithEmail(email), 0, s.usersBound)
  }

  function CategoryNamed(uid: int, name: string): Category -> bool {
    (c: Category) => c.name == name && c.userId == uid
  }

  /** `Category.query.filter_by(name=name, user_id=uid).first()`. */
  function FindCategory(s: Db, uid: int, name: string): Option<int> {
    FirstKey(s.categories, CategoryNamed(uid, name), 0, s.categoriesBound)
  }

  /** `sum(inc.amount for inc in rows)`. */
  function SumIncome(rows: seq<Income>): int {
    if rows == [] then 0 else SumIncome(rows[..|rows| - 1]) + rows[|rows| - 1].amount
  }

  /** `sum(exp.amount for exp in rows)`. */
  function SumExpense(rows: seq<Expense>): int {
    if rows == [] then 0 else SumExpense(rows[..|rows| - 1]) + rows[|rows| - 1].amount
  }

  function IncomeOwner(i: Income): int { i.userId }
  function ExpenseOwner(e: Expense): int { e.userId }
  function CategoryOwner(c: Category): int { c.userId }
  function FeedbackOwner(f: Feedback): int { f.userId }

  /** The rows of `m` that belong to user `v`. */
  function Owned<V>(m: map<int, V>, owner: V -> int, v: int): map<int, V> {
    map k | k in m && owner(m[k]) == v :: m[k]
  }

  /** Everything the store holds for user `v`: their user row and the rows they own. */
  datatype Holdings = Holdings(user: Option<User>, categories: map<int, Category>, incomes: map<int, Income>,
                               expenses: map<int, Expense>, feedback: map<int, Feedback>)

  function HoldingsOf(s: Db, v: int): Holdings {
    Holdings(if v in s.users then Some(s.users[v]) else None,
             Owned(s.categories, CategoryOwner, v), Owned(s.incomes, IncomeOwner, v),
             Owned(s.expenses, ExpenseOwner, v), Owned(s.feedback, FeedbackOwner, v))
  }

  /** A table change that neither adds, removes nor alters a row of `v` leaves `v`'s rows as they were. */
  lemma OwnedUnchanged<V>(m: map<int, V>, m': map<int, V>, owner: V -> int, v: int)
    requires forall k :: k in m && owner(m[k]) == v ==> k in m' && m'[k] == m[k]
    requires forall k :: k in m' && owner(m'[k]) == v ==> k in m && m[k] == m'[k]
    ensures Owned(m', owner, v) == Owned(m, owner, v)
  {
    var a, b := Owned(m', owner, v), Owned(m, owner, v);
    forall k | k in a ensures k in b { assert k in m' && owner(m'[k]) == v; }
    forall k | k in b ensures k in a { assert k in m && owner(m[k]) == v; }
    assert a.Keys == b.Keys;
    assert forall k :: k in a ==> a[k] == b[k];
  }
}
