/**
 * The mutable state the handlers work on: the database tables with their
 * scan bounds, and one client's session.
 */
module Store {
  import opened Wrappers
  import opened Models

  /** The SQLAlchemy-backed tables, updated in place by the handlers. */
  class Database {
    var users: map<int, User>
    var categories: map<int, Category>
    var incomes: map<int, Income>
    var expenses: map<int, Expense>
    var feedback: map<int, Feedback>
    var usersBound: int
    var categoriesBound: int
    var incomesBound: int
    var expensesBound: int

    /** A freshly created schema: every table empty, every bound at 1. */
    constructor ()
      ensures Snapshot() == Empty && Valid()
    {
      users, categories, incomes, expenses, feedback := map[], map[], map[], map[], map[];
      usersBound, categoriesBound, incomesBound, expensesBound := 1, 1, 1, 1;
      new;
      EmptyValid();
    }

    /** The tables as a value, which the transition functions take and return. */
    function Snapshot(): Db
      reads this
    {
      Db(users, categories, incomes, expenses, feedback, usersBound, categoriesBound, incomesBound, expensesBound)
    }

    ghost predicate Valid()
      reads this
    {
      Models.Valid(Snapshot())
    }
  }

  /** One client's signed-cookie session and login state. */
  class Session {
    /** flask_login's `current_user`, None when logged out. */
    var principal: Option<int>
    /** `session['otp_verified_user_id']`. */
    var otpVerifiedUserId: Option<int>

    constructor ()
      ensures principal == None && otpVerifiedUserId == None
    {
      principal, otpVerifiedUserId := None, None;
    }
  }
}
