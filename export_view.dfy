/**
 * export_to_xlsx (expense_tracker/views.py): the rows it appends to the
 * worksheet, in order. Producing the workbook file is not modelled.
 */
module ExportView {
  import opened Calendar
  import opened Models

  /** A worksheet cell: text, an amount, or a date written as YYYY-MM-DD. */
  datatype Cell = Text(text: string) | Amount(value: int) | Day(date: Date)

  type Row = seq<Cell>

  const Header: Row := [Text("Date"), Text("Type"), Text("Amount"), Text("Category"), Text("Description")]

  /** `inc.category.name if inc.category else ''`. */
  function CategoryName(categories: map<int, Category>, cid: int): string {
    if cid in categories then categories[cid].name else ""
  }

  /** An income row has four cells: no description. */
  function IncomeRow(i: Income, categories: map<int, Category>): Row {
    [Day(i.date), Text("Income"), Amount(i.amount), Text(CategoryName(categories, i.categoryId))]
  }

  function ExpenseRow(e: Expense, categories: map<int, Category>): Row {
    [Day(e.date), Text("Expense"), Amount(e.amount), Text(CategoryName(categories, e.categoryId)), Text(e.description)]
  }

  function IncomeRows(income: seq<Income>, categories: map<int, Category>): seq<Row> {
    if income == [] then []
    else IncomeRows(income[..|income| - 1], categories) + [IncomeRow(income[|income| - 1], categories)]
  }

  function ExpenseRows(expenses: seq<Expense>, categories: map<int, Category>): seq<Row> {
    if expenses == [] then []
    else ExpenseRows(expenses[..|expenses| - 1], categories) + [ExpenseRow(expenses[|expenses| - 1], categories)]
  }

  /** The blank row and the three summary rows; the balance is an unconditional difference. */
  function Summary(income: seq<Income>, expenses: seq<Expense>): seq<Row> {
    var totalIncome := SumIncome(income);
    var totalExpenses := SumExpense(expenses);
    [[], [Text("Total Income"), Amount(totalIncome)], [Text("Total Expenses"), Amount(totalExpenses)],
     [Text("Balance"), Amount(totalIncome - totalExpenses)]]
  }

  /** The whole sheet: header, income rows, expense rows, summary. */
  function Layout(income: seq<Income>, expenses: seq<Expense>, categories: map<int, Category>): seq<Row> {
    [Header] + IncomeRows(income, categories) + ExpenseRows(expenses, categories) + Summary(income, expenses)
  }

  /** export_to_xlsx: appends the header, each income, each expense, then the totals. */
  method ExportToXlsx(income: seq<Income>, expenses: seq<Expense>, categories: map<int, Category>)
    returns (rows: seq<Row>)
    ensures rows == Layout(income, expenses, categories)
  {
    rows := [Header];
    for i := 0 to |income|
      invariant rows == [Header] + IncomeRows(income[..i], categories)
    {
      assert income[..i + 1][..i] == income[..i];
      rows := rows + [IncomeRow(income[i], categories)];
    }
    assert income[..|income|] == income;
    for j := 0 to |expenses|
      invariant rows == [Header] + IncomeRows(income, categories) + ExpenseRows(expenses[..j], categories)
    {
      assert expenses[..j + 1][..j] == expenses[..j];
      rows := rows + [ExpenseRow(expenses[j], categories)];
    }
    assert expenses[..|expenses|] == expenses;
    var totalIncome := SumIncome(income);
    var totalExpenses := SumExpense(expenses);
    var balance := totalIncome - totalExpenses;
    rows := rows + [[]];
    rows := rows + [[Text("Total Income"), Amount(totalIncome)]];
    rows := rows + [[Text("Total Expenses"), Amount(totalExpenses)]];
    rows := rows + [[Text("Balance"), Amount(balance)]];
  }

  lemma {:induction false} IncomeRowsAt(income: seq<Income>, categories: map<int, Category>)
    ensures |IncomeRows(income, categories)| == |income|
    ensures forall i :: 0 <= i < |income| ==> IncomeRows(income, categories)[i] == IncomeRow(income[i], categories)
  {
    if income != [] {
      var front := income[..|income| - 1];
      IncomeRowsAt(front, categories);
      assert forall i :: 0 <= i < |front| ==> front[i] == income[i];
    }
  }

  lemma {:induction false} ExpenseRowsAt(expenses: seq<Expense>, categories: map<int, Category>)
    ensures |ExpenseRows(expenses, categories)| == |expenses|
    ensures forall i :: 0 <= i < |expenses| ==> ExpenseRows(expenses, categories)[i] == ExpenseRow(expenses[i], categories)
  {
    if expenses != [] {
      var front := expenses[..|expenses| - 1];
      ExpenseRowsAt(front, categories);
      assert forall i :: 0 <= i < |front| ==> front[i] == expenses[i];
    }
  }

  /**
   * The sheet is the header, one row per income in input order, one row
   * per expense in input order, then the blank row and the three totals.
   */
  lemma LayoutShape(income: seq<Income>, expenses: seq<Expense>, categories: map<int, Category>)
    ensures var rows := Layout(income, expenses, categories);
      && |rows| == |income| + |expenses| + 5
      && rows[0] == Header
      && (forall i :: 0 <= i < |income| ==> rows[1 + i] == IncomeRow(income[i], categories))
      && (forall j :: 0 <= j < |expenses| ==> rows[1 + |income| + j] == ExpenseRow(expenses[j], categories))
      && rows[|income| + |expenses| + 1..] == Summary(income, expenses)
  {
    IncomeRowsAt(income, categories);
    ExpenseRowsAt(expenses, categories);
    var ir, er := IncomeRows(income, categories), ExpenseRows(expenses, categories);
    var a := [Header] + ir;
    var b := a + er;
    assert forall i :: 0 <= i < |income| ==> a[1 + i] == ir[i];
    assert forall j :: 0 <= j < |expenses| ==> b[|a| + j] == er[j];
    assert Layout(income, expenses, categories) == b + Summary(income, expenses);
  }
}
