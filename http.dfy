/** Status codes the handlers answer with, and Python truthiness of request fields. */
module Http {
  import opened Wrappers

  const Ok := 200
  const Created := 201
  const Found := 302
  const BadRequest := 400
  const Forbidden := 403
  const NotFound := 404
  const ServerError := 500

  /** `not s` for a JSON string field: absent (None) or empty. */
  predicate NoText(s: Option<string>) {
    s.None? || s.value == ""
  }

  /** `not n` for a JSON number field: absent (None) or zero. */
  predicate NoNumber(n: Option<int>) {
    n.None? || n.value == 0
  }

  /**
   * A year as it arrives in a request: absent or empty, an integer, or
   * text that `int(...)` rejects.
   */
  datatype YearArg = NoYear | Year(n: int) | NotANumber

  /** True when the argument names year `y` (text that is no integer names none). */
  predicate YearIs(arg: YearArg, y: int) {
    arg.Year? && arg.n == y
  }

  /** `not year` for a year given as a JSON number: absent or zero. */
  predicate NoJsonYear(arg: YearArg) {
    arg.NoYear? || arg == Year(0)
  }
}
