/** What a line's result slot can hold. The expression evaluator is outside
    this model: its values form an abstract type with equality, and the
    evaluator is a parameter. */
module Cells {

  /** A value the expression evaluator produces. */
  type Value(==, !new)

  /** What one call of the evaluator does: throw, return `undefined` (an
      expression with no content, such as a lone comment), or return a
      value. */
  datatype Outcome = Threw | NoValue | Returned(value: Value)

  /** An entry of the results table: `""` for a blank or comment line,
      `"..."` after a failed evaluation, `undefined` when the evaluator
      returned nothing, or a computed value. */
  datatype Cell = Blank | ErrorMarker | Undefined | Computed(value: Value)

  /** `results[k]`: a missing entry reads as `undefined`. */
  function Read(results: map<nat, Cell>, k: nat): (c: Cell)
    ensures k !in results ==> c == Undefined
    ensures k in results ==> c == results[k]
  {
    if k in results then results[k] else Undefined
  }

  /** The names an expression may use, each bound to a results entry. */
  type Scope = map<string, Cell>

  /** The expression evaluator, `math.evaluate`. */
  type Evaluator = (string, Scope) -> Outcome
}
