/**
 * The goal record the home page keeps in `savedGoal` and the archive keeps
 * in its list, and the numeric text fields the handlers read.
 *
 * Quantities are integers counting hundredths of a unit. The handlers
 * round every stored progress to two decimals, so with hundredths that
 * rounding is the identity and the invariants can be stated exactly.
 */
module HabitGoal {
  import opened Wrappers

  /** Hundredths in one unit: a parsed target of `n` units is `n * PerUnit`. */
  const PerUnit: int := 100

  /** A habit goal; `finishedAt` is set only on the archived snapshot. */
  datatype Goal = Goal(
    id: string,
    target: string,
    deadline: string,
    action: string,
    actionDetail: string,
    specific: string,
    progress: int,
    total: int,
    createdAt: string,
    unit: string,
    finishedAt: Option<string>)

  /** The text of a numeric field after `parseFloat`: empty, not a number,
      or a number of hundredths. */
  datatype NumberEntry = Blank | NotANumber | Amount(hundredths: int)

  /** The text fields of the create and edit dialogs. */
  datatype GoalText = GoalText(
    target: string,
    deadline: string,
    action: string,
    actionDetail: string,
    specific: string)

  /** The four fields both dialogs insist on; `specific` may stay empty
      and a field holding only spaces counts as filled. */
  predicate RequiredFilled(t: GoalText) {
    t.target != "" && t.deadline != "" && t.action != "" && t.actionDetail != ""
  }

  /** The page shows a goal as completed once progress reaches the total. */
  predicate Completed(g: Goal) {
    g.progress >= g.total
  }

  /** Progress lies between zero and the total. */
  predicate InRange(g: Goal) {
    0 <= g.progress <= g.total
  }

  /** A positive number, the only input the progress dialog accepts. */
  predicate IsPositive(e: NumberEntry) {
    e.Amount? && e.hundredths > 0
  }
}
