/**
 * The home page's goal handlers as pure transitions on the three records
 * the page persists: the active goal, the list of recorded increments
 * (the undo history) and the archive of finished goals.
 *
 * A handler that shows an alert and returns, or returns silently, leaves
 * every record as it was; such handlers return `Failure` here with the
 * reason, and `Step` keeps the old state for them. Ids and timestamps are
 * parameters. All quantities are hundredths (see `HabitGoal`).
 */
module Lifecycle {
  import opened Wrappers
  import opened HabitGoal
  import TargetParser
  import HistoryArchive

  datatype State = State(goal: Option<Goal>, increments: seq<int>, archive: seq<Goal>)

  /** Why a handler left the state unchanged. */
  datatype Error =
    | NoGoal         // there is no active goal to act on
    | MissingField   // a required field is empty
    | NotPositive    // the recorded amount is not a positive number
    | NotAboveTotal  // the broadened total is not above the current one
    | BelowProgress  // the edited total is not a number or is below progress
    | GoalExists     // a goal is active and must be finished or deleted first

  /** Nothing stored yet. */
  const Init := State(None, [], [])

  /** The sum of the recorded increments. */
  function Sum(xs: seq<int>): int
    decreases |xs|
  {
    if |xs| == 0 then 0 else Sum(xs[..|xs| - 1]) + xs[|xs| - 1]
  }

  /** The consistency the handlers are meant to keep: with no goal there is
      no history; with one, progress is within range and is exactly the sum
      of the non-negative recorded increments. */
  predicate Inv(st: State) {
    if st.goal.None? then st.increments == []
    else
      && InRange(st.goal.value)
      && (forall n | 0 <= n < |st.increments| :: st.increments[n] >= 0)
      && st.goal.value.progress == Sum(st.increments)
  }

  /** Every archived entry is a completed snapshot with its finishing time. */
  predicate ArchiveInv(st: State) {
    forall n | 0 <= n < |st.archive| :: st.archive[n].finishedAt.Some? && Completed(st.archive[n])
  }

  // ---------------------------------------------------------------------
  // Create
  // ---------------------------------------------------------------------

  /** The save button of the goal dialog, as written: it stores a fresh goal
      whatever is active, and leaves the increment history alone. */
  function Save(st: State, text: GoalText, id: string, now: string): (r: Result<State, Error>)
    ensures r.Failure? <==> !RequiredFilled(text)
    ensures r.Success? ==> r.value.increments == st.increments && r.value.archive == st.archive
    ensures r.Success? ==> r.value.goal.Some? && r.value.goal.value.progress == 0
    ensures r.Success? ==>
      var p := TargetParser.Parse(text.target);
      var g := r.value.goal.value;
      && g.total == PerUnit * p.total && g.unit == p.unit
      && g.target == text.target && g.deadline == text.deadline && g.action == text.action
      && g.actionDetail == text.actionDetail && g.specific == text.specific
      && g.id == id && g.createdAt == now && g.finishedAt.None?
  {
    if !RequiredFilled(text) then Failure(MissingField)
    else
      var p := TargetParser.Parse(text.target);
      var g := Goal(id, text.target, text.deadline, text.action, text.actionDetail, text.specific,
                    0, PerUnit * p.total, now, p.unit, None);
      Success(st.(goal := Some(g)))
  }

  /** Creating a goal: refused while one is active, then saved. */
  function Create(st: State, text: GoalText, id: string, now: string): (r: Result<State, Error>)
    ensures st.goal.Some? ==> r == Failure(GoalExists)
    ensures st.goal.None? ==> r == Save(st, text, id, now)
    ensures st.goal.None? && !RequiredFilled(text) ==> r == Failure(MissingField)
    ensures st.goal.None? && RequiredFilled(text) ==> r.Success?
    ensures r.Success? ==> st.goal.None? && r.value.goal.Some? && r.value.goal.value.progress == 0
    ensures r.Success? ==> r.value.increments == st.increments && r.value.archive == st.archive
  {
    if st.goal.Some? then Failure(GoalExists) else Save(st, text, id, now)
  }

  // ---------------------------------------------------------------------
  // Progress
  // ---------------------------------------------------------------------

  /** Confirming the progress dialog: a positive amount is added, clipped so
      that progress does not pass the total, and the amount actually added
      is appended to the history. */
  function Record(st: State, amount: NumberEntry): (r: Result<State, Error>)
    ensures r.Failure? <==> st.goal.None? || !IsPositive(amount)
    ensures r.Success? ==> r.value.goal.Some?
    ensures r.Success? ==>
      var g, g' := st.goal.value, r.value.goal.value;
      && g' == g.(progress := g'.progress)
      && r.value.increments == st.increments + [g'.progress - g.progress]
      && r.value.archive == st.archive
      && g'.progress <= g.progress + amount.hundredths
      && (g.progress <= g.total ==> g.progress <= g'.progress <= g.total)
      && (g'.progress < g.progress + amount.hundredths ==> g'.progress == g.total)
  {
    if st.goal.None? then Failure(NoGoal)
    else if !IsPositive(amount) then Failure(NotPositive)
    else
      var g := st.goal.value;
      var remain := g.total - g.progress;
      var add := if amount.hundredths > remain then remain else amount.hundredths;
      Success(State(Some(g.(progress := g.progress + add)), st.increments + [add], st.archive))
  }

  /** The undo button: takes back the last recorded amount, never going
      below zero; without a goal or a history it does nothing. */
  function Undo(st: State): (r: State)
    ensures st.goal.None? || st.increments == [] ==> r == st
    ensures st.goal.Some? && st.increments != [] ==>
      var last := st.increments[|st.increments| - 1];
      && r.goal.Some?
      && r.goal.value == st.goal.value.(progress := r.goal.value.progress)
      && r.increments + [last] == st.increments
      && r.archive == st.archive
      && r.goal.value.progress >= 0
      && (st.goal.value.progress >= last ==> r.goal.value.progress + last == st.goal.value.progress)
      && (st.goal.value.progress < last ==> r.goal.value.progress == 0)
  {
    if st.goal.None? || |st.increments| == 0 then st
    else
      var g := st.goal.value;
      var last := st.increments[|st.increments| - 1];
      var p := if g.progress - last > 0 then g.progress - last else 0;
      State(Some(g.(progress := p)), st.increments[..|st.increments| - 1], st.archive)
  }

  // ---------------------------------------------------------------------
  // Changing the goal
  // ---------------------------------------------------------------------

  /** Broadening a goal: only a total above the current one is accepted,
      and only the total and the detail text change. */
  function Broaden(st: State, newTotal: NumberEntry, detail: string): (r: Result<State, Error>)
    ensures r.Failure? <==> st.goal.None? || !newTotal.Amount? || newTotal.hundredths <= st.goal.value.total
    ensures r.Success? ==>
      && r.value.goal == Some(st.goal.value.(total := newTotal.hundredths, specific := detail))
      && r.value.increments == st.increments && r.value.archive == st.archive
      && r.value.goal.value.total > st.goal.value.total
  {
    if st.goal.None? then Failure(NoGoal)
    else if !newTotal.Amount? || newTotal.hundredths <= st.goal.value.total then Failure(NotAboveTotal)
    else Success(st.(goal := Some(st.goal.value.(total := newTotal.hundredths, specific := detail))))
  }

  /** Confirming the edit dialog: required texts and the total must be
      filled, the total must be a number not below the progress made; then
      every text, the total and the unit are replaced, while id, progress
      and creation time stay. The target is not parsed again. */
  function Edit(st: State, text: GoalText, newTotal: NumberEntry, unit: string): (r: Result<State, Error>)
    ensures !RequiredFilled(text) || newTotal.Blank? ==> r == Failure(MissingField)
    ensures RequiredFilled(text) && newTotal.NotANumber? ==> r == Failure(BelowProgress)
    ensures r.Success? ==> st.goal.Some? && newTotal.Amount? && newTotal.hundredths >= st.goal.value.progress
    ensures r.Success? ==> r.value.goal.Some?
    ensures r.Success? ==>
      var g, g' := st.goal.value, r.value.goal.value;
      && g'.id == g.id && g'.progress == g.progress && g'.createdAt == g.createdAt && g'.finishedAt == g.finishedAt
      && g'.target == text.target && g'.deadline == text.deadline && g'.action == text.action
      && g'.actionDetail == text.actionDetail && g'.specific == text.specific
      && g'.total == newTotal.hundredths && g'.unit == unit
      && r.value.increments == st.increments && r.value.archive == st.archive
    ensures st.goal.Some? && RequiredFilled(text) && newTotal.Amount? && newTotal.hundredths >= st.goal.value.progress ==> r.Success?
  {
    if !RequiredFilled(text) || newTotal.Blank? then Failure(MissingField)
    else
      var floor := if st.goal.Some? then st.goal.value.progress else 0;
      if newTotal.NotANumber? || newTotal.hundredths < floor then Failure(BelowProgress)
      else if st.goal.None? then Failure(NoGoal)
      else
        var g := st.goal.value;
        Success(st.(goal := Some(g.(target := text.target, deadline := text.deadline, action := text.action,
                                    actionDetail := text.actionDetail, specific := text.specific,
                                    total := newTotal.hundredths, unit := unit))))
  }

  // ---------------------------------------------------------------------
  // Ending a goal
  // ---------------------------------------------------------------------

  /** What the delete button and the set-new-goal button do to the records:
      a completed goal is appended to the archive stamped with `now`, and
      the active goal and its history are cleared either way. */
  function Retire(st: State, now: string): (r: State)
    ensures r.goal.None? && r.increments == []
    ensures st.goal.Some? && Completed(st.goal.value) ==>
      r.archive == st.archive + [st.goal.value.(finishedAt := Some(now))]
    ensures !(st.goal.Some? && Completed(st.goal.value)) ==> r.archive == st.archive
  {
    var archive := if st.goal.Some? && Completed(st.goal.value)
      then st.archive + [st.goal.value.(finishedAt := Some(now))]
      else st.archive;
    State(None, [], archive)
  }

  /** The delete button of the history page. */
  function ArchiveDelete(st: State, id: string): (r: State)
    ensures r.goal == st.goal && r.increments == st.increments
    ensures forall n | 0 <= n < |r.archive| :: r.archive[n].id != id
    ensures |r.archive| <= |st.archive|
  {
    st.(archive := HistoryArchive.RemoveById(st.archive, id))
  }

  // ---------------------------------------------------------------------
  // Sequences of user actions
  // ---------------------------------------------------------------------

  datatype Command =
    | CreateGoal(text: GoalText, id: string, now: string)
    | RecordAmount(amount: NumberEntry)
    | UndoLast
    | BroadenTo(newTotal: NumberEntry, detail: string)
    | EditGoal(text: GoalText, newTotal: NumberEntry, unit: string)
    | DeleteGoal(now: string)
    | SetNewGoal(now: string)
    | DeleteArchived(id: string)

  /** The state a refused handler leaves behind is the one it started from. */
  function Apply(st: State, r: Result<State, Error>): State {
    if r.Success? then r.value else st
  }

  function Step(st: State, c: Command): State {
    match c
    case CreateGoal(text, id, now) => Apply(st, Create(st, text, id, now))
    case RecordAmount(amount) => Apply(st, Record(st, amount))
    case UndoLast => Undo(st)
    case BroadenTo(newTotal, detail) => Apply(st, Broaden(st, newTotal, detail))
    case EditGoal(text, newTotal, unit) => Apply(st, Edit(st, text, newTotal, unit))
    case DeleteGoal(now) => Retire(st, now)
    case SetNewGoal(now) => Retire(st, now)
    case DeleteArchived(id) => ArchiveDelete(st, id)
  }

  function Run(st: State, cs: seq<Command>): State
    decreases |cs|
  {
    if |cs| == 0 then st else Run(Step(st, cs[0]), cs[1..])
  }

  /** Every recorded increment is positive. */
  predicate PositiveHistory(st: State) {
    forall n | 0 <= n < |st.increments| :: st.increments[n] > 0
  }
}
