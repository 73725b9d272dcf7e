/**
 * What the goal handlers keep and undo: every user action keeps progress
 * within range and equal to the sum of the recorded increments, recording
 * and undoing are inverse, the archive only ever holds completed
 * snapshots and shows the newest first; and the save handler as written
 * breaks the first of these when a goal is already active.
 */
module LifecycleProperties {
  import opened Wrappers
  import opened HabitGoal
  import opened Lifecycle
  import HistoryArchive
  import TargetParserExamples

  lemma SumAppend(xs: seq<int>, x: int)
    ensures Sum(xs + [x]) == Sum(xs) + x
  {
    assert (xs + [x])[..|xs|] == xs;
  }

  /** Increments that are never negative add up to a total that is not. */
  lemma {:induction false} SumNonNegative(xs: seq<int>)
    requires forall n | 0 <= n < |xs| :: xs[n] >= 0
    ensures Sum(xs) >= 0
    decreases |xs|
  {
    if |xs| > 0 {
      SumNonNegative(xs[..|xs| - 1]);
    }
  }

  // ---------------------------------------------------------------------
  // The invariant, handler by handler
  // ---------------------------------------------------------------------

  lemma CreateKeepsInv(st: State, text: GoalText, id: string, now: string)
    requires Inv(st)
    ensures Inv(Apply(st, Create(st, text, id, now)))
  {
  }

  lemma RecordKeepsInv(st: State, amount: NumberEntry)
    requires Inv(st)
    ensures Inv(Apply(st, Record(st, amount)))
  {
    var r := Record(st, amount);
    if r.Success? {
      SumAppend(st.increments, r.value.goal.value.progress - st.goal.value.progress);
    }
  }

  lemma UndoKeepsInv(st: State)
    requires Inv(st)
    ensures Inv(Undo(st))
  {
    if st.goal.Some? && st.increments != [] {
      var init := st.increments[..|st.increments| - 1];
      SumNonNegative(init);
    }
  }

  lemma BroadenKeepsInv(st: State, newTotal: NumberEntry, detail: string)
    requires Inv(st)
    ensures Inv(Apply(st, Broaden(st, newTotal, detail)))
  {
  }

  lemma EditKeepsInv(st: State, text: GoalText, newTotal: NumberEntry, unit: string)
    requires Inv(st)
    ensures Inv(Apply(st, Edit(st, text, newTotal, unit)))
  {
  }

  lemma ArchiveDeleteKeepsArchiveInv(st: State, id: string)
    requires ArchiveInv(st)
    ensures ArchiveInv(ArchiveDelete(st, id))
  {
    var kept := ArchiveDelete(st, id).archive;
    forall n | 0 <= n < |kept|
      ensures kept[n].finishedAt.Some? && Completed(kept[n])
    {
      HistoryArchive.RemoveCounts(st.archive, id, kept[n]);
      assert kept[n] in multiset(kept);
      assert kept[n] in st.archive;
    }
  }

  /** Every action of the page keeps both invariants. */
  lemma StepKeepsInv(st: State, c: Command)
    requires Inv(st) && ArchiveInv(st)
    ensures Inv(Step(st, c)) && ArchiveInv(Step(st, c))
  {
    match c
    case CreateGoal(text, id, now) => CreateKeepsInv(st, text, id, now);
    case RecordAmount(amount) => RecordKeepsInv(st, amount);
    case UndoLast => UndoKeepsInv(st);
    case BroadenTo(newTotal, detail) => BroadenKeepsInv(st, newTotal, detail);
    case EditGoal(text, newTotal, unit) => EditKeepsInv(st, text, newTotal, unit);
    case DeleteGoal(now) =>
    case SetNewGoal(now) =>
    case DeleteArchived(id) => ArchiveDeleteKeepsArchiveInv(st, id);
  }

  /** Any sequence of actions from any consistent state, in particular from
      nothing stored, stays consistent. */
  lemma {:induction false} RunKeepsInv(st: State, cs: seq<Command>)
    requires Inv(st) && ArchiveInv(st)
    ensures Inv(Run(st, cs)) && ArchiveInv(Run(st, cs))
    decreases |cs|
  {
    if |cs| > 0 {
      StepKeepsInv(st, cs[0]);
      RunKeepsInv(Step(st, cs[0]), cs[1..]);
    }
  }

  lemma InitIsConsistent()
    ensures Inv(Init) && ArchiveInv(Init)
  {
  }

  // ---------------------------------------------------------------------
  // Record and undo
  // ---------------------------------------------------------------------

  /** Undo takes back exactly what a record added. */
  lemma RecordThenUndo(st: State, amount: NumberEntry)
    requires Inv(st)
    requires Record(st, amount).Success?
    ensures Undo(Record(st, amount).value) == st
  {
    var st' := Record(st, amount).value;
    assert st'.increments[..|st'.increments| - 1] == st.increments;
  }

  /** Recording again the amount an undo took back restores the state. */
  lemma UndoThenRecord(st: State)
    requires Inv(st)
    requires st.goal.Some? && st.increments != []
    requires st.increments[|st.increments| - 1] > 0
    ensures Record(Undo(st), Amount(st.increments[|st.increments| - 1])) == Success(st)
  {
    var init := st.increments[..|st.increments| - 1];
    SumNonNegative(init);
    assert init + [st.increments[|st.increments| - 1]] == st.increments;
  }

  /** Ten units with eight done: adding five adds only the two left. */
  lemma RecordClipsAtTotal(st: State)
    requires st.goal.Some? && st.goal.value.total == 1000 && st.goal.value.progress == 800
    ensures Record(st, Amount(500)) ==
      Success(st.(goal := Some(st.goal.value.(progress := 1000)), increments := st.increments + [200]))
  {
  }

  /** What a confirmed amount adds is positive exactly when progress was
      still short of the total; on a completed goal the confirm appends a
      zero and leaves the goal as it was. */
  lemma RecordPositiveIffShort(st: State, amount: NumberEntry)
    requires Inv(st)
    requires Record(st, amount).Success?
    ensures var r := Record(st, amount).value;
      r.increments[|r.increments| - 1] > 0 <==> !Completed(st.goal.value)
    ensures Completed(st.goal.value) ==>
      Record(st, amount).value == st.(increments := st.increments + [0])
  {
  }

  // ---------------------------------------------------------------------
  // Ending a goal and the archive
  // ---------------------------------------------------------------------

  /** Deleting or replacing a goal adds exactly one archive entry when the
      goal is completed and none otherwise. */
  lemma RetireArchivesIffCompleted(st: State, now: string)
    ensures |Retire(st, now).archive| == |st.archive| + 1 <==> st.goal.Some? && Completed(st.goal.value)
    ensures |Retire(st, now).archive| == |st.archive| <==> !(st.goal.Some? && Completed(st.goal.value))
    ensures Retire(st, now).archive[..|st.archive|] == st.archive
  {
  }

  /** The goal just archived is the first entry the history page shows. */
  lemma RetiredGoalShownFirst(st: State, now: string)
    requires st.goal.Some? && Completed(st.goal.value)
    ensures HistoryArchive.NewestFirst(Retire(st, now).archive)[0] == st.goal.value.(finishedAt := Some(now))
  {
  }

  /** Deleting from the history page the entry just archived, when no older
      entry shares its id, gives back the archive as it was. */
  lemma DeleteJustArchived(st: State, now: string)
    requires st.goal.Some? && Completed(st.goal.value)
    requires forall n | 0 <= n < |st.archive| :: st.archive[n].id != st.goal.value.id
    ensures ArchiveDelete(Retire(st, now), st.goal.value.id).archive == st.archive
  {
    var g := st.goal.value;
    var snap := g.(finishedAt := Some(now));
    HistoryArchive.RemoveOverConcat(st.archive, [snap], g.id);
    HistoryArchive.RemoveAbsent(st.archive, g.id);
    assert HistoryArchive.RemoveById([snap], g.id) == [];
  }

  // ---------------------------------------------------------------------
  // A goal with a zero target
  // ---------------------------------------------------------------------

  /** "read 0 books" creates a goal of zero books, complete from the start,
      which deleting it at once archives. */
  lemma ZeroTargetIsCompleteAtOnce(text: GoalText, id: string, now: string, later: string)
    requires text.target == "read 0 books" && RequiredFilled(text)
    ensures Create(Init, text, id, now).Success?
    ensures Create(Init, text, id, now).value.goal.value.total == 0
    ensures Completed(Create(Init, text, id, now).value.goal.value)
    ensures |Retire(Create(Init, text, id, now).value, later).archive| == 1
  {
    TargetParserExamples.ReadZeroBooks(text.target);
  }

  // ---------------------------------------------------------------------
  // Saving over an active goal
  // ---------------------------------------------------------------------

  /** The save handler as written, run while a goal with one recorded
      increment is active: the new goal starts at zero but the old
      increment stays in the history, so progress no longer equals it. */
  lemma SaveBreaksInv(g: Goal, text: GoalText, id: string, now: string)
    requires g.progress == 100 && g.total == 100
    requires RequiredFilled(text)
    ensures Inv(State(Some(g), [100], []))
    ensures Save(State(Some(g), [100], []), text, id, now).Success?
    ensures !Inv(Save(State(Some(g), [100], []), text, id, now).value)
  {
    assert Sum([100]) == Sum([]) + 100;
  }

  /** Creating a goal refuses while one is active, so it keeps the invariant
      that saving over a goal breaks. */
  lemma CreateRefusesActiveGoal(st: State, text: GoalText, id: string, now: string)
    requires Inv(st) && st.goal.Some?
    ensures Create(st, text, id, now) == Failure(GoalExists)
    ensures Inv(Apply(st, Create(st, text, id, now)))
  {
  }
}
