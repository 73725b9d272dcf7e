/**
 * The home page's buttons together with what stays open between clicks:
 * the goal dialog (`showModal`), the amount panel (`showInput`) and the
 * broaden panel (`showBroaden`).
 *
 * The goal dialog is open whenever the page is loaded, whatever goal is
 * stored; it covers the page, so only its save and close buttons can be
 * clicked while it is open, and its save button runs the save handler as
 * written, with no check for an active goal. The title opens it only when
 * no goal is stored, and set-new-goal opens it after clearing the goal.
 *
 * A panel closes only on its own cancel button or on a confirm its
 * handler accepts; editing, undoing, deleting or saving a goal leaves it
 * as it was. So a panel opened while its button was enabled can still be
 * confirmed after the goal has changed under it.
 */
module PageControls {
  import opened Wrappers
  import opened HabitGoal
  import opened Lifecycle
  import LifecycleProperties

  datatype Page = Page(st: State, goalDialogOpen: bool, amountOpen: bool, broadenOpen: bool)

  datatype Click =
    | TitleClick                                        // the heading, which opens the goal dialog
    | SaveGoal(text: GoalText, id: string, now: string) // the save button of the goal dialog
    | CloseDialog                                       // the close button of the goal dialog
    | Plus                                              // the + button opens the amount panel
    | ConfirmAmount(amount: NumberEntry)
    | CancelAmount
    | UndoButton
    | BroadenButton                                     // opens the broaden panel
    | ConfirmBroaden(newTotal: NumberEntry, detail: string)
    | CancelBroaden
    | ConfirmEdit(text: GoalText, newTotal: NumberEntry, unit: string)
    | DeleteButton(now: string)
    | SetNewButton(now: string)
    | HistoryDelete(id: string)                         // the delete button of the history page

  /** The page as it is loaded: the stored records, the goal dialog open
      and both panels closed. */
  function Load(st: State): (p: Page)
    ensures p.st == st && p.goalDialogOpen && !p.amountOpen && !p.broadenOpen
  {
    Page(st, true, false, false)
  }

  /** The lifecycle command a click performs, if any. The dialog's buttons
      and the buttons that open or cancel a panel perform none; the save
      button runs the unguarded `Save` instead (see `Press`). */
  function Effect(k: Click): (c: Option<Command>)
    ensures c.None? <==> k.TitleClick? || k.SaveGoal? || k.CloseDialog? || k.Plus? || k.CancelAmount?
                         || k.BroadenButton? || k.CancelBroaden?
    ensures k.ConfirmAmount? ==> c == Some(RecordAmount(k.amount))
    ensures k.ConfirmBroaden? ==> c == Some(BroadenTo(k.newTotal, k.detail))
  {
    match k
    case TitleClick => None
    case SaveGoal(_, _, _) => None
    case CloseDialog => None
    case Plus => None
    case ConfirmAmount(amount) => Some(RecordAmount(amount))
    case CancelAmount => None
    case UndoButton => Some(UndoLast)
    case BroadenButton => None
    case ConfirmBroaden(newTotal, detail) => Some(BroadenTo(newTotal, detail))
    case CancelBroaden => None
    case ConfirmEdit(text, newTotal, unit) => Some(EditGoal(text, newTotal, unit))
    case DeleteButton(now) => Some(DeleteGoal(now))
    case SetNewButton(now) => Some(SetNewGoal(now))
    case HistoryDelete(id) => Some(DeleteArchived(id))
  }

  /** The buttons of the page below the goal dialog: the + button is
      disabled once progress reaches the total and undo without a history,
      broaden and set-new are shown only for a completed goal, the card's
      buttons and the amount panel need a goal, and the broaden panel is
      drawn whenever it is open. */
  predicate OnPage(p: Page, k: Click) {
    match k
    case TitleClick => true
    case SaveGoal(_, _, _) => false
    case CloseDialog => false
    case Plus => p.st.goal.Some? && !Completed(p.st.goal.value)
    case ConfirmAmount(_) => p.st.goal.Some? && p.amountOpen
    case CancelAmount => p.st.goal.Some? && p.amountOpen
    case UndoButton => p.st.goal.Some? && p.st.increments != []
    case BroadenButton => p.st.goal.Some? && Completed(p.st.goal.value)
    case ConfirmBroaden(_, _) => p.broadenOpen
    case CancelBroaden => p.broadenOpen
    case ConfirmEdit(_, _, _) => p.st.goal.Some?
    case DeleteButton(_) => p.st.goal.Some?
    case SetNewButton(_) => p.st.goal.Some? && Completed(p.st.goal.value)
    case HistoryDelete(_) => true
  }

  /** The buttons that can be clicked: while the goal dialog is open it
      covers the page and only its own save and close buttons can be. */
  function Offered(p: Page, k: Click): (b: bool)
    ensures (b && p.goalDialogOpen) <==> (p.goalDialogOpen && (k.SaveGoal? || k.CloseDialog?))
    ensures b && !p.goalDialogOpen ==> !(k.SaveGoal? || k.CloseDialog?)
    ensures (b && (k.Plus? || k.ConfirmAmount? || k.CancelAmount? || k.UndoButton? || k.BroadenButton?
                   || k.ConfirmEdit? || k.DeleteButton? || k.SetNewButton?)) ==> p.st.goal.Some?
    ensures b && k.Plus? ==> p.st.goal.Some? && !Completed(p.st.goal.value)
    ensures b && (k.BroadenButton? || k.SetNewButton?) ==> p.st.goal.Some? && Completed(p.st.goal.value)
  {
    if k.SaveGoal? || k.CloseDialog? then p.goalDialogOpen
    else !p.goalDialogOpen && OnPage(p, k)
  }

  /** One click: the records change as the save handler or the matching
      lifecycle step says; the goal dialog closes on close or an accepted
      save and opens from the title (only with no goal stored) or after
      set-new-goal; a panel closes on its cancel button or on an accepted
      confirm. */
  function Press(p: Page, k: Click): (r: Page)
    ensures Effect(k).Some? ==> r.st == Step(p.st, Effect(k).value)
    ensures k.SaveGoal? ==> r.st == Apply(p.st, Save(p.st, k.text, k.id, k.now))
    ensures Effect(k).None? && !k.SaveGoal? ==> r.st == p.st
    ensures k.SaveGoal? ==> (r.goalDialogOpen <==> p.goalDialogOpen && Save(p.st, k.text, k.id, k.now).Failure?)
    ensures k.CloseDialog? ==> !r.goalDialogOpen
    ensures k.TitleClick? ==> (r.goalDialogOpen <==> p.goalDialogOpen || p.st.goal.None?)
    ensures k.SetNewButton? ==> r.goalDialogOpen
    ensures !(k.SaveGoal? || k.CloseDialog? || k.TitleClick? || k.SetNewButton?) ==> r.goalDialogOpen == p.goalDialogOpen
    ensures k.Plus? ==> r.amountOpen
    ensures k.BroadenButton? ==> r.broadenOpen
    ensures k.CancelAmount? ==> !r.amountOpen
    ensures k.CancelBroaden? ==> !r.broadenOpen
    ensures k.ConfirmAmount? ==> (r.amountOpen <==> p.amountOpen && Record(p.st, k.amount).Failure?)
    ensures k.ConfirmBroaden? ==> (r.broadenOpen <==> p.broadenOpen && Broaden(p.st, k.newTotal, k.detail).Failure?)
    ensures !(k.Plus? || k.CancelAmount? || k.ConfirmAmount?) ==> r.amountOpen == p.amountOpen
    ensures !(k.BroadenButton? || k.CancelBroaden? || k.ConfirmBroaden?) ==> r.broadenOpen == p.broadenOpen
  {
    Page(Records(p.st, k), DialogAfter(p, k), AmountPanelAfter(p, k), BroadenPanelAfter(p, k))
  }

  /** The three records after a click. */
  function Records(st: State, k: Click): (r: State)
    ensures Effect(k).Some? ==> r == Step(st, Effect(k).value)
    ensures k.SaveGoal? ==> r == Apply(st, Save(st, k.text, k.id, k.now))
    ensures Effect(k).None? && !k.SaveGoal? ==> r == st
  {
    if k.SaveGoal? then Apply(st, Save(st, k.text, k.id, k.now))
    else if Effect(k).Some? then Step(st, Effect(k).value)
    else st
  }

  /** Whether the goal dialog is open after a click. */
  function DialogAfter(p: Page, k: Click): (b: bool)
    ensures k.SaveGoal? ==> (b <==> p.goalDialogOpen && Save(p.st, k.text, k.id, k.now).Failure?)
    ensures k.CloseDialog? ==> !b
    ensures k.TitleClick? ==> (b <==> p.goalDialogOpen || p.st.goal.None?)
    ensures k.SetNewButton? ==> b
    ensures !(k.SaveGoal? || k.CloseDialog? || k.TitleClick? || k.SetNewButton?) ==> b == p.goalDialogOpen
  {
    match k
    case SaveGoal(text, id, now) => p.goalDialogOpen && Save(p.st, text, id, now).Failure?
    case CloseDialog => false
    case TitleClick => p.goalDialogOpen || p.st.goal.None?
    case SetNewButton(_) => true
    case _ => p.goalDialogOpen
  }

  /** Whether the amount panel is open after a click. */
  function AmountPanelAfter(p: Page, k: Click): (b: bool)
    ensures k.Plus? ==> b
    ensures k.CancelAmount? ==> !b
    ensures k.ConfirmAmount? ==> (b <==> p.amountOpen && Record(p.st, k.amount).Failure?)
    ensures !(k.Plus? || k.CancelAmount? || k.ConfirmAmount?) ==> b == p.amountOpen
  {
    match k
    case Plus => true
    case CancelAmount => false
    case ConfirmAmount(amount) => p.amountOpen && Record(p.st, amount).Failure?
    case _ => p.amountOpen
  }

  /** Whether the broaden panel is open after a click. */
  function BroadenPanelAfter(p: Page, k: Click): (b: bool)
    ensures k.BroadenButton? ==> b
    ensures k.CancelBroaden? ==> !b
    ensures k.ConfirmBroaden? ==> (b <==> p.broadenOpen && Broaden(p.st, k.newTotal, k.detail).Failure?)
    ensures !(k.BroadenButton? || k.CancelBroaden? || k.ConfirmBroaden?) ==> b == p.broadenOpen
  {
    match k
    case BroadenButton => true
    case CancelBroaden => false
    case ConfirmBroaden(newTotal, detail) => p.broadenOpen && Broaden(p.st, newTotal, detail).Failure?
    case _ => p.broadenOpen
  }

  function Clicks(p: Page, ks: seq<Click>): Page
    decreases |ks|
  {
    if |ks| == 0 then p else Clicks(Press(p, ks[0]), ks[1..])
  }

  /** Every click of the run is on a button that can be clicked at that
      moment. */
  predicate OfferedRun(p: Page, ks: seq<Click>)
    decreases |ks|
  {
    |ks| == 0 || (Offered(p, ks[0]) && OfferedRun(Press(p, ks[0]), ks[1..]))
  }

  /** Every amount of the run is confirmed while the goal is short of its
      total. */
  predicate ShortAtConfirm(p: Page, ks: seq<Click>)
    decreases |ks|
  {
    |ks| == 0 ||
    ((ks[0].ConfirmAmount? && p.st.goal.Some? ==> !Completed(p.st.goal.value))
     && ShortAtConfirm(Press(p, ks[0]), ks[1..]))
  }

  /** The goal dialog is not open over a stored goal. */
  predicate DialogOverNoGoal(p: Page) {
    p.goalDialogOpen ==> p.st.goal.None?
  }

  /** The page as loaded over nothing stored is consistent. */
  lemma LoadEmptyIsConsistent()
    ensures Inv(Load(Init).st) && ArchiveInv(Load(Init).st) && DialogOverNoGoal(Load(Init))
  {
  }

  /** A click that can be clicked keeps the lifecycle invariants, as long as
      the goal dialog is not open over a stored goal; and it never opens the
      dialog over one. */
  lemma PressKeepsInv(p: Page, k: Click)
    requires Inv(p.st) && ArchiveInv(p.st) && DialogOverNoGoal(p) && Offered(p, k)
    ensures Inv(Press(p, k).st) && ArchiveInv(Press(p, k).st) && DialogOverNoGoal(Press(p, k))
  {
    if Effect(k).Some? {
      LifecycleProperties.StepKeepsInv(p.st, Effect(k).value);
    }
  }

  /** Any run of clicks on the buttons the page offers, from a page whose
      goal dialog is not open over a stored goal, keeps the lifecycle
      invariants. */
  lemma {:induction false} ClicksKeepInv(p: Page, ks: seq<Click>)
    requires Inv(p.st) && ArchiveInv(p.st) && DialogOverNoGoal(p) && OfferedRun(p, ks)
    ensures Inv(Clicks(p, ks).st) && ArchiveInv(Clicks(p, ks).st) && DialogOverNoGoal(Clicks(p, ks))
    decreases |ks|
  {
    if |ks| > 0 {
      PressKeepsInv(p, ks[0]);
      ClicksKeepInv(Press(p, ks[0]), ks[1..]);
    }
  }

  /** Loading the page over a completed goal with one recorded increment and
      saving the dialog: the click is on screen, and the new goal starts at
      zero while the old increment stays in the history. */
  lemma SaveOverLoadedGoal(g: Goal, text: GoalText, id: string, now: string)
    requires g.progress == 100 && g.total == 100 && RequiredFilled(text)
    ensures Inv(State(Some(g), [100], [])) && ArchiveInv(State(Some(g), [100], []))
    ensures Offered(Load(State(Some(g), [100], [])), SaveGoal(text, id, now))
    ensures !Inv(Press(Load(State(Some(g), [100], [])), SaveGoal(text, id, now)).st)
  {
    assert Sum([100]) == Sum([]) + 100;
  }

  /** A click keeps every increment positive unless it confirms an amount on
      a goal that is already complete. */
  lemma PressKeepsPositiveHistory(p: Page, k: Click)
    requires Inv(p.st) && PositiveHistory(p.st)
    requires k.ConfirmAmount? && p.st.goal.Some? ==> !Completed(p.st.goal.value)
    ensures PositiveHistory(Press(p, k).st)
  {
    if k.ConfirmAmount? && Record(p.st, k.amount).Success? {
      LifecycleProperties.RecordPositiveIffShort(p.st, k.amount);
    }
  }

  /** Along any run in which each amount is confirmed while the goal is
      short of its total, and the goal dialog is never open over a stored
      goal, every recorded increment is positive. */
  lemma {:induction false} ShortConfirmsKeepPositiveHistory(p: Page, ks: seq<Click>)
    requires Inv(p.st) && ArchiveInv(p.st) && PositiveHistory(p.st) && DialogOverNoGoal(p)
    requires OfferedRun(p, ks) && ShortAtConfirm(p, ks)
    ensures PositiveHistory(Clicks(p, ks).st)
    decreases |ks|
  {
    if |ks| > 0 {
      PressKeepsPositiveHistory(p, ks[0]);
      PressKeepsInv(p, ks[0]);
      ShortConfirmsKeepPositiveHistory(Press(p, ks[0]), ks[1..]);
    }
  }

  /** The amount panel outlives the goal it was opened for: with 3 of 10
      done, open it, edit the total down to 3, and confirm 5. Every click is
      on screen, and the history gains a zero. */
  lemma StaleAmountPanel(g: Goal, text: GoalText, unit: string)
    requires g.progress == 300 && g.total == 1000 && RequiredFilled(text)
    ensures var p := Page(State(Some(g), [300], []), false, false, false);
      var ks := [Plus, ConfirmEdit(text, Amount(300), unit), ConfirmAmount(Amount(500))];
      && OfferedRun(p, ks)
      && Clicks(p, ks).st.goal.Some?
      && Clicks(p, ks).st.goal.value.progress == 300
      && Clicks(p, ks).st.increments == [300, 0]
  {
    var p := Page(State(Some(g), [300], []), false, false, false);
    var k0, k1, k2 := Plus, ConfirmEdit(text, Amount(300), unit), ConfirmAmount(Amount(500));
    var ks := [k0, k1, k2];
    var p1 := Press(p, k0);
    var p2 := Press(p1, k1);
    var p3 := Press(p2, k2);
    assert p1 == p.(amountOpen := true);
    assert p2.amountOpen && p2.st.increments == [300];
    assert p2.st.goal == Some(g.(target := text.target, deadline := text.deadline, action := text.action,
                                 actionDetail := text.actionDetail, specific := text.specific,
                                 total := 300, unit := unit));
    assert p3.st.increments == [300, 0] && p3.st.goal.value.progress == 300;
    assert ks[1..] == [k1, k2] && ks[1..][1..] == [k2] && ks[1..][1..][1..] == [];
    assert Clicks(p2, [k2]) == p3;
    assert OfferedRun(p2, [k2]);
  }

  /** The broaden panel likewise stays open after an undo makes the goal
      incomplete again, and confirming it then raises the total. */
  lemma StaleBroadenPanel(g: Goal, newTotal: int, detail: string)
    requires g.progress == 1000 && g.total == 1000 && newTotal > 1000
    ensures var p := Page(State(Some(g), [400, 600], []), false, false, false);
      var ks := [BroadenButton, UndoButton, ConfirmBroaden(Amount(newTotal), detail)];
      && OfferedRun(p, ks)
      && Clicks(p, ks).st.goal.Some?
      && Clicks(p, ks).st.goal.value.progress == 400
      && Clicks(p, ks).st.goal.value.total == newTotal
  {
    var p := Page(State(Some(g), [400, 600], []), false, false, false);
    var k0, k1, k2 := BroadenButton, UndoButton, ConfirmBroaden(Amount(newTotal), detail);
    var ks := [k0, k1, k2];
    var p1 := Press(p, k0);
    var p2 := Press(p1, k1);
    var p3 := Press(p2, k2);
    assert p1 == p.(broadenOpen := true);
    assert [400, 600][..1] == [400];
    assert p2.broadenOpen && p2.st.goal == Some(g.(progress := 400));
    assert p3.st.goal == Some(g.(progress := 400, total := newTotal, specific := detail));
    assert ks[1..] == [k1, k2] && ks[1..][1..] == [k2] && ks[1..][1..][1..] == [];
    assert Clicks(p2, [k2]) == p3;
    assert OfferedRun(p2, [k2]);
  }
}
