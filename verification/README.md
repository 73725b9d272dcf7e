# Habit goal tracker: target parser and goal lifecycle

A Dafny model of the two pieces of logic in the habit tracker's home page
and history page that are more than presentation:

- **The target parser** (`parseTarget` with its `numberWords` table). It
  turns the free text of a goal ("read 10 books", "lose weight") into a
  total and a unit. It tries three rules in order:
  - a run of ASCII digits, optional whitespace, and an optional word running to the end;
  - otherwise one of 28 spelled-out number words, case-insensitive, followed the same way;
  - otherwise total 1 with no unit.

  The two regular expressions are modelled as a specification, in their own
  terms (`TargetParser.DigitMatch`, `TargetParser.WordMatch`):
  - the engine takes the leftmost start position;
  - then greedy `\d+` takes the longest digit run, and the alternation takes the first word in its listed order;
  - then the whitespace and unit split, which is unique.

  The scanners that `Parse` uses are proved to return exactly that chosen
  match. This reproduces the parser's real quirks:
  - there is no word boundary, so "lose weight" asks for 8 units;
  - "seven" is listed before "seventeen", so "read seventeen" is 7 units of "teen";
  - "read seventeen books" is 17 books;
  - "abc 12 34" is 12 units of "34";
  - "read 0 books" is a goal of zero books.
- **The goal lifecycle.** The handlers that create, advance, undo, broaden,
  edit, delete and replace the active goal are pure transitions on
  `Lifecycle.State(goal, increments, archive)`. These are the three records the page
  persists. The history page's delete and its newest-first listing are part
  of the lifecycle too. Quantities are integer hundredths of a unit. The handlers round
  stored progress to two decimals, so under this representation that rounding is
  the identity. The invariants can then be stated exactly:
  - `0 <= progress <= total`;
  - progress equals the sum of the recorded increments;
  - every archived entry is a completed, timestamped snapshot.

  These invariants hold after any sequence of the modelled actions, with goal creation
  guarded as `handleOpenModal` intends (`LifecycleProperties.RunKeepsInv`). The save
  handler as written skips that guard and can break them; see "## Findings".
- **The page's buttons, its goal dialog and its two panels** (`PageControls`). Here the
  save button runs the save handler as written, with no check for an active goal.
  - The goal dialog is open whenever the page is loaded, whatever goal is stored. It covers the
    page, so only its save and close buttons can be clicked. The title opens it only when no goal
    is stored, and set-new-goal opens it after clearing the goal.
  - Clicks on offered buttons, from a page whose dialog is not open over a stored goal, keep the
    invariants and never open the dialog over a goal (`PageControls.ClicksKeepInv`). Loading the
    page over a stored goal and saving breaks them (`PageControls.SaveOverLoadedGoal`).
  - The amount panel and the broaden panel stay open between clicks: only their own cancel
    button or an accepted confirm closes them. So a panel can be confirmed after the goal has
    changed under it.

Modules: `Wrappers` (Option, Result), `TargetParser`, `TargetParserExamples`,
`HabitGoal` (the goal record, the numeric text fields), `HistoryArchive`,
`Lifecycle` (handlers, `Step`, `Run`), `LifecycleProperties`, and `PageControls`
(buttons, goal dialog, open panels, runs of clicks).

Facts about the code that the model keeps:
- The parser can produce a total of 0. It does so for "read 0 books" (`LifecycleProperties.ZeroTargetIsCompleteAtOnce`).
- The digit rule does not need the number to end the text. It needs the leftmost digit run from which only spaces and one word remain.
- The progress, broaden and save handlers do not check the goal's state; only the buttons on the page do.
  - Confirming an amount on a completed goal appends a zero increment and changes nothing else (`LifecycleProperties.RecordPositiveIffShort`).
  - The page can get there: the amount panel stays open after an edit lowers the total to the progress made (`PageControls.StaleAmountPanel`). Likewise the broaden panel stays open after an undo (`PageControls.StaleBroadenPanel`).
  - Increments stay positive along every run of clicks that confirms each amount while the goal is short of its total (`PageControls.ShortConfirmsKeepPositiveHistory`).
  - Saving with a goal already active is the finding below.
- The edit dialog requires target, deadline, action, action detail and total. It does not require the detail text or the unit.
- A refused handler leaves every record unchanged. Undo with nothing to undo returns silently.

## Model

| member | source | states |
|---|---|---|
| `TargetParser.TailSplitsOnce` | src/app/page.tsx:29 | the tail `\s*(\w+)?$` can split a text in only one place: after the longest run of whitespace |
| `TargetParser.DigitRunEnd` | src/app/page.tsx:29 | greedy `\d+` from a position ends at the first non-digit, and every character before it is a digit |
| `TargetParser.DigitRunIsMaximal` | src/app/page.tsx:29 | no run of digits from a position is longer than the greedy one |
| `TargetParser.DigitMatchesAt` | src/app/page.tsx:29 | at a fixed start the digit regex matches only if the greedy digit run, then whitespace, leaves only word characters; the greedy match is then the one reported |
| `TargetParser.FindDigitMatch` | src/app/page.tsx:29-30 | the scan returns a digit match that is leftmost, then longest, among all matches from its start, and returns none only when no match exists |
| `TargetParser.FirstAlternative` | src/app/page.tsx:37 | at a start position it returns the first alternative in listed order that matches case-insensitively with a valid tail, and none only when no alternative does |
| `TargetParser.DigitsValue` | src/app/page.tsx:32 | `Number` of a digit run is 0 exactly when every digit is 0, so "read 0 books" and "read 00 books" both ask for 0 |
| `TargetParser.LookupTotal` | src/app/page.tsx:40-41 | the looked-up total is never 0: the table's value for the lower-cased word when it is a key with a non-zero value, 1 otherwise |
| `TargetParser.ParseWith` | src/app/page.tsx:27-46 | for any alternation and table, the unit is a suffix of the text made of word characters, and a total of 0 only comes from a digit match |
| `TargetParser.Parse` | src/app/page.tsx:27-46 | the parser with the page's 28 number words: the unit is a suffix of the text made of word characters, and a total of 0 needs a digit match somewhere in the text |
| `TargetParser.FindWordMatch` | src/app/page.tsx:37-38 | the scan returns the leftmost start, then the first alternative, of all word matches, and none only when no match exists |
| `TargetParser.NumberWordsFit` | src/app/page.tsx:20-24 | every alternative of the regex is a lowercase key of the table with a non-zero value, so the fallback to 1 never fires |
| `TargetParser.LowerCaseOfMatch` | src/app/page.tsx:39 | lower-casing text that matched a number word in any case gives the table key |
| `TargetParser.DigitRule` | src/app/page.tsx:29-35 | when the digit regex matches, the total is the chosen digit run's value and the unit is the rest after the whitespace, whatever words the text contains |
| `TargetParser.WordRule` | src/app/page.tsx:37-43 | when no digit match exists, the chosen number word's table value is the total and the rest after the whitespace is the unit |
| `TargetParser.DefaultRule` | src/app/page.tsx:45 | with neither regex matching the result is total 1 and no unit |
| `TargetParser.ParseCases` | src/app/page.tsx:27-46 | every text falls under one of the three rules and the parser always returns |
| `TargetParserExamples.ReadTenBooks` | src/app/page.tsx:29-35 | "read 10 books" asks for 10 "books" |
| `TargetParserExamples.RunFive` | src/app/page.tsx:29-35 | "run 5" asks for 5 with no unit |
| `TargetParserExamples.ReadZeroBooks` | src/app/page.tsx:32 | "read 0 books" asks for 0 "books": the zero is kept |
| `TargetParserExamples.FirstOfTwoNumbers` | src/app/page.tsx:29 | in "abc 12 34" the leftmost number wins and "34" becomes the unit |
| `TargetParserExamples.Meditate` | src/app/page.tsx:45 | "meditate" falls back to 1 with no unit |
| `TargetParserExamples.TrailingPunctuation` | src/app/page.tsx:27-46 | "read 10 books!" matches neither regex, because "!" is not a word character, and falls back to 1 |
| `TargetParserExamples.ReadTenWord` | src/app/page.tsx:37-43 | "read ten books" asks for 10 "books" |
| `TargetParserExamples.ShoutedTen` | src/app/page.tsx:37-43 | "READ Ten Books" asks for 10 "Books": words match in any case and the unit keeps its case |
| `TargetParserExamples.LoseWeight` | src/app/page.tsx:37-43 | "lose weight" asks for 8 with no unit, because "eight" is found inside "weight" |
| `TargetParserExamples.SeventeenAlone` | src/app/page.tsx:37-43 | "read seventeen" asks for 7 "teen", because "seven" comes first in the alternation |
| `TargetParserExamples.SeventeenBooks` | src/app/page.tsx:37-43 | "read seventeen books" asks for 17 "books", because "seven" cannot be followed by "teen books" |
| `HistoryArchive.RemoveById` | src/app/history/page.tsx:51 | no kept entry has the deleted id |
| `HistoryArchive.RemoveCounts` | src/app/history/page.tsx:51 | deleting drops every copy of the entries with that id and keeps every copy of every other entry |
| `HistoryArchive.RemoveKeepsOrder` | src/app/history/page.tsx:51 | the kept entries are in their stored relative order |
| `HistoryArchive.RemoveAbsent` | src/app/history/page.tsx:49-52 | deleting an id no entry has leaves the archive unchanged |
| `HistoryArchive.RemoveTwice` | src/app/history/page.tsx:49-52 | deleting the same id twice is deleting it once |
| `HistoryArchive.RemoveOverConcat` | src/app/history/page.tsx:51 | deleting from two lists joined is deleting from each |
| `HistoryArchive.RemoveCommutes` | src/app/history/page.tsx:51 | deleting two ids in either order gives the same archive |
| `HistoryArchive.NewestFirst` | src/app/history/page.tsx:46 | the displayed list has the stored entries in reverse order |
| `HistoryArchive.NewestFirstTwice` | src/app/history/page.tsx:46 | reversing the displayed list gives back the stored one |
| `HistoryArchive.NewestFirstAppend` | src/app/page.tsx:150 | an entry appended to the stored list is displayed first |
| `HistoryArchive.DisplayAfterDelete` | src/app/history/page.tsx:49-54 | after a delete the page shows the re-reversed filtered list, which equals the displayed list with that id filtered out |
| `Lifecycle.Save` | src/app/page.tsx:155-176 | fails exactly when target, deadline, action or action detail is empty; otherwise stores a fresh goal at progress 0 with total and unit from the parser (total in hundredths) and leaves history and archive as they were |
| `Lifecycle.Create` | src/app/page.tsx:189-196 | refused while a goal is active; otherwise exactly the save handler, so a filled form creates a goal at zero with the parsed total and unit |
| `Lifecycle.Record` | src/app/page.tsx:205-221 | fails exactly without a goal or a positive amount; otherwise only progress changes, it grows by at most the amount, stays within the total, falls short of the amount only by reaching the total, and exactly the amount added is appended to the history |
| `Lifecycle.Undo` | src/app/page.tsx:224-234 | without a goal or history nothing changes; otherwise the last increment is removed, only progress changes, it falls by exactly the increment when that does not go below zero, and is exactly zero when the increment exceeds the progress |
| `Lifecycle.Broaden` | src/app/page.tsx:267-282 | fails exactly without a goal or when the new total is not a number above the current total; otherwise only total and detail change and history is kept |
| `Lifecycle.Edit` | src/app/page.tsx:303-326 | empty required fields or total fail first, a non-number or a total below progress fails next; a success keeps id, progress, creation time and history and replaces texts, total and unit; every valid edit of an active goal succeeds |
| `Lifecycle.Retire` | src/app/page.tsx:179-187 | the goal and history are cleared; the archive gains the goal stamped with the time exactly when it was completed, and is unchanged otherwise |
| `Lifecycle.ArchiveDelete` | src/app/history/page.tsx:49-54 | the active goal and history are untouched and no archived entry with the id remains |
| `LifecycleProperties.SumNonNegative` | src/app/page.tsx:212-213 | increments that are never negative sum to a non-negative progress |
| `LifecycleProperties.CreateKeepsInv` | src/app/page.tsx:189-196 | creating a goal keeps progress in range and equal to the history's sum |
| `LifecycleProperties.RecordKeepsInv` | src/app/page.tsx:212-218 | recording keeps progress in range and equal to the history's sum |
| `LifecycleProperties.UndoKeepsInv` | src/app/page.tsx:226-232 | undoing keeps progress in range and equal to the history's sum |
| `LifecycleProperties.BroadenKeepsInv` | src/app/page.tsx:270-280 | broadening keeps progress in range and equal to the history's sum |
| `LifecycleProperties.EditKeepsInv` | src/app/page.tsx:309-324 | editing keeps progress in range and equal to the history's sum |
| `LifecycleProperties.ArchiveDeleteKeepsArchiveInv` | src/app/history/page.tsx:51 | deleting from the archive keeps it a list of completed, timestamped snapshots |
| `LifecycleProperties.StepKeepsInv` | src/app/page.tsx:146-326 | every action, including delete and set-new-goal, keeps both invariants |
| `LifecycleProperties.RunKeepsInv` | src/app/page.tsx:146-326 | any sequence of actions from a consistent state stays consistent |
| `LifecycleProperties.InitIsConsistent` | src/app/page.tsx:118-125 | nothing stored is a consistent state |
| `LifecycleProperties.RecordThenUndo` | src/app/page.tsx:205-234 | undo right after a successful record restores the state exactly |
| `LifecycleProperties.UndoThenRecord` | src/app/page.tsx:205-234 | recording again the positive amount an undo took back restores the state exactly |
| `LifecycleProperties.RecordClipsAtTotal` | src/app/page.tsx:212-214 | with total 10 and progress 8, adding 5 gives progress 10 and appends 2 |
| `LifecycleProperties.RecordPositiveIffShort` | src/app/page.tsx:205-221 | a confirmed amount adds a positive increment exactly when progress was short of the total; on a completed goal it appends 0 and changes nothing else |
| `LifecycleProperties.RetireArchivesIffCompleted` | src/app/page.tsx:243-251 | deleting or replacing a goal adds exactly one archive entry if the goal was completed and none otherwise, and the earlier entries stay in place |
| `LifecycleProperties.RetiredGoalShownFirst` | src/app/history/page.tsx:46 | the snapshot just archived is the first entry the history page shows |
| `LifecycleProperties.DeleteJustArchived` | src/app/page.tsx:146-152 | deleting on the history page the entry just archived gives back the archive as it was, when no older entry shares its id |
| `LifecycleProperties.ZeroTargetIsCompleteAtOnce` | src/app/page.tsx:32 | a goal created from "read 0 books" has total 0, is complete at once, and deleting it archives it |
| `LifecycleProperties.SaveBreaksInv` | src/app/page.tsx:155-176 | the save handler run over an active goal with recorded history yields a goal at 0 whose history still sums to 1 |
| `LifecycleProperties.CreateRefusesActiveGoal` | src/app/page.tsx:189-196 | with a goal active, creation is refused and the state stays consistent |
| `PageControls.Load` | src/app/page.tsx:109-143 | the page as loaded shows the stored records with the goal dialog open and both panels closed |
| `PageControls.Effect` | src/app/page.tsx:353-428 | the dialog's buttons and opening or cancelling a panel perform no lifecycle command; a confirm performs the record or broaden command with the entered values |
| `PageControls.Offered` | src/app/page.tsx:340-503 | while the goal dialog is open only its save and close buttons can be clicked; otherwise the card's buttons need a goal, + needs it incomplete, and broaden and set-new need it completed |
| `PageControls.Press` | src/app/page.tsx:155-288 | save runs the unguarded save handler and every other click the matching lifecycle step; the goal dialog closes on close or an accepted save and opens from the title only with no goal stored or after set-new-goal; + and broaden open their panel, cancel closes it, a confirm closes it exactly when its handler accepts, and nothing else touches a panel |
| `PageControls.LoadEmptyIsConsistent` | src/app/page.tsx:109-125 | the page loaded with nothing stored meets both invariants, and its dialog is open over no goal |
| `PageControls.PressKeepsInv` | src/app/page.tsx:155-326 | every offered click, on a page whose dialog is not open over a stored goal, keeps both invariants and never opens the dialog over a goal |
| `PageControls.ClicksKeepInv` | src/app/page.tsx:155-326 | any run of offered clicks from such a page keeps both invariants |
| `PageControls.SaveOverLoadedGoal` | src/app/page.tsx:109-176 | loading the page over a consistent stored goal at 1/1 (history [1]) and saving the dialog is an offered click, and it leaves records that break the progress invariant |
| `PageControls.PressKeepsPositiveHistory` | src/app/page.tsx:205-221 | a click keeps every increment positive unless it confirms an amount on a completed goal |
| `PageControls.ShortConfirmsKeepPositiveHistory` | src/app/page.tsx:205-221 | along any run of offered clicks, from a page whose dialog is not open over a stored goal, whose amounts are all confirmed while the goal is short of its total, every increment is positive |
| `PageControls.StaleAmountPanel` | src/app/page.tsx:377-396 | with 3 of 10 done: +, an edit of the total to 3, then confirming 5 are all clicks on screen, and the history becomes [3, 0] |
| `PageControls.StaleBroadenPanel` | src/app/page.tsx:470-503 | on a completed goal: broaden, undo, then confirming a larger total are all clicks on screen, and they raise the total of a goal that is no longer complete |

## Left out

- React state, effects and JSX apart from the buttons, the goal dialog and the two panels `PageControls` models: presentation, not behaviour. This includes pre-filling and resetting form fields, the broaden and edit dialogs' pre-fill, the visibility of the edit dialog, and the progress bar. `PageControls` offers the edit confirm whenever a goal is active and the goal dialog is closed.
- PressKeepsInv, ClicksKeepInv: they hold only from a page whose goal dialog is not open over a stored goal. The page as loaded over a stored goal breaks this, and saving there breaks the invariants (`PageControls.SaveOverLoadedGoal`, and "## Findings"). Navigating between the two pages remounts the home page, which is a new `Load`; it is not a click of its own.
- `localStorage` and JSON: the three persisted records are the fields of `Lifecycle.State`. The page keeps them in step with its React state.
- `uuidv4()` and `new Date().toISOString()`: they are the `id` and `now` parameters.
- `parseFloat`, `toFixed(2)` and floating point: amounts are integer hundredths in `HabitGoal.NumberEntry`. An input with more than two decimals, and float rounding drift, are not modelled. Neither is the `Number()` precision loss for digit runs longer than about 15 digits; `TargetParser.DigitsValue` is exact.
- Regex matching is modelled for the character classes the regexes use. `\s` is the ECMAScript whitespace set for the code points it names. Case-insensitive matching folds ASCII letters only. That is exact without the `u` flag, because no other character folds onto an ASCII letter.
- Language toggling, alerts and their texts, the header and the language switcher: user interface with no core logic.
- `Lifecycle.Edit`: with no active goal the handler would store a record built from the edit fields alone. Its dialog can only be opened with a goal, so the model refuses with `NoGoal` instead.

## Findings

| source | as written | input that shows it | evidently intended | confidence | as-written member | corrected member |
|---|---|---|---|---|---|---|
| src/app/page.tsx:155-176 | the save handler stores a new goal at progress 0 without checking for an active goal and without clearing the increment history; the goal dialog is open when the page loads (`useState(true)` at line 109), so the guard in `handleOpenModal` is bypassed | reload the page with an active goal of 1/1 whose history is [1], fill in the dialog and save: the new goal is at 0 but undo still pops the old 1, and the old goal, although completed, is dropped without being archived | saving is refused while a goal is active, as the guard at lines 189-196 and its message demand, so progress always equals the sum of the history (`LifecycleProperties.CreateKeepsInv`) | medium, not executed | `LifecycleProperties.SaveBreaksInv` | `Lifecycle.Create` |
