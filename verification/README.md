# Flashcard study page: state-transition core

A model of the state machine behind a single-page flashcard app (`main.js`).
The page keeps one global state record:

- a mode: `edit`, `study` or `complete`;
- an ordered list of cards, each `{id, question, answer}`;
- the id of the card being edited;
- the study index, whether the answer is shown, and the typed answer;
- a score `{correct, total}`, the last feedback and a generating flag.

Every button and key press calls a handler. The handler changes the record
and re-renders the page. Here each handler is a pure function from state to
state, and the page becomes a state machine with an explicit
"which actions does the page offer" predicate.

Modules, leaves first:

- `Wrappers` (`wrappers.dfy`): `Option`, used for the nullable fields.
- `Text` (`text.dfy`): JavaScript's `trim`, an ASCII `toLowerCase`, and the
  grading key `trim().toLowerCase()`. A reference characterisation pins
  `trim` down: the input is the result with whitespace on either side.
- `Deck` (`deck.dfy`): the card list, delete-by-id (a filter), and
  replace-by-id (a map).
- `Grading` (`grading.dfy`): the verdict and feedback message of checking an
  answer.
- `App` (`app.dfy`): the state record and one function per handler. Values
  read from the page or the clock are parameters: typed question and answer
  texts, the generated answer, the new card's id. An `alert` pop-up is
  returned next to the new state.
- `Session` (`session.dfy`): user actions, the actions the rendered page
  offers in each state (`Enabled`), the invariant every reachable state
  keeps, runs of actions from page load, and the study-pass properties.

Where the page's guarantees come only from what it renders, they are
preconditions, not behaviour. Examples: checking an answer only before it is
shown, moving on only after, and deleting only in edit mode. `checkAnswer`
and `nextCard` have no guards of their own.

The model follows `main.js`, including where the code may not do what was
intended:

- No copy of the card list is taken when a study session starts. Study reads
  the live list. Nothing can change it during study, because list
  operations are only offered in edit mode.
- `startEditing` does not check that the id exists.
- `saveEdit` accepts empty texts after trimming.
- Nothing makes card ids unique. Uniqueness is kept only under the explicit
  assumption that each added card gets a fresh id (`StepKeepsUniqueIds`).
- The page shows the start button only for a non-empty deck. The model still
  offers the start action on an empty deck, so the handler's own guard
  is covered.
- The check button's disabled flag is computed when the page is drawn. The
  study screen is always drawn with an empty typed answer, and typing does
  not redraw it, so the button is never clickable
  (`Session.CheckButtonNeverClickable`). Checking is offered only through the
  Enter key, which needs a typed answer that is not blank after trimming.
- Delete and edit are offered only for listed cards that are not being
  edited, and cancel only while the edited card is listed. These are the
  cards the page draws those buttons for.

## Model

| member | source | states |
|---|---|---|
| Text.Trim | main.js:324 | `trim` yields a string that neither starts nor ends with whitespace, and is never longer than its input |
| Text.TrimSplit | main.js:324 | `trim` only cuts whitespace: the input is whitespace, then the result, then whitespace |
| Text.TrimOfPadded | main.js:324 | reference characterisation: a string without surrounding whitespace, padded with whitespace on both sides, trims back to itself |
| Text.TrimIdempotent | main.js:218-219 | trimming an already trimmed text changes nothing |
| Text.TrimIgnoresPadding | main.js:175 | whitespace added around a text does not change its trim |
| Text.LowerTrimCommute | main.js:324 | lowering and trimming commute, so `trim().toLowerCase()` equals `toLowerCase().trim()` |
| Text.LowerChar | main.js:324 | an ASCII capital maps to the matching small letter, every other character is kept, and whitespace stays whitespace |
| Text.Lower | main.js:324 | lowering keeps the length and lowers each character on its own, ASCII letters only |
| Text.LowerIdempotent | main.js:324 | lowering an already lowered string changes nothing |
| Text.Normalize | main.js:324 | the grading key has no surrounding whitespace and is unchanged by lowering |
| Text.NormalizeIdempotent | main.js:324 | normalising an already normalised string changes nothing |
| Text.NormalizeIgnoresCase | main.js:324 | the grading key of a lowered string equals that of the string |
| Text.NormalizeIgnoresPadding | main.js:324 | the grading key ignores whitespace around the string |
| Grading.Grade | main.js:324-332 | the verdict is right exactly when both trimmed, lowered strings are equal; the message is the fixed success text when right, and otherwise "Incorrect. The answer is: " followed by the stored answer verbatim |
| Grading.MessageShowsVerdict | main.js:329-332 | the message alone tells a right answer from a wrong one |
| Grading.GradeSymmetric | main.js:324 | the verdict does not depend on which string is typed and which is stored |
| Grading.GradeIgnoresCaseAndPadding | main.js:324 | lowering the typed answer and padding it with whitespace does not change the verdict |
| Grading.GradeOfNormalized | main.js:324 | grading an already normalised answer gives the same verdict |
| Grading.GradeExampleRight | main.js:324 | " Paris " is graded right against "paris" |
| Grading.GradeExampleWrong | main.js:324 | "Paris" is graded wrong against "France" |
| Deck.Remove | main.js:208 | a delete never leaves a card with the deleted id, and never grows the list |
| Deck.RemoveMembers | main.js:208 | a card survives a delete exactly when it was in the list with another id |
| Deck.RemoveAppend | main.js:208 | the delete filter distributes over concatenation, so survivors keep their order |
| Deck.RemoveAbsent | main.js:208 | deleting an id no card has leaves the list unchanged |
| Deck.RemoveUnique | main.js:207-208 | with unique ids, deleting the id of the card at `k` removes exactly that card and keeps the rest in order |
| Deck.RemoveIdempotent | main.js:208 | deleting the same id twice is deleting it once |
| Deck.RemoveKeepsUnique | main.js:208 | deleting keeps ids unique |
| Deck.AppendFreshKeepsUnique | main.js:197-201 | appending a card with a fresh id keeps ids unique |
| Deck.Replace | main.js:221-223 | saving keeps the length; each card with the id gets the new texts, every other card is kept |
| Deck.ReplaceKeepsUnique | main.js:221-223 | saving never changes ids, so unique ids stay unique |
| Deck.ReplaceThenFind | main.js:221-223 | reading the edited id back after saving gives the new texts |
| Deck.ReplaceKeepsOthers | main.js:221-223 | saving one id does not change what any other id reads as |
| App.GatewayAnswer | main.js:56-63 | a failed or empty reply yields the fixed apology, a non-empty reply yields its trimmed text; the stored answer never has surrounding whitespace |
| App.GenerateAndAdd | main.js:172-204 | a blank question only raises the "enter a question" alert and changes nothing; otherwise exactly one card (id, trimmed question, answer) is appended at the end, the generating flag ends cleared, and nothing else changes |
| App.DeleteCard | main.js:207-210 | the list becomes the delete filter of the old list, so exactly the cards with another id are kept, in their order; nothing but the list changes |
| App.StartEditing | main.js:212-215 | the given id becomes the edited card, and nothing else changes |
| App.SaveEdit | main.js:217-226 | the list keeps its length; cards with the id get the trimmed texts, even empty ones, and all others are untouched; the edit selection is cleared and nothing else changes |
| App.CancelEdit | main.js:228-231 | the edit selection is cleared, and nothing else changes |
| App.SetUserAnswer | main.js:296-298 | typing replaces the typed answer, and nothing else changes |
| App.StartStudying | main.js:308-320 | on an empty deck: only the "add cards" alert, state unchanged; otherwise a fresh session over the same cards (study mode, index 0, answer hidden, empty typed answer, score 0/0, no feedback) |
| App.CheckAnswer | main.js:322-335 | total rises by exactly one; correct rises by one exactly when the trimmed, lowered typed and stored answers agree; the answer is shown with the graded feedback; nothing else changes |
| App.NextCard | main.js:337-348 | before the last card: the next card, with answer hidden and typed answer and feedback cleared, still in study mode; on the last card: only the mode becomes `complete`, so index and score are kept |
| App.ExitStudy | main.js:350-358 | back to edit mode with index 0, answer hidden, empty typed answer, score 0/0 and no feedback; the cards and the edit selection are kept |
| App.RestartStudy | main.js:394-396 | behaves as the start button: a fresh session over the same cards, or the alert on an empty deck; the edit selection and the generating flag are kept |
| App.BackToEdit | main.js:398-400 | behaves as leaving a session: edit mode with the session values reset; the cards, the edit selection and the generating flag are kept |
| Session.Enabled | main.js:66-384 | the actions the drawn page offers: in edit mode the add form while nothing is generated, edit and delete for each listed card not being edited, save and cancel in the edit form, and start (also on an empty deck); in study the answer box and exit before the answer is shown and next after it, and checking only by the Enter key with a typed answer that is not blank after trimming; "Study Again" and "Edit Cards" only on the completion screen |
| Session.CheckButtonNeverClickable | main.js:252 | no action leaves the page drawn with a clickable check button |
| Session.TypingOffersCheck | main.js:296-305 | after typing, checking is offered exactly when the typed text is not blank after trimming |
| Session.InitialInv | main.js:2-11 | the state the page loads with satisfies the invariant |
| Session.StepKeepsInv | main.js:308-358 | every action the page offers keeps the invariant: correct ≤ total; in study the index names a card, feedback is present exactly when the answer is shown, and total counts the cards answered; on the completion screen total equals the deck size |
| Session.Run | main.js:18-32 | any run of offered actions from a state that keeps the invariant ends in a state that keeps it |
| Session.ReachableInv | main.js:1-11 | every state reachable from page load keeps the invariant |
| Session.CompleteScoresWholeDeck | main.js:362 | on the completion screen the total is the deck size and not zero, so the percentage is defined |
| Session.CheckedAnswerCountsOnce | main.js:251-260 | after checking, checking again is not offered and moving on is, so no answer counts twice |
| Session.StepKeepsUniqueIds | main.js:197-201 | if each added card gets a fresh id, ids stay unique under every action |
| Session.SaveThenRead | main.js:217-226 | after saving, reading the card back gives `{id, trim(question), trim(answer)}` |
| Session.SaveKeepsOtherCards | main.js:221-223 | saving one card leaves every other id reading as before |
| Session.DeleteRemovesOne | main.js:207-208 | with unique ids, deleting removes exactly the chosen card |
| Session.EditSelectionIsSingle | main.js:212-231 | selecting another card drops the first selection; cancelling forgets any selection |
| Session.ExitIdempotent | main.js:350-358 | leaving a session twice is leaving it once |
| Session.StartThenExit | main.js:308-358 | from edit mode, starting a session and leaving at once returns the exact state left |
| Session.RestartIsBackThenStart | main.js:394-400 | "Study Again" equals going back to editing and pressing start |
| Session.FailedGenerationAddsPlaceholder | main.js:172-204 | when generation fails, the card still arrives with the fixed apology as its answer, the list grows by one, and generation is over |
| Session.AnswerStep | main.js:322-348 | typing an answer, checking it and moving on counts one answer, and counts it correct exactly when it grades right |
| Session.FullPass | main.js:308-348 | answering every remaining card and moving on reaches the completion screen with total = deck size, and adds to correct exactly the number of right answers |
| Session.SingleCardScenario | main.js:308-348 | with one card "2+2?" → "4", starting, answering "4" and moving on finishes with score 1/1 |

## Left out

- `generateAnswer`'s network call: the HTTP request and JSON decoding. Only
  the processing of its reply is modelled (`App.GatewayAnswer`). The answer
  is a parameter of `App.GenerateAndAdd`.
- The await inside `generateAndAdd`: interleaving with other actions while a
  request is outstanding is event-loop concurrency. The handler is one
  atomic step, so the generating flag is false in every state between steps.
- The clock: `Date.now()` ids are a parameter. Uniqueness is an explicit
  freshness assumption.
- Rendering and page wiring: HTML strings, `escapeHtml`, listeners and
  `alert` display. Alerts are returned as values.
- The completion percentage and its 80/60 thresholds, and the progress-bar
  width. These are floating-point display values. Only their denominator
  being non-zero is proved (`Session.CompleteScoresWholeDeck`).
- Text.Lower: lowers ASCII letters only. JavaScript's `toLowerCase` uses
  full Unicode case mapping, which is not modelled. `trim`'s whitespace set
  is modelled in full, as ECMAScript defines it.
- JavaScript numbers: ids, indexes and score counts are unbounded integers.
  No rounding or overflow of doubles is modelled.
- The `feedback` field is missing from the initial state and set to `null`
  later. Both are modelled as `None`.
