/**
 * The page as a state machine: the user actions the rendered page offers in
 * each state, the dispatch of an action to its handler, and the invariant
 * every state reachable from page load satisfies.
 */
module Session {
  import opened Wrappers
  import opened Text
  import opened Deck
  import opened Grading
  import opened App

  /** One user action, with the values the handler reads from the page or
      the clock. `AddCard` carries the answer the generator produced. */
  datatype Action =
    | AddCard(question: string, answer: string, id: int)
    | Delete(id: int)
    | BeginEdit(id: int)
    | Save(id: int, question: string, answer: string)
    | Cancel
    | Start
    | Type(text: string)
    | Check
    | Next
    | Exit
    | Restart
    | Back

  /** Whether the rendered page offers `a` in state `s`:
      - the add form only in edit mode and while nothing is being generated;
      - edit and delete buttons for every listed card except the one being
        edited, whose place the edit form takes, with its save and cancel
        buttons;
      - the answer box and exit button only before the answer is shown, and
        the next button only after;
      - checking only through the Enter key, and only once the typed answer
        is not blank after trimming: the check button's disabled flag is set
        when the page is drawn, and the study screen is always drawn with an
        empty typed answer, so the button never becomes clickable;
      - the two completion buttons only on the completion screen.
      The start button is allowed on an empty deck too, where its handler
      refuses. */
  predicate Enabled(s: State, a: Action) {
    match a
    case AddCard(_, _, _) => s.mode == Edit && !s.isGenerating
    case Delete(id) => s.mode == Edit && HasId(s.flashcards, id) && s.editingId != Some(id)
    case BeginEdit(id) => s.mode == Edit && HasId(s.flashcards, id) && s.editingId != Some(id)
    case Save(id, _, _) => s.mode == Edit && s.editingId == Some(id) && HasId(s.flashcards, id)
    case Cancel => s.mode == Edit && s.editingId.Some? && HasId(s.flashcards, s.editingId.value)
    case Start => s.mode == Edit
    case Type(_) => s.mode == Study && !s.showAnswer
    case Check => s.mode == Study && !s.showAnswer && Trim(s.userAnswer) != []
    case Next => s.mode == Study && s.showAnswer
    case Exit => s.mode == Study && !s.showAnswer
    case Restart => s.mode == Complete
    case Back => s.mode == Complete
  }

  /** What holds in every state reachable from page load:
      - nothing is being generated between steps;
      - no more answers are right than were given;
      - in edit mode no session values linger;
      - in study mode the index names a card, the feedback is present
        exactly when the answer is shown, and one answer has been counted
        per card passed, the current one included once it is shown;
      - on the completion screen every card has been answered once. */
  predicate Inv(s: State) {
    && !s.isGenerating
    && s.score.correct <= s.score.total
    && match s.mode
       case Edit => SessionCleared(s)
       case Study =>
         && s.currentCardIndex < |s.flashcards|
         && (s.showAnswer <==> s.feedback.Some?)
         && s.score.total == s.currentCardIndex + (if s.showAnswer then 1 else 0)
       case Complete =>
         && s.currentCardIndex + 1 == |s.flashcards|
         && s.showAnswer && s.feedback.Some?
         && s.score.total == |s.flashcards|
  }

  /** The handler an action invokes; a raised pop-up leaves the state as it
      is, so only the next state is kept. */
  function Apply(s: State, a: Action): (r: State)
    requires Inv(s) && Enabled(s, a)
  {
    match a
    case AddCard(q, ans, id) => GenerateAndAdd(s, q, ans, id).next
    case Delete(id) => DeleteCard(s, id)
    case BeginEdit(id) => StartEditing(s, id)
    case Save(id, q, ans) => SaveEdit(s, id, q, ans)
    case Cancel => CancelEdit(s)
    case Start => StartStudying(s).next
    case Type(text) => SetUserAnswer(s, text)
    case Check => CheckAnswer(s)
    case Next => NextCard(s)
    case Exit => ExitStudy(s)
    case Restart => RestartStudy(s).next
    case Back => BackToEdit(s)
  }

  lemma InitialInv()
    ensures Inv(Initial)
  {
  }

  /** Every action the page offers keeps the invariant. */
  lemma StepKeepsInv(s: State, a: Action)
    requires Inv(s) && Enabled(s, a)
    ensures Inv(Apply(s, a))
  {
  }

  /** The actions a user can take in sequence from `s`: `None` as soon as
      one of them is not offered; otherwise the state they lead to, which
      keeps the invariant. */
  function Run(s: State, actions: seq<Action>): (r: Option<State>)
    requires Inv(s)
    ensures r.Some? ==> Inv(r.value)
    decreases |actions|
  {
    if actions == [] then Some(s)
    else if !Enabled(s, actions[0]) then None
    else
      StepKeepsInv(s, actions[0]);
      Run(Apply(s, actions[0]), actions[1..])
  }

  /** Every state reachable from page load keeps the invariant. */
  lemma ReachableInv(actions: seq<Action>)
    requires Run(Initial, actions).Some?
    ensures Inv(Run(Initial, actions).value)
  {
    InitialInv();
  }

  /** The completion screen always has answers to show a percentage of:
      one per card, and the deck is not empty. */
  lemma CompleteScoresWholeDeck(s: State)
    requires Inv(s) && s.mode == Complete
    ensures s.score.total == |s.flashcards| > 0
  {
  }

  /** An answer is counted once: after checking, checking again is not
      offered and moving on is. */
  lemma CheckedAnswerCountsOnce(s: State)
    requires Inv(s) && Enabled(s, Check)
    ensures !Enabled(Apply(s, Check), Check)
    ensures Enabled(Apply(s, Check), Next)
  {
  }

  /** Whether the check button, as drawn for `drawn`, can be clicked: its
      disabled flag is computed from the typed answer when the page is
      drawn, and typing does not redraw the page. */
  predicate CheckButtonClickable(drawn: State) {
    drawn.mode == Study && !drawn.showAnswer && drawn.userAnswer != ""
  }

  /** Every action but typing redraws the page, and none of them leaves a
      state whose drawn check button can be clicked: checking is reachable
      only through the Enter key. */
  lemma CheckButtonNeverClickable(s: State, a: Action)
    requires Inv(s) && Enabled(s, a) && !a.Type?
    ensures !CheckButtonClickable(Apply(s, a))
  {
  }

  /** Typing a non-blank answer is what makes checking available. */
  lemma TypingOffersCheck(s: State, text: string)
    requires Inv(s) && Enabled(s, Type(text))
    ensures Enabled(Apply(s, Type(text)), Check) <==> Trim(text) != []
  {
  }

  /** With a fresh id for every added card, ids stay unique whatever the
      user does. */
  lemma StepKeepsUniqueIds(s: State, a: Action)
    requires Inv(s) && Enabled(s, a)
    requires UniqueIds(s.flashcards)
    requires a.AddCard? ==> !HasId(s.flashcards, a.id)
    ensures UniqueIds(Apply(s, a).flashcards)
  {
    match a
    case AddCard(q, ans, id) =>
      if Trim(q) != [] {
        AppendFreshKeepsUnique(s.flashcards, Card(id, Trim(q), ans));
      }
    case Delete(id) => RemoveKeepsUnique(s.flashcards, id);
    case Save(id, q, ans) => ReplaceKeepsUnique(s.flashcards, id, Trim(q), Trim(ans));
    case _ =>
  }

  /** Saving an edit and reading the card back gives the trimmed texts. */
  lemma SaveThenRead(s: State, id: int, question: string, answer: string)
    requires Inv(s) && Enabled(s, Save(id, question, answer))
    ensures Find(Apply(s, Save(id, question, answer)).flashcards, id)
            == Some(Card(id, Trim(question), Trim(answer)))
  {
    ReplaceThenFind(s.flashcards, id, Trim(question), Trim(answer));
  }

  /** With unique ids, deleting a card removes exactly that card. */
  lemma DeleteRemovesOne(s: State, k: int)
    requires 0 <= k < |s.flashcards| && UniqueIds(s.flashcards)
    requires Inv(s) && Enabled(s, Delete(s.flashcards[k].id))
    ensures Apply(s, Delete(s.flashcards[k].id)).flashcards
            == s.flashcards[..k] + s.flashcards[k + 1..]
  {
    RemoveUnique(s.flashcards, k);
  }

  /** At most one card is edited: selecting another drops the first
      selection, and cancelling forgets any selection. */
  lemma EditSelectionIsSingle(s: State, a: int, b: int)
    ensures StartEditing(StartEditing(s, a), b) == StartEditing(s, b)
    ensures CancelEdit(StartEditing(s, a)) == CancelEdit(s)
  {
  }

  /** Leaving a session twice is leaving it once. */
  lemma ExitIdempotent(s: State)
    ensures ExitStudy(ExitStudy(s)) == ExitStudy(s)
  {
  }

  /** Saving one card's edit leaves what every other id reads as. */
  lemma SaveKeepsOtherCards(s: State, id: int, other: int, question: string, answer: string)
    requires Inv(s) && Enabled(s, Save(id, question, answer)) && other != id
    ensures Find(Apply(s, Save(id, question, answer)).flashcards, other) == Find(s.flashcards, other)
  {
    ReplaceKeepsOthers(s.flashcards, id, other, Trim(question), Trim(answer));
  }

  /** Entering study mode and leaving at once gets back the state left. */
  lemma StartThenExit(s: State)
    requires Inv(s) && s.mode == Edit
    ensures ExitStudy(StartStudying(s).next) == s
  {
  }

  /** "Study Again" is the same as going back to editing and pressing the
      start button. */
  lemma RestartIsBackThenStart(s: State)
    requires Inv(s) && s.mode == Complete
    ensures RestartStudy(s) == StartStudying(BackToEdit(s))
  {
  }

  /** A failing generator: the card still arrives, with
      the fixed apology as its answer, and generation is over. */
  lemma FailedGenerationAddsPlaceholder(s: State, question: string, id: int)
    requires Inv(s) && s.mode == Edit && Trim(question) != []
    ensures var t := Apply(s, AddCard(question, GatewayAnswer(None), id));
      && |t.flashcards| == |s.flashcards| + 1
      && t.flashcards[|s.flashcards|] == Card(id, Trim(question), GenerationFailedAnswer)
      && !t.isGenerating
  {
  }

  lemma RunCons(s: State, a: Action, rest: seq<Action>)
    requires Inv(s)
    ensures Run(s, [a] + rest)
            == if Enabled(s, a) then Run(Apply(s, a), rest) else None
  {
    assert ([a] + rest)[0] == a;
    assert ([a] + rest)[1..] == rest;
  }

  /** Answering one card and moving on. */
  function AnswerAndMoveOn(answer: string): seq<Action> {
    [Type(answer), Check, Next]
  }

  /** Answering the given answers in turn, moving on after each. */
  function PassActions(answers: seq<string>): (r: seq<Action>)
    ensures |r| == 3 * |answers|
  {
    if answers == [] then [] else AnswerAndMoveOn(answers[0]) + PassActions(answers[1..])
  }

  /** How many of `answers` grade as right against the cards in turn. */
  function RightAnswers(answers: seq<string>, cards: seq<Card>): (n: nat)
    requires |answers| <= |cards|
    ensures n <= |answers|
  {
    if answers == [] then 0
    else (if Matches(answers[0], cards[0].answer) then 1 else 0)
         + RightAnswers(answers[1..], cards[1..])
  }

  /** One card answered and left, from a card whose answer is not shown. */
  lemma AnswerStep(s: State, answer: string)
    requires Inv(s) && s.mode == Study && !s.showAnswer && Trim(answer) != []
    ensures var t := NextCard(CheckAnswer(SetUserAnswer(s, answer)));
      && Run(s, AnswerAndMoveOn(answer)) == Some(t)
      && t.score.total == s.score.total + 1
      && t.score.correct == s.score.correct
         + (if Matches(answer, s.flashcards[s.currentCardIndex].answer) then 1 else 0)
  {
    var s1 := SetUserAnswer(s, answer);
    var s2 := CheckAnswer(s1);
    var s3 := NextCard(s2);
    assert AnswerAndMoveOn(answer) == [Type(answer)] + ([Check] + ([Next] + []));
    RunCons(s, Type(answer), [Check] + ([Next] + []));
    RunCons(s1, Check, [Next] + []);
    RunCons(s2, Next, []);
  }

  /** A full pass: answering every remaining card with a non-blank answer
      and moving on after each reaches the completion screen, with one
      answer counted per card and exactly the right ones counted correct. */
  lemma {:induction false} FullPass(s: State, answers: seq<string>)
    requires Inv(s) && s.mode == Study && !s.showAnswer
    requires |answers| == |s.flashcards| - s.currentCardIndex
    requires forall i :: 0 <= i < |answers| ==> Trim(answers[i]) != []
    ensures Run(s, PassActions(answers)).Some?
    ensures var t := Run(s, PassActions(answers)).value;
      && t.mode == Complete
      && t.flashcards == s.flashcards
      && t.score.total == |s.flashcards|
      && t.score.correct == s.score.correct
         + RightAnswers(answers, s.flashcards[s.currentCardIndex..])
    decreases |answers|
  {
    var cards := s.flashcards[s.currentCardIndex..];
    var t := NextCard(CheckAnswer(SetUserAnswer(s, answers[0])));
    AnswerStep(s, answers[0]);
    RunAppend(s, AnswerAndMoveOn(answers[0]), PassActions(answers[1..]));
    if |answers| == 1 {
      assert PassActions(answers[1..]) == [];
    } else {
      assert t.flashcards[t.currentCardIndex..] == cards[1..];
      FullPass(t, answers[1..]);
    }
  }

  /** Running two action lists is running the first, then the second. */
  lemma {:induction false} RunAppend(s: State, xs: seq<Action>, ys: seq<Action>)
    requires Inv(s)
    ensures Run(s, xs + ys)
            == if Run(s, xs).Some? then Run(Run(s, xs).value, ys) else None
    decreases |xs|
  {
    if xs == [] {
      assert xs + ys == ys;
    } else {
      assert xs + ys == [xs[0]] + (xs[1..] + ys);
      assert xs == [xs[0]] + xs[1..];
      RunCons(s, xs[0], xs[1..] + ys);
      RunCons(s, xs[0], xs[1..]);
      if Enabled(s, xs[0]) {
        StepKeepsInv(s, xs[0]);
        RunAppend(Apply(s, xs[0]), xs[1..], ys);
      }
    }
  }

  /** The worked example: one card "2+2?" with answer "4"; starting,
      answering "4" and moving on finishes with a perfect score. */
  lemma SingleCardScenario(s: State, id: int)
    requires Inv(s) && s.mode == Edit && s.flashcards == [Card(id, "2+2?", "4")]
    ensures var r := Run(s, [Start] + PassActions(["4"]));
      && r.Some? && r.value.mode == Complete && r.value.score == Score(1, 1)
  {
    var t := StartStudying(s).next;
    RunCons(s, Start, PassActions(["4"]));
    FullPass(t, ["4"]);
    assert t.flashcards[0..] == [Card(id, "2+2?", "4")];
    assert ["4"][1..] == [];
  }
}
