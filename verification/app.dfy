/**
 * The app state of the flashcard page and its event handlers, each a pure
 * step from one state to the next. Values the handlers read from the page
 * (input fields) or from the clock are parameters; `alert` pop-ups are
 * returned next to the new state.
 */
module App {
  import opened Wrappers
  import opened Text
  import opened Deck
  import opened Grading

  datatype Mode = Edit | Study | Complete

  /** Answers right and answers given in the current study session. */
  datatype Score = Score(correct: nat, total: nat)

  /** The one global state record. `feedback` is absent until the first
      study session starts; absent and `null` are both `None`. */
  datatype State = State(
    mode: Mode,
    flashcards: seq<Card>,
    editingId: Option<int>,
    currentCardIndex: nat,
    showAnswer: bool,
    userAnswer: string,
    score: Score,
    isGenerating: bool,
    feedback: Option<Feedback>)

  /** The state the page loads with. */
  const Initial: State :=
    State(Edit, [], None, 0, false, "", Score(0, 0), false, None)

  /** The two `alert` pop-ups a handler can raise instead of acting: asking
      for a question, and asking for cards before studying. */
  datatype Alert = EnterQuestion | AddCardsFirst

  /** A handler's effect: the next state and the pop-up it raised, if any. */
  datatype Reaction = Reaction(next: State, alert: Option<Alert>)

  /** The answer stored when answer generation fails. */
  const GenerationFailedAnswer: string :=
    "Error generating answer." + " Please try again or enter manually."

  /** The study-session fields of two states agree: everything except the
      card list, the editing target and the generating flag. */
  predicate SameSession(a: State, b: State) {
    && a.mode == b.mode
    && a.currentCardIndex == b.currentCardIndex
    && a.showAnswer == b.showAnswer
    && a.userAnswer == b.userAnswer
    && a.score == b.score
    && a.feedback == b.feedback
  }

  /** `t` is a study session just begun over `cards`. */
  predicate FreshStudy(t: State, cards: seq<Card>) {
    && t.mode == Study
    && t.flashcards == cards
    && t.currentCardIndex == 0
    && !t.showAnswer
    && t.userAnswer == ""
    && t.score == Score(0, 0)
    && t.feedback == None
  }

  /** `t` carries the values leaving a study session resets. */
  predicate SessionCleared(t: State) {
    && t.currentCardIndex == 0
    && !t.showAnswer
    && t.userAnswer == ""
    && t.score == Score(0, 0)
    && t.feedback == None
  }

  /** What generating an answer yields: the reply's text, trimmed, when the
      service sent a non-empty one (`None` is any failure: a network error,
      a malformed reply, a reply without text); the fixed apology otherwise.
      Either way the stored answer carries no surrounding whitespace. */
  function GatewayAnswer(reply: Option<string>): (r: string)
    ensures Trimmed(r)
    ensures reply.None? || reply == Some("") ==> r == GenerationFailedAnswer
    ensures reply.Some? && reply.value != "" ==> r == Trim(reply.value)
  {
    if reply.Some? && reply.value != "" then Trim(reply.value)
    else GenerationFailedAnswer
  }

  /** Adding a card: a blank question only raises the pop-up; otherwise one
      card with the trimmed question, the generated `answer` and the id read
      from the clock is appended, and the generating flag ends up cleared. */
  function GenerateAndAdd(s: State, question: string, answer: string, id: int): (r: Reaction)
    ensures Trim(question) == [] ==> r == Reaction(s, Some(EnterQuestion))
    ensures Trim(question) != [] ==>
      && r.alert == None
      && r.next.flashcards == s.flashcards + [Card(id, Trim(question), answer)]
      && !r.next.isGenerating
      && r.next.editingId == s.editingId
      && SameSession(r.next, s)
  {
    var q := Trim(question);
    if q == [] then Reaction(s, Some(EnterQuestion))
    else Reaction(s.(isGenerating := false, flashcards := s.flashcards + [Card(id, q, answer)]), None)
  }

  /** Deleting keeps exactly the cards with another id and nothing else
      changes. */
  function DeleteCard(s: State, id: int): (r: State)
    ensures r.flashcards == Remove(s.flashcards, id)
    ensures forall c :: c in r.flashcards <==> c in s.flashcards && c.id != id
    ensures r == s.(flashcards := r.flashcards)
  {
    RemoveMembers(s.flashcards, id);
    s.(flashcards := Remove(s.flashcards, id))
  }

  /** Selecting a card for editing; any other selection is dropped unsaved. */
  function StartEditing(s: State, id: int): (r: State)
    ensures r.editingId == Some(id)
    ensures r == s.(editingId := r.editingId)
  {
    s.(editingId := Some(id))
  }

  /** Saving an edit: every card with `id` gets the trimmed texts (empty ones
      included), all other cards and the order are kept, and the editing
      target is cleared. */
  function SaveEdit(s: State, id: int, question: string, answer: string): (r: State)
    ensures |r.flashcards| == |s.flashcards|
    ensures forall i :: 0 <= i < |s.flashcards| ==>
      if s.flashcards[i].id == id
      then r.flashcards[i] == Card(id, Trim(question), Trim(answer))
      else r.flashcards[i] == s.flashcards[i]
    ensures r.editingId == None
    ensures r == s.(flashcards := r.flashcards, editingId := None)
  {
    s.(flashcards := Replace(s.flashcards, id, Trim(question), Trim(answer)), editingId := None)
  }

  /** Leaving the edit form without saving. */
  function CancelEdit(s: State): (r: State)
    ensures r.editingId == None
    ensures r == s.(editingId := None)
  {
    s.(editingId := None)
  }

  /** Typing in the answer box. */
  function SetUserAnswer(s: State, text: string): (r: State)
    ensures r.userAnswer == text
    ensures r == s.(userAnswer := text)
  {
    s.(userAnswer := text)
  }

  /** Entering study mode: an empty deck only raises the pop-up; otherwise a
      fresh session over the current cards starts. The card list is read in
      place: no copy is taken. */
  function StartStudying(s: State): (r: Reaction)
    ensures |s.flashcards| == 0 ==> r == Reaction(s, Some(AddCardsFirst))
    ensures |s.flashcards| > 0 ==>
      && r.alert == None
      && FreshStudy(r.next, s.flashcards)
      && r.next.editingId == s.editingId
      && r.next.isGenerating == s.isGenerating
  {
    if |s.flashcards| == 0 then Reaction(s, Some(AddCardsFirst))
    else
      Reaction(s.(mode := Study, currentCardIndex := 0, showAnswer := false,
                  userAnswer := "", score := Score(0, 0), feedback := None), None)
  }

  /** Grading the typed answer against the current card. It is offered only
      in study mode before the answer is shown. One answer is counted, a
      right one also as correct; the answer is then shown with its feedback. */
  function CheckAnswer(s: State): (r: State)
    requires s.mode == Study && s.currentCardIndex < |s.flashcards|
    requires !s.showAnswer
    ensures r.score.total == s.score.total + 1
    ensures r.score.correct == s.score.correct + 1 <==>
            Normalize(s.userAnswer) == Normalize(s.flashcards[s.currentCardIndex].answer)
    ensures r.score.correct <= s.score.correct + 1
    ensures r.score.correct >= s.score.correct
    ensures r.showAnswer
    ensures r.feedback == Some(Grade(s.userAnswer, s.flashcards[s.currentCardIndex].answer))
    ensures r == s.(score := r.score, showAnswer := true, feedback := r.feedback)
  {
    var card := s.flashcards[s.currentCardIndex];
    var f := Grade(s.userAnswer, card.answer);
    s.(score := Score(s.score.correct + (if f.isCorrect then 1 else 0), s.score.total + 1),
       showAnswer := true,
       feedback := Some(f))
  }

  /** Moving on once the answer is shown: to the next card with a cleared
      answer box, or, on the last card, to the completion screen with index
      and score kept. */
  function NextCard(s: State): (r: State)
    requires s.mode == Study && s.showAnswer
    ensures s.currentCardIndex + 1 < |s.flashcards| ==>
      && r.mode == Study
      && r.currentCardIndex == s.currentCardIndex + 1
      && !r.showAnswer && r.userAnswer == "" && r.feedback == None
      && r == s.(currentCardIndex := r.currentCardIndex, showAnswer := false,
                 userAnswer := "", feedback := None)
    ensures s.currentCardIndex + 1 >= |s.flashcards| ==> r == s.(mode := Complete)
  {
    if s.currentCardIndex < |s.flashcards| - 1 then
      s.(currentCardIndex := s.currentCardIndex + 1, showAnswer := false,
         userAnswer := "", feedback := None)
    else
      s.(mode := Complete)
  }

  /** Leaving a session: back to edit mode with the session values reset;
      the cards, the editing target and the generating flag are kept. */
  function ExitStudy(s: State): (r: State)
    ensures r.mode == Edit && SessionCleared(r)
    ensures r.flashcards == s.flashcards
    ensures r.editingId == s.editingId && r.isGenerating == s.isGenerating
  {
    s.(mode := Edit, currentCardIndex := 0, showAnswer := false, userAnswer := "",
       score := Score(0, 0), feedback := None)
  }

  /** "Study Again" on the completion screen: a new session as from the
      start button. */
  function RestartStudy(s: State): (r: Reaction)
    ensures |s.flashcards| == 0 ==> r == Reaction(s, Some(AddCardsFirst))
    ensures |s.flashcards| > 0 ==> r.alert == None && FreshStudy(r.next, s.flashcards)
    ensures r.next.editingId == s.editingId && r.next.isGenerating == s.isGenerating
  {
    StartStudying(s)
  }

  /** "Edit Cards" on the completion screen: the same as leaving a session. */
  function BackToEdit(s: State): (r: State)
    ensures r.mode == Edit && SessionCleared(r)
    ensures r.flashcards == s.flashcards && r.editingId == s.editingId
    ensures r.isGenerating == s.isGenerating
  {
    ExitStudy(s)
  }
}
