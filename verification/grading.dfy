/**
 * Answer grading as done by `checkAnswer`: both strings are trimmed and
 * lowered and must then be equal; the feedback message is fixed for a right
 * answer and quotes the stored answer for a wrong one.
 */
module Grading {
  import opened Text

  /** The `feedback` record `checkAnswer` stores in the state. */
  datatype Feedback = Feedback(isCorrect: bool, message: string)

  const CorrectMessage: string := "Correct! \U{1F389}"
  const IncorrectPrefix: string := "Incorrect. The answer is: "

  /** Whether a typed answer counts as the stored one. */
  predicate Matches(typed: string, stored: string) {
    Normalize(typed) == Normalize(stored)
  }

  /** The feedback for `typed` against the card's `stored` answer. A wrong
      answer's message carries the stored answer verbatim, untrimmed. */
  function Grade(typed: string, stored: string): (f: Feedback)
    ensures f.isCorrect <==> Lower(Trim(typed)) == Lower(Trim(stored))
    ensures f.isCorrect ==> f.message == CorrectMessage
    ensures !f.isCorrect ==> |f.message| == |IncorrectPrefix| + |stored|
                             && f.message[..|IncorrectPrefix|] == IncorrectPrefix
                             && f.message[|IncorrectPrefix|..] == stored
  {
    var ok := Matches(typed, stored);
    Feedback(ok, if ok then CorrectMessage else IncorrectPrefix + stored)
  }

  /** The message alone tells a right answer from a wrong one. */
  lemma MessageShowsVerdict(typed: string, stored: string)
    ensures Grade(typed, stored).isCorrect <==> Grade(typed, stored).message == CorrectMessage
  {
    var f := Grade(typed, stored);
    if !f.isCorrect {
      assert f.message[0] == 'I' != CorrectMessage[0];
    }
  }

  /** Grading does not care which string is the typed one. */
  lemma GradeSymmetric(a: string, b: string)
    ensures Grade(a, b).isCorrect == Grade(b, a).isCorrect
  {
  }

  /** Lowering the typed answer and padding it with whitespace does not
      change the verdict. */
  lemma GradeIgnoresCaseAndPadding(p: string, typed: string, q: string, stored: string)
    requires AllWhitespace(p) && AllWhitespace(q)
    ensures Grade(p + Lower(typed) + q, stored).isCorrect == Grade(typed, stored).isCorrect
  {
    NormalizeIgnoresPadding(p, Lower(typed), q);
    NormalizeIgnoresCase(typed);
  }

  /** Re-grading a normalised answer gives the same verdict. */
  lemma GradeOfNormalized(typed: string, stored: string)
    ensures Grade(Normalize(typed), stored).isCorrect == Grade(typed, stored).isCorrect
  {
    NormalizeIdempotent(typed);
  }

  lemma ParisIsTrimmed()
    ensures Trimmed("Paris") && Trimmed("paris") && Trimmed("France")
  {
  }

  lemma ParisLowered()
    ensures Lower("Paris") == "paris" && Lower("paris") == "paris"
  {
  }

  /** A worked example: " Paris " is right for "paris". */
  lemma GradeExampleRight()
    ensures Grade(" Paris ", "paris").isCorrect
  {
    assert " Paris " == [' '] + "Paris" + [' '];
    NormalizeIgnoresPadding([' '], "Paris", [' ']);
    ParisIsTrimmed();
    NormalizeOfTrimmed("Paris");
    NormalizeOfTrimmed("paris");
    ParisLowered();
  }

  /** A worked example: "Paris" is wrong for "France". */
  lemma GradeExampleWrong()
    ensures !Grade("Paris", "France").isCorrect
  {
    ParisIsTrimmed();
    NormalizeOfTrimmed("Paris");
    NormalizeOfTrimmed("France");
    assert Lower("Paris")[0] == LowerChar('P');
    assert Lower("France")[0] == LowerChar('F');
  }
}
