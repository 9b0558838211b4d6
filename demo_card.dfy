/**
 * The interactive demo card: the current question, the typed answer and the
 * last evaluation, as `handleSubmit`, `handleNext` and `handleReset` update them.
 */
module DemoCard {
  import opened Optional
  import opened Text
  import opened Grading

  datatype Question = Question(id: nat, text: string, kind: string, correctAnswer: string, maxScore: nat)

  /** The questions the demo cycles through. */
  const SAMPLE_QUESTIONS: seq<Question> := [
    Question(1, "What is the capital of France?", "one-word", "Paris", 1),
    Question(2, "Explain the process of photosynthesis.", "short-answer",
      "Photosynthesis is the process by which plants convert sunlight, water, and carbon dioxide into glucose and oxygen using chlorophyll in their leaves.", 2),
    Question(3, "What is the chemical symbol for water?", "one-word", "H2O", 1)
  ]

  /** The maxScore each sample question advertises is the one the evaluator reports for it. */
  lemma SampleMaxScoresAgree(q: Question, student: string)
    requires q in SAMPLE_QUESTIONS
    ensures Grade(q.kind, q.correctAnswer, student).maxScore == q.maxScore as real
  {
    SampleMaxScoresByType(q);
  }

  lemma SampleMaxScoresByType(q: Question)
    requires q in SAMPLE_QUESTIONS
    ensures q.maxScore == if q.kind == ONE_WORD then 1 else 2
  {
    assert |"short-answer"| != |ONE_WORD|;
  }

  class Card {
    const questions: seq<Question>
    var currentQuestion: nat
    var answer: string
    var result: Option<EvaluationResult>

    /** The index stays in range, and a shown result is the grade of the answer on screen. */
    ghost predicate Valid()
      reads this
    {
      && |questions| > 0
      && currentQuestion < |questions|
      && (result.Some? ==>
            Trim(answer) != [] &&
            result.value == Grade(questions[currentQuestion].kind, questions[currentQuestion].correctAnswer, answer))
    }

    constructor (qs: seq<Question>)
      requires |qs| > 0
      ensures Valid()
      ensures questions == qs && currentQuestion == 0 && answer == [] && result == None
    {
      questions := qs;
      currentQuestion := 0;
      answer := [];
      result := None;
    }

    /** Typing into the answer field, which is disabled while a result is shown. */
    method Edit(text: string)
      requires Valid()
      modifies this
      ensures Valid()
      ensures currentQuestion == old(currentQuestion) && result == old(result)
      ensures answer == if old(result).None? then text else old(answer)
    {
      if result.None? {
        answer := text;
      }
    }

    /** `handleSubmit`: a blank answer is ignored; otherwise the answer is graded and the result shown. */
    method Submit()
      requires Valid()
      modifies this
      ensures Valid()
      ensures currentQuestion == old(currentQuestion) && answer == old(answer)
      ensures Trim(answer) == [] ==> result == old(result)
      ensures Trim(answer) != [] ==>
        result == Some(Grade(questions[currentQuestion].kind, questions[currentQuestion].correctAnswer, answer))
    {
      if Trim(answer) == [] {
        return;
      }
      var evaluation := Evaluate(questions[currentQuestion].kind, questions[currentQuestion].correctAnswer, answer);
      result := Some(evaluation);
    }

    /** `handleNext`: the next question, wrapping to the first, with the answer and the result cleared. */
    method Next()
      requires Valid()
      modifies this
      ensures Valid()
      ensures currentQuestion == (old(currentQuestion) + 1) % |questions|
      ensures answer == [] && result == None
    {
      currentQuestion := (currentQuestion + 1) % |questions|;
      answer := [];
      result := None;
    }

    /** `handleReset`: the same question again, with the answer and the result cleared. */
    method Reset()
      requires Valid()
      modifies this
      ensures Valid()
      ensures currentQuestion == old(currentQuestion)
      ensures answer == [] && result == None
    {
      answer := [];
      result := None;
    }
  }
}
