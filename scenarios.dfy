/**
 * The evaluator on the demo's sample answers. Each answer is a parameter fixed
 * by the requires clause; the proofs normalise the literals first and then
 * use the general lemmas.
 */
module Scenarios {
  import opened Optional
  import opened Text
  import opened Grading
  import opened GradingProperties

  /** "Paris" against "Paris": full marks. */
  lemma ExactAnswer(correct: string, student: string)
    requires correct == "Paris" && student == "Paris"
    ensures Grade(ONE_WORD, correct, student) == EvaluationResult(1.0, 1.0, CORRECT_FEEDBACK, None)
  {
    OneWordExactMatch(correct, student);
  }

  /** "Paris" against " PARIS" and a newline: full marks as well. */
  lemma ShoutedAnswer(correct: string, student: string)
    requires correct == "Paris" && student == " PARIS\n"
    ensures Grade(ONE_WORD, correct, student) == EvaluationResult(1.0, 1.0, CORRECT_FEEDBACK, None)
  {
    NormalizeParis(correct);
    NormalizePaddedPARIS(student);
    OneWordExactMatch(correct, student);
  }

  /** "Paris" against "Pari": half marks for a likely typo. */
  lemma DroppedLetter(correct: string, student: string)
    requires correct == "Paris" && student == "Pari"
    ensures Grade(ONE_WORD, correct, student) == EvaluationResult(0.5, 1.0, PARTIAL_FEEDBACK, None)
  {
    NormalizeParis(correct);
    NormalizePari(student);
    PariDropsLastLetter(Normalize(correct), Normalize(student));
    DroppedLastLetter(correct, student);
  }

  /** "Paris" against "Pairs": nothing, since the swap moves two letters. */
  lemma SwappedAnswer(correct: string, student: string)
    requires correct == "Paris" && student == "Pairs"
    ensures Grade(ONE_WORD, correct, student) == EvaluationResult(0.0, 1.0, INCORRECT_PREFIX + correct, None)
  {
    NormalizeParis(correct);
    NormalizePairs(student);
    DifferAt(Normalize(correct), Normalize(student), 2, 3);
    TwoMismatches(correct, student, 2, 3);
  }

  /** "H2O" against "CO2": nothing, with the reference named in the feedback. */
  lemma WrongFormula(correct: string, student: string)
    requires correct == "H2O" && student == "CO2"
    ensures Grade(ONE_WORD, correct, student) == EvaluationResult(0.0, 1.0, INCORRECT_PREFIX + correct, None)
  {
    NormalizeHTwoO(correct);
    NormalizeCOTwo(student);
    DifferAt(Normalize(correct), Normalize(student), 0, 1);
    TwoMismatches(correct, student, 0, 1);
  }

  /**
   * "Plants convert sunlight water and carbon dioxide into glucose and oxygen"
   * against the demo's photosynthesis reference. The reference has 18 tokens
   * ("is", "by" and "in" are too short, "and" occurs twice, and "sunlight,",
   * "water," and "leaves." keep their punctuation). The answer shares 8 of
   * them, since its "sunlight" and "water" lack the commas: 1 mark of 2,
   * "Partial answer" and 44% similarity.
   */
  lemma EightOfEighteenTokens(kind: string, correct: string, student: string)
    requires kind != ONE_WORD
    requires var ref := Tokens(Normalize(correct));
      |ref| == 18 && |ref * Tokens(Normalize(student))| == 8
    ensures Grade(kind, correct, student) == EvaluationResult(1.0, 2.0, PARTIAL_ANSWER_FEEDBACK, Some(44))
  {
    OtherTypesAreShortAnswers(kind, correct, student);
    assert AnswerRatio(Normalize(correct), Normalize(student)) == OverlapRatio(8, 18);
    EightOfEighteenResult();
  }

  lemma EightOfEighteenResult()
    ensures RatioResult(OverlapRatio(8, 18)) == EvaluationResult(1.0, 2.0, PARTIAL_ANSWER_FEEDBACK, Some(44))
  {
    RatioResultSimilarity(8, 18);
    assert OverlapRatio(8, 18) == 4.0 / 9.0;
    assert RoundedPercent(8, 18) == 44;
  }

  lemma PariDropsLastLetter(c: string, s: string)
    requires c == "paris" && s == "pari"
    ensures |c| == |s| + 1 && s == c[..|s|]
  {
  }

  /** The two normalised answers differ at positions `i` and `j`. */
  lemma DifferAt(c: string, s: string, i: nat, j: nat)
    requires (c == "paris" && s == "pairs" && i == 2 && j == 3) || (c == "h2o" && s == "co2" && i == 0 && j == 1)
    ensures i < j < |c| && j < |s| && c[i] != s[i] && c[j] != s[j]
  {
  }

  // Each literal is normalised in a lemma of its own, which keeps the proofs small.

  lemma NormalizeParis(w: string)
    requires w == "Paris"
    ensures Normalize(w) == "paris"
  {
    assert ToLower(w) == "paris";
    NormalizeOfWord(w);
  }

  lemma NormalizePari(w: string)
    requires w == "Pari"
    ensures Normalize(w) == "pari"
  {
    assert ToLower(w) == "pari";
    NormalizeOfWord(w);
  }

  lemma NormalizePARIS(w: string)
    requires w == "PARIS"
    ensures Normalize(w) == "paris"
  {
    assert ToLower(w) == "paris";
    NormalizeOfWord(w);
  }

  lemma NormalizePaddedPARIS(w: string)
    requires w == " PARIS\n"
    ensures Normalize(w) == "paris"
  {
    var word := "PARIS";
    assert w == " " + word + "\n";
    NormalizePadded(" ", word, "\n");
    NormalizePARIS(word);
  }

  lemma NormalizePairs(w: string)
    requires w == "Pairs"
    ensures Normalize(w) == "pairs"
  {
    assert ToLower(w) == "pairs";
    NormalizeOfWord(w);
  }

  lemma NormalizeHTwoO(w: string)
    requires w == "H2O"
    ensures Normalize(w) == "h2o"
  {
    assert ToLower(w) == "h2o";
    NormalizeOfWord(w);
  }

  lemma NormalizeCOTwo(w: string)
    requires w == "CO2"
    ensures Normalize(w) == "co2"
  {
    assert ToLower(w) == "co2";
    NormalizeOfWord(w);
  }
}
