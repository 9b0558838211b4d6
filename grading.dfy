/** Optional values: the evaluator's `similarity?` field and the demo card's `result | null`. */
module Optional {
  datatype Option<+T> = None | Some(value: T)
}

/**
 * The answer evaluator `evaluateAnswer`: one-word answers by exact match with a
 * positional typo tolerance, everything else by token overlap.
 */
module Grading {
  import opened Optional
  import opened Text

  /** The evaluator's `EvaluationResult`; `similarity` is present for short answers only. */
  datatype EvaluationResult = EvaluationResult(score: real, maxScore: real, feedback: string, similarity: Option<int>)

  /** The question type routed to the one-word branch; every other type is graded as a short answer. */
  const ONE_WORD := "one-word"

  const CORRECT_FEEDBACK := "Correct! Great job."
  const PARTIAL_FEEDBACK := "Partially correct. Minor spelling error detected."
  const INCORRECT_PREFIX := "Incorrect. The correct answer is: "
  const EXCELLENT_FEEDBACK := "Excellent answer! Covers all key concepts."
  const GOOD_FEEDBACK := "Good answer. Most key points covered."
  const PARTIAL_ANSWER_FEEDBACK := "Partial answer. Some important concepts missing."
  const LIMITED_FEEDBACK := "Limited answer. Review the topic for more detail."
  const POOR_FEEDBACK := "Answer needs significant improvement. Study the material again."

  // ---- One-word mode ----

  /** The number of positions below |shorter| where `shorter` and `longer` differ. */
  function MismatchCount(shorter: string, longer: string): (n: nat)
    requires |shorter| <= |longer|
    ensures n <= |shorter|
    ensures n == 0 <==> shorter == longer[..|shorter|]
  {
    if shorter == [] then 0
    else
      var k := |shorter| - 1;
      var rest := MismatchCount(shorter[..k], longer);
      assert shorter == shorter[..k] + [shorter[k]];
      assert longer[..|shorter|] == longer[..k] + [longer[k]];
      rest + (if shorter[k] != longer[k] then 1 else 0)
  }

  /** The positions where two strings differ, within the shorter one's length. */
  function MismatchPositions(a: string, b: string): set<nat> {
    set i: nat | i < |a| && i < |b| && a[i] != b[i]
  }

  /** The `shorter` of the two answers; `s` when the lengths are equal. */
  function Shorter(c: string, s: string): (r: string)
    ensures r == c || r == s
    ensures |r| <= |c| && |r| <= |s|
  {
    if |c| < |s| then c else s
  }

  /** The `longer` of the two answers; together with `Shorter` it uses each answer once. */
  function Longer(c: string, s: string): (r: string)
    ensures |r| >= |c| && |r| >= |s|
    ensures multiset{Shorter(c, s), r} == multiset{c, s}
  {
    if |c| >= |s| then c else s
  }

  /** The partial-credit test: lengths within one, and at most one differing position. */
  predicate NearMiss(c: string, s: string): (b: bool)
    ensures b ==> -1 <= |c| - |s| <= 1
    ensures -1 <= |c| - |s| <= 1 && Shorter(c, s) == Longer(c, s)[..|Shorter(c, s)|] ==> b
  {
    -1 <= |c| - |s| <= 1 && MismatchCount(Shorter(c, s), Longer(c, s)) <= 1
  }

  /** One-word grading of the normalised answers `c` and `s`; `correct` is the reference as written. */
  function GradeOneWord(correct: string, c: string, s: string): (r: EvaluationResult)
    ensures r.maxScore == 1.0 && 0.0 <= r.score <= 1.0 && r.similarity == None
    ensures r.score == 1.0 <==> s == c
    ensures r.score == 0.5 <==> s != c && NearMiss(c, s)
    ensures r.score == 0.0 ==> r.feedback == INCORRECT_PREFIX + correct
  {
    if s == c then EvaluationResult(1.0, 1.0, CORRECT_FEEDBACK, None)
    else if NearMiss(c, s) then EvaluationResult(0.5, 1.0, PARTIAL_FEEDBACK, None)
    else EvaluationResult(0.0, 1.0, INCORRECT_PREFIX + correct, None)
  }

  // ---- Short-answer mode ----

  /** `matches / correctWords.size`, and 0 when the reference has no tokens. */
  function OverlapRatio(matches: nat, size: nat): (r: real)
    ensures size == 0 ==> r == 0.0
    ensures size > 0 ==> r * size as real == matches as real
    ensures matches <= size ==> 0.0 <= r <= 1.0
  {
    if size > 0 then matches as real / size as real else 0.0
  }

  /** The five lower-inclusive score buckets and their feedback. */
  function Bucket(ratio: real): (b: (real, string))
    ensures b.0 == 2.0 <==> ratio >= 0.8
    ensures b.0 == 1.5 <==> 0.6 <= ratio < 0.8
    ensures b.0 == 1.0 <==> 0.4 <= ratio < 0.6
    ensures b.0 == 0.5 <==> 0.2 <= ratio < 0.4
    ensures b.0 == 0.0 <==> ratio < 0.2
    ensures || b == (2.0, EXCELLENT_FEEDBACK) || b == (1.5, GOOD_FEEDBACK)
            || b == (1.0, PARTIAL_ANSWER_FEEDBACK) || b == (0.5, LIMITED_FEEDBACK) || b == (0.0, POOR_FEEDBACK)
  {
    if ratio >= 0.8 then (2.0, EXCELLENT_FEEDBACK)
    else if ratio >= 0.6 then (1.5, GOOD_FEEDBACK)
    else if ratio >= 0.4 then (1.0, PARTIAL_ANSWER_FEEDBACK)
    else if ratio >= 0.2 then (0.5, LIMITED_FEEDBACK)
    else (0.0, POOR_FEEDBACK)
  }

  /** `Math.round`: the nearest integer, halves rounded up. */
  function Round(x: real): (n: int)
    ensures n as real - 0.5 <= x < n as real + 0.5
  {
    (x + 0.5).Floor
  }

  /** The overlap ratio of two normalised answers. */
  function AnswerRatio(c: string, s: string): (r: real)
    ensures |Tokens(c)| == 0 ==> r == 0.0
    ensures 0.0 <= r <= 1.0
  {
    var matches, size := |Tokens(c) * Tokens(s)|, |Tokens(c)|;
    IntersectionBound(Tokens(c), Tokens(s));
    OverlapRatio(matches, size)
  }

  /** The short-answer result for a given overlap ratio. */
  function RatioResult(ratio: real): (r: EvaluationResult)
    ensures r.maxScore == 2.0 && 0.0 <= r.score <= 2.0 && r.similarity.Some?
  {
    var bucket := Bucket(ratio);
    EvaluationResult(bucket.0, 2.0, bucket.1, Some(Round(ratio * 100.0)))
  }

  function GradeShortAnswer(c: string, s: string): (r: EvaluationResult)
    ensures r.maxScore == 2.0 && 0.0 <= r.score <= 2.0 && r.similarity.Some?
  {
    RatioResult(AnswerRatio(c, s))
  }

  /** What `evaluateAnswer(kind, correct, student)` returns. */
  function Grade(kind: string, correct: string, student: string): (r: EvaluationResult)
    ensures r.maxScore == if kind == ONE_WORD then 1.0 else 2.0
    ensures 0.0 <= r.score <= r.maxScore
    ensures r.similarity.Some? <==> kind != ONE_WORD
  {
    var c := Normalize(correct);
    var s := Normalize(student);
    if kind == ONE_WORD then GradeOneWord(correct, c, s) else GradeShortAnswer(c, s)
  }

  // ---- The evaluator as the source runs it ----

  /** The `for` loop counting `diff`. */
  method CountMismatches(shorter: string, longer: string) returns (diff: nat)
    requires |shorter| <= |longer|
    ensures diff == MismatchCount(shorter, longer)
  {
    diff := 0;
    var i := 0;
    while i < |shorter|
      invariant 0 <= i <= |shorter|
      invariant diff == MismatchCount(shorter[..i], longer)
    {
      assert shorter[..i + 1][..i] == shorter[..i];
      if shorter[i] != longer[i] {
        diff := diff + 1;
      }
      i := i + 1;
    }
    assert shorter[..i] == shorter;
  }

  /** The `forEach` over the reference words counting those the student also used. */
  method CountMatches(correctWords: set<string>, studentWords: set<string>) returns (matches: nat)
    ensures matches == |correctWords * studentWords|
    ensures matches <= |correctWords|
  {
    matches := 0;
    var todo := correctWords;
    while todo != {}
      invariant todo <= correctWords
      invariant matches == |(correctWords - todo) * studentWords|
      decreases |todo|
    {
      var word :| word in todo;
      MatchedAfterStep(correctWords, todo, studentWords, word);
      if word in studentWords {
        matches := matches + 1;
      }
      todo := todo - {word};
    }
    assert correctWords - todo == correctWords;
    IntersectionBound(correctWords, studentWords);
  }

  /** Visiting one more reference word adds it to the matched words exactly when the student used it. */
  lemma MatchedAfterStep(all: set<string>, todo: set<string>, used: set<string>, word: string)
    requires todo <= all && word in todo
    ensures var before, after := (all - todo) * used, (all - (todo - {word})) * used;
      |after| == |before| + (if word in used then 1 else 0)
  {
    var before, after := (all - todo) * used, (all - (todo - {word})) * used;
    if word in used {
      assert after == before + {word};
    } else {
      assert after == before;
    }
  }

  lemma IntersectionBound(a: set<string>, b: set<string>)
    ensures |a * b| <= |a|
  {
    assert a == (a * b) + (a - b);
    assert (a * b) * (a - b) == {};
  }

  /** `evaluateAnswer`, step by step. */
  method Evaluate(kind: string, correct: string, student: string) returns (r: EvaluationResult)
    ensures r == Grade(kind, correct, student)
  {
    var correctLower := Normalize(correct);
    var studentLower := Normalize(student);

    if kind == ONE_WORD {
      assert Grade(kind, correct, student) == GradeOneWord(correct, correctLower, studentLower);
      if studentLower == correctLower {
        return EvaluationResult(1.0, 1.0, CORRECT_FEEDBACK, None);
      }
      if -1 <= |correctLower| - |studentLower| <= 1 {
        var shorter := if |correctLower| < |studentLower| then correctLower else studentLower;
        var longer := if |correctLower| >= |studentLower| then correctLower else studentLower;
        var diff := CountMismatches(shorter, longer);
        assert NearMiss(correctLower, studentLower) <==> diff <= 1;
        if diff <= 1 {
          return EvaluationResult(0.5, 1.0, PARTIAL_FEEDBACK, None);
        }
      }
      return EvaluationResult(0.0, 1.0, INCORRECT_PREFIX + correct, None);
    }

    assert Grade(kind, correct, student) == GradeShortAnswer(correctLower, studentLower);
    var correctWords := Tokens(correctLower);
    var studentWords := Tokens(studentLower);
    var matches := CountMatches(correctWords, studentWords);
    var similarity := OverlapRatio(matches, |correctWords|);
    assert similarity == AnswerRatio(correctLower, studentLower);

    r := ScoreAnswer(similarity);
  }

  /** The `if` chain that turns the overlap ratio into a score and its feedback, and the short-answer result. */
  method ScoreAnswer(similarity: real) returns (r: EvaluationResult)
    ensures r == RatioResult(similarity)
  {
    var score: real;
    var feedback: string;
    if similarity >= 0.8 {
      score, feedback := 2.0, EXCELLENT_FEEDBACK;
    } else if similarity >= 0.6 {
      score, feedback := 1.5, GOOD_FEEDBACK;
    } else if similarity >= 0.4 {
      score, feedback := 1.0, PARTIAL_ANSWER_FEEDBACK;
    } else if similarity >= 0.2 {
      score, feedback := 0.5, LIMITED_FEEDBACK;
    } else {
      score, feedback := 0.0, POOR_FEEDBACK;
    }
    r := EvaluationResult(score, 2.0, feedback, Some(Round(similarity * 100.0)));
  }
}
