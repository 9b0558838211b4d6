/** What the evaluator promises, proved about its specification `Grading.Grade`. */
module GradingProperties {
  import opened Optional
  import opened Text
  import opened Grading

  // ---- One-word mode ----

  /** The recursive mismatch count is the number of differing positions. */
  lemma {:induction false} MismatchCountIsPositions(a: string, b: string)
    requires |a| <= |b|
    ensures MismatchCount(a, b) == |MismatchPositions(a, b)|
    decreases |a|
  {
    if a != [] {
      var k := |a| - 1;
      MismatchCountIsPositions(a[..k], b);
      PositionsStep(a, b, k);
    } else {
      assert MismatchPositions(a, b) == {};
    }
  }

  /** The last position of `a` adds itself to the differing positions exactly when it differs. */
  lemma PositionsStep(a: string, b: string, k: int)
    requires 0 < |a| <= |b| && k == |a| - 1
    ensures |MismatchPositions(a, b)| == |MismatchPositions(a[..k], b)| + (if a[k] != b[k] then 1 else 0)
  {
    var before := MismatchPositions(a[..k], b);
    assert k !in before;
    forall i: nat ensures i in MismatchPositions(a, b) <==> i in before || (i == k && a[k] != b[k]) {
      if i < k { assert a[..k][i] == a[i]; }
    }
    if a[k] != b[k] {
      assert MismatchPositions(a, b) == before + {k};
    } else {
      assert MismatchPositions(a, b) == before;
    }
  }

  lemma MismatchPositionsSymmetric(a: string, b: string)
    ensures MismatchPositions(a, b) == MismatchPositions(b, a)
  {
  }

  /** The partial-credit test, stated without choosing a shorter and a longer string. */
  lemma NearMissIff(c: string, s: string)
    ensures NearMiss(c, s) <==> -1 <= |c| - |s| <= 1 && |MismatchPositions(c, s)| <= 1
  {
    MismatchCountIsPositions(Shorter(c, s), Longer(c, s));
    MismatchPositionsSymmetric(c, s);
  }

  /** Equal normalised answers earn full marks. */
  lemma OneWordExactMatch(correct: string, student: string)
    requires Normalize(student) == Normalize(correct)
    ensures Grade(ONE_WORD, correct, student) == EvaluationResult(1.0, 1.0, CORRECT_FEEDBACK, None)
  {
  }

  /** The three one-word outcomes and exactly when each happens. */
  lemma OneWordOutcomes(correct: string, student: string)
    ensures var c, s, r := Normalize(correct), Normalize(student), Grade(ONE_WORD, correct, student);
      var near := -1 <= |c| - |s| <= 1 && |MismatchPositions(c, s)| <= 1;
      && r.maxScore == 1.0
      && r.similarity == None
      && (r.score == 1.0 || r.score == 0.5 || r.score == 0.0)
      && (r.score == 1.0 <==> s == c)
      && (r.score == 0.5 <==> s != c && near)
      && (r.score == 0.0 <==> s != c && !near)
      && (r.score == 0.0 ==> r.feedback == INCORRECT_PREFIX + correct)
  {
    NearMissIff(Normalize(correct), Normalize(student));
  }

  /** An answer missing only the reference's last letter is a near miss and earns half marks. */
  lemma DroppedLastLetter(correct: string, student: string)
    requires var c, s := Normalize(correct), Normalize(student);
      |c| == |s| + 1 && s == c[..|s|]
    ensures Grade(ONE_WORD, correct, student) == EvaluationResult(0.5, 1.0, PARTIAL_FEEDBACK, None)
  {
    var c, s := Normalize(correct), Normalize(student);
    assert Shorter(c, s) == s && Longer(c, s) == c;
    assert MismatchCount(s, c) == 0;
    assert GradeOneWord(correct, c, s) == EvaluationResult(0.5, 1.0, PARTIAL_FEEDBACK, None) by {
      assert s != c;
    }
    OneWordGrade(correct, student);
  }

  lemma OneWordGrade(correct: string, student: string)
    ensures Grade(ONE_WORD, correct, student) == GradeOneWord(correct, Normalize(correct), Normalize(student))
  {
  }

  /** Two differing positions rule out partial credit: the answer earns nothing. */
  lemma TwoMismatches(correct: string, student: string, i: nat, j: nat)
    requires var c, s := Normalize(correct), Normalize(student);
      i < j < |c| && j < |s| && c[i] != s[i] && c[j] != s[j]
    ensures Grade(ONE_WORD, correct, student) == EvaluationResult(0.0, 1.0, INCORRECT_PREFIX + correct, None)
  {
    var c, s := Normalize(correct), Normalize(student);
    NoNearMiss(c, s, i, j);
    OneWordGrade(correct, student);
  }

  lemma NoNearMiss(c: string, s: string, i: nat, j: nat)
    requires i < j < |c| && j < |s| && c[i] != s[i] && c[j] != s[j]
    ensures s != c && !NearMiss(c, s)
  {
    assert {i, j} <= MismatchPositions(c, s);
    assert |{i, j}| == 2;
    SubsetCardinality({i, j}, MismatchPositions(c, s));
    NearMissIff(c, s);
  }

  /**
   * Two swapped neighbouring letters differ in two positions, so the answer
   * earns nothing: the check is positional, not an edit distance.
   */
  lemma SwappedLetters(correct: string, student: string, i: nat)
    requires var c, s := Normalize(correct), Normalize(student);
      i + 1 < |c| && c[i] != c[i + 1] && s == c[..i] + [c[i + 1], c[i]] + c[i + 2..]
    ensures Grade(ONE_WORD, correct, student) == EvaluationResult(0.0, 1.0, INCORRECT_PREFIX + correct, None)
  {
    var c, s := Normalize(correct), Normalize(student);
    assert s[i] == c[i + 1] && s[i + 1] == c[i];
    TwoMismatches(correct, student, i, i + 1);
  }

  lemma SubsetCardinality(a: set<nat>, b: set<nat>)
    requires a <= b
    ensures |a| <= |b|
  {
    assert b == a + (b - a);
  }

  // ---- Short-answer mode ----

  lemma RatioBounds(matches: nat, size: nat)
    requires matches <= size
    ensures 0.0 <= OverlapRatio(matches, size) <= 1.0
  {
    if size > 0 {
      RatioTimesSize(matches, size);
    }
  }

  lemma RatioTimesSize(matches: nat, size: nat)
    requires size > 0
    ensures OverlapRatio(matches, size) * size as real == matches as real
  {
  }

  lemma RatioOfNoMatches(size: nat)
    ensures OverlapRatio(0, size) == 0.0
  {
  }

  /** The overlap ratio of two answers lies in [0, 1]. */
  lemma AnswerRatioBounds(c: string, s: string)
    ensures 0.0 <= AnswerRatio(c, s) <= 1.0
  {
    IntersectionBound(Tokens(c), Tokens(s));
    RatioBounds(|Tokens(c) * Tokens(s)|, |Tokens(c)|);
  }

  /** A higher overlap ratio never earns a lower score. */
  lemma BucketMonotone(r1: real, r2: real)
    requires r1 <= r2
    ensures Bucket(r1).0 <= Bucket(r2).0
  {
  }

  /** The buckets by cross-multiplication: which score `matches` reference tokens out of `size` earn. */
  lemma BucketByCounts(matches: nat, size: nat)
    requires size > 0
    ensures var score := Bucket(OverlapRatio(matches, size)).0;
      && (score == 2.0 <==> 5 * matches >= 4 * size)
      && (score == 1.5 <==> 3 * size <= 5 * matches < 4 * size)
      && (score == 1.0 <==> 2 * size <= 5 * matches < 3 * size)
      && (score == 0.5 <==> size <= 5 * matches < 2 * size)
      && (score == 0.0 <==> 5 * matches < size)
  {
    var m, n := matches as real, size as real;
    var r := OverlapRatio(matches, size);
    assert r == m / n;
    DivAtLeast(m, n, 0.8);
    DivAtLeast(m, n, 0.6);
    DivAtLeast(m, n, 0.4);
    DivAtLeast(m, n, 0.2);
  }

  lemma DivAtLeast(m: real, n: real, t: real)
    requires n > 0.0
    ensures m / n >= t <==> m >= t * n
  {
    ScaleCompare(m / n, n, t);
    assert (m / n) * n == m;
  }

  lemma ScaleCompare(r: real, n: real, t: real)
    requires n > 0.0
    ensures r >= t <==> r * n >= t * n
  {
    if r >= t {
      assert r * n - t * n == (r - t) * n;
    } else {
      assert t * n - r * n == (t - r) * n;
    }
  }

  /** `Math.round(ratio * 100)` by integer arithmetic. */
  lemma SimilarityByCounts(matches: nat, size: nat)
    requires size > 0
    ensures Round(OverlapRatio(matches, size) * 100.0) == (200 * matches + size) / (2 * size)
  {
    var x := OverlapRatio(matches, size) * 100.0 + 0.5;
    RatioTimesSize(matches, size);
    assert x * (2 * size) as real == (200 * matches + size) as real;
    FloorByDivision(x, 200 * matches + size, 2 * size);
  }

  /** A real whose multiple by `d` is the integer `q` has floor `q / d`. */
  lemma FloorByDivision(x: real, q: nat, d: nat)
    requires d > 0 && x * d as real == q as real
    ensures x.Floor == q / d
  {
    var k, rem := q / d, q % d;
    assert q == k * d + rem && 0 <= rem < d;
    assert x * d as real == k as real * d as real + rem as real;
    assert k as real <= x by { ScaleCompare(x, d as real, k as real); }
    assert x < k as real + 1.0 by { ScaleCompare(x, d as real, k as real + 1.0); }
  }

  /** A short-answer result for a ratio in [0, 1]: maxScore 2, a bucket score and a percentage in [0, 100]. */
  lemma RatioResultShape(ratio: real)
    requires 0.0 <= ratio <= 1.0
    ensures var r := RatioResult(ratio);
      && r.maxScore == 2.0
      && 0.0 <= r.score <= 2.0
      && (r.score == 0.0 || r.score == 0.5 || r.score == 1.0 || r.score == 1.5 || r.score == 2.0)
      && r.similarity.Some? && 0 <= r.similarity.value <= 100
  {
    var x := ratio * 100.0 + 0.5;
    assert 0.5 <= x <= 100.5;
    assert 0 <= x.Floor <= 100;
  }

  /** Short-answer results always carry maxScore 2, a score in [0, 2] and a similarity in [0, 100]. */
  lemma ShortAnswerShape(kind: string, correct: string, student: string)
    requires kind != ONE_WORD
    ensures var c, s, r := Normalize(correct), Normalize(student), Grade(kind, correct, student);
      && r.maxScore == 2.0
      && 0.0 <= r.score <= 2.0
      && (r.score == 0.0 || r.score == 0.5 || r.score == 1.0 || r.score == 1.5 || r.score == 2.0)
      && r.similarity.Some? && 0 <= r.similarity.value <= 100
  {
    var c, s := Normalize(correct), Normalize(student);
    var ratio := AnswerRatio(c, s);
    AnswerRatioBounds(c, s);
    OtherTypesAreShortAnswers(kind, correct, student);
    RatioResultShape(ratio);
  }

  /** `matches` out of `size` as a percentage rounded half up, in integer arithmetic (0 for an empty reference). */
  function RoundedPercent(matches: nat, size: nat): int {
    if size > 0 then (200 * matches + size) / (2 * size) else 0
  }

  /** The similarity reported for `matches` reference tokens out of `size`, by integer arithmetic. */
  lemma RatioResultSimilarity(matches: nat, size: nat)
    ensures RatioResult(OverlapRatio(matches, size)).similarity == Some(RoundedPercent(matches, size))
  {
    if size > 0 {
      SimilarityByCounts(matches, size);
    }
  }

  /** The short-answer similarity is the rounded percentage of reference tokens the student used. */
  lemma ShortAnswerSimilarity(kind: string, correct: string, student: string)
    requires kind != ONE_WORD
    ensures var ref, stu := Tokens(Normalize(correct)), Tokens(Normalize(student));
      Grade(kind, correct, student).similarity == Some(RoundedPercent(|ref * stu|, |ref|))
  {
    var ref, stu := Tokens(Normalize(correct)), Tokens(Normalize(student));
    OtherTypesAreShortAnswers(kind, correct, student);
    RatioResultSimilarity(|ref * stu|, |ref|);
  }

  /** Every type other than "one-word" (say "essay") is graded as a short answer; none is refused. */
  lemma OtherTypesAreShortAnswers(kind: string, correct: string, student: string)
    requires kind != ONE_WORD
    ensures Grade(kind, correct, student) == Grade("short-answer", correct, student)
    ensures Grade(kind, correct, student) == RatioResult(AnswerRatio(Normalize(correct), Normalize(student)))
  {
  }

  /** A blank answer, or a reference without tokens, earns nothing and 0% similarity. */
  lemma BlankShortAnswer(kind: string, correct: string, student: string)
    requires kind != ONE_WORD
    requires AllSpace(student) || Tokens(Normalize(correct)) == {}
    ensures Grade(kind, correct, student) == EvaluationResult(0.0, 2.0, POOR_FEEDBACK, Some(0))
  {
    var c, s := Normalize(correct), Normalize(student);
    if AllSpace(student) {
      TokensOfBlank(student);
      assert Tokens(c) * Tokens(s) == {};
      RatioOfNoMatches(|Tokens(c)|);
    }
    assert AnswerRatio(c, s) == 0.0;
    assert Grade(kind, correct, student) == RatioResult(0.0);
    assert Round(0.0 * 100.0) == 0;
  }

  /** Among short answers to one reference, more overlap never earns a lower score. */
  lemma ShortAnswerMonotone(kind: string, correct: string, a: string, b: string)
    requires kind != ONE_WORD
    requires AnswerRatio(Normalize(correct), Normalize(a)) <= AnswerRatio(Normalize(correct), Normalize(b))
    ensures Grade(kind, correct, a).score <= Grade(kind, correct, b).score
  {
    BucketMonotone(AnswerRatio(Normalize(correct), Normalize(a)), AnswerRatio(Normalize(correct), Normalize(b)));
  }

  // ---- Both modes ----

  /** Grading ignores the case of the answer and white space around it. */
  lemma GradeIgnoresCaseAndPadding(kind: string, correct: string, student: string, ws1: string, ws2: string)
    requires AllSpace(ws1) && AllSpace(ws2)
    ensures Grade(kind, correct, ws1 + student + ws2) == Grade(kind, correct, student)
    ensures Grade(kind, correct, ToLower(student)) == Grade(kind, correct, student)
  {
    NormalizePadded(ws1, student, ws2);
  }
}
