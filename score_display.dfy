/**
 * How a result is shown: `getScoreColor` and `getScoreIcon` sort the fraction
 * score / maxScore into three bands, at 0.8 and at 0.5.
 */
module ScoreDisplay {
  import opened Text
  import opened Grading
  import opened GradingProperties

  datatype Band = High | Middle | Low
  datatype Color = Green | Yellow | Red
  datatype Icon = CheckCircle | AlertCircle | XCircle

  /**
   * The band of `score / maxScore`. A zero maxScore follows JavaScript's
   * division: a positive score gives Infinity (High), a zero score NaN and a
   * negative one -Infinity, both below every threshold (Low).
   */
  function ScoreBand(score: real, maxScore: real): (b: Band)
    ensures maxScore > 0.0 ==> (b == High <==> score >= 0.8 * maxScore)
    ensures maxScore > 0.0 ==> (b == Low <==> score < 0.5 * maxScore)
    ensures maxScore == 0.0 ==> (b == High <==> score > 0.0) && (b == Low <==> score <= 0.0)
  {
    if maxScore == 0.0 then (if score > 0.0 then High else Low)
    else
      var percentage := score / maxScore;
      assert maxScore > 0.0 ==> (percentage >= 0.8 <==> score >= 0.8 * maxScore) by {
        if maxScore > 0.0 { AtLeastFraction(score, maxScore, 0.8); }
      }
      assert maxScore > 0.0 ==> (percentage >= 0.5 <==> score >= 0.5 * maxScore) by {
        if maxScore > 0.0 { AtLeastFraction(score, maxScore, 0.5); }
      }
      if percentage >= 0.8 then High
      else if percentage >= 0.5 then Middle
      else Low
  }

  lemma AtLeastFraction(score: real, maxScore: real, t: real)
    requires maxScore > 0.0
    ensures score / maxScore >= t <==> score >= t * maxScore
  {
    var p := score / maxScore;
    assert p * maxScore == score;
    if p >= t {
      assert p * maxScore - t * maxScore == (p - t) * maxScore;
    } else {
      assert t * maxScore - p * maxScore == (t - p) * maxScore;
    }
  }

  /** `getScoreColor`, with the three CSS classes as an enumeration. */
  function ScoreColor(score: real, maxScore: real): (c: Color)
    ensures maxScore > 0.0 ==> (c == Green <==> score >= 0.8 * maxScore) && (c == Red <==> score < 0.5 * maxScore)
    ensures maxScore == 0.0 ==> (c == Green <==> score > 0.0) && (c == Red <==> score <= 0.0)
  {
    match ScoreBand(score, maxScore)
    case High => Green
    case Middle => Yellow
    case Low => Red
  }

  /** `getScoreIcon`, with the three icons as an enumeration. */
  function ScoreIcon(score: real, maxScore: real): (i: Icon)
    ensures maxScore > 0.0 ==> (i == CheckCircle <==> score >= 0.8 * maxScore) && (i == XCircle <==> score < 0.5 * maxScore)
    ensures maxScore == 0.0 ==> (i == CheckCircle <==> score > 0.0) && (i == XCircle <==> score <= 0.0)
  {
    match ScoreBand(score, maxScore)
    case High => CheckCircle
    case Middle => AlertCircle
    case Low => XCircle
  }

  /** The colour and the icon always tell the same story. */
  lemma ColorMatchesIcon(score: real, maxScore: real)
    ensures ScoreColor(score, maxScore) == Green <==> ScoreIcon(score, maxScore) == CheckCircle
    ensures ScoreColor(score, maxScore) == Yellow <==> ScoreIcon(score, maxScore) == AlertCircle
    ensures ScoreColor(score, maxScore) == Red <==> ScoreIcon(score, maxScore) == XCircle
  {
  }

  /** A higher score against the same positive maximum is never shown in a lower band. */
  lemma ScoreBandMonotone(s1: real, s2: real, maxScore: real)
    requires maxScore > 0.0 && s1 <= s2
    ensures ScoreBand(s1, maxScore) == High ==> ScoreBand(s2, maxScore) == High
    ensures ScoreBand(s2, maxScore) == Low ==> ScoreBand(s1, maxScore) == Low
  {
  }

  /** One-word results: an exact answer is green, a near miss yellow, anything else red. */
  lemma OneWordColors(correct: string, student: string)
    ensures var r := Grade(ONE_WORD, correct, student);
      && (ScoreColor(r.score, r.maxScore) == Green <==> r.score == 1.0)
      && (ScoreColor(r.score, r.maxScore) == Yellow <==> r.score == 0.5)
      && (ScoreColor(r.score, r.maxScore) == Red <==> r.score == 0.0)
  {
    OneWordOutcomes(correct, student);
  }

  /** Short-answer results: green from overlap ratio 0.8, yellow from 0.4, red below. */
  lemma ShortAnswerColors(kind: string, correct: string, student: string)
    requires kind != ONE_WORD
    ensures var ratio, r := AnswerRatio(Normalize(correct), Normalize(student)), Grade(kind, correct, student);
      && (ScoreColor(r.score, r.maxScore) == Green <==> ratio >= 0.8)
      && (ScoreColor(r.score, r.maxScore) == Yellow <==> 0.4 <= ratio < 0.8)
      && (ScoreColor(r.score, r.maxScore) == Red <==> ratio < 0.4)
  {
    OtherTypesAreShortAnswers(kind, correct, student);
    RatioColors(AnswerRatio(Normalize(correct), Normalize(student)));
  }

  lemma RatioColors(ratio: real)
    ensures var r := RatioResult(ratio);
      && (ScoreColor(r.score, r.maxScore) == Green <==> ratio >= 0.8)
      && (ScoreColor(r.score, r.maxScore) == Yellow <==> 0.4 <= ratio < 0.8)
      && (ScoreColor(r.score, r.maxScore) == Red <==> ratio < 0.4)
  {
    var r := RatioResult(ratio);
    assert r.maxScore == 2.0;
  }
}
