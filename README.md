# Exam answer evaluator — a Dafny model

The landing page's interactive demo grades a student's answer against a
reference answer with `evaluateAnswer` and shows the result in a card.
This project models three parts of that demo.

- **The evaluator**, in two modes.
  - *One-word* questions: both answers are lower-cased and trimmed. An exact match earns 1 mark. A near miss earns ½ mark: the lengths differ by at most one, and at most one position below the shorter length differs. Anything else earns nothing, and the feedback quotes the reference as written.
  - *Every other question type* is graded as a short answer. Each answer is split on runs of white space, words of two characters or fewer are dropped, and the rest form a set. The grade depends on the ratio of reference words the student also used: five lower-inclusive buckets at 0.8, 0.6, 0.4 and 0.2 earn 2, 1.5, 1, 0.5 or 0 marks, plus a similarity percentage `Math.round(ratio * 100)`.
- **The colour and the icon** that present a result, chosen by the fraction score / maxScore, with bands at 0.8 and 0.5.
- **The demo card**: a current question index, the typed answer and the result shown. Submit, Next and Reset update them.

Files:

- `text.dfy` models JavaScript's `toLowerCase`, `trim` and `split(/\s+/)`, and the token filter, with lemmas about them.
- `grading.dfy` holds the `Option` datatype and the specification function `Grade`. It also holds the method `Evaluate`, which follows the source step by step (the `diff` loop, the `forEach` over the reference words, the `if` chain) and is proved equal to `Grade`.
- `grading_properties.dfy` proves what the evaluator promises about `Grade`.
- `score_display.dfy` models `getScoreColor` and `getScoreIcon`.
- `demo_card.dfy` models the sample questions and the card as a class whose methods update its fields.
- `scenarios.dfy` works through the evaluator on concrete answers.

Scores are exact Dafny `real`s. Threshold lemmas restate each bucket as integer cross-multiplication, for example `5 * matches >= 4 * size` for 0.8. The rounded similarity is stated as `(200 * matches + size) / (2 * size)`.

The question type is kept as the string the source compares. An unknown type such as `"essay"` is graded as a short answer, because the code has no unsupported-type error.

## Model

| member | source | states |
|---|---|---|
| Grading.Grade | src/components/Demo.tsx:38-97 | maxScore is 1 for "one-word" and 2 for every other type, `0 <= score <= maxScore`, and a similarity is present exactly when the type is not "one-word" |
| Grading.Bucket | src/components/Demo.tsx:79-94 | each of the five scores is earned exactly on its lower-inclusive ratio range (2 from 0.8, 1.5 on [0.6, 0.8), 1 on [0.4, 0.6), ½ on [0.2, 0.4), 0 below 0.2), and each score comes with its own feedback line |
| Grading.Round | src/components/Demo.tsx:96 | `Math.round` gives the integer `n` with `n - ½ <= x < n + ½`: the nearest integer, a half rounded up |
| Grading.Evaluate | src/components/Demo.tsx:38-97 | `evaluateAnswer` as written (normalise, the one-word branches and the `diff` loop, token sets, the match count, the guarded ratio, the score chain) returns exactly `Grade(kind, correct, student)` |
| Grading.CountMismatches | src/components/Demo.tsx:52-57 | the `for` loop's `diff` equals the recursive mismatch count over the shorter string's positions |
| Grading.CountMatches | src/components/Demo.tsx:69-72 | the `forEach` count is the size of the intersection of the two token sets and never exceeds the number of reference tokens |
| Grading.ScoreAnswer | src/components/Demo.tsx:76-96 | the `if` chain with its score and feedback pairs builds the short-answer result for the given ratio |
| Grading.MismatchCount | src/components/Demo.tsx:55-57 | the mismatch count is at most the shorter length, and is zero exactly when the shorter string is a prefix of the longer |
| Grading.Shorter | src/components/Demo.tsx:53 | `shorter` is one of the two answers and no longer than either |
| Grading.Longer | src/components/Demo.tsx:54 | `longer` is no shorter than either answer, and `shorter` and `longer` are the two answers, each used once |
| Grading.NearMiss | src/components/Demo.tsx:51-58 | partial credit needs lengths within one of each other, and is always allowed when the shorter answer is a prefix of the longer; NearMissIff gives the exact condition |
| Grading.GradeOneWord | src/components/Demo.tsx:46-62 | the one-word branch reports maxScore 1 and no similarity; it gives 1 exactly for equal answers, ½ exactly for unequal answers that pass the near-miss test, and a 0 quotes the reference as written |
| Grading.OverlapRatio | src/components/Demo.tsx:74 | with no reference tokens the ratio is 0; otherwise ratio × size equals the match count, and the ratio lies in [0, 1] when there are no more matches than reference tokens |
| Grading.AnswerRatio | src/components/Demo.tsx:66-74 | the overlap ratio of two answers lies in [0, 1], and is 0 when the reference has no tokens |
| Grading.RatioResult | src/components/Demo.tsx:76-96 | the result built from a ratio has maxScore 2, a score in [0, 2] and a similarity; RatioResultShape and RatioResultSimilarity state its bucket and percentage |
| Grading.GradeShortAnswer | src/components/Demo.tsx:65-96 | the short-answer branch reports maxScore 2, a score in [0, 2] and a similarity |
| GradingProperties.MismatchCountIsPositions | src/components/Demo.tsx:55-57 | the mismatch count equals the number of positions below both lengths where the strings differ |
| GradingProperties.NearMissIff | src/components/Demo.tsx:51-58 | partial credit is allowed exactly when the lengths differ by at most one and at most one position differs, whichever string is shorter |
| GradingProperties.OneWordExactMatch | src/components/Demo.tsx:43-48 | equal normalised answers give `{score 1, maxScore 1, "Correct! Great job."}` with no similarity |
| GradingProperties.OneWordOutcomes | src/components/Demo.tsx:46-62 | maxScore is 1, there is no similarity, and the score is 1, ½ or 0. Each holds exactly under its condition (equal; not equal but a near miss; neither), and a 0 score's feedback quotes the un-normalised reference |
| GradingProperties.DroppedLastLetter | src/components/Demo.tsx:51-59 | an answer that is the reference minus its last letter earns ½ mark with the spelling feedback |
| GradingProperties.TwoMismatches | src/components/Demo.tsx:55-62 | two differing positions mean no partial credit: the result is 0 with the reference quoted |
| GradingProperties.SwappedLetters | src/components/Demo.tsx:50-62 | two swapped neighbouring letters earn 0, because the check is positional and not an edit distance |
| GradingProperties.RatioBounds | src/components/Demo.tsx:74 | with at most `size` matches the guarded ratio lies in [0, 1] |
| GradingProperties.AnswerRatioBounds | src/components/Demo.tsx:66-74 | the overlap ratio of any two answers lies in [0, 1] |
| GradingProperties.RatioOfNoMatches | src/components/Demo.tsx:74 | no matches, or an empty reference set, give ratio 0 |
| GradingProperties.BucketMonotone | src/components/Demo.tsx:79-94 | the bucket score never decreases as the ratio grows |
| GradingProperties.BucketByCounts | src/components/Demo.tsx:74-94 | each bucket, stated on the match count `m` and reference size `n` by cross-multiplication: 2 iff `5m >= 4n`, 1.5 iff `3n <= 5m < 4n`, 1 iff `2n <= 5m < 3n`, ½ iff `n <= 5m < 2n`, 0 iff `5m < n` |
| GradingProperties.SimilarityByCounts | src/components/Demo.tsx:96 | `Math.round(m / n * 100)` equals `(200m + n) / (2n)` in integer division |
| GradingProperties.RatioResultSimilarity | src/components/Demo.tsx:74-96 | the reported similarity is the integer rounded percentage, and 0 for an empty reference |
| GradingProperties.RatioResultShape | src/components/Demo.tsx:79-96 | for a ratio in [0, 1]: maxScore 2, a score among 0, ½, 1, 1½, 2, and a similarity in [0, 100] |
| GradingProperties.ShortAnswerShape | src/components/Demo.tsx:65-96 | every short-answer result has maxScore 2, one of the five scores, and a similarity in [0, 100] |
| GradingProperties.ShortAnswerSimilarity | src/components/Demo.tsx:66-96 | the similarity is the rounded percentage of reference tokens that appear among the student's tokens |
| GradingProperties.OtherTypesAreShortAnswers | src/components/Demo.tsx:46-65 | every type other than "one-word" is graded exactly as "short-answer"; none is refused |
| GradingProperties.BlankShortAnswer | src/components/Demo.tsx:66-74 | a blank or white-space-only answer, or a reference without tokens, gives score 0, maxScore 2, the "needs significant improvement" feedback and similarity 0 |
| GradingProperties.ShortAnswerMonotone | src/components/Demo.tsx:74-94 | against one reference, an answer with a ratio at least as high never scores lower |
| GradingProperties.GradeIgnoresCaseAndPadding | src/components/Demo.tsx:43-44 | the grade is unchanged by white space around the answer and by lower-casing it |
| Text.IsSpace | src/components/Demo.tsx:66-67 | the white space of `\s` and of `trim` on lines 43-44: space, tab, line feed and carriage return are in it, and no ASCII letter or digit is |
| Text.LowerChar | src/components/Demo.tsx:43-44 | lower-casing maps each of A–Z to the a–z letter at the same offset from the start of the alphabet, leaves every other character alone, and keeps white space white space |
| Text.ToLower | src/components/Demo.tsx:43-44 | lower-casing keeps the length |
| Text.ToLowerShape | src/components/Demo.tsx:43-44 | lower-casing keeps white space exactly where it was and leaves no capital letter |
| Text.Normalize | src/components/Demo.tsx:43-44 | `toLowerCase().trim()` is no longer than the input, and when not empty it starts and ends with a non-space |
| Text.NormalizeShape | src/components/Demo.tsx:43-44 | the normalised answer is empty exactly when the input is all white space; otherwise it starts and ends with a non-space; it holds no capital letter |
| Text.TrimStart | src/components/Demo.tsx:43-44 | the result is a suffix of the input, everything dropped is white space, and it does not start with white space |
| Text.TrimEnd | src/components/Demo.tsx:43-44 | the result is a prefix of the input, everything dropped is white space, and it does not end with white space |
| Text.Trim | src/components/Demo.tsx:43-44 | `trim` is empty exactly when the input is all white space, and otherwise starts and ends with a non-space |
| Text.TrimPadded | src/components/Demo.tsx:43-44 | white space added on either side does not change the trimmed text |
| Text.NormalizePadded | src/components/Demo.tsx:43-44 | the normalised form ignores surrounding white space and is unchanged by prior lower-casing |
| Text.ToLowerIdempotent | src/components/Demo.tsx:43-44 | lower-casing twice is lower-casing once |
| Text.LeadingWord | src/components/Demo.tsx:66-67 | the first word is the longest white-space-free prefix |
| Text.Split | src/components/Demo.tsx:66-67 | `split(/\s+/)` yields at least one piece, and no piece contains white space |
| Text.Tokens | src/components/Demo.tsx:66-67 | every token is longer than two characters and contains no white space |
| Text.SplitRebuilds | src/components/Demo.tsx:66-67 | there are separators such that the pieces of `split`, joined back with them, give the text. The pieces hold no white space, only the first and the last may be empty, and every separator is a non-empty run of white space |
| Text.SplitUnique | src/components/Demo.tsx:66-67 | any such decomposition of the text is the one `split` returns, in order |
| Text.SplitWords | src/components/Demo.tsx:66-67 | a non-empty string is a piece of `split` exactly when it is a maximal white-space-free run of the text, i.e. `s[i..j]` with no white space inside, and white space or an end of the text on either side |
| Text.TokensAreWords | src/components/Demo.tsx:66-67 | `w` is a token exactly when it is longer than two characters and is a maximal white-space-free run of the text |
| Text.TokensOfBlank | src/components/Demo.tsx:66-67 | a white-space-only text normalises to "" and has no tokens |
| Text.NormalizeOfWord | src/components/Demo.tsx:43-44 | a word without white space normalises to its lower-case form |
| ScoreDisplay.ScoreBand | src/components/Demo.tsx:136-148 | for a positive maximum: the top band exactly when score >= 0.8·max, the bottom band exactly when score < 0.5·max. For a zero maximum: the top band exactly when the score is positive (the fraction is Infinity), the bottom band otherwise (NaN or -Infinity) |
| ScoreDisplay.ScoreColor | src/components/Demo.tsx:136-141 | for a positive maximum: green exactly when score >= 0.8·max, red exactly when score < 0.5·max, yellow in between. For a zero maximum: green exactly when the score is positive, red otherwise |
| ScoreDisplay.ScoreIcon | src/components/Demo.tsx:143-148 | for a positive maximum: the check icon exactly when score >= 0.8·max, the cross exactly when score < 0.5·max, the alert icon in between. For a zero maximum: the check icon exactly when the score is positive, the cross otherwise |
| ScoreDisplay.ColorMatchesIcon | src/components/Demo.tsx:136-148 | green goes with the check icon, yellow with the alert icon, red with the cross, in both directions |
| ScoreDisplay.ScoreBandMonotone | src/components/Demo.tsx:136-148 | a higher score against the same maximum never falls into a lower band |
| ScoreDisplay.OneWordColors | src/components/Demo.tsx:136-141 | one-word results are green exactly at 1 mark, yellow exactly at ½, red exactly at 0 |
| ScoreDisplay.RatioColors | src/components/Demo.tsx:136-141 | a short-answer result is green exactly from ratio 0.8, yellow exactly on [0.4, 0.8), red below 0.4 |
| ScoreDisplay.ShortAnswerColors | src/components/Demo.tsx:136-141 | the same colour ranges, stated on the overlap ratio of the graded answers |
| DemoCard.SampleMaxScoresAgree | src/components/Demo.tsx:13-35 | each sample question's advertised maxScore is the maxScore the evaluator reports for it |
| DemoCard.Card.constructor | src/components/Demo.tsx:100-102 | the card starts at question 0 with an empty answer and no result |
| DemoCard.Card.Edit | src/components/Demo.tsx:204-217 | typing replaces the answer only while no result is shown; nothing else changes |
| DemoCard.Card.Submit | src/components/Demo.tsx:107-123 | a blank trimmed answer leaves the state untouched; otherwise the result becomes the grade of the current question's reference against the answer, and the index and answer are kept |
| DemoCard.Card.Next | src/components/Demo.tsx:125-129 | the index becomes `(i + 1) mod n`, which stays in range, and the answer and result are cleared |
| DemoCard.Card.Reset | src/components/Demo.tsx:131-134 | the answer and result are cleared and the index is kept |
| Scenarios.ExactAnswer | src/components/Demo.tsx:46-48 | "Paris" against "Paris" earns 1 of 1 |
| Scenarios.ShoutedAnswer | src/components/Demo.tsx:43-48 | " PARIS" plus a newline against "Paris" earns 1 of 1 |
| Scenarios.DroppedLetter | src/components/Demo.tsx:51-59 | "Pari" against "Paris" earns ½ with the spelling feedback |
| Scenarios.SwappedAnswer | src/components/Demo.tsx:51-62 | "Pairs" against "Paris" earns 0 with "Incorrect. The correct answer is: Paris" |
| Scenarios.WrongFormula | src/components/Demo.tsx:51-62 | "CO2" against "H2O" earns 0 with "Incorrect. The correct answer is: H2O" |
| Scenarios.EightOfEighteenTokens | src/components/Demo.tsx:65-96 | against the demo's photosynthesis reference, whose 18 tokens keep the commas of "sunlight," and "water,", an answer sharing 8 of them earns 1 of 2, "Partial answer" and similarity 44 |

`DemoCard.Card.Valid`, which every card method keeps, says more than the source states outright. The index stays in range. Whenever a result is shown, the trimmed answer on screen is non-blank and the result is its grade. It holds because `Card.Submit` is atomic in the model. The source breaks it during the evaluation delay, as the first line under "Left out" explains.

## Left out

- The 1-second simulated delay and the `isEvaluating` flag (Demo.tsx:103,110-113,122) are asynchronous UI sequencing. `Card.Submit` grades at once, so the model does not capture the following. `handleSubmit` is a closure, so it grades the `answer` (and the question) captured at the click. An edit made during the delay is never graded. The input is disabled only by `!!result` (Demo.tsx:208,217), so it stays enabled during the delay. The edited text, even a blank one, then stays on screen beside the older text's grade.
- Which buttons are shown: Submit only while no result is shown, Reset and Next only while one is (Demo.tsx:261-291). The card's methods may be called in any state. Submitting again while a result is shown regrades the same answer to the same result.
- JSX rendering, the framer-motion animation, the CSS class strings and the icon components. Colours and icons are enumerations.
- Strings are sequences of Unicode code points, whereas JavaScript counts UTF-16 code units. Lengths, indices, the one-word length and position checks and the `w.length > 2` filter therefore count code points in the model. Text outside the Basic Multilingual Plane can grade differently. For example, a one-word reference "😀😀" (four code units) against "a" earns 0 in the browser, because the lengths differ by three. It earns ½ in the model, where the lengths differ by one.
- Lower-casing is ASCII only. JavaScript's `toLowerCase` also maps non-ASCII letters, which is not modelled. The white-space set is JavaScript's full `\s` / `trim` set.
- JavaScript floating point. Ratios and scores are exact reals, so a similarity whose exact value is a half may round differently in the browser. For example, 57/200 × 100 is exactly 28.5, which rounds to 29, but in double precision it is just below 28.5 and rounds to 28. Rounding is monotone, so the threshold comparisons can differ only for a ratio within one floating-point step of a threshold, which needs more than about 10^15 reference tokens.
- The sign-in page, both dashboards and the static marketing components. They hold no grading logic and are not part of this model.
- Scenarios.EightOfEighteenTokens: takes the token counts 18 and 8 as hypotheses. It does not evaluate `Tokens` on the two photosynthesis sentences, because expanding those long literals symbolically is too costly for the verifier.
