# Daily-conversation quiz: a Dafny model

The application is a small quiz. The quiz screen fetches a question bank
split into four difficulty tiers: easy, medium, hard and surprising. From
each tier it takes up to two questions at random, shuffles the session as a
whole, and then asks the questions one by one:

- the options of the current question are shown in a shuffled order;
- the first option chosen locks the question and scores a point when it is the right answer;
- "next" moves on, and on the last question ends the quiz.

The finished view links to the result screen with the score and the session
length in the query (`/result?score=…&total=…`). The result screen parses
both values with `parseInt(…, 10)`. It accepts them only when:

- both are single strings;
- both parse to integers;
- the total is positive.

It then shows the score, the percentage `score / total * 100`, and a points
figure `score * 12.5` on a 100-point scale. A second result component,
`ClientResult`, applies the same rule. It differs in two ways: it keeps its
previous state when a query is rejected, and it shows no points.

The model has one module per component, plus four shared modules:

- `Options`: the nullable values of the source, as an `Option` type.
- `RandomSort`: `array.sort` with a random comparator. Section 23.1.3.30 of ECMA-262 leaves the resulting order implementation-defined for an inconsistent comparator, so it is modelled as a rearrangement by an arbitrary permutation of the indices, supplied by the caller.
- `QuizPage`: `shuffleArray` (Fisher–Yates, modelled as a method over an array), `getRandomElements`, the selection effect, and the `QuizSession` class, whose fields are the page's state variables.
- `NumberParsing`: `parseInt(s, 10)` as section 19.2.5 of ECMA-262 defines it, and the decimal text of integers, as a template literal writes integers below 10^21.
- `ResultParams`: the query values, the acceptance rule both result components share, the percentage and the points figure.
- `ResultPage`: the `ResultContent` component as a class.
- `ClientResult`: the `ClientResult` component as a class.

`Math.random()` is an oracle. `shuffleArray` takes a sequence of reals in
[0, 1), consumed in the order the loop draws them. The comparator sorts take
a permutation of the positions instead (see `RandomSort`).

The session state keeps a ghost record of the answer first submitted to each
question reached. The invariant `Valid()` ties the running score to that
record. An empty session never reaches the finished view: the page keeps
showing the "preparing" view (`ScreenFacts`).

The points figure assumes a session of eight questions. The model proves
that it equals the percentage exactly when the score is 0 or the total is 8
(`PointsMatchPercent`). So a bank with a tier of fewer than two questions
shows points that disagree with the percentage, unless the score is 0.

Some functions are reference definitions. Their own contracts are light, and
the lemmas in the table below pin them down:

- `NumberParsing.ParseInt` and its digit part `NumberParsing.ParseDigits` are pinned down by the `ParseInt…` lemmas.
- `NumberParsing.IntToString` is pinned down by `NatToString` and `ParseIntRoundTrip`.
- `QuizPage.Shuffled` is pinned down by `ShuffleArray` and `FisherYatesPermutes`.
- `QuizPage.QuizSession.CurrentScreen`, the early-return chain of the quiz page, is pinned down by `ScreenFacts`.

## Model

| member | source | states |
|---|---|---|
| RandomSort.SortedCopy | src/app/quiz/page.tsx:26-28 | a copy sorted with a random comparator has the same length and the same elements with the same multiplicities |
| QuizPage.SwapIndex | src/app/quiz/page.tsx:36 | `Math.floor(Math.random() * (i + 1))` is a position between 0 and i |
| QuizPage.SwapPlan | src/app/quiz/page.tsx:35-36 | the swap partners the draws select, one per loop step from the last position down to 1, each within bounds |
| QuizPage.Swap | src/app/quiz/page.tsx:37 | the destructuring swap keeps the length, puts each of the two entries in the other's place and leaves every other position alone |
| QuizPage.SwapPermutes | src/app/quiz/page.tsx:37 | a swap keeps every element with its multiplicity |
| QuizPage.FisherYates | src/app/quiz/page.tsx:35-38 | the swap loop, from any position down to 1, keeps the length |
| QuizPage.FisherYatesPermutes | src/app/quiz/page.tsx:35-38 | the swap loop, from any position down to 1, keeps every element with its multiplicity |
| QuizPage.ShuffleArray | src/app/quiz/page.tsx:33-40 | the in-place loop over a copy returns exactly the Fisher–Yates result for the draws, a permutation of the input |
| QuizPage.AnswerSurvivesShuffle | src/app/quiz/page.tsx:104-110 | an answer that is among a question's options is still among the shuffled options |
| QuizPage.GetRandomElements | src/app/quiz/page.tsx:23-30 | returns min(n, length) elements, and all of the input with its multiplicities when n reaches the length |
| QuizPage.RandomElementsFromInput | src/app/quiz/page.tsx:23-30 | every returned element comes from the input, never more often than the input holds it |
| QuizPage.TierSelections | src/app/quiz/page.tsx:82-87 | the four tier picks together hold min(2, tier size) questions per tier |
| QuizPage.SelectQuestions | src/app/quiz/page.tsx:82-88 | the session has the combined size of the tier picks, at most eight |
| QuizPage.SessionDrawnFromBank | src/app/quiz/page.tsx:82-88 | the final shuffle keeps exactly the tier picks, and the session is a sub-multiset of the bank |
| QuizPage.SessionHasNoRepeats | src/app/quiz/page.tsx:82-88 | a bank without repeated questions gives a session without repeated questions |
| QuizPage.CountCorrect | src/app/quiz/page.tsx:166-167 | the score from the recorded answers never exceeds the number of answers |
| QuizPage.CountCorrectCountsMatches | src/app/quiz/page.tsx:166-167 | the running score equals the number of positions whose recorded answer is the right one |
| QuizPage.QuizSession.constructor | src/app/quiz/page.tsx:44-52 | the initial state: no bank, empty session, index 0, score 0, not ended, nothing selected, and the invariant holds |
| QuizPage.QuizSession.CurrentQuestion | src/app/quiz/page.tsx:99-102 | the current question exists exactly when the session is not empty, and it is then the question at the cursor, one of the session's questions |
| QuizPage.QuizSession.ScreenFacts | src/app/quiz/page.tsx:113-157 | in a valid state the fall-through error view never shows, the question view shows exactly while a non-empty session runs, an empty session stays on "preparing", and the finished view carries 0 <= score <= total with total > 0 |
| QuizPage.QuizSession.FinalScore | src/app/quiz/page.tsx:160-179 | once ended, every question has one recorded answer and the score counts the right ones |
| QuizPage.QuizSession.ResultQuery | src/app/quiz/page.tsx:131 | the result link's query is accepted by the result screen as the same score and session length, with a percentage in [0, 100] |
| QuizPage.QuizSession.BuildSession | src/app/quiz/page.tsx:80-95 | the selection effect stores the selected session and resets index, score, end flag and answer, keeping the invariant |
| QuizPage.QuizSession.Restart | src/app/quiz/page.tsx:88-93 | the state updates of the selection effect for a given session, keeping the invariant |
| QuizPage.QuizSession.ShuffledOptions | src/app/quiz/page.tsx:105-110 | no options without a current question; otherwise a permutation of its options that still contains its answer |
| QuizPage.QuizSession.HandleAnswer | src/app/quiz/page.tsx:160-169 | a second submission changes nothing; the first records the option, locks the question and adds one point exactly when the option is the answer |
| QuizPage.QuizSession.HandleNextQuestion | src/app/quiz/page.tsx:171-179 | before the last question it advances and clears the answer; on the last it ends the quiz; score and session are unchanged and the invariant holds |
| NumberParsing.TrimStart | src/app/result/page.tsx:24-25 | the text left after the leading white space does not start with white space |
| NumberParsing.TrimStartDropsWhiteSpace | src/app/result/page.tsx:24-25 | TrimStart returns a suffix of its input, and everything it drops is white space |
| NumberParsing.LeadingDigits | src/app/result/page.tsx:24-25 | the longest prefix made of decimal digits |
| NumberParsing.NatToString | src/app/quiz/page.tsx:131 | the rendering of a natural number is non-empty, all digits, has no leading zero and denotes that number |
| NumberParsing.ParseIntReadsRenderedInteger | src/app/result/page.tsx:24-25 | parseInt reads back the decimal text of an integer, whatever non-digit text follows it |
| NumberParsing.ParseIntRoundTrip | src/app/result/page.tsx:24-25 | parseInt of the rendering of any integer is that integer |
| NumberParsing.ParseIntSkipsWhiteSpace | src/app/result/page.tsx:24-25 | leading white space does not change the result of parseInt |
| NumberParsing.ParseIntNaN | src/app/result/page.tsx:24-27 | parseInt gives NaN exactly when no digit follows the white space and the optional sign |
| NumberParsing.ParseIntRejectsNonNumeric | src/app/result/page.tsx:24-27 | "abc", "", "-" and " +x1" give NaN |
| ResultParams.Lookup | src/app/result/page.tsx:20-21 | an absent query key reads as undefined |
| ResultParams.Accept | src/app/result/page.tsx:23-30 | a pair is accepted exactly when both values are strings, both parse and the total is positive; the accepted pair carries those integers and their percentage |
| ResultParams.AcceptOnlyStrings | src/app/result/page.tsx:23 | an absent or repeated query value is never accepted |
| ResultParams.AcceptsQuizHandoff | src/app/quiz/page.tsx:131 | a pair in decimal text with 0 <= score <= total and total > 0 is accepted as sent, with a percentage in [0, 100] |
| ResultParams.PercentBounds | src/app/result/page.tsx:30 | a score between 0 and the total gives a percentage between 0 and 100, exactly 100 for a full score |
| ResultParams.AcceptAnyRenderedPair | src/app/result/page.tsx:23-27 | every pair in decimal text with a positive total is accepted as sent, whatever the score, negative or above the total |
| ResultParams.PercentOutsideBounds | src/app/result/page.tsx:30 | a score above the total gives a percentage over 100, and a negative score a negative one |
| ResultParams.AcceptRejectsBadNumbers | src/app/result/page.tsx:27 | two instances of the rule: score "abc" over total "8" is rejected, and score "3" over total "0" is rejected (the general rule is `Accept`'s if-and-only-if) |
| ResultParams.Percent | src/app/result/page.tsx:30 | the percentage times the total is the score times 100 |
| ResultParams.Points | src/app/result/page.tsx:78 | the points figure is the percentage the score would have out of 8 |
| ResultParams.PointsMatchPercent | src/app/result/page.tsx:78 | the points figure equals the percentage exactly when the score is 0 or the total is 8 |
| ResultPage.ResultContent.constructor | src/app/result/page.tsx:15-17 | all three state values start out null |
| ResultPage.ResultContent.ApplySearchParams | src/app/result/page.tsx:19-43 | an accepted pair sets score, total and percentage; any other query clears all three; the render then shows that pair's scores and points, or the fallback |
| ResultPage.ResultContent.Render | src/app/result/page.tsx:45-78 | the fallback shows exactly while a value is null; the scores of a consistent state have a positive total, its percentage and the points of the score |
| ClientResult.ClientResult.constructor | src/app/result/client-result.tsx:11-13 | all three state values start out null |
| ClientResult.ClientResult.ApplySearchParams | src/app/result/client-result.tsx:15-27 | an accepted pair sets score, total and percentage; any other query leaves the state as it was; consistency is kept |
| ClientResult.ClientResult.Render | src/app/result/client-result.tsx:29-48 | the fallback shows exactly while a value is null; the scores of a consistent state have a positive total and its percentage |
| ClientResult.RejectedQueryAfterResult | src/app/result/client-result.tsx:21-26 | after an accepted query and then a rejected one, the result page shows its fallback while this component still shows the first scores |

## Left out

- Fetching the bank, the `loading` and `error` flags and their views: the bank is an input of `BuildSession`, and network failures are out of scope.
- Markup, styling, links and buttons, except what decides control flow: the result link's query, and the "next" button shown only once a question is answered (a precondition of `HandleNextQuestion`).
- Logging with `console.error` and `console.warn`.
- The `Suspense` wrapper of the result page.
- React's batching of state updates and re-renders. Each handler is modelled as one atomic step. `useMemo` is modelled as a call of `ShuffledOptions` when the current question changes.
- Floating point: percentages and points are exact rationals, and `toFixed(1)` rounding for display is not modelled.
- NumberParsing.ParseInt: it yields exact integers. JavaScript numbers lose precision above 2^53, and `-0` becomes 0. Integers of 10^21 or more are written in exponent notation by a template literal (`1e+21`), which `IntToString` does not model; the quiz only writes scores and lengths of at most 8. A digit string of about 309 digits or more makes `parseInt` return Infinity. The check at src/app/result/page.tsx:27 accepts it, since Infinity is not NaN and is positive. The page then shows:
  - for an infinite total and a finite score: "0.0%";
  - for an infinite score and a finite total: "Infinity" and "Infinity%", or "-Infinity" and "-Infinity%" for a negative score;
  - for both infinite: "NaN%".

  The exact `Percent` and `Consistent` cannot show any of these.
- A malformed bank: the model takes the fetched bank to be well formed, as its TypeScript type declares. Every `Question` has an `options` list, and `AllQuizzes` always has its four tiers. So the `currentQuestion.options` guard of the `shuffledOptions` memo (src/app/quiz/page.tsx:106), which yields `[]` for a question without options, and the TypeError `getRandomElements` throws on a missing tier (`arr.length`, src/app/quiz/page.tsx:24) have no counterpart.
- URL encoding of query values: the router is taken to deliver the strings as they were written.
- The statistical quality of the shuffles: a random-comparator sort is not uniform, and the model only states what every outcome satisfies.
- `src/app/page.tsx`, the home page: it is only a link to the quiz.
