/**
 * The result screen (src/app/result/page.tsx): the `ResultContent`
 * component, which reads `score` and `total` from the query, keeps three
 * nullable state values and renders either a fallback or the scores.
 */
module ResultPage {
  import opened Options
  import opened NumberParsing
  import opened ResultParams

  /** What the component renders: the loading fallback or the scores with the points figure. */
  datatype View = Loading | Scores(score: int, total: int, percent: real, points: real)

  class ResultContent {
    var score: Option<int>
    var totalQuestions: Option<int>
    var percentageScore: Option<real>

    predicate Valid()
      reads this
    {
      Consistent(score, totalQuestions, percentageScore)
    }

    /** All three state values start out null. */
    constructor ()
      ensures Valid()
      ensures score == None && totalQuestions == None && percentageScore == None
    {
      score := None;
      totalQuestions := None;
      percentageScore := None;
    }

    /**
     * The effect keyed on the query: an accepted pair sets all three values,
     * anything else clears all three.
     */
    method ApplySearchParams(searchParams: map<string, Param>)
      modifies this
      ensures Valid()
      ensures var accepted := Accept(Lookup(searchParams, "score"), Lookup(searchParams, "total"));
              match accepted
              case Some(report) =>
                score == Some(report.score) && totalQuestions == Some(report.total)
                && percentageScore == Some(report.percent)
              case None =>
                score == None && totalQuestions == None && percentageScore == None
      ensures var accepted := Accept(Lookup(searchParams, "score"), Lookup(searchParams, "total"));
              Render() == if accepted.Some? then
                            var r := accepted.value;
                            Scores(r.score, r.total, r.percent, Points(r.score))
                          else Loading
    {
      var scoreParam := Lookup(searchParams, "score");
      var totalParam := Lookup(searchParams, "total");
      if scoreParam.Str? && totalParam.Str? {
        var parsedScore := ParseInt(scoreParam.text);
        var parsedTotal := ParseInt(totalParam.text);
        if parsedScore.Some? && parsedTotal.Some? && parsedTotal.value > 0 {
          score := Some(parsedScore.value);
          totalQuestions := Some(parsedTotal.value);
          percentageScore := Some(Percent(parsedScore.value, parsedTotal.value));
        } else {
          score := None;
          totalQuestions := None;
          percentageScore := None;
        }
      } else {
        score := None;
        totalQuestions := None;
        percentageScore := None;
      }
    }

    /**
     * The render: the fallback while any value is null, else the scores and
     * the points figure. In a valid state the scores carry a positive total
     * and the percentage of that total.
     */
    function Render(): (v: View)
      reads this
      ensures v.Loading? <==> score.None? || totalQuestions.None? || percentageScore.None?
      ensures Valid() ==> (v.Loading? <==> score.None?)
      ensures v.Scores? ==> v.points == Points(v.score)
      ensures Valid() && v.Scores? ==> v.total > 0 && v.percent == Percent(v.score, v.total)
    {
      if score.None? || totalQuestions.None? || percentageScore.None? then Loading
      else Scores(score.value, totalQuestions.value, percentageScore.value, Points(score.value))
    }
  }
}
