/**
 * The alternative result component (src/app/result/client-result.tsx). It
 * applies the same acceptance rule as the result page, but a rejected query
 * leaves its state as it was instead of clearing it, and it shows no points
 * figure.
 */
module ClientResult {
  import opened Options
  import opened NumberParsing
  import opened ResultParams
  import ResultPage

  /** What the component renders: the loading fallback or the scores. */
  datatype View = Loading | Scores(score: int, total: int, percent: real)

  class ClientResult {
    var score: Option<int>
    var total: Option<int>
    var percent: Option<real>

    predicate Valid()
      reads this
    {
      Consistent(score, total, percent)
    }

    /** All three state values start out null. */
    constructor ()
      ensures Valid()
      ensures score == None && total == None && percent == None
    {
      score := None;
      total := None;
      percent := None;
    }

    /**
     * The effect keyed on the query: an accepted pair sets all three values;
     * anything else changes nothing, so an earlier result stays on screen.
     */
    method ApplySearchParams(searchParams: map<string, Param>)
      requires Valid()
      modifies this
      ensures Valid()
      ensures var accepted := Accept(Lookup(searchParams, "score"), Lookup(searchParams, "total"));
              match accepted
              case Some(report) =>
                score == Some(report.score) && total == Some(report.total) && percent == Some(report.percent)
              case None =>
                score == old(score) && total == old(total) && percent == old(percent)
    {
      var s := Lookup(searchParams, "score");
      var t := Lookup(searchParams, "total");
      if s.Str? && t.Str? {
        var si := ParseInt(s.text);
        var ti := ParseInt(t.text);
        if si.Some? && ti.Some? && ti.value > 0 {
          score := Some(si.value);
          total := Some(ti.value);
          percent := Some(Percent(si.value, ti.value));
        }
      }
    }

    /**
     * The render: the fallback while any value is null, else the scores. In
     * a valid state the scores carry a positive total and the percentage of
     * that total.
     */
    function Render(): (v: View)
      reads this
      ensures v.Loading? <==> score.None? || total.None? || percent.None?
      ensures Valid() ==> (v.Loading? <==> score.None?)
      ensures Valid() && v.Scores? ==> v.total > 0 && v.percent == Percent(v.score, v.total)
    {
      if score.None? || total.None? || percent.None? then Loading
      else Scores(score.value, total.value, percent.value)
    }
  }

  /**
   * The two components part ways on a query that follows an accepted one
   * but is itself rejected: the result page falls back to its loading view,
   * this component keeps showing the earlier scores.
   */
  method RejectedQueryAfterResult() returns (pageView: ResultPage.View, clientView: View)
    ensures pageView == ResultPage.Loading
    ensures clientView == Scores(6, 8, 75.0)
  {
    var good := map["score" := Str("6"), "total" := Str("8")];
    var bad := map["score" := Str("abc"), "total" := Str("8")];
    ParseIntRoundTrip(6);
    ParseIntRoundTrip(8);
    assert IntToString(6) == "6" && IntToString(8) == "8";
    ParseIntRejectsNonNumeric();
    assert Accept(Lookup(good, "score"), Lookup(good, "total")) == Some(Report(6, 8, 75.0));
    assert Accept(Lookup(bad, "score"), Lookup(bad, "total")) == None;

    var page := new ResultPage.ResultContent();
    page.ApplySearchParams(good);
    page.ApplySearchParams(bad);
    pageView := page.Render();

    var client := new ClientResult();
    client.ApplySearchParams(good);
    client.ApplySearchParams(bad);
    clientView := client.Render();
  }
}
