/**
 * What the two result components (src/app/result/page.tsx and
 * src/app/result/client-result.tsx) share: the query values they receive,
 * the rule by which they accept a score/total pair, and the figures they
 * show. Percentages and points are exact rationals.
 */
module ResultParams {
  import opened Options
  import opened NumberParsing

  /** A query value as the router hands it over: absent, one string, or several. */
  datatype Param = Undefined | Str(text: string) | Strs(texts: seq<string>)

  /** `searchParams[key]`: an absent key reads as undefined. */
  function Lookup(searchParams: map<string, Param>, key: string): (p: Param)
    ensures key !in searchParams ==> p == Undefined
  {
    if key in searchParams then searchParams[key] else Undefined
  }

  /** `(score / total) * 100`. */
  function Percent(score: int, total: int): (p: real)
    requires total > 0
    ensures p * total as real == score as real * 100.0
  {
    (score as real / total as real) * 100.0
  }

  /** The accepted triple: score, total and percentage. */
  datatype Report = Report(score: int, total: int, percent: real)

  /**
   * The acceptance rule: both values are strings, both parse as decimal
   * integers and the total is positive. The percentage is then defined.
   */
  function Accept(scoreParam: Param, totalParam: Param): (r: Option<Report>)
    ensures r.Some? <==>
      && scoreParam.Str? && totalParam.Str?
      && ParseInt(scoreParam.text).Some? && ParseInt(totalParam.text).Some?
      && ParseInt(totalParam.text).value > 0
    ensures r.Some? ==>
      && r.value.total > 0
      && r.value.score == ParseInt(scoreParam.text).value
      && r.value.total == ParseInt(totalParam.text).value
      && r.value.percent == Percent(r.value.score, r.value.total)
  {
    if scoreParam.Str? && totalParam.Str? then
      var parsedScore := ParseInt(scoreParam.text);
      var parsedTotal := ParseInt(totalParam.text);
      if parsedScore.Some? && parsedTotal.Some? && parsedTotal.value > 0 then
        Some(Report(parsedScore.value, parsedTotal.value, Percent(parsedScore.value, parsedTotal.value)))
      else
        None
    else
      None
  }

  /** An absent or repeated parameter is never accepted. */
  lemma AcceptOnlyStrings(scoreParam: Param, totalParam: Param)
    requires !scoreParam.Str? || !totalParam.Str?
    ensures Accept(scoreParam, totalParam) == None
  {
  }

  /**
   * The pair the finished quiz puts in the link, rendered as decimal text,
   * is accepted as it was sent, with a percentage between 0 and 100.
   */
  lemma AcceptsQuizHandoff(score: nat, total: nat)
    requires score <= total && total > 0
    ensures Accept(Str(IntToString(score)), Str(IntToString(total)))
         == Some(Report(score, total, Percent(score, total)))
    ensures 0.0 <= Percent(score, total) <= 100.0
  {
    ParseIntRoundTrip(score);
    ParseIntRoundTrip(total);
    PercentBounds(score, total);
  }

  /** A score between 0 and the total gives a percentage between 0 and 100, 100 exactly for a full score. */
  lemma PercentBounds(score: int, total: int)
    requires 0 <= score <= total && total > 0
    ensures 0.0 <= Percent(score, total) <= 100.0
    ensures Percent(score, total) == 100.0 <==> score == total
  {
    var q := score as real / total as real;
    assert q * total as real == score as real;
    assert q <= 1.0;
  }

  /**
   * The rule does not bound the score: any rendered score, negative or above
   * the total, is accepted as long as the total is positive.
   */
  lemma AcceptAnyRenderedPair(score: int, total: int)
    requires total > 0
    ensures Accept(Str(IntToString(score)), Str(IntToString(total)))
         == Some(Report(score, total, Percent(score, total)))
  {
    ParseIntRoundTrip(score);
    ParseIntRoundTrip(total);
  }

  /** Such a score gives a percentage outside [0, 100]: above 100 for a score over the total, below 0 for a negative one. */
  lemma PercentOutsideBounds(score: int, total: int)
    requires total > 0
    ensures score > total ==> Percent(score, total) > 100.0
    ensures score < 0 ==> Percent(score, total) < 0.0
  {
    assert (score as real / total as real) * total as real == score as real;
  }

  /**
   * Two instances of the rule: the non-numeric score "abc" and the total "0"
   * are each rejected, so nothing is divided by zero.
   */
  lemma AcceptRejectsBadNumbers()
    ensures Accept(Str("abc"), Str("8")) == None
    ensures Accept(Str("3"), Str("0")) == None
  {
    ParseIntRejectsNonNumeric();
    ParseIntRoundTrip(0);
    assert IntToString(0) == "0";
  }

  /**
   * What both components keep between renders: all three values absent, or
   * all present with a positive total and the matching percentage.
   */
  predicate Consistent(score: Option<int>, total: Option<int>, percent: Option<real>)
  {
    || (score.None? && total.None? && percent.None?)
    || (&& score.Some? && total.Some? && percent.Some?
        && total.value > 0 && percent.value == Percent(score.value, total.value))
  }

  /** The points figure of the result page, `score * 12.5`. */
  function Points(score: int): (p: real)
    ensures p == Percent(score, 8)
  {
    score as real * 12.5
  }

  /**
   * The points figure agrees with the percentage exactly when the score is 0
   * or the total is 8, the size of a full session.
   */
  lemma PointsMatchPercent(score: int, total: int)
    requires total > 0
    ensures Points(score) == Percent(score, total) <==> score == 0 || total == 8
  {
    var s, t := score as real, total as real;
    var p := Percent(score, total);
    calc <==> {
      Points(score) == p;
      s * 12.5 * t == p * t;
      s * (12.5 * t - 100.0) == 0.0;
      { ZeroProduct(s, 12.5 * t - 100.0); }
      s == 0.0 || 12.5 * t == 100.0;
    }
  }

  lemma ZeroProduct(x: real, y: real)
    ensures x * y == 0.0 <==> x == 0.0 || y == 0.0
  {
    if x != 0.0 && x * y == 0.0 {
      assert y == (x * y) / x;
    }
  }
}
