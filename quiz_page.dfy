/**
 * The quiz screen (src/app/quiz/page.tsx): the session builder, which samples
 * up to two questions from each difficulty tier and shuffles them, and the
 * session state machine driven by the two player actions, answering and
 * moving on.
 *
 * `Math.random()` is an oracle: a sequence of draws, each in [0, 1), consumed
 * in the order the source asks for them. The comparator sorts are oracles too
 * (see module RandomSort).
 */
module QuizPage {
  import opened Options
  import opened RandomSort
  import opened NumberParsing
  import opened ResultParams

  datatype Question = Question(id: string, question: string, options: seq<string>, answer: string)

  /** The question bank, one sequence per difficulty tier. */
  datatype AllQuizzes = AllQuizzes(easy: seq<Question>, medium: seq<Question>, hard: seq<Question>, surprising: seq<Question>)

  function Min(a: int, b: int): int
  {
    if a <= b then a else b
  }

  // ---------------------------------------------------------------------------
  // shuffleArray: Fisher-Yates over a copy of the input
  // ---------------------------------------------------------------------------

  /** A value `Math.random()` can return. */
  predicate IsDraw(x: real)
  {
    0.0 <= x < 1.0
  }

  /** Enough draws for a shuffle of n elements: one per loop iteration, n - 1 in all. */
  predicate DrawsCover(draws: seq<real>, n: nat)
  {
    |draws| >= n - 1 && forall k :: 0 <= k < |draws| ==> IsDraw(draws[k])
  }

  /** `Math.floor(x * (i + 1))`: the swap partner of position i is never beyond i. */
  function SwapIndex(x: real, i: nat): (j: nat)
    requires IsDraw(x)
    ensures j <= i
  {
    assert 0.0 <= x * (i + 1) as real < (i + 1) as real;
    (x * (i + 1) as real).Floor
  }

  /**
   * The swap partners of one shuffle of n elements, in the order the loop
   * visits positions: entry k belongs to position n - 1 - k and does not
   * exceed it.
   */
  predicate IsSwapPlan(js: seq<nat>, n: nat)
  {
    |js| >= n - 1 && forall k :: 0 <= k < n - 1 ==> js[k] <= n - 1 - k
  }

  /** The swap partners the draws select, from draw number `from` on. */
  function SwapPlanFrom(draws: seq<real>, n: nat, from: nat): (js: seq<nat>)
    requires DrawsCover(draws, n)
    ensures |js| == if from < n - 1 then n - 1 - from else 0
    ensures forall k :: 0 <= k < |js| ==> js[k] == SwapIndex(draws[from + k], n - 1 - from - k)
    decreases n - from
  {
    if from >= n - 1 then [] else [SwapIndex(draws[from], n - 1 - from)] + SwapPlanFrom(draws, n, from + 1)
  }

  /** The swap partners the draws select. */
  function SwapPlan(draws: seq<real>, n: nat): (js: seq<nat>)
    requires DrawsCover(draws, n)
    ensures IsSwapPlan(js, n)
    ensures forall k :: 0 <= k < n - 1 ==> js[k] == SwapIndex(draws[k], n - 1 - k)
  {
    SwapPlanFrom(draws, n, 0)
  }

  /** The two entries at i and j exchanged. */
  function Swap<T>(s: seq<T>, i: nat, j: nat): (r: seq<T>)
    requires i < |s| && j < |s|
    ensures |r| == |s|
    ensures r[i] == s[j] && r[j] == s[i]
    ensures forall k :: 0 <= k < |s| && k != i && k != j ==> r[k] == s[k]
  {
    s[i := s[j]][j := s[i]]
  }

  /** A swap rearranges: it keeps every element with its multiplicity. */
  lemma SwapPermutes<T>(s: seq<T>, i: nat, j: nat)
    requires i < |s| && j < |s|
    ensures multiset(Swap(s, i, j)) == multiset(s)
  {
  }

  /** The loop of shuffleArray from position i down to 1, as a function. */
  function FisherYates<T>(s: seq<T>, i: int, js: seq<nat>): (r: seq<T>)
    requires i < |s| && IsSwapPlan(js, |s|)
    ensures |r| == |s|
    decreases i
  {
    if i <= 0 then s
    else FisherYates(Swap(s, i, js[|s| - 1 - i]), i - 1, js)
  }

  /** The result of shuffleArray for the given draws of `Math.random()`. */
  function Shuffled<T>(s: seq<T>, draws: seq<real>): seq<T>
    requires DrawsCover(draws, |s|)
  {
    FisherYates(s, |s| - 1, SwapPlan(draws, |s|))
  }

  lemma {:induction false} FisherYatesPermutes<T>(s: seq<T>, i: int, js: seq<nat>)
    requires i < |s| && IsSwapPlan(js, |s|)
    ensures multiset(FisherYates(s, i, js)) == multiset(s)
    decreases i
  {
    if i > 0 {
      var j := js[|s| - 1 - i];
      var t := Swap(s, i, j);
      SwapPermutes(s, i, j);
      FisherYatesPermutes(t, i - 1, js);
      assert FisherYates(s, i, js) == FisherYates(t, i - 1, js);
    }
  }

  /**
   * shuffleArray: copies the input into a fresh array and swaps in place,
   * from the last position down to position 1. The input is only read.
   */
  method ShuffleArray<T>(items: seq<T>, draws: seq<real>) returns (r: seq<T>)
    requires DrawsCover(draws, |items|)
    ensures |r| == |items|
    ensures multiset(r) == multiset(items)
    ensures r == Shuffled(items, draws)
  {
    var newArray := new T[|items|](k requires 0 <= k < |items| => items[k]);
    assert newArray[..] == items;
    ghost var js := SwapPlan(draws, |items|);
    var i := newArray.Length - 1;
    while i > 0
      invariant -1 <= i < newArray.Length == |items|
      invariant multiset(newArray[..]) == multiset(items)
      invariant FisherYates(newArray[..], i, js) == Shuffled(items, draws)
    {
      var j := SwapIndex(draws[newArray.Length - 1 - i], i);
      assert j == js[newArray.Length - 1 - i];
      ghost var before := newArray[..];
      var t := newArray[i];
      newArray[i] := newArray[j];
      newArray[j] := t;
      assert newArray[..] == Swap(before, i, j);
      SwapPermutes(before, i, j);
      i := i - 1;
    }
    r := newArray[..];
  }

  /** A question whose answer is among its options keeps it there after the options are shuffled. */
  lemma AnswerSurvivesShuffle(q: Question, draws: seq<real>)
    requires DrawsCover(draws, |q.options|)
    requires q.answer in q.options
    ensures q.answer in Shuffled(q.options, draws)
  {
    FisherYatesPermutes(q.options, |q.options| - 1, SwapPlan(draws, |q.options|));
    assert q.answer in multiset(q.options);
  }

  // ---------------------------------------------------------------------------
  // getRandomElements and the selection effect
  // ---------------------------------------------------------------------------

  /**
   * getRandomElements(arr, n): the whole sorted copy when n reaches the
   * length, its first n elements otherwise. It returns min(n, |arr|)
   * elements, and all of arr when n reaches its length.
   */
  function GetRandomElements<T>(arr: seq<T>, n: nat, order: seq<nat>): (r: seq<T>)
    requires IsPermutation(order, |arr|)
    ensures |r| == Min(n, |arr|)
    ensures n >= |arr| ==> multiset(r) == multiset(arr)
  {
    if n >= |arr| then SortedCopy(arr, order)
    else
      var shuffled := SortedCopy(arr, order);
      shuffled[..n]
  }

  /** What getRandomElements returns is taken from arr, never more often than arr holds it. */
  lemma RandomElementsFromInput<T>(arr: seq<T>, n: nat, order: seq<nat>)
    requires IsPermutation(order, |arr|)
    ensures multiset(GetRandomElements(arr, n, order)) <= multiset(arr)
  {
    if n < |arr| {
      var shuffled := SortedCopy(arr, order);
      assert shuffled == shuffled[..n] + shuffled[n..];
      assert multiset(shuffled) == multiset(shuffled[..n]) + multiset(shuffled[n..]);
    }
  }

  /** How many questions the selection effect takes from each tier. */
  const PerTier: nat := 2

  function SessionSize(all: AllQuizzes): nat
  {
    Min(PerTier, |all.easy|) + Min(PerTier, |all.medium|) + Min(PerTier, |all.hard|) + Min(PerTier, |all.surprising|)
  }

  /** The whole bank, tier after tier. */
  function Bank(all: AllQuizzes): seq<Question>
  {
    all.easy + all.medium + all.hard + all.surprising
  }

  /** The rearrangements chosen by the five comparator sorts of one selection. */
  datatype SortOrders = SortOrders(easy: seq<nat>, medium: seq<nat>, hard: seq<nat>, surprising: seq<nat>, whole: seq<nat>)

  predicate OrdersFit(all: AllQuizzes, orders: SortOrders)
  {
    && IsPermutation(orders.easy, |all.easy|)
    && IsPermutation(orders.medium, |all.medium|)
    && IsPermutation(orders.hard, |all.hard|)
    && IsPermutation(orders.surprising, |all.surprising|)
    && IsPermutation(orders.whole, SessionSize(all))
  }

  /** The questions the selection effect takes from each tier, concatenated in tier order. */
  function TierSelections(all: AllQuizzes, orders: SortOrders): (picked: seq<Question>)
    requires OrdersFit(all, orders)
    ensures |picked| == SessionSize(all)
  {
    GetRandomElements(all.easy, PerTier, orders.easy)
    + GetRandomElements(all.medium, PerTier, orders.medium)
    + GetRandomElements(all.hard, PerTier, orders.hard)
    + GetRandomElements(all.surprising, PerTier, orders.surprising)
  }

  /**
   * The session built by the selection effect: the tier selections,
   * concatenated and then shuffled as a whole. A tier with fewer than two
   * questions gives all of them, so a full bank gives eight questions and an
   * empty bank none.
   */
  function SelectQuestions(all: AllQuizzes, orders: SortOrders): (session: seq<Question>)
    requires OrdersFit(all, orders)
    ensures |session| == SessionSize(all) <= 4 * PerTier
  {
    SortedCopy(TierSelections(all, orders), orders.whole)
  }

  /**
   * The session holds exactly the questions of the four tier selections,
   * and every one of them comes from the bank, never more often than the
   * bank holds it.
   */
  lemma SessionDrawnFromBank(all: AllQuizzes, orders: SortOrders)
    requires OrdersFit(all, orders)
    ensures multiset(SelectQuestions(all, orders)) == multiset(TierSelections(all, orders))
    ensures multiset(SelectQuestions(all, orders)) <= multiset(Bank(all))
  {
    var easy := GetRandomElements(all.easy, PerTier, orders.easy);
    var medium := GetRandomElements(all.medium, PerTier, orders.medium);
    var hard := GetRandomElements(all.hard, PerTier, orders.hard);
    var surprising := GetRandomElements(all.surprising, PerTier, orders.surprising);
    RandomElementsFromInput(all.easy, PerTier, orders.easy);
    RandomElementsFromInput(all.medium, PerTier, orders.medium);
    RandomElementsFromInput(all.hard, PerTier, orders.hard);
    RandomElementsFromInput(all.surprising, PerTier, orders.surprising);
    assert TierSelections(all, orders) == easy + medium + hard + surprising;
    assert multiset(easy + medium + hard + surprising)
        == multiset(easy) + multiset(medium) + multiset(hard) + multiset(surprising);
    assert multiset(Bank(all))
        == multiset(all.easy) + multiset(all.medium) + multiset(all.hard) + multiset(all.surprising);
  }

  /** No entry occurs twice. */
  predicate Distinct(s: seq<Question>)
  {
    forall i, j :: 0 <= i < j < |s| ==> s[i] != s[j]
  }

  lemma {:induction false} DistinctMultiplicity(s: seq<Question>, x: Question)
    requires Distinct(s)
    ensures multiset(s)[x] <= 1
  {
    if s != [] {
      assert s == [s[0]] + s[1..];
      assert Distinct(s[1..]);
      DistinctMultiplicity(s[1..], x);
      if x == s[0] {
        assert x !in s[1..];
      }
    }
  }

  lemma RepeatedMultiplicity(s: seq<Question>, i: nat, j: nat)
    requires i < j < |s| && s[i] == s[j]
    ensures multiset(s)[s[i]] >= 2
  {
    assert s == s[..i] + [s[i]] + s[i + 1..j] + [s[j]] + s[j + 1..];
  }

  /** A bank in which no question occurs twice yields a session without repeats. */
  lemma SessionHasNoRepeats(all: AllQuizzes, orders: SortOrders)
    requires OrdersFit(all, orders)
    requires Distinct(Bank(all))
    ensures Distinct(SelectQuestions(all, orders))
  {
    var session := SelectQuestions(all, orders);
    SessionDrawnFromBank(all, orders);
    forall i, j | 0 <= i < j < |session|
      ensures session[i] != session[j]
    {
      if session[i] == session[j] {
        RepeatedMultiplicity(session, i, j);
        DistinctMultiplicity(Bank(all), session[i]);
        assert false;
      }
    }
  }

  // ---------------------------------------------------------------------------
  // The session state machine
  // ---------------------------------------------------------------------------

  /** How many of the answers match the answers of the questions they were given to. */
  function CountCorrect(questions: seq<Question>, answers: seq<string>): (n: nat)
    requires |answers| <= |questions|
    ensures n <= |answers|
  {
    if answers == [] then 0
    else
      var last := |answers| - 1;
      CountCorrect(questions, answers[..last]) + (if answers[last] == questions[last].answer then 1 else 0)
  }

  /** The positions whose answer matches the answer of the question at that position. */
  function Matches(questions: seq<Question>, answers: seq<string>): set<nat>
    requires |answers| <= |questions|
  {
    set k: nat | k < |answers| && answers[k] == questions[k].answer
  }

  /** CountCorrect counts exactly the matching positions. */
  lemma {:induction false} CountCorrectCountsMatches(questions: seq<Question>, answers: seq<string>)
    requires |answers| <= |questions|
    ensures CountCorrect(questions, answers) == |Matches(questions, answers)|
    decreases |answers|
  {
    if answers == [] {
      assert Matches(questions, answers) == {};
    } else {
      var last := |answers| - 1;
      var prefix := answers[..last];
      CountCorrectCountsMatches(questions, prefix);
      if answers[last] == questions[last].answer {
        assert Matches(questions, answers) == Matches(questions, prefix) + {last};
      } else {
        assert Matches(questions, answers) == Matches(questions, prefix);
      }
    }
  }

  /** What the page shows, in the order of its early returns (loading and fetch errors left out). */
  datatype Screen =
    | Finished(score: int, total: int)
    | Preparing
    | LoadingBank
    | NoQuestion
    | Asking(current: Question, answered: bool)

  class QuizSession {
    var hasBank: bool
    var selectedQuestions: seq<Question>
    var currentQuestionIndex: int
    var score: int
    var quizEnded: bool
    var selectedAnswer: Option<string>
    var isAnswered: bool

    /** The option first submitted for each question reached so far. */
    ghost var Answers: seq<string>

    ghost predicate Valid()
      reads this
    {
      && (!hasBank ==> selectedQuestions == [])
      && 0 <= currentQuestionIndex
      && (selectedQuestions == [] ==> currentQuestionIndex == 0 && !isAnswered && !quizEnded)
      && (selectedQuestions != [] ==> currentQuestionIndex < |selectedQuestions|)
      && (isAnswered <==> selectedAnswer.Some?)
      && |Answers| == currentQuestionIndex + (if isAnswered then 1 else 0)
      && (isAnswered ==> Answers[currentQuestionIndex] == selectedAnswer.value)
      && |Answers| <= |selectedQuestions|
      && score == CountCorrect(selectedQuestions, Answers)
      && (quizEnded ==> isAnswered && currentQuestionIndex == |selectedQuestions| - 1)
    }

    /** The state before the bank has arrived. */
    constructor ()
      ensures Valid()
      ensures !hasBank && selectedQuestions == [] && currentQuestionIndex == 0 && score == 0
      ensures !quizEnded && selectedAnswer == None && !isAnswered
    {
      hasBank := false;
      selectedQuestions := [];
      currentQuestionIndex := 0;
      score := 0;
      quizEnded := false;
      selectedAnswer := None;
      isAnswered := false;
      Answers := [];
    }

    /**
     * `currentQuestion`: present exactly when the session is not empty, and
     * then the question at the cursor.
     */
    function CurrentQuestion(): (q: Option<Question>)
      reads this
      requires Valid()
      ensures q.Some? <==> selectedQuestions != []
      ensures q.Some? ==> q.value == selectedQuestions[currentQuestionIndex]
      ensures q.Some? ==> q.value in selectedQuestions
    {
      if |selectedQuestions| > 0 && currentQuestionIndex < |selectedQuestions| then
        Some(selectedQuestions[currentQuestionIndex])
      else
        None
    }

    /** The screen the page renders, following its early returns. */
    function CurrentScreen(): Screen
      reads this
      requires Valid()
    {
      if quizEnded then Finished(score, |selectedQuestions|)
      else
        match CurrentQuestion()
        case Some(q) => Asking(q, isAnswered)
        case None =>
          if hasBank && |selectedQuestions| == 0 then Preparing
          else if !hasBank then LoadingBank
          else NoQuestion
    }

    /**
     * In every valid state the fall-through error view is never reached, the
     * question view is up exactly while a non-empty session is running, an
     * empty session stays on the preparing view, and the finished view hands
     * on a score between 0 and a positive total.
     */
    lemma ScreenFacts()
      requires Valid()
      ensures !CurrentScreen().NoQuestion?
      ensures CurrentScreen().Asking? <==> !quizEnded && selectedQuestions != []
      ensures CurrentScreen().Preparing? <==> hasBank && selectedQuestions == []
      ensures CurrentScreen().Finished? ==>
        0 <= CurrentScreen().score <= CurrentScreen().total && CurrentScreen().total > 0
    {
    }

    /**
     * When the quiz has ended every question of the session has been
     * answered once, and the score is the number of questions whose
     * recorded answer is the right one.
     */
    lemma FinalScore()
      requires Valid() && quizEnded
      ensures |Answers| == |selectedQuestions|
      ensures score == |Matches(selectedQuestions, Answers)|
    {
      CountCorrectCountsMatches(selectedQuestions, Answers);
    }

    /**
     * The query of the "see the result" link of the finished view: the score
     * and the session length as decimal text. The result page accepts it as
     * sent, with a percentage between 0 and 100.
     */
    function ResultQuery(): (query: map<string, Param>)
      reads this
      requires Valid() && quizEnded
      ensures Accept(Lookup(query, "score"), Lookup(query, "total"))
           == Some(Report(score, |selectedQuestions|, Percent(score, |selectedQuestions|)))
      ensures 0.0 <= Percent(score, |selectedQuestions|) <= 100.0
    {
      AcceptsQuizHandoff(score, |selectedQuestions|);
      map["score" := Str(IntToString(score)), "total" := Str(IntToString(|selectedQuestions|))]
    }

    /**
     * The selection effect, run when the bank arrives: stores a new session
     * and resets the cursor, the score, the end flag and the answer.
     */
    method BuildSession(all: AllQuizzes, orders: SortOrders)
      requires OrdersFit(all, orders)
      modifies this
      ensures Valid()
      ensures hasBank && selectedQuestions == SelectQuestions(all, orders)
      ensures currentQuestionIndex == 0 && score == 0 && !quizEnded
      ensures selectedAnswer == None && !isAnswered
    {
      var questions := SelectQuestions(all, orders);
      Restart(questions);
    }

    /** The state updates of the selection effect for the session it selected. */
    method Restart(questions: seq<Question>)
      modifies this
      ensures Valid()
      ensures hasBank && selectedQuestions == questions
      ensures currentQuestionIndex == 0 && score == 0 && !quizEnded
      ensures selectedAnswer == None && !isAnswered
    {
      hasBank := true;
      selectedQuestions := questions;
      currentQuestionIndex := 0;
      score := 0;
      quizEnded := false;
      selectedAnswer := None;
      isAnswered := false;
      Answers := [];
    }

    /**
     * The options of the current question, shuffled (the `shuffledOptions`
     * memo): none without a current question.
     */
    method ShuffledOptions(draws: seq<real>) returns (opts: seq<string>)
      requires Valid()
      requires CurrentQuestion().Some? ==> DrawsCover(draws, |CurrentQuestion().value.options|)
      ensures CurrentQuestion().None? ==> opts == []
      ensures CurrentQuestion().Some? ==>
        multiset(opts) == multiset(CurrentQuestion().value.options)
      ensures CurrentQuestion().Some? && CurrentQuestion().value.answer in CurrentQuestion().value.options ==>
        CurrentQuestion().value.answer in opts
    {
      var q := CurrentQuestion();
      if q.Some? {
        opts := ShuffleArray(q.value.options, draws);
        assert q.value.answer in q.value.options ==> q.value.answer in multiset(opts);
      } else {
        opts := [];
      }
    }

    /**
     * handleAnswer: the first submission for a question locks it and scores
     * one point when it matches the answer; later submissions change nothing.
     */
    method HandleAnswer(option: string)
      requires Valid() && CurrentScreen().Asking?
      modifies this
      ensures Valid()
      ensures old(isAnswered) ==> unchanged(this)
      ensures !old(isAnswered) ==>
        && selectedAnswer == Some(option) && isAnswered
        && score == old(score) + (if option == old(CurrentQuestion()).value.answer then 1 else 0)
        && Answers == old(Answers) + [option]
        && selectedQuestions == old(selectedQuestions) && currentQuestionIndex == old(currentQuestionIndex)
        && quizEnded == old(quizEnded) && hasBank == old(hasBank)
    {
      if isAnswered {
        return;
      }
      ScreenFacts();
      var current := selectedQuestions[currentQuestionIndex];
      ghost var answers := Answers + [option];
      assert answers[..currentQuestionIndex] == Answers;
      assert CountCorrect(selectedQuestions, answers)
          == score + (if option == current.answer then 1 else 0);
      Answers := answers;
      selectedAnswer := Some(option);
      isAnswered := true;
      if option == current.answer {
        score := score + 1;
      }
    }

    /**
     * handleNextQuestion: offered once the question is answered; moves to the
     * next question with a cleared answer, or ends the quiz on the last one.
     */
    method HandleNextQuestion()
      requires Valid() && CurrentScreen().Asking? && isAnswered
      modifies this
      ensures Valid()
      ensures selectedQuestions == old(selectedQuestions) && score == old(score) && hasBank == old(hasBank)
      ensures Answers == old(Answers)
      ensures old(currentQuestionIndex) < |selectedQuestions| - 1 ==>
        && currentQuestionIndex == old(currentQuestionIndex) + 1
        && selectedAnswer == None && !isAnswered && !quizEnded
      ensures old(currentQuestionIndex) >= |selectedQuestions| - 1 ==>
        && quizEnded && currentQuestionIndex == old(currentQuestionIndex)
        && selectedAnswer == old(selectedAnswer) && isAnswered
    {
      if currentQuestionIndex < |selectedQuestions| - 1 {
        currentQuestionIndex := currentQuestionIndex + 1;
        selectedAnswer := None;
        isAnswered := false;
      } else {
        quizEnded := true;
      }
    }
  }
}
