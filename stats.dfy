/**
 * What the read-only aggregates compute: the per-question statistics sent with
 * `reveal-answer` (`getQuestionStats`) and the per-category totals sent with
 * `game-ended` (`calculateCategoryStats`). The session's methods compute them
 * with loops and are proved equal to these functions.
 */
module Stats {
  import opened Scoring
  import opened Questions

  datatype QuestionStats = QuestionStats(totalResponses: nat, correctCount: nat, wrongCount: nat, answerDistribution: seq<nat>)

  /** The number of answers marked correct. */
  function CorrectIn(answers: seq<Answer>): (n: nat)
    ensures n <= |answers|
  {
    if answers == [] then 0
    else CorrectIn(answers[..|answers| - 1]) + (if answers[|answers| - 1].isCorrect then 1 else 0)
  }

  /** The number of answers marked wrong. */
  function WrongIn(answers: seq<Answer>): (n: nat)
  {
    if answers == [] then 0
    else WrongIn(answers[..|answers| - 1]) + (if answers[|answers| - 1].isCorrect then 0 else 1)
  }

  /** The number of answers that chose option `k`. */
  function ChoiceCount(answers: seq<Answer>, k: int): (n: nat)
    ensures n <= |answers|
  {
    if answers == [] then 0
    else ChoiceCount(answers[..|answers| - 1], k) + (if answers[|answers| - 1].answerIndex == k then 1 else 0)
  }

  /** The four buckets A to D of `answerDistribution`. */
  function Distribution(answers: seq<Answer>): (d: seq<nat>)
    ensures |d| == OptionsPerQuestion
  {
    [ChoiceCount(answers, 0), ChoiceCount(answers, 1), ChoiceCount(answers, 2), ChoiceCount(answers, 3)]
  }

  /** Every answer is either correct or wrong. */
  lemma {:induction false} CorrectPlusWrong(answers: seq<Answer>)
    ensures CorrectIn(answers) + WrongIn(answers) == |answers|
  {
    if answers != [] {
      CorrectPlusWrong(answers[..|answers| - 1]);
    }
  }

  function Sum(s: seq<nat>): nat {
    if s == [] then 0 else s[0] + Sum(s[1..])
  }

  lemma SumOfFour(a: nat, b: nat, c: nat, d: nat)
    ensures Sum([a, b, c, d]) == a + b + c + d
  {
    assert [a, b, c, d][1..] == [b, c, d];
    assert [b, c, d][1..] == [c, d];
    assert [c, d][1..] == [d];
    assert [d][1..] == [];
    assert Sum([d]) == d;
    assert Sum([c, d]) == c + d;
    assert Sum([b, c, d]) == b + c + d;
  }

  /**
   * The buckets count each answer at most once, so they add up to at most the
   * number of answers; answers outside 0..3 fall in no bucket.
   */
  lemma {:induction false} DistributionBounded(answers: seq<Answer>)
    ensures Sum(Distribution(answers)) <= |answers|
    ensures (forall i :: 0 <= i < |answers| ==> 0 <= answers[i].answerIndex < OptionsPerQuestion) ==> Sum(Distribution(answers)) == |answers|
  {
    SumOfFour(ChoiceCount(answers, 0), ChoiceCount(answers, 1), ChoiceCount(answers, 2), ChoiceCount(answers, 3));
    if answers != [] {
      var init := answers[..|answers| - 1];
      DistributionBounded(init);
      SumOfFour(ChoiceCount(init, 0), ChoiceCount(init, 1), ChoiceCount(init, 2), ChoiceCount(init, 3));
      assert forall i :: 0 <= i < |init| ==> init[i] == answers[i];
    }
  }

  /** The question statistics of a list of answers, as `getQuestionStats` reports them. */
  function StatsOf(answers: seq<Answer>): (s: QuestionStats)
    ensures s.correctCount + s.wrongCount == s.totalResponses == |answers|
    ensures Sum(s.answerDistribution) <= s.totalResponses
  {
    CorrectPlusWrong(answers);
    DistributionBounded(answers);
    QuestionStats(|answers|, CorrectIn(answers), WrongIn(answers), Distribution(answers))
  }

  // Category statistics.

  datatype CategoryTally = CategoryTally(total: nat, correct: nat)

  /** Every log entry names a question of the bank. */
  predicate LogInBank(log: seq<LogEntry>) {
    forall k :: 0 <= k < |log| ==> log[k].questionIndex < |Bank|
  }

  /** Whether `e` is a correct answer to a bank question of category `c`. */
  predicate CountsFor(e: LogEntry, c: Category) {
    e.questionIndex < |Bank| && e.correct && Bank[e.questionIndex].category == c
  }

  /** The correct entries of `log` whose question has category `c`. */
  function CorrectInCategory(log: seq<LogEntry>, c: Category): (n: nat)
    ensures n <= |log|
  {
    if log == [] then 0
    else CorrectInCategory(log[..|log| - 1], c) + (if CountsFor(log[|log| - 1], c) then 1 else 0)
  }

  /** Extending a prefix of the log by one entry adds that entry's contribution. */
  lemma CorrectInCategoryStep(log: seq<LogEntry>, j: nat, c: Category)
    requires j < |log|
    ensures CorrectInCategory(log[..j + 1], c) == CorrectInCategory(log[..j], c) + (if CountsFor(log[j], c) then 1 else 0)
  {
    assert log[..j + 1][..j] == log[..j];
  }

  /** The same count summed over several players' logs. */
  function PlayersCorrectInCategory(ps: seq<Player>, c: Category): nat {
    if ps == [] then 0
    else PlayersCorrectInCategory(ps[..|ps| - 1], c) + CorrectInCategory(ps[|ps| - 1].answers, c)
  }

  /** The categories that occur in `qs`. */
  function CategoriesOf(qs: seq<Question>): (cs: set<Category>)
    ensures forall c :: c in cs <==> CountInCategory(qs, c) > 0
  {
    if qs == [] then {}
    else CategoriesOf(qs[..|qs| - 1]) + {qs[|qs| - 1].category}
  }

  lemma {:induction false} InCategoriesOf(qs: seq<Question>, k: nat)
    requires k < |qs|
    ensures qs[k].category in CategoriesOf(qs)
  {
    if k < |qs| - 1 {
      InCategoriesOf(qs[..|qs| - 1], k);
    }
  }

  /** The totals of the first pass of `calculateCategoryStats`: each category of `qs` with its question count. */
  function TotalsOf(qs: seq<Question>): (r: map<Category, CategoryTally>)
    ensures r.Keys == CategoriesOf(qs)
  {
    map c | c in CategoriesOf(qs) :: CategoryTally(CountInCategory(qs, c), 0)
  }

  /** One more question adds one to its category's total, creating the category if it is new. */
  lemma TotalsSnoc(qs: seq<Question>, q: Question)
    ensures var t := TotalsOf(qs);
      TotalsOf(qs + [q]) == t[q.category := CategoryTally((if q.category in t then t[q.category].total else 0) + 1, 0)]
  {
    assert (qs + [q])[..|qs|] == qs;
  }

  /** What `calculateCategoryStats` should report for the bank and the given players. */
  function CategoryStatsOf(ps: seq<Player>): (r: map<Category, CategoryTally>)
    ensures r.Keys == CategoriesOf(Bank)
  {
    map c | c in CategoriesOf(Bank) :: CategoryTally(CountInCategory(Bank, c), PlayersCorrectInCategory(ps, c))
  }

  function CorrectAnswersSum(ps: seq<Player>): nat {
    if ps == [] then 0 else CorrectAnswersSum(ps[..|ps| - 1]) + ps[|ps| - 1].correctAnswers
  }

  lemma {:induction false} CategoryCorrectSplitsLog(log: seq<LogEntry>)
    requires LogInBank(log)
    ensures CorrectInCategory(log, PedagogiaDigital) + CorrectInCategory(log, CompetenciasDigitalesDocentes)
          + CorrectInCategory(log, HerramientasTecnologicas) + CorrectInCategory(log, TendenciasActuales)
         == CorrectCount(log)
  {
    if log != [] {
      var init := log[..|log| - 1];
      assert forall k :: 0 <= k < |init| ==> init[k] == log[k];
      CategoryCorrectSplitsLog(init);
      CorrectCountInit(log);
    }
  }

  /**
   * Across all categories the correct counts add up to the players' correct
   * answers: every correct answer is counted in exactly one category.
   */
  lemma {:induction false} CategoryCorrectTotals(ps: seq<Player>)
    requires forall i :: 0 <= i < |ps| ==> Consistent(ps[i]) && LogInBank(ps[i].answers)
    ensures PlayersCorrectInCategory(ps, PedagogiaDigital) + PlayersCorrectInCategory(ps, CompetenciasDigitalesDocentes)
          + PlayersCorrectInCategory(ps, HerramientasTecnologicas) + PlayersCorrectInCategory(ps, TendenciasActuales)
         == CorrectAnswersSum(ps)
  {
    if ps != [] {
      CategoryCorrectTotals(ps[..|ps| - 1]);
      CategoryCorrectSplitsLog(ps[|ps| - 1].answers);
    }
  }

  /** The totals of the reported categories add up to the length of the bank. */
  lemma CategoryTotalsCoverBank(ps: seq<Player>)
    ensures CategoryStatsOf(ps).Keys == {PedagogiaDigital, CompetenciasDigitalesDocentes, HerramientasTecnologicas, TendenciasActuales}
    ensures var r := CategoryStatsOf(ps);
      r[PedagogiaDigital].total + r[CompetenciasDigitalesDocentes].total
      + r[HerramientasTecnologicas].total + r[TendenciasActuales].total == |Bank|
  {
    BankCategoryCounts();
    CategoryCountsSum(Bank);
  }
}
