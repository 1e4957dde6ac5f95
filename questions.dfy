/**
 * The fixed question bank the server indexes into (`questionsBank`). Only what
 * the game logic reads is kept: the id, the category, the difficulty, how many
 * options there are and which one is correct. The prompt, context, option and
 * explanation texts are presentation only.
 */
module Questions {

  datatype Category =
    | PedagogiaDigital
    | CompetenciasDigitalesDocentes
    | HerramientasTecnologicas
    | TendenciasActuales

  /** The category label as it appears in the bank and in the category statistics. */
  function CategoryName(c: Category): string {
    match c
    case PedagogiaDigital => "Pedagogía Digital"
    case CompetenciasDigitalesDocentes => "Competencias Digitales Docentes"
    case HerramientasTecnologicas => "Herramientas Tecnológicas"
    case TendenciasActuales => "Tendencias Actuales"
  }

  /** Distinct categories have distinct labels, so keying statistics by label or by category is the same. */
  lemma CategoryNamesDistinct(c: Category, d: Category)
    ensures CategoryName(c) == CategoryName(d) <==> c == d
  {
  }

  datatype Difficulty = Basico | Intermedio | Avanzado

  datatype Question = Question(id: nat, category: Category, difficulty: Difficulty, optionCount: nat, correctIndex: int)

  /** The number of answer options every question carries (buttons A to D). */
  const OptionsPerQuestion: nat := 4

  const Bank: seq<Question> := [
    Question(1, PedagogiaDigital, Basico, 4, 1),
    Question(2, PedagogiaDigital, Intermedio, 4, 3),
    Question(3, PedagogiaDigital, Intermedio, 4, 1),
    Question(4, PedagogiaDigital, Avanzado, 4, 3),
    Question(5, PedagogiaDigital, Basico, 4, 1),
    Question(6, CompetenciasDigitalesDocentes, Intermedio, 4, 2),
    Question(7, CompetenciasDigitalesDocentes, Basico, 4, 1),
    Question(8, CompetenciasDigitalesDocentes, Intermedio, 4, 1),
    Question(9, CompetenciasDigitalesDocentes, Avanzado, 4, 1),
    Question(10, CompetenciasDigitalesDocentes, Basico, 4, 2),
    Question(11, HerramientasTecnologicas, Basico, 4, 1),
    Question(12, HerramientasTecnologicas, Intermedio, 4, 1),
    Question(13, HerramientasTecnologicas, Intermedio, 4, 2),
    Question(14, HerramientasTecnologicas, Avanzado, 4, 1),
    Question(15, HerramientasTecnologicas, Intermedio, 4, 1),
    Question(16, TendenciasActuales, Basico, 4, 1),
    Question(17, TendenciasActuales, Intermedio, 4, 1),
    Question(18, TendenciasActuales, Basico, 4, 2),
    Question(19, TendenciasActuales, Basico, 4, 1),
    Question(20, TendenciasActuales, Intermedio, 4, 2),
    Question(21, TendenciasActuales, Intermedio, 4, 2),
    Question(22, TendenciasActuales, Basico, 4, 1),
    Question(23, TendenciasActuales, Intermedio, 4, 3)
  ]

  /** A question the server can index safely: four options and a correct index among them. */
  predicate WellFormed(q: Question) {
    q.optionCount == OptionsPerQuestion && 0 <= q.correctIndex < q.optionCount
  }

  lemma BankSize()
    ensures |Bank| == 23
  {
  }

  lemma BankIdsInOrder()
    ensures forall i :: 0 <= i < |Bank| ==> Bank[i].id == i + 1
  {
  }

  /** Every record has four options and a correct index among them. */
  lemma BankWellFormed()
    ensures forall i :: 0 <= i < |Bank| ==> WellFormed(Bank[i])
  {
  }

  /** The categories come in contiguous blocks of 5, 5, 5 and 8 records. */
  lemma BankCategoryBlocks()
    ensures forall i :: 0 <= i < 5 ==> Bank[i].category == PedagogiaDigital
    ensures forall i :: 5 <= i < 10 ==> Bank[i].category == CompetenciasDigitalesDocentes
    ensures forall i :: 10 <= i < 15 ==> Bank[i].category == HerramientasTecnologicas
    ensures forall i :: 15 <= i < 23 ==> Bank[i].category == TendenciasActuales
  {
  }

  /** The number of questions of category `c` in `qs`. */
  function CountInCategory(qs: seq<Question>, c: Category): (n: nat)
    ensures n <= |qs|
  {
    if qs == [] then 0
    else CountInCategory(qs[..|qs| - 1], c) + (if qs[|qs| - 1].category == c then 1 else 0)
  }

  lemma {:induction false} CountInCategoryAppend(a: seq<Question>, b: seq<Question>, c: Category)
    ensures CountInCategory(a + b, c) == CountInCategory(a, c) + CountInCategory(b, c)
  {
    if b != [] {
      assert (a + b)[..|a + b| - 1] == a + b[..|b| - 1];
      CountInCategoryAppend(a, b[..|b| - 1], c);
    } else {
      assert a + b == a;
    }
  }

  lemma {:induction false} CountInCategoryUniform(qs: seq<Question>, c: Category)
    requires forall i :: 0 <= i < |qs| ==> qs[i].category == c
    ensures CountInCategory(qs, c) == |qs|
    ensures forall d :: d != c ==> CountInCategory(qs, d) == 0
  {
    if qs != [] {
      CountInCategoryUniform(qs[..|qs| - 1], c);
    }
  }

  /** Every question belongs to exactly one of the four categories, so the per-category counts add up to the length. */
  lemma {:induction false} CategoryCountsSum(qs: seq<Question>)
    ensures CountInCategory(qs, PedagogiaDigital) + CountInCategory(qs, CompetenciasDigitalesDocentes)
          + CountInCategory(qs, HerramientasTecnologicas) + CountInCategory(qs, TendenciasActuales) == |qs|
  {
    if qs != [] {
      CategoryCountsSum(qs[..|qs| - 1]);
    }
  }

  /** The bank holds 5, 5, 5 and 8 questions of the four categories. */
  lemma BankCategoryCounts()
    ensures CountInCategory(Bank, PedagogiaDigital) == 5
    ensures CountInCategory(Bank, CompetenciasDigitalesDocentes) == 5
    ensures CountInCategory(Bank, HerramientasTecnologicas) == 5
    ensures CountInCategory(Bank, TendenciasActuales) == 8
  {
    BankCategoryBlocks();
    var b0, b1, b2, b3 := Bank[..5], Bank[5..10], Bank[10..15], Bank[15..];
    assert Bank == b0 + b1 + b2 + b3;
    CountInCategoryUniform(b0, PedagogiaDigital);
    CountInCategoryUniform(b1, CompetenciasDigitalesDocentes);
    CountInCategoryUniform(b2, HerramientasTecnologicas);
    CountInCategoryUniform(b3, TendenciasActuales);
    forall c: Category
      ensures CountInCategory(Bank, c) == CountInCategory(b0, c) + CountInCategory(b1, c) + CountInCategory(b2, c) + CountInCategory(b3, c)
    {
      CountInCategoryAppend(b0, b1, c);
      CountInCategoryAppend(b0 + b1, b2, c);
      CountInCategoryAppend(b0 + b1 + b2, b3, c);
    }
  }

  /** The categories that occur in the bank: all four of them. */
  lemma BankHasFourCategories()
    ensures (set i | 0 <= i < |Bank| :: Bank[i].category)
         == {PedagogiaDigital, CompetenciasDigitalesDocentes, HerramientasTecnologicas, TendenciasActuales}
  {
    var s := set i | 0 <= i < |Bank| :: Bank[i].category;
    assert Bank[0].category in s;
    assert Bank[5].category in s;
    assert Bank[10].category in s;
    assert Bank[15].category in s;
  }
}
