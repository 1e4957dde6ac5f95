/**
 * The player's side of the game, `EdTechClient`: the name a join sends, the
 * answer gate that lets one `submit-answer` through per question, the score it
 * accumulates from the server's acknowledgements, the verdict shown on reveal,
 * and the level shown at the end.
 */
module Client {
  import opened Options
  import opened Text
  import opened Scoring
  import opened Leaderboard
  import Session

  // Joining.

  /** The specialty every join sends. */
  const DefaultSpecialty: string := "Docente"

  /** Where the name comes from: the text input, or the course's student list when one is shown. */
  datatype NameField = TypedName(text: string) | PickedName(value: string)

  /** The `join-game` payload. */
  datatype JoinPayload = JoinPayload(name: string, specialty: string)

  /**
   * `joinGame`: the typed name is trimmed, a picked one is taken as it is; an
   * empty name sends nothing.
   */
  function JoinRequest(field: NameField): (r: Option<JoinPayload>)
    ensures r.Some? ==> r.value.specialty == DefaultSpecialty && r.value.name != ""
    ensures field.TypedName? ==> (r.None? <==> AllWhitespace(field.text)) && (r.Some? ==> r.value.name == Trim(field.text))
    ensures field.PickedName? ==> (r.None? <==> field.value == "") && (r.Some? ==> r.value.name == field.value)
  {
    TrimEmptyIffBlank(if field.TypedName? then field.text else field.value);
    var name := if field.TypedName? then Trim(field.text) else field.value;
    if name == "" then None else Some(JoinPayload(name, DefaultSpecialty))
  }

  /**
   * For a typed name the client and the server apply the same test: the client
   * sends nothing exactly when the server would call the name missing, and what
   * it sends the server stores unchanged.
   */
  lemma TypedNameAgreesWithServer(text: string)
    ensures JoinRequest(TypedName(text)).None? <==> Session.MissingName(Some(text))
    ensures JoinRequest(TypedName(text)).Some? ==>
      var name := JoinRequest(TypedName(text)).value.name;
      !Session.MissingName(Some(name)) && Trim(name) == name
  {
    Session.MissingNameIffBlank(Some(text));
    TrimIdempotent(text);
    if JoinRequest(TypedName(text)).Some? {
      Session.MissingNameIffBlank(Some(Trim(text)));
      TrimEmptyIffBlank(Trim(text));
    }
  }

  /** A picked name that is all whitespace gets past the client and is refused by the server. */
  lemma BlankPickedNameReachesServer(value: string)
    requires value != "" && AllWhitespace(value)
    ensures JoinRequest(PickedName(value)).Some?
    ensures Session.MissingName(Some(value))
  {
    Session.MissingNameIffBlank(Some(value));
  }

  // The answer gate.

  /** `isAnswering`, `hasAnswered` and `lastAnswerIndex` (null as `None`). */
  datatype Gate = Gate(isAnswering: bool, hasAnswered: bool, lastAnswerIndex: Option<int>)

  /** The gate of a fresh client: closed, nothing answered. */
  const InitialGate: Gate := Gate(false, false, None)

  /** What moves the gate: a `new-question`, a click on an option, a `time-up`. */
  datatype GateEvent = QuestionOpened | Clicked(index: int) | TimesUp

  /** The gate's own invariant: an answer is recorded exactly when one was given, and an open gate has none yet. */
  predicate GateOk(g: Gate) {
    (g.hasAnswered <==> g.lastAnswerIndex.Some?) && (g.isAnswering ==> !g.hasAnswered)
  }

  /**
   * One event: `onNewQuestion` re-arms the gate, `submitAnswer` sends the
   * clicked index only while the gate is open and closes it, `onTimeUp` closes
   * it. The second component is the index sent with `submit-answer`, if any.
   */
  function GateStep(g: Gate, e: GateEvent): (r: (Gate, Option<int>))
    ensures GateOk(g) ==> GateOk(r.0)
    ensures r.1.Some? <==> e.Clicked? && g.isAnswering
    ensures r.1.Some? ==> r.1.value == e.index && r.0.lastAnswerIndex == r.1
    ensures e.QuestionOpened? ==> r.0.isAnswering && r.0.lastAnswerIndex.None?
    ensures !e.QuestionOpened? ==> !r.0.isAnswering
    ensures r.1.None? && !e.QuestionOpened? ==> r.0.hasAnswered == g.hasAnswered && r.0.lastAnswerIndex == g.lastAnswerIndex
  {
    match e
    case QuestionOpened => (Gate(true, false, None), None)
    case Clicked(i) =>
      if !g.isAnswering then (g, None)
      else (Gate(false, true, Some(i)), Some(i))
    case TimesUp => (g.(isAnswering := false), None)
  }

  /** A sequence of events from gate `g`: the final gate and every index sent, in order. */
  function GateRun(g: Gate, es: seq<GateEvent>): (r: (Gate, seq<int>))
    decreases |es|
  {
    if es == [] then (g, [])
    else
      var (g1, sent) := GateStep(g, es[0]);
      var (g2, rest) := GateRun(g1, es[1..]);
      (g2, (if sent.Some? then [sent.value] else []) + rest)
  }

  predicate NoNewQuestion(es: seq<GateEvent>) {
    forall k :: 0 <= k < |es| ==> !es[k].QuestionOpened?
  }

  /**
   * Between two `new-question` events at most one answer is sent, none once the
   * gate is closed, and the gate keeps the answer that was sent (or the one it
   * had when nothing was).
   */
  lemma {:induction false} AtMostOneSubmitPerQuestion(g: Gate, es: seq<GateEvent>)
    requires NoNewQuestion(es)
    decreases |es|
    ensures |GateRun(g, es).1| <= 1
    ensures !g.isAnswering ==> GateRun(g, es).1 == [] && GateRun(g, es).0 == g.(isAnswering := g.isAnswering && es == [])
    ensures GateRun(g, es).1 != [] ==> GateRun(g, es).0.lastAnswerIndex == Some(GateRun(g, es).1[0]) && GateRun(g, es).0.hasAnswered
    ensures GateRun(g, es).1 == [] ==> GateRun(g, es).0.lastAnswerIndex == g.lastAnswerIndex && GateRun(g, es).0.hasAnswered == g.hasAnswered
  {
    if es != [] {
      var g1 := GateStep(g, es[0]).0;
      assert NoNewQuestion(es[1..]) by {
        forall k | 0 <= k < |es[1..]| ensures !es[1..][k].QuestionOpened? {
          assert es[1..][k] == es[k + 1];
        }
      }
      AtMostOneSubmitPerQuestion(g1, es[1..]);
    }
  }

  /** Once `time-up` has closed the gate, nothing more is sent for that question. */
  lemma TimeUpClosesGate(g: Gate, es: seq<GateEvent>)
    requires NoNewQuestion(es)
    ensures GateRun(GateStep(g, TimesUp).0, es).1 == []
  {
    AtMostOneSubmitPerQuestion(GateStep(g, TimesUp).0, es);
  }

  /** Every gate the client reaches from its initial one keeps the gate's invariant. */
  lemma {:induction false} GateRunKeepsOk(g: Gate, es: seq<GateEvent>)
    requires GateOk(g)
    ensures GateOk(GateRun(g, es).0)
    decreases |es|
  {
    if es != [] {
      GateRunKeepsOk(GateStep(g, es[0]).0, es[1..]);
    }
  }

  // The reveal verdict.

  datatype Verdict = Correct | Close | TimedOut

  /**
   * `onRevealAnswer`/`showFeedback`: correct when the last answer given is the
   * correct option; otherwise "almost" if an answer was given, "time out" if not.
   */
  function RevealVerdict(lastAnswerIndex: Option<int>, hasAnswered: bool, correctIndex: int): (v: Verdict)
  {
    if lastAnswerIndex == Some(correctIndex) then Correct
    else if hasAnswered then Close
    else TimedOut
  }

  function VerdictTitle(v: Verdict): (title: string) {
    match v
    case Correct => "¡Acertaste!"
    case Close => "¡Casi!"
    case TimedOut => "Tiempo agotado"
  }

  /**
   * The verdict of a question is decided by what the gate sent for it: correct
   * exactly when the one answer sent is the correct option, "almost" when a
   * different one was sent, "time out" when none was.
   */
  lemma VerdictFollowsSubmission(es: seq<GateEvent>, correctIndex: int)
    requires NoNewQuestion(es)
    ensures var (g, sent) := GateRun(GateStep(InitialGate, QuestionOpened).0, es);
      var v := RevealVerdict(g.lastAnswerIndex, g.hasAnswered, correctIndex);
      && (v == Correct <==> sent == [correctIndex])
      && (v == Close <==> |sent| == 1 && sent[0] != correctIndex)
      && (v == TimedOut <==> sent == [])
  {
    var g0 := GateStep(InitialGate, QuestionOpened).0;
    AtMostOneSubmitPerQuestion(g0, es);
  }

  // The level at the end of the game.

  datatype Level = Pionero | Maestro | Integrador | Explorador

  /** The levels in order, Explorador lowest. */
  function Rank(l: Level): (n: nat)
    ensures n <= 3
  {
    match l
    case Explorador => 0
    case Integrador => 1
    case Maestro => 2
    case Pionero => 3
  }

  /** `getLevel`: 80 and above Pionero, 60 Maestro, 40 Integrador, below that Explorador. */
  function GetLevel(percentage: real): (l: Level)
  {
    if percentage >= 80.0 then Pionero
    else if percentage >= 60.0 then Maestro
    else if percentage >= 40.0 then Integrador
    else Explorador
  }

  /** A higher percentage never gives a lower level. */
  lemma GetLevelMonotone(p: real, q: real)
    requires p <= q
    ensures Rank(GetLevel(p)) <= Rank(GetLevel(q))
  {
  }

  /** The level of `correct` answers out of `total`, in integer comparisons. */
  function LevelFor(correct: int, total: int): (l: Level)
    requires total > 0
  {
    if 100 * correct >= 80 * total then Pionero
    else if 100 * correct >= 60 * total then Maestro
    else if 100 * correct >= 40 * total then Integrador
    else Explorador
  }

  /** The integer form agrees with `getLevel` applied to `correct / total * 100`. */
  lemma LevelForIsGetLevel(correct: int, total: int)
    requires total > 0
    ensures LevelFor(correct, total) == GetLevel(correct as real / total as real * 100.0)
  {
    var t := total as real;
    var p := correct as real / t * 100.0;
    PercentageTimesTotal(correct as real, t);
    ThresholdIff(p, t, correct, total, 80);
    ThresholdIff(p, t, correct, total, 60);
    ThresholdIff(p, t, correct, total, 40);
  }

  lemma PercentageTimesTotal(c: real, t: real)
    requires t > 0.0
    ensures c / t * 100.0 * t == 100.0 * c
  {
    var q := c / t;
    assert q * t == c;
    assert q * 100.0 * t == 100.0 * (q * t);
  }

  lemma ThresholdIff(p: real, t: real, correct: int, total: int, k: int)
    requires total > 0 && t == total as real && p * t == 100.0 * correct as real
    ensures p >= k as real <==> 100 * correct >= k * total
  {
    if p >= k as real {
      assert p * t - k as real * t == (p - k as real) * t;
    } else {
      assert k as real * t - p * t == (k as real - p) * t;
    }
    assert (k * total) as real == k as real * t;
  }

  /** More correct answers out of the same total never give a lower level. */
  lemma LevelForMonotone(c1: int, c2: int, total: int)
    requires total > 0 && c1 <= c2
    ensures Rank(LevelFor(c1, total)) <= Rank(LevelFor(c2, total))
  {
  }

  /** The first ranking entry with the given id; a client without an id matches none. */
  function FindEntry(ranking: seq<PlayerEntry>, id: Option<SocketId>): (r: Option<PlayerEntry>)
    ensures r.Some? ==> id.Some? && r.value in ranking && r.value.id == id.value
    ensures r.None? <==> id.None? || forall k :: 0 <= k < |ranking| ==> ranking[k].id != id.value
    ensures r.Some? ==> exists k :: 0 <= k < |ranking| && ranking[k] == r.value && forall j :: 0 <= j < k ==> ranking[j].id != id.value
  {
    if id.None? || ranking == [] then None
    else if ranking[0].id == id.value then Some(ranking[0])
    else
      var r := FindEntry(ranking[1..], id);
      assert forall k :: 0 < k < |ranking| ==> ranking[k] == ranking[1..][k - 1];
      if r.Some? then
        var k :| 0 <= k < |ranking[1..]| && ranking[1..][k] == r.value && forall j :: 0 <= j < k ==> ranking[1..][j].id != id.value;
        assert ranking[k + 1] == r.value;
        r
      else
        r
  }

  /** `data.points || 0` and `data.streak || 0` for a field the message may lack. */
  function OrZero(x: Option<int>): int {
    if x.None? then 0 else x.value
  }

  /**
   * The acknowledgement the server sends for a recorded answer carries the
   * points the record gained and the new streak (when it is scored and
   * acknowledged at the same clock second), so a client that was in step with
   * the server's record stays in step.
   */
  lemma AckKeepsClientInStep(p: Player, e: LogEntry, remaining: int)
    ensures var q := RecordAnswer(p, e, remaining);
      var points := if e.correct then Points(remaining, q.streak) else 0;
      p.score + OrZero(Some(points)) == q.score && OrZero(Some(q.streak)) == q.streak
  {
  }

  // The client object.

  class EdTechClient {
    var playerId: Option<SocketId>
    var playerName: Option<string>
    var score: int
    var streak: int
    var currentQuestionIndex: nat
    var totalQuestions: nat
    var isAnswering: bool
    var hasAnswered: bool
    var lastAnswerIndex: Option<int>

    function AnswerGate(): Gate
      reads this
    {
      Gate(isAnswering, hasAnswered, lastAnswerIndex)
    }

    ghost predicate Valid()
      reads this
    {
      totalQuestions > 0 && GateOk(AnswerGate())
    }

    /** A client before it has joined: no id, 10 questions assumed, nothing scored, the gate closed. */
    constructor()
      ensures Valid()
      ensures playerId.None? && playerName.None?
      ensures score == 0 && streak == 0 && currentQuestionIndex == 0 && totalQuestions == 10
      ensures AnswerGate() == InitialGate
    {
      playerId, playerName := None, None;
      score, streak := 0, 0;
      currentQuestionIndex, totalQuestions := 0, 10;
      isAnswering, hasAnswered, lastAnswerIndex := false, false, None;
    }

    /** `join-success`: the server's id and stored name. */
    method OnJoinSuccess(id: SocketId, name: string)
      requires Valid()
      modifies this
      ensures Valid()
      ensures playerId == Some(id) && playerName == Some(name)
      ensures score == old(score) && streak == old(streak) && AnswerGate() == old(AnswerGate())
      ensures currentQuestionIndex == old(currentQuestionIndex) && totalQuestions == old(totalQuestions)
    {
      playerId, playerName := Some(id), Some(name);
    }

    /** `onGameStarted`: the local score, streak and question index restart at 0. */
    method OnGameStarted()
      requires Valid()
      modifies this
      ensures Valid()
      ensures score == 0 && streak == 0 && currentQuestionIndex == 0
      ensures AnswerGate() == old(AnswerGate()) && totalQuestions == old(totalQuestions)
      ensures playerId == old(playerId) && playerName == old(playerName)
    {
      currentQuestionIndex, score, streak := 0, 0, 0;
    }

    /** `onNewQuestion`: the question's index and total (`|| 23`), and the gate re-armed. */
    method OnNewQuestion(questionIndex: nat, total: Option<nat>)
      requires Valid()
      modifies this
      ensures Valid()
      ensures currentQuestionIndex == questionIndex
      ensures totalQuestions == if total.None? || total.value == 0 then 23 else total.value
      ensures AnswerGate() == GateStep(old(AnswerGate()), QuestionOpened).0
      ensures score == old(score) && streak == old(streak)
      ensures playerId == old(playerId) && playerName == old(playerName)
    {
      currentQuestionIndex := questionIndex;
      totalQuestions := if total.None? || total.value == 0 then 23 else total.value;
      isAnswering, hasAnswered, lastAnswerIndex := true, false, None;
    }

    /** `submitAnswer`: the index to send with `submit-answer`, or nothing when the gate is closed. */
    method SubmitAnswer(answerIndex: int) returns (sent: Option<int>)
      requires Valid()
      modifies this
      ensures Valid()
      ensures (AnswerGate(), sent) == GateStep(old(AnswerGate()), Clicked(answerIndex))
      ensures score == old(score) && streak == old(streak)
      ensures currentQuestionIndex == old(currentQuestionIndex) && totalQuestions == old(totalQuestions)
      ensures playerId == old(playerId) && playerName == old(playerName)
    {
      if !isAnswering {
        return None;
      }
      isAnswering := false;
      lastAnswerIndex := Some(answerIndex);
      hasAnswered := true;
      sent := Some(answerIndex);
    }

    /** `onTimeUp`: the gate closes. */
    method OnTimeUp()
      requires Valid()
      modifies this
      ensures Valid()
      ensures AnswerGate() == GateStep(old(AnswerGate()), TimesUp).0
      ensures score == old(score) && streak == old(streak)
      ensures currentQuestionIndex == old(currentQuestionIndex) && totalQuestions == old(totalQuestions)
      ensures playerId == old(playerId) && playerName == old(playerName)
    {
      isAnswering := false;
    }

    /** `onAnswerReceived`: the points are added to the score, the streak is replaced. */
    method OnAnswerReceived(points: Option<int>, newStreak: Option<int>)
      requires Valid()
      modifies this
      ensures Valid()
      ensures score == old(score) + OrZero(points) && streak == OrZero(newStreak)
      ensures AnswerGate() == old(AnswerGate())
      ensures currentQuestionIndex == old(currentQuestionIndex) && totalQuestions == old(totalQuestions)
      ensures playerId == old(playerId) && playerName == old(playerName)
    {
      score := score + OrZero(points);
      streak := OrZero(newStreak);
    }

    /** `onRevealAnswer`: the verdict for the revealed correct option, from the gate's record. */
    method OnRevealAnswer(correctIndex: int) returns (v: Verdict, title: string)
      ensures v == Correct <==> lastAnswerIndex == Some(correctIndex)
      ensures v == Close <==> lastAnswerIndex != Some(correctIndex) && hasAnswered
      ensures v == TimedOut <==> lastAnswerIndex != Some(correctIndex) && !hasAnswered
      ensures title == VerdictTitle(v)
    {
      v := RevealVerdict(lastAnswerIndex, hasAnswered, correctIndex);
      title := VerdictTitle(v);
    }

    /**
     * `onGameEnded`: the player's correct answers from the final ranking (0 when
     * the player is not on it) and the level for them out of `totalQuestions`.
     */
    method OnGameEnded(ranking: seq<PlayerEntry>) returns (correct: nat, level: Level)
      requires Valid()
      ensures var entry := FindEntry(ranking, playerId);
        correct == if entry.Some? then entry.value.correctAnswers else 0
      ensures level == GetLevel(correct as real / totalQuestions as real * 100.0)
      ensures level == LevelFor(correct, totalQuestions)
    {
      var entry := FindEntry(ranking, playerId);
      correct := if entry.Some? then entry.value.correctAnswers else 0;
      LevelForIsGetLevel(correct, totalQuestions);
      level := GetLevel(correct as real / totalQuestions as real * 100.0);
    }
  }
}
