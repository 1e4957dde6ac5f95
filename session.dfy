/**
 * The server's game state (`gameState`) and its socket handlers. Each handler
 * is an atomic, run-to-completion step on the one `Session` object; it takes the
 * calling connection's id and the payload as parameters and returns the events
 * it emits. `Date.now()` is the parameter `now`.
 */
module Session {
  import opened Options
  import opened Text
  import opened OrderedMaps
  import opened Questions
  import opened Scoring
  import opened Leaderboard
  import opened Stats
  import opened Messages
  import Timer

  /** `!name || name.trim() === ''`: no name, or one that is all whitespace. */
  predicate MissingName(name: Option<string>) {
    name.None? || Trim(name.value) == ""
  }

  /** A name is missing exactly when it is absent or all whitespace. */
  lemma MissingNameIffBlank(name: Option<string>)
    ensures MissingName(name) <==> name.None? || AllWhitespace(name.value)
  {
    if name.Some? {
      TrimEmptyIffBlank(name.value);
    }
  }

  /** `specialty || 'No especificada'`. */
  function SpecialtyOrDefault(specialty: Option<string>): string {
    if specialty.None? || specialty.value == "" then "No especificada" else specialty.value
  }

  /** Some joined player's stored name equals `name` when both are lower-cased. */
  predicate NameInUse(players: OrderedMap<SocketId, Player>, name: string)
    requires players.Valid()
  {
    exists i :: 0 <= i < |players.keys| && SameIgnoringCase(players.entries[players.keys[i]].name, name)
  }

  datatype JoinVerdict = Reject(message: string) | Admit(name: string)

  /**
   * The checks join-game makes before registering: a missing or blank name is
   * refused; a name already in use (ignoring case) is refused only while a game
   * is started; otherwise the trimmed name is admitted.
   */
  function JoinCheck(players: OrderedMap<SocketId, Player>, isGameStarted: bool, name: Option<string>): (v: JoinVerdict)
    requires players.Valid()
    ensures MissingName(name) ==> v == Reject(MissingNameMessage)
    ensures !MissingName(name) && isGameStarted && NameInUse(players, name.value) ==> v == Reject(DuplicateNameMessage)
    ensures v.Admit? <==> !MissingName(name) && !(isGameStarted && NameInUse(players, name.value))
    ensures v.Admit? ==> v.name == Trim(name.value) && v.name != "" && !AllWhitespace(name.value)
  {
    MissingNameIffBlank(name);
    if MissingName(name) then Reject(MissingNameMessage)
    else if NameInUse(players, name.value) && isGameStarted then Reject(DuplicateNameMessage)
    else Admit(Trim(name.value))
  }

  /** The late-join snapshot: a player joining while a question is open gets it, with the helper's remaining time. */
  function LateJoinQuestion(isGameStarted: bool, status: Status, index: nat, now: nat): (out: seq<Emit>)
    ensures |out| <= 1
    ensures out != [] <==> isGameStarted && status == WaitingAnswer
  {
    if isGameStarted && status == WaitingAnswer then
      [Emit(Requester, NewQuestion(index, RemainingTime(now)))]
    else []
  }

  /** What `endGame` broadcasts: the ranking and the category statistics, to everyone and to the admins. */
  function GameEndEvents(players: OrderedMap<SocketId, Player>): seq<Emit>
    requires players.Valid()
  {
    var ranking := PlayersList(players);
    var cats := CategoryStatsOf(players.Values());
    [Emit(Everyone, GameEnded(ranking, |Bank|, cats)), Emit(Admins, FinalResults(ranking, |Bank|, cats))]
  }

  /** A stored player: filed under its own id, counters matching its log. */
  predicate PlayerOk(id: SocketId, p: Player) {
    p.id == id && Consistent(p)
  }

  ghost predicate PlayersOk(players: OrderedMap<SocketId, Player>) {
    players.Valid() && forall id :: id in players.entries ==> PlayerOk(id, players.entries[id])
  }

  /** The answers collected come from joined players only. */
  ghost predicate AnswersOk(answers: OrderedMap<SocketId, Answer>, players: OrderedMap<SocketId, Player>) {
    answers.Valid() && forall id :: id in answers.entries ==> id in players.entries
  }

  // One log entry per question. A player's log grows only through an accepted
  // answer, which needs the question still open and no answer of the player
  // stored for it; the index only moves forward, clearing the stored answers.

  /**
   * Along the first `n` entries of the log the question indices strictly
   * increase, and none is above `bound`.
   */
  predicate BelowUpTo(log: seq<LogEntry>, n: nat, bound: int)
    requires n <= |log|
  {
    n == 0 || (log[n - 1].questionIndex <= bound && BelowUpTo(log, n - 1, log[n - 1].questionIndex - 1))
  }

  /** Whether a prefix is in order below a bound depends on that prefix only. */
  lemma {:induction false} BelowAgree(a: seq<LogEntry>, b: seq<LogEntry>, n: nat, bound: int)
    requires n <= |a| && n <= |b|
    requires forall k :: 0 <= k < n ==> a[k] == b[k]
    ensures BelowUpTo(a, n, bound) == BelowUpTo(b, n, bound)
  {
    if n > 0 {
      BelowAgree(a, b, n - 1, a[n - 1].questionIndex - 1);
    }
  }

  /**
   * A log fits the open question `index`: in order and naming no later
   * question, and naming `index` itself only once the player's answer to it is
   * stored (otherwise every entry is below `index`).
   */
  predicate LogFits(log: seq<LogEntry>, index: nat, answered: bool) {
    BelowUpTo(log, |log|, if answered then index else index - 1)
  }

  lemma {:induction false} BelowUpToPairs(log: seq<LogEntry>, n: nat, bound: int)
    requires n <= |log| && BelowUpTo(log, n, bound)
    ensures forall k :: 0 <= k < n ==> log[k].questionIndex <= bound
    ensures forall i, j :: 0 <= i < j < n ==> log[i].questionIndex < log[j].questionIndex
  {
    if n > 0 {
      BelowUpToPairs(log, n - 1, log[n - 1].questionIndex - 1);
    }
  }

  /**
   * In a fitting log no question is answered twice, none is later than the open
   * one, and the open one appears only once the player's answer is stored.
   */
  lemma OneEntryPerQuestion(log: seq<LogEntry>, index: nat, answered: bool)
    requires LogFits(log, index, answered)
    ensures forall i, j :: 0 <= i < j < |log| ==> log[i].questionIndex != log[j].questionIndex
    ensures forall k :: 0 <= k < |log| ==> log[k].questionIndex <= index
    ensures (exists k :: 0 <= k < |log| && log[k].questionIndex == index) ==> answered
  {
    BelowUpToPairs(log, |log|, if answered then index else index - 1);
  }

  /**
   * The players, the stored answers and the open question `index` fit together
   * (see `Session.Valid`): both maps well formed, answers only from joined
   * players, and each player filed under its own id, with counters matching its
   * log and a log that fits `index`.
   */
  ghost predicate MapsOk(players: OrderedMap<SocketId, Player>, answers: OrderedMap<SocketId, Answer>, index: nat) {
    && players.Valid()
    && AnswersOk(answers, players)
    && forall id :: id in players.entries ==>
         PlayerOk(id, players.entries[id]) && LogFits(players.entries[id].answers, index, id in answers.entries)
  }

  /** Registering a player with zeroed counters and an empty log keeps everything fitting. */
  lemma JoinKeepsOk(players: OrderedMap<SocketId, Player>, answers: OrderedMap<SocketId, Answer>, index: nat, id: SocketId, p: Player)
    requires MapsOk(players, answers, index) && PlayerOk(id, p) && p.answers == []
    ensures MapsOk(players.Set(id, p), answers, index)
  {
    var ps := players.Set(id, p);
    forall x | x in ps.entries
      ensures PlayerOk(x, ps.entries[x]) && LogFits(ps.entries[x].answers, index, x in answers.entries)
    {
      if x != id {
        assert ps.entries[x] == players.entries[x];
      }
    }
  }

  /**
   * Recording the answer of a joined player, with none stored yet, to the open
   * question keeps both maps well formed and every log fitting.
   */
  lemma RecordKeepsSessionOk(players: OrderedMap<SocketId, Player>, answers: OrderedMap<SocketId, Answer>, id: SocketId,
                             index: nat, answerIndex: int, isCorrect: bool, now: nat, remaining: int)
    requires MapsOk(players, answers, index) && id in players.entries && id !in answers.entries
    ensures var p := RecordAnswer(players.entries[id], LogEntry(index, answerIndex, isCorrect, now), remaining);
      MapsOk(players.Set(id, p), answers.Set(id, Answer(answerIndex, isCorrect, now)), index)
  {
    var q := RecordAnswer(players.entries[id], LogEntry(index, answerIndex, isCorrect, now), remaining);
    var log := players.entries[id].answers;
    assert LogFits(log, index, false);
    BelowAgree(log, q.answers, |log|, index - 1);
    assert LogFits(q.answers, index, true);
    var ps, stored := players.Set(id, q), answers.Set(id, Answer(answerIndex, isCorrect, now));
    forall x | x in ps.entries
      ensures PlayerOk(x, ps.entries[x]) && LogFits(ps.entries[x].answers, index, x in stored.entries)
    {
      if x != id {
        assert ps.entries[x] == players.entries[x];
        assert (x in stored.entries) == (x in answers.entries);
      }
    }
  }

  /** Moving on to the next question with the answers cleared keeps everything fitting. */
  lemma AdvanceKeepsOk(players: OrderedMap<SocketId, Player>, answers: OrderedMap<SocketId, Answer>, index: nat)
    requires MapsOk(players, answers, index)
    ensures MapsOk(players, Empty(), index + 1)
  {
    forall id | id in players.entries
      ensures LogFits(players.entries[id].answers, index + 1, false)
    {
      assert LogFits(players.entries[id].answers, index, id in answers.entries);
    }
  }

  /** A disconnect removes a player's record and answer together, so the rest still fits. */
  lemma DeleteKeepsOk(players: OrderedMap<SocketId, Player>, answers: OrderedMap<SocketId, Answer>, index: nat, id: SocketId)
    requires MapsOk(players, answers, index)
    ensures MapsOk(players.Delete(id), answers.Delete(id), index)
  {
    var ps, stored := players.Delete(id), answers.Delete(id);
    forall x | x in ps.entries
      ensures PlayerOk(x, ps.entries[x]) && LogFits(ps.entries[x].answers, index, x in stored.entries)
    {
      assert ps.entries[x] == players.entries[x];
      assert (x in stored.entries) == (x in answers.entries);
    }
  }

  /** Well-formed players with empty logs, and no answers stored, fit any question. */
  lemma ClearedLogsOk(players: OrderedMap<SocketId, Player>, index: nat)
    requires PlayersOk(players)
    requires forall id :: id in players.entries ==> players.entries[id].answers == []
    ensures MapsOk(players, Empty(), index)
  {
  }

  /** When every log fits a question of the bank, every log names bank questions only. */
  lemma LogsInBank(players: OrderedMap<SocketId, Player>, answers: OrderedMap<SocketId, Answer>, index: nat)
    requires MapsOk(players, answers, index) && index < |Bank|
    ensures forall id :: id in players.entries ==> LogInBank(players.entries[id].answers)
  {
    forall id | id in players.entries
      ensures LogInBank(players.entries[id].answers)
    {
      OneEntryPerQuestion(players.entries[id].answers, index, id in answers.entries);
    }
  }

  class Session {
    var status: Status
    var currentQuestionIndex: nat
    var players: OrderedMap<SocketId, Player>
    var currentAnswers: OrderedMap<SocketId, Answer>
    var isGameStarted: bool

    /**
     * The invariant every handler keeps: both maps well formed; each player stored
     * under its own id, with counters that match its log; each log naming every
     * question at most once and none past the open one, which it names only once
     * the answer is stored (`LogFits`); answers only from joined players; the
     * index inside the bank; a game started exactly when the phase is not the
     * lobby; nothing collected in the lobby; a game ends only on the last question.
     */
    ghost predicate Valid()
      reads this
    {
      && MapsOk(players, currentAnswers, currentQuestionIndex)
      && currentQuestionIndex < |Bank|
      && (isGameStarted <==> status != Lobby)
      && (status == Lobby ==> currentQuestionIndex == 0 && currentAnswers.entries == map[])
      && (status == Ended ==> currentQuestionIndex + 1 == |Bank|)
    }

    /** The initial `gameState`. */
    constructor ()
      ensures Valid()
      ensures status == Lobby && currentQuestionIndex == 0 && !isGameStarted
      ensures players == Empty() && currentAnswers == Empty()
    {
      status := Lobby;
      currentQuestionIndex := 0;
      players := Empty();
      currentAnswers := Empty();
      isGameStarted := false;
    }

    /** The answer of `socket` would be recorded now. */
    predicate AcceptsAnswer(socket: SocketId)
      reads this
    {
      socket in players.entries && status == WaitingAnswer && socket !in currentAnswers.entries
    }

    /** join-game. */
    method Join(socket: SocketId, name: Option<string>, specialty: Option<string>, now: nat) returns (out: seq<Emit>)
      requires Valid()
      modifies this
      ensures Valid()
      ensures status == old(status) && currentQuestionIndex == old(currentQuestionIndex)
      ensures isGameStarted == old(isGameStarted) && currentAnswers == old(currentAnswers)
      ensures var v := JoinCheck(old(players), old(isGameStarted), name);
        v.Reject? ==> players == old(players) && out == [Emit(Requester, Error(v.message))]
      ensures var v := JoinCheck(old(players), old(isGameStarted), name);
        v.Admit? ==>
          && players == old(players).Set(socket, NewPlayer(socket, v.name, SpecialtyOrDefault(specialty)))
          && players.Size() == old(players.Size()) + (if socket in old(players.entries) then 0 else 1)
          && out == [Emit(Requester, JoinSuccess(socket, v.name)), Emit(Everyone, UpdatePlayers(PlayersList(players), players.Size()))]
                    + LateJoinQuestion(isGameStarted, status, currentQuestionIndex, now)
    {
      var v := JoinCheck(players, isGameStarted, name);
      if v.Reject? {
        return [Emit(Requester, Error(v.message))];
      }
      var trimmed := v.name;
      var player := NewPlayer(socket, trimmed, SpecialtyOrDefault(specialty));
      JoinKeepsOk(players, currentAnswers, currentQuestionIndex, socket, player);
      players := players.Set(socket, player);
      out := [Emit(Requester, JoinSuccess(socket, trimmed)), Emit(Everyone, UpdatePlayers(PlayersList(players), players.Size()))];
      out := out + LateJoinQuestion(isGameStarted, status, currentQuestionIndex, now);
    }

    /**
     * submit-answer. `now` is the clock when the answer is scored, `ackNow` when
     * the acknowledgement recomputes the points.
     */
    method SubmitAnswer(socket: SocketId, answerIndex: int, now: nat, ackNow: nat) returns (out: seq<Emit>)
      requires Valid()
      modifies this
      ensures Valid()
      ensures status == old(status) && currentQuestionIndex == old(currentQuestionIndex) && isGameStarted == old(isGameStarted)
      ensures !old(AcceptsAnswer(socket)) ==> players == old(players) && currentAnswers == old(currentAnswers) && out == []
      ensures old(AcceptsAnswer(socket)) ==>
        var correct := answerIndex == Bank[currentQuestionIndex].correctIndex;
        var p := RecordAnswer(old(players).entries[socket], LogEntry(currentQuestionIndex, answerIndex, correct, now), RemainingTime(now));
        && currentAnswers == old(currentAnswers).Set(socket, Answer(answerIndex, correct, now))
        && players == old(players).Set(socket, p)
        && out == [Emit(Requester, AnswerReceived(correct, if correct then Points(RemainingTime(ackNow), p.streak) else 0, p.streak, currentAnswers.Size(), players.Size())),
                   Emit(Admins, AnswerSubmitted(p.name, socket, correct, currentAnswers.Size(), players.Size()))]
      ensures old(AcceptsAnswer(socket)) && ackNow == now ==>
        out[0].event.points == players.entries[socket].score - old(players).entries[socket].score
    {
      if socket !in players.entries || status != WaitingAnswer {
        return [];
      }
      if socket in currentAnswers.entries {
        return [];
      }
      var isCorrect := answerIndex == Bank[currentQuestionIndex].correctIndex;
      var player := Record(socket, answerIndex, isCorrect, now, RemainingTime(now));
      var points := if isCorrect then Points(RemainingTime(ackNow), player.streak) else 0;
      out := [Emit(Requester, AnswerReceived(isCorrect, points, player.streak, currentAnswers.Size(), players.Size())),
              Emit(Admins, AnswerSubmitted(player.name, socket, isCorrect, currentAnswers.Size(), players.Size()))];
    }

    /**
     * The state change of an accepted answer given at time `now` with `remaining`
     * seconds on the clock: it is stored, and the player's record and log are updated.
     */
    method Record(socket: SocketId, answerIndex: int, isCorrect: bool, now: nat, remaining: int) returns (player: Player)
      requires Valid() && AcceptsAnswer(socket)
      modifies this
      ensures Valid()
      ensures status == old(status) && currentQuestionIndex == old(currentQuestionIndex) && isGameStarted == old(isGameStarted)
      ensures player == RecordAnswer(old(players).entries[socket], LogEntry(currentQuestionIndex, answerIndex, isCorrect, now), remaining)
      ensures currentAnswers == old(currentAnswers).Set(socket, Answer(answerIndex, isCorrect, now))
      ensures players == old(players).Set(socket, player)
    {
      var timestamp := now;
      player := RecordAnswer(players.entries[socket], LogEntry(currentQuestionIndex, answerIndex, isCorrect, timestamp), remaining);
      RecordKeepsSessionOk(players, currentAnswers, socket, currentQuestionIndex, answerIndex, isCorrect, timestamp, remaining);
      players, currentAnswers := players.Set(socket, player), currentAnswers.Set(socket, Answer(answerIndex, isCorrect, timestamp));
    }

    /** `sendQuestion`: broadcasts the question with 30 seconds and arms a fresh countdown for it. */
    method SendQuestion(index: nat) returns (out: seq<Emit>, timer: RoundTimer?)
      ensures index < |Bank| ==> out == [Emit(Everyone, NewQuestion(index, Timer.TimerSeconds))]
      ensures index < |Bank| ==> timer != null && fresh(timer) && timer.State() == Timer.Armed(index)
      ensures index >= |Bank| ==> out == [] && timer == null
    {
      if index >= |Bank| {
        return [], null;
      }
      out := [Emit(Everyone, NewQuestion(index, Timer.TimerSeconds))];
      timer := new RoundTimer(index);
    }

    /**
     * admin-start-game. The payload (category, topic, count) is not read: the game
     * always plays the whole bank.
     */
    method StartGame() returns (out: seq<Emit>, timer: RoundTimer?)
      requires Valid()
      modifies this
      ensures Valid()
      ensures old(isGameStarted) ==> unchanged(this) && out == [] && timer == null
      ensures !old(isGameStarted) ==>
        && isGameStarted && status == WaitingAnswer && currentQuestionIndex == 0 && currentAnswers == Empty()
        && players.keys == old(players.keys)
        && (forall id :: id in players.entries <==> id in old(players.entries))
        && (forall id :: id in old(players.entries) ==> players.entries[id] == ResetPlayer(old(players.entries[id])))
        && out == [Emit(Everyone, GameStarted), Emit(Everyone, NewQuestion(0, Timer.TimerSeconds))]
        && timer != null && fresh(timer) && timer.State() == Timer.Armed(0)
    {
      if isGameStarted {
        return [], null;
      }
      var ps := ResetAll(players);
      forall id | id in ps.entries
        ensures ps.entries[id].answers == []
      {
        assert ps.entries[id] == ResetPlayer(players.entries[id]);
      }
      ClearedLogsOk(ps, 0);
      players := ps;
      isGameStarted := true;
      status := WaitingAnswer;
      currentQuestionIndex := 0;
      currentAnswers := Empty();
      out := [Emit(Everyone, GameStarted)];
      var sent;
      sent, timer := SendQuestion(0);
      out := out + sent;
    }

    /** `endGame`: the phase becomes ended and the results are broadcast. */
    method EndGame() returns (out: seq<Emit>)
      requires Valid() && isGameStarted && currentQuestionIndex == |Bank| - 1
      modifies this
      ensures Valid()
      ensures status == Ended
      ensures currentQuestionIndex == old(currentQuestionIndex) && isGameStarted == old(isGameStarted)
      ensures players == old(players) && currentAnswers == old(currentAnswers)
      ensures out == GameEndEvents(players)
    {
      status := Ended;
      var ranking := PlayersList(players);
      var cats := CategoryStats();
      out := [Emit(Everyone, GameEnded(ranking, |Bank|, cats)), Emit(Admins, FinalResults(ranking, |Bank|, cats))];
    }

    /** admin-next-question. */
    method NextQuestion() returns (out: seq<Emit>, timer: RoundTimer?)
      requires Valid()
      modifies this
      ensures Valid()
      ensures !old(isGameStarted) ==> unchanged(this) && out == [] && timer == null
      ensures old(isGameStarted) && old(currentQuestionIndex) + 1 >= |Bank| ==>
        && status == Ended && currentQuestionIndex == old(currentQuestionIndex) && isGameStarted
        && players == old(players) && currentAnswers == old(currentAnswers)
        && out == GameEndEvents(players) && timer == null
      ensures old(isGameStarted) && old(currentQuestionIndex) + 1 < |Bank| ==>
        && status == WaitingAnswer && currentQuestionIndex == old(currentQuestionIndex) + 1 && isGameStarted
        && players == old(players) && currentAnswers == Empty()
        && out == [Emit(Everyone, NewQuestion(currentQuestionIndex, Timer.TimerSeconds))]
        && timer != null && fresh(timer) && timer.State() == Timer.Armed(currentQuestionIndex)
    {
      if !isGameStarted {
        return [], null;
      }
      var nextIndex := currentQuestionIndex + 1;
      if nextIndex >= |Bank| {
        out := EndGame();
        timer := null;
      } else {
        AdvanceKeepsOk(players, currentAnswers, currentQuestionIndex);
        currentQuestionIndex := nextIndex;
        currentAnswers := Empty();
        status := WaitingAnswer;
        out, timer := SendQuestion(nextIndex);
      }
    }

    /** admin-reveal-answer. */
    method RevealAnswer() returns (out: seq<Emit>)
      requires Valid()
      modifies this
      ensures Valid()
      ensures old(status) != WaitingAnswer ==> unchanged(this) && out == []
      ensures old(status) == WaitingAnswer ==>
        && status == Revealed && currentQuestionIndex == old(currentQuestionIndex) && isGameStarted == old(isGameStarted)
        && players == old(players) && currentAnswers == old(currentAnswers)
        && out == [Emit(Everyone, Messages.RevealAnswer(Bank[currentQuestionIndex].correctIndex, StatsOf(currentAnswers.Values())))]
    {
      if status != WaitingAnswer {
        return [];
      }
      status := Revealed;
      var q := Bank[currentQuestionIndex];
      var stats := QuestionStats();
      out := [Emit(Everyone, Messages.RevealAnswer(q.correctIndex, stats))];
    }

    /** admin-restart: allowed in every phase, drops every player. */
    method Restart() returns (out: seq<Emit>)
      requires Valid()
      modifies this
      ensures Valid()
      ensures status == Lobby && currentQuestionIndex == 0 && !isGameStarted
      ensures players == Empty() && currentAnswers == Empty()
      ensures out == [Emit(Everyone, GameRestarted), Emit(Everyone, UpdatePlayers([], 0))]
    {
      isGameStarted := false;
      status := Lobby;
      currentQuestionIndex := 0;
      currentAnswers := Empty();
      players := Empty();
      out := [Emit(Everyone, GameRestarted), Emit(Everyone, UpdatePlayers([], 0))];
    }

    /** disconnect: a player's record and pending answer go; an unknown connection changes nothing. */
    method Disconnect(socket: SocketId) returns (out: seq<Emit>)
      requires Valid()
      modifies this
      ensures Valid()
      ensures socket !in old(players.entries) ==> unchanged(this) && out == []
      ensures socket in old(players.entries) ==>
        && players == old(players).Delete(socket) && currentAnswers == old(currentAnswers).Delete(socket)
        && status == old(status) && currentQuestionIndex == old(currentQuestionIndex) && isGameStarted == old(isGameStarted)
        && out == [Emit(Everyone, UpdatePlayers(PlayersList(players), players.Size()))]
      ensures forall id :: id != socket ==> (id in players.entries <==> id in old(players.entries))
      ensures forall id :: id != socket && id in players.entries ==> players.entries[id] == old(players.entries[id])
    {
      if socket !in players.entries {
        return [];
      }
      DeleteKeepsOk(players, currentAnswers, currentQuestionIndex, socket);
      players := players.Delete(socket);
      currentAnswers := currentAnswers.Delete(socket);
      out := [Emit(Everyone, UpdatePlayers(PlayersList(players), players.Size()))];
    }

    /** `getQuestionStats`: one pass over the current answers. */
    method QuestionStats() returns (stats: QuestionStats)
      requires currentAnswers.Valid()
      ensures stats == StatsOf(currentAnswers.Values())
      ensures stats.totalResponses == |currentAnswers.entries|
      ensures stats.correctCount + stats.wrongCount == stats.totalResponses
      ensures Sum(stats.answerDistribution) <= stats.totalResponses
    {
      var correctCount, wrongCount, distribution := TallyAnswers(currentAnswers.Values());
      stats := Stats.QuestionStats(currentAnswers.Size(), correctCount, wrongCount, distribution);
    }

    /** `calculateCategoryStats`: one pass over the bank, then one over every player's log. */
    method CategoryStats() returns (categories: map<Category, CategoryTally>)
      requires players.Valid()
      ensures categories == CategoryStatsOf(players.Values())
    {
      categories := TallyTotals(Bank);
      ghost var totals := categories;
      var ps := players.Values();
      for i := 0 to |ps|
        invariant categories.Keys == totals.Keys
        invariant forall c :: c in categories ==> categories[c] == CategoryTally(totals[c].total, PlayersCorrectInCategory(ps[..i], c))
      {
        assert ps[..i + 1][..i] == ps[..i];
        categories := TallyCorrect(categories, ps[i].answers);
      }
      assert ps[..|ps|] == ps;
    }
  }

  /** The loop of `getQuestionStats`: counts the right and wrong answers and the choices of each option. */
  method TallyAnswers(answers: seq<Answer>) returns (correctCount: nat, wrongCount: nat, distribution: seq<nat>)
    ensures correctCount == CorrectIn(answers) && wrongCount == WrongIn(answers)
    ensures distribution == Distribution(answers)
  {
    correctCount, wrongCount := 0, 0;
    var counts := new nat[OptionsPerQuestion](_ => 0);
    for i := 0 to |answers|
      invariant correctCount == CorrectIn(answers[..i]) && wrongCount == WrongIn(answers[..i])
      invariant forall k :: 0 <= k < OptionsPerQuestion ==> counts[k] == ChoiceCount(answers[..i], k)
    {
      var answer := answers[i];
      assert answers[..i + 1][..i] == answers[..i];
      if answer.isCorrect {
        correctCount := correctCount + 1;
      } else {
        wrongCount := wrongCount + 1;
      }
      if 0 <= answer.answerIndex < OptionsPerQuestion {
        counts[answer.answerIndex] := counts[answer.answerIndex] + 1;
      }
    }
    assert answers[..|answers|] == answers;
    distribution := counts[..];
  }

  /** The first pass of `calculateCategoryStats`: one entry per category, counting its questions. */
  method TallyTotals(qs: seq<Question>) returns (categories: map<Category, CategoryTally>)
    ensures categories.Keys == CategoriesOf(qs)
    ensures forall c :: c in categories ==> categories[c] == CategoryTally(CountInCategory(qs, c), 0)
  {
    categories := map[];
    ghost var seen: seq<Question> := [];
    for i := 0 to |qs|
      invariant seen == qs[..i]
      invariant categories == TotalsOf(seen)
    {
      var q := qs[i];
      TotalsSnoc(seen, q);
      var tally := if q.category in categories then categories[q.category] else CategoryTally(0, 0);
      categories := categories[q.category := tally.(total := tally.total + 1)];
      seen := seen + [q];
      assert seen == qs[..i + 1];
    }
    assert qs[..|qs|] == qs;
  }

  /** The second pass for one player: each correct answer to a bank question counts for its category. */
  method TallyCorrect(categories: map<Category, CategoryTally>, log: seq<LogEntry>) returns (r: map<Category, CategoryTally>)
    requires CategoriesOf(Bank) <= categories.Keys
    ensures r.Keys == categories.Keys
    ensures forall c :: c in r ==> r[c] == categories[c].(correct := categories[c].correct + CorrectInCategory(log, c))
  {
    r := categories;
    for j := 0 to |log|
      invariant r.Keys == categories.Keys
      invariant forall c :: c in r ==> r[c] == categories[c].(correct := categories[c].correct + CorrectInCategory(log[..j], c))
    {
      var answer := log[j];
      ghost var prev := r;
      if answer.questionIndex < |Bank| && answer.correct {
        var category := Bank[answer.questionIndex].category;
        InCategoriesOf(Bank, answer.questionIndex);
        r := r[category := r[category].(correct := r[category].correct + 1)];
      }
      forall c | c in r
        ensures r[c] == categories[c].(correct := categories[c].correct + CorrectInCategory(log[..j + 1], c))
      {
        CorrectInCategoryStep(log, j, c);
        assert r[c] == prev[c].(correct := prev[c].correct + (if CountsFor(answer, c) then 1 else 0));
      }
    }
    assert log[..|log|] == log;
  }

  /** The score reset of admin-start-game: every player keeps its place and identity and loses its counters and log. */
  method ResetAll(players: OrderedMap<SocketId, Player>) returns (ps: OrderedMap<SocketId, Player>)
    requires PlayersOk(players)
    ensures PlayersOk(ps) && ps.keys == players.keys
    ensures forall id :: id in ps.entries <==> id in players.entries
    ensures forall id :: id in players.entries ==> ps.entries[id] == ResetPlayer(players.entries[id])
  {
    var keys := players.keys;
    ps := players;
    for i := 0 to |keys|
      invariant ps.Valid() && ps.keys == keys
      invariant forall id :: id in ps.entries <==> id in players.entries
      invariant forall id :: id in ps.entries ==>
        ps.entries[id] == (if id in keys[..i] then ResetPlayer(players.entries[id]) else players.entries[id])
    {
      var id := keys[i];
      assert keys[..i + 1] == keys[..i] + [id];
      ps := ps.Set(id, ResetPlayer(ps.entries[id]));
    }
    assert keys[..|keys|] == keys;
    assert forall id :: id in ps.entries ==> PlayerOk(id, ps.entries[id]);
  }

  /** The interval `sendQuestion` starts, as an object: its captured index and its own `timeLeft`. */
  class RoundTimer {
    var armedIndex: nat
    var timeLeft: int
    var cleared: bool

    function State(): Timer.TimerState
      reads this
    {
      Timer.TimerState(armedIndex, timeLeft, cleared)
    }

    constructor (index: nat)
      ensures State() == Timer.Armed(index)
    {
      armedIndex := index;
      timeLeft := Timer.TimerSeconds;
      cleared := false;
    }

    /** One firing of the interval; the events are broadcast to everyone. */
    method Tick(s: Session) returns (events: seq<ServerEvent>)
      modifies this
      ensures (State(), events) == Timer.Tick(old(State()), s.status, s.currentQuestionIndex)
    {
      if cleared {
        return [];
      }
      if s.status != WaitingAnswer || s.currentQuestionIndex != armedIndex || timeLeft <= 0 {
        cleared := true;
        return [];
      }
      var left := timeLeft - 1;
      events := [TimerUpdate(timeLeft)] + (if left <= 0 then [TimeUp] else []);
      timeLeft := left;
    }
  }
}
