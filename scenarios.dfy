/**
 * Whole games played against the session: each method builds a fresh session,
 * drives its handlers in order and states what the players and the admin see.
 */
module Scenarios {
  import opened Options
  import opened Text
  import opened OrderedMaps
  import opened Scoring
  import opened Questions
  import opened Leaderboard
  import opened Stats
  import opened Messages
  import opened Session
  import Timer

  /**
   * The admin starts the game, player P1 joins while question 0 is open, answers
   * it correctly with 25 seconds left (streak 1, 150 points), the admin reveals
   * (one correct, none wrong), and the admin advances through the rest of the
   * bank: the game ends with P1 alone on the ranking at 150.
   */
  method EndToEnd() returns (lateJoin: Emit, ack: Emit, revealed: Emit, ranking: seq<PlayerEntry>)
    ensures lateJoin == Emit(Requester, NewQuestion(0, 30))
    ensures ack == Emit(Requester, AnswerReceived(true, 150, 1, 1, 1))
    ensures revealed == Emit(Everyone, Messages.RevealAnswer(1, Stats.QuestionStats(1, 1, 0, [0, 1, 0, 0])))
    ensures ranking == [PlayerEntry("P1", "Ana", "No especificada", 150, 1)]
  {
    var s;
    s, lateJoin := StartThenJoin();
    ack := AnswerFirstQuestion(s);
    revealed := RevealFirstQuestion(s);
    ranking := AdvanceToEnd(s);
    SingletonValues(s.players, "P1", P1AfterFirstAnswer());
    SingletonRanking(s.players, P1AfterFirstAnswer());
  }

  /** P1 as the first correct answer, given with 25 seconds left, leaves it. */
  function P1AfterFirstAnswer(): (p: Player)
    ensures p.score == 150 && p.streak == 1 && p.correctAnswers == 1 && PlayerOk("P1", p)
    ensures p.name == "Ana" && p.specialty == "No especificada"
  {
    PointsExamples();
    RecordAnswer(NewPlayer("P1", "Ana", "No especificada"), LogEntry(0, 1, true, 5000), 25)
  }

  /** The admin starts; P1 joins as "Ana" with no specialty and is sent the open question. */
  method StartThenJoin() returns (s: Session, lateJoin: Emit)
    ensures fresh(s) && s.Valid()
    ensures s.status == WaitingAnswer && s.currentQuestionIndex == 0 && s.isGameStarted
    ensures s.players.keys == ["P1"] && s.players.entries["P1"] == NewPlayer("P1", "Ana", "No especificada")
    ensures s.currentAnswers == Empty()
    ensures lateJoin == Emit(Requester, NewQuestion(0, 30))
  {
    s := new Session();
    var out, timer := s.StartGame();
    assert s.players.keys == [] && s.players.entries == map[];
    NameFacts();
    assert !NameInUse(s.players, "Ana");
    assert JoinCheck(s.players, true, Some("Ana")) == Admit("Ana");
    ClockReadings();
    out := s.Join("P1", Some("Ana"), None, 0);
    lateJoin := out[2];
  }

  /** P1 answers option B, the correct one, five seconds into the question. */
  method AnswerFirstQuestion(s: Session) returns (ack: Emit)
    requires s.Valid() && s.status == WaitingAnswer && s.currentQuestionIndex == 0
    requires s.players.keys == ["P1"] && s.players.entries["P1"] == NewPlayer("P1", "Ana", "No especificada")
    requires s.currentAnswers == Empty()
    modifies s
    ensures s.Valid() && s.status == WaitingAnswer && s.currentQuestionIndex == 0 && s.isGameStarted
    ensures s.players.keys == ["P1"] && s.players.entries["P1"] == P1AfterFirstAnswer()
    ensures s.currentAnswers.keys == ["P1"] && s.currentAnswers.entries["P1"] == Answer(1, true, 5000)
    ensures ack == Emit(Requester, AnswerReceived(true, 150, 1, 1, 1))
  {
    ClockReadings();
    PointsExamples();
    BankWellFormed();
    assert Bank[0].correctIndex == 1;
    assert s.AcceptsAnswer("P1");
    ghost var p := P1AfterFirstAnswer();
    assert p == RecordAnswer(s.players.entries["P1"], LogEntry(0, 1, true, 5000), RemainingTime(5000));
    var out := s.SubmitAnswer("P1", 1, 5000, 5000);
    assert s.players.entries["P1"] == p;
    assert s.currentAnswers.Size() == 1 && s.players.Size() == 1;
    assert out[0] == Emit(Requester, AnswerReceived(true, Points(25, p.streak), p.streak, 1, 1));
    ack := out[0];
  }

  /** The admin reveals question 0: one response, correct, for option B. */
  method RevealFirstQuestion(s: Session) returns (revealed: Emit)
    requires s.Valid() && s.status == WaitingAnswer && s.currentQuestionIndex == 0
    requires s.currentAnswers.keys == ["P1"] && s.currentAnswers.entries["P1"] == Answer(1, true, 5000)
    modifies s
    ensures s.Valid() && s.status == Revealed && s.isGameStarted && s.players == old(s.players)
    ensures revealed == Emit(Everyone, Messages.RevealAnswer(1, Stats.QuestionStats(1, 1, 0, [0, 1, 0, 0])))
  {
    BankWellFormed();
    assert Bank[0].correctIndex == 1;
    var out := s.RevealAnswer();
    SingletonValues(s.currentAnswers, "P1", Answer(1, true, 5000));
    OneCorrectAnswer();
    revealed := out[0];
  }

  /**
   * Restarting does not stop the countdown of the question that was open: once
   * a new game is back on question 0, the old interval resumes from where it was
   * and broadcasts beside the new one.
   */
  method StaleTimerSurvivesRestart() returns (oldTimerEvents: seq<ServerEvent>, newTimerEvents: seq<ServerEvent>)
    ensures oldTimerEvents == [TimerUpdate(29)]
    ensures newTimerEvents == [TimerUpdate(30)]
  {
    var s := new Session();
    var out, first := s.StartGame();
    var events := first.Tick(s);
    out := s.Restart();
    var second;
    out, second := s.StartGame();
    oldTimerEvents := first.Tick(s);
    newTimerEvents := second.Tick(s);
  }

  /**
   * The same name in a different case is accepted in the lobby and refused once
   * the game has started.
   */
  method DuplicateNames() returns (inLobby: seq<Emit>, afterStart: seq<Emit>)
    ensures |inLobby| >= 1 && inLobby[0] == Emit(Requester, JoinSuccess("P2", "ANA"))
    ensures afterStart == [Emit(Requester, Error(DuplicateNameMessage))]
  {
    var s;
    s, inLobby := TwoAnasInLobby();
    var out, timer := s.StartGame();
    NameFacts();
    assert NameInUse(s.players, "aNa") by {
      assert s.players.keys[0] == "P1";
    }
    afterStart := s.Join("P3", Some("aNa"), None, 0);
  }

  /** In the lobby, "Ana" and then "ANA" both join. */
  method TwoAnasInLobby() returns (s: Session, second: seq<Emit>)
    ensures fresh(s) && s.Valid() && !s.isGameStarted
    ensures s.players.keys == ["P1", "P2"] && s.players.entries["P1"].name == "Ana"
    ensures |second| >= 1 && second[0] == Emit(Requester, JoinSuccess("P2", "ANA"))
  {
    s := new Session();
    FirstAnaJoins(s);
    second := SecondAnaJoins(s);
  }

  method FirstAnaJoins(s: Session)
    requires s.Valid() && !s.isGameStarted && s.players == Empty()
    modifies s
    ensures s.Valid() && !s.isGameStarted
    ensures s.players.keys == ["P1"] && s.players.entries["P1"].name == "Ana"
  {
    NameFacts();
    assert JoinCheck(s.players, false, Some("Ana")) == Admit("Ana");
    var out := s.Join("P1", Some("Ana"), None, 0);
  }

  method SecondAnaJoins(s: Session) returns (out: seq<Emit>)
    requires s.Valid() && !s.isGameStarted
    requires s.players.keys == ["P1"] && s.players.entries["P1"].name == "Ana"
    modifies s
    ensures s.Valid() && !s.isGameStarted
    ensures s.players.keys == ["P1", "P2"] && s.players.entries["P1"].name == "Ana"
    ensures |out| >= 1 && out[0] == Emit(Requester, JoinSuccess("P2", "ANA"))
  {
    SecondAnaAdmitted(s.players);
    out := s.Join("P2", Some("ANA"), None, 0);
  }

  /** In the lobby "ANA" is admitted beside "Ana", under a fresh connection id. */
  lemma SecondAnaAdmitted(ps: OrderedMap<SocketId, Player>)
    requires ps.Valid() && ps.keys == ["P1"] && ps.entries["P1"].name == "Ana"
    ensures JoinCheck(ps, false, Some("ANA")) == Admit("ANA")
    ensures "P2" !in ps.entries
  {
    TrimKeepsTrimmed("ANA");
    assert "P2" != "P1" by { assert "P2"[1] != "P1"[1]; }
  }

  /** The names of the scenario: already trimmed, and the same when lower-cased. */
  lemma NameFacts()
    ensures Trim("Ana") == "Ana" && Trim("ANA") == "ANA" && Trim("aNa") == "aNa"
    ensures SameIgnoringCase("Ana", "ANA") && SameIgnoringCase("Ana", "aNa")
  {
    TrimKeepsTrimmed("Ana");
    TrimKeepsTrimmed("ANA");
    TrimKeepsTrimmed("aNa");
    LowerIsAna("Ana");
    LowerIsAna("ANA");
    LowerIsAna("aNa");
  }

  /**
   * join-game compares the name as sent but stores it trimmed: once the game has
   * started, " Ana" passes the check beside a stored "Ana", since the lengths
   * differ, and is stored as "Ana", the very name the check refuses as sent.
   */
  lemma PaddedDuplicateAdmitted(ps: OrderedMap<SocketId, Player>)
    requires ps.Valid() && ps.keys == ["P1"] && ps.entries["P1"].name == "Ana"
    ensures JoinCheck(ps, true, Some(" Ana")) == Admit("Ana")
    ensures JoinCheck(ps, true, Some("Ana")) == Reject(DuplicateNameMessage)
  {
    assert " Ana"[1..] == "Ana";
    assert LeadingBlanks(" Ana") == 1;
    TrimKeepsTrimmed("Ana");
    assert Trim(" Ana") == "Ana";
    assert NameInUse(ps, "Ana") by {
      assert ps.keys[0] == "P1";
    }
  }

  lemma LowerIsAna(s: string)
    requires |s| == 3 && s[0] in "Aa" && s[1] in "Nn" && s[2] in "Aa"
    ensures ToLower(s) == "ana"
  {
    var l := ToLower(s);
    assert l[0] == 'a' && l[1] == 'n' && l[2] == 'a';
  }

  /** Advancing after the end ends the game again, broadcasting the results a second time. */
  method AdvanceAfterEnd(s: Session) returns (again: seq<Emit>)
    requires s.Valid() && s.status == Ended
    modifies s
    ensures s.status == Ended && s.players == old(s.players)
    ensures again == GameEndEvents(s.players)
  {
    var timer;
    again, timer := s.NextQuestion();
  }

  /** The admin advances until the game has ended; the players are left as they were. */
  method AdvanceToEnd(s: Session) returns (ranking: seq<PlayerEntry>)
    requires s.Valid() && s.isGameStarted
    modifies s
    ensures s.Valid() && s.status == Ended && s.players == old(s.players)
    ensures ranking == PlayersList(s.players)
  {
    ranking := PlayersList(s.players);
    while s.status != Ended
      invariant s.Valid() && s.isGameStarted && s.players == old(s.players)
      invariant s.status == Ended ==> ranking == PlayersList(s.players)
      decreases |Bank| - s.currentQuestionIndex, if s.status == Ended then 0 else 1
    {
      var out, timer := s.NextQuestion();
      if s.status == Ended {
        ranking := out[0].event.ranking;
      }
    }
  }

  /** The clock readings of the scenario: the helper gives 30 at time 0 and 25 five seconds later. */
  lemma ClockReadings()
    ensures RemainingTime(0) == 30 && RemainingTime(5000) == 25
  {
    RemainingTimeCycles(0);
    RemainingTimeCycles(5000);
  }

  /** The statistics of a single correct choice of option B. */
  lemma OneCorrectAnswer()
    ensures StatsOf([Answer(1, true, 5000)]) == Stats.QuestionStats(1, 1, 0, [0, 1, 0, 0])
  {
    var a := [Answer(1, true, 5000)];
    assert a[..0] == [];
  }

  lemma SingletonValues<V>(m: OrderedMap<SocketId, V>, k: SocketId, v: V)
    requires m.Valid() && m.keys == [k] && m.entries[k] == v
    ensures m.Values() == [v]
  {
    assert m.Values()[0] == v;
  }

  /** With one player, the ranking is that player's entry. */
  lemma SingletonRanking(players: OrderedMap<SocketId, Player>, p: Player)
    requires players.Valid() && players.Values() == [p]
    ensures PlayersList(players) == [EntryOf(p)]
  {
    var r := PlayersList(players);
    assert Entries([p]) == [EntryOf(p)];
    assert multiset(r) == multiset{EntryOf(p)};
    assert r[0] in multiset(r);
  }
}
