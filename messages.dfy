/**
 * The game phase and the outbound socket.io events the server emits. Delivery is
 * not modelled: a handler returns the events it would emit, in order, each with
 * the audience it is addressed to.
 */
module Messages {
  import opened Scoring
  import opened Questions
  import opened Leaderboard
  import opened Stats

  /** `gameState.status`: 'lobby', 'waiting_answer', 'revealed', 'ended'. */
  datatype Status = Lobby | WaitingAnswer | Revealed | Ended

  /** `socket.emit` (the requesting connection), `io.emit` (everyone) or `io.to('admin').emit`. */
  datatype Audience = Requester | Everyone | Admins

  datatype ServerEvent =
    | Error(message: string)
    | JoinSuccess(playerId: SocketId, playerName: string)
    | UpdatePlayers(players: seq<PlayerEntry>, count: nat)
    | GameStarted
    | NewQuestion(questionIndex: nat, timeLeft: int)
    | TimerUpdate(timeLeft: int)
    | TimeUp
    | AnswerReceived(correct: bool, points: int, streak: nat, answeredCount: nat, totalPlayers: nat)
    | AnswerSubmitted(playerName: string, playerId: SocketId, isCorrect: bool, answeredCount: nat, totalPlayers: nat)
    | RevealAnswer(correctIndex: int, playerStats: QuestionStats)
    | GameEnded(ranking: seq<PlayerEntry>, totalQuestions: nat, categoryStats: map<Category, CategoryTally>)
    | FinalResults(ranking: seq<PlayerEntry>, totalQuestions: nat, categoryStats: map<Category, CategoryTally>)
    | GameRestarted

  datatype Emit = Emit(to: Audience, event: ServerEvent)

  const MissingNameMessage: string := "El nombre es obligatorio"
  const DuplicateNameMessage: string := "Ya hay un jugador con ese nombre en la partida actual"
}
