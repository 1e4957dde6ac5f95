/**
 * The scoring engine: the remaining-time helper, the points for a correct
 * answer, and the update of a player's record when an answer is recorded.
 */
module Scoring {

  /** A socket.io connection id. */
  type SocketId = string

  /** Seconds a question stays open. */
  const QuestionSeconds: int := 30
  const BasePoints: int := 100
  /** Points per remaining second. */
  const TimeBonusPerSecond: int := 2
  /** The streak from which the 1.2 bonus applies. */
  const StreakThreshold: int := 3

  function Max(a: int, b: int): int {
    if a >= b then a else b
  }

  /**
   * `getRemainingTime` with `now` standing for `Date.now()` (milliseconds since
   * the epoch, never negative). The helper reads only the clock: it does not
   * look at when the current question was sent.
   */
  function RemainingTime(now: nat): (t: int)
    ensures 0 <= t <= QuestionSeconds
  {
    Max(0, QuestionSeconds - ((now - now % 1000) / 1000) % 31)
  }

  /**
   * The helper's value comes back every 31 seconds and is constant within a
   * clock second, whenever the question was sent.
   */
  lemma RemainingTimeCycles(now: nat)
    ensures RemainingTime(now + 31000) == RemainingTime(now)
    ensures RemainingTime(now) == RemainingTime(now - now % 1000)
    ensures RemainingTime(now) == QuestionSeconds - (now / 1000) % 31
  {
    var q, r := now / 1000, now % 1000;
    MillisSplit(now - r, q, 0);
    MillisSplit(now + 31000, q + 31, r);
    CycleSplit(q + 31, q / 31 + 1, q % 31);
  }

  /** Division of a clock reading into whole seconds and the milliseconds left over. */
  lemma MillisSplit(n: int, q: int, r: int)
    requires 0 <= r < 1000 && n == 1000 * q + r
    ensures n / 1000 == q && n % 1000 == r
  {
  }

  lemma CycleSplit(n: int, q: int, r: int)
    requires 0 <= r < 31 && n == 31 * q + r
    ensures n % 31 == r
  {
  }

  /** `Math.round`: the nearest integer, halves rounded up. */
  function JsRound(x: real): int {
    (x + 0.5).Floor
  }

  /** The streak multiplier of the source, 1.2 from the third consecutive correct answer on. */
  function StreakMultiplier(streak: int): real {
    if streak >= StreakThreshold then 1.2 else 1.0
  }

  lemma FloorIs(x: real, n: int)
    requires n as real <= x < n as real + 1.0
    ensures x.Floor == n
  {
  }

  /**
   * The points for a correct answer given the remaining seconds and the streak
   * after the answer: `round((100 + max(0, t) * 2) * multiplier)`, in integers.
   */
  function Points(remaining: int, streak: int): (p: int)
    ensures p == JsRound((BasePoints + TimeBonusPerSecond * Max(0, remaining)) as real * StreakMultiplier(streak))
  {
    var raw := BasePoints + TimeBonusPerSecond * Max(0, remaining);
    if streak >= StreakThreshold then
      var p := (6 * raw + 2) / 5;
      assert 5 * p <= 6 * raw + 2 < 5 * p + 5;
      FloorIs(raw as real * 1.2 + 0.5, p);
      p
    else
      FloorIs(raw as real * 1.0 + 0.5, raw);
      raw
  }

  /** With the remaining time in 0..30 a correct answer is worth 100 to 192 points. */
  lemma PointsRange(remaining: int, streak: int)
    requires 0 <= remaining <= QuestionSeconds
    ensures BasePoints <= Points(remaining, streak) <= 192
    ensures streak < StreakThreshold ==> Points(remaining, streak) <= 160
  {
  }

  /** More remaining time never earns fewer points, and a streak bonus never earns fewer. */
  lemma PointsMonotone(t1: int, t2: int, s1: int, s2: int)
    requires t1 <= t2 && s1 <= s2
    ensures Points(t1, s1) <= Points(t2, s2)
  {
  }

  /** round((100 + 10 * 2) * 1.2) = 144 and round((100 + 25 * 2) * 1) = 150. */
  lemma PointsExamples()
    ensures Points(10, 3) == 144
    ensures Points(25, 1) == 150
    ensures Points(0, 0) == BasePoints
  {
  }

  /** The answer recorded for a connection in `currentAnswers`. */
  datatype Answer = Answer(answerIndex: int, isCorrect: bool, timestamp: int)

  /** One entry of a player's answer log. */
  datatype LogEntry = LogEntry(questionIndex: nat, answer: int, correct: bool, timestamp: int)

  datatype Player = Player(
    id: SocketId,
    name: string,
    specialty: string,
    score: int,
    streak: nat,
    bestStreak: nat,
    correctAnswers: nat,
    totalTime: int,
    answers: seq<LogEntry>)

  /** The record join-game stores: zeroed counters and an empty log. */
  function NewPlayer(id: SocketId, name: string, specialty: string): Player {
    Player(id, name, specialty, 0, 0, 0, 0, 0, [])
  }

  /** What starting a game does to each player: counters and log cleared, identity kept. */
  function ResetPlayer(p: Player): (q: Player)
    ensures Consistent(q)
  {
    p.(score := 0, streak := 0, bestStreak := 0, correctAnswers := 0, answers := [])
  }

  /**
   * Appends `entry` to the player's log and applies the scoring rules: a wrong
   * answer ends the streak; a correct one extends it, may raise the best
   * streak, and earns `Points` for the remaining time and the new streak.
   */
  function RecordAnswer(p: Player, entry: LogEntry, remaining: int): (q: Player)
    ensures q.answers == p.answers + [entry]
    ensures q.id == p.id && q.name == p.name && q.specialty == p.specialty && q.totalTime == p.totalTime
    ensures !entry.correct ==> q.score == p.score && q.streak == 0 && q.bestStreak == p.bestStreak && q.correctAnswers == p.correctAnswers
    ensures entry.correct ==> q.streak == p.streak + 1 && q.correctAnswers == p.correctAnswers + 1
    ensures entry.correct ==> q.bestStreak == Max(p.bestStreak, q.streak)
    ensures entry.correct ==> q.score == p.score + Points(remaining, q.streak)
    ensures Consistent(p) ==> Consistent(q)
  {
    var q := p.(answers := p.answers + [entry]);
    if entry.correct then
      var streak := q.streak + 1;
      var best := if streak > q.bestStreak then streak else q.bestStreak;
      var r := q.(correctAnswers := q.correctAnswers + 1, streak := streak, bestStreak := best, score := q.score + Points(remaining, streak));
      assert Consistent(p) ==> Consistent(r) by {
        if Consistent(p) {
          UpToAgree(p.answers, q.answers, |p.answers|);
        }
      }
      r
    else
      var r := q.(streak := 0);
      assert Consistent(p) ==> Consistent(r) by {
        if Consistent(p) {
          UpToAgree(p.answers, q.answers, |p.answers|);
        }
      }
      r
  }

  // A player's counters as functions of the answer log. Each is computed over
  // the first `n` entries of one log, so that a longer log reuses the values of
  // its prefix.

  /** The number of correct entries among the first `n`. */
  function CorrectUpTo(log: seq<LogEntry>, n: nat): (c: nat)
    requires n <= |log|
    ensures c <= n
  {
    if n == 0 then 0 else CorrectUpTo(log, n - 1) + (if log[n - 1].correct then 1 else 0)
  }

  /** The number of consecutive correct entries just before entry `n`. */
  function RunUpTo(log: seq<LogEntry>, n: nat): (c: nat)
    requires n <= |log|
    ensures c <= n
  {
    if n == 0 || !log[n - 1].correct then 0 else RunUpTo(log, n - 1) + 1
  }

  /** The longest run of consecutive correct entries among the first `n`. */
  function LongestUpTo(log: seq<LogEntry>, n: nat): (c: nat)
    requires n <= |log|
    ensures RunUpTo(log, n) <= c <= CorrectUpTo(log, n)
  {
    if n == 0 then 0 else Max(LongestUpTo(log, n - 1), RunUpTo(log, n))
  }

  /** The number of correct entries. */
  function CorrectCount(log: seq<LogEntry>): (n: nat)
    ensures n <= |log|
  {
    CorrectUpTo(log, |log|)
  }

  /** The number of consecutive correct entries at the end of the log. */
  function TrailingRun(log: seq<LogEntry>): (n: nat)
    ensures n <= |log|
  {
    RunUpTo(log, |log|)
  }

  /** The length of the longest run of consecutive correct entries. */
  function LongestRun(log: seq<LogEntry>): (n: nat)
    ensures TrailingRun(log) <= n <= CorrectCount(log)
  {
    LongestUpTo(log, |log|)
  }

  /** The counters over the first `n` entries depend on those entries only. */
  lemma {:induction false} UpToAgree(a: seq<LogEntry>, b: seq<LogEntry>, n: nat)
    requires n <= |a| && n <= |b|
    requires forall k :: 0 <= k < n ==> a[k] == b[k]
    ensures CorrectUpTo(a, n) == CorrectUpTo(b, n)
    ensures RunUpTo(a, n) == RunUpTo(b, n)
    ensures LongestUpTo(a, n) == LongestUpTo(b, n)
  {
    if n > 0 {
      UpToAgree(a, b, n - 1);
    }
  }

  /** Dropping the last entry of a log takes its contribution off the correct count. */
  lemma CorrectCountInit(log: seq<LogEntry>)
    requires log != []
    ensures CorrectCount(log) == CorrectCount(log[..|log| - 1]) + (if log[|log| - 1].correct then 1 else 0)
  {
    UpToAgree(log, log[..|log| - 1], |log| - 1);
  }

  /** The counters the source keeps match the log: the streak, the best streak and the correct count. */
  predicate Consistent(p: Player) {
    && p.correctAnswers == CorrectCount(p.answers)
    && p.streak == TrailingRun(p.answers)
    && p.bestStreak == LongestRun(p.answers)
  }

  /** Hence a player's streak never exceeds the best streak, nor that the number of correct answers. */
  lemma ConsistentBounds(p: Player)
    requires Consistent(p)
    ensures p.streak <= p.bestStreak <= p.correctAnswers <= |p.answers|
  {
  }

  predicate AllCorrect(log: seq<LogEntry>, i: int, j: int)
    requires 0 <= i <= j <= |log|
  {
    forall k :: i <= k < j ==> log[k].correct
  }

  /** Entries `i` to `i + n - 1` are all correct. */
  predicate CorrectWindow(log: seq<LogEntry>, i: int, n: nat) {
    0 <= i && i + n <= |log| && AllCorrect(log, i, i + n)
  }

  /**
   * The run ending before entry `n` is all correct and is preceded by a wrong
   * entry or by the start of the log; for `n == |log|` it is the streak.
   */
  lemma {:induction false} TrailingRunSpec(log: seq<LogEntry>, n: nat)
    requires n <= |log|
    ensures AllCorrect(log, n - RunUpTo(log, n), n)
    ensures RunUpTo(log, n) < n ==> !log[n - 1 - RunUpTo(log, n)].correct
  {
    if n > 0 && log[n - 1].correct {
      TrailingRunSpec(log, n - 1);
    }
  }

  /**
   * Among the first `n` entries, `LongestUpTo` is the length of a correct window,
   * and no correct window is longer; for `n == |log|` it is the best streak.
   */
  lemma {:induction false} LongestRunSpec(log: seq<LogEntry>, n: nat)
    requires n <= |log|
    ensures exists i :: CorrectWindow(log, i, LongestUpTo(log, n)) && i + LongestUpTo(log, n) <= n
    ensures forall i, j :: 0 <= i <= j <= n && AllCorrect(log, i, j) ==> j - i <= LongestUpTo(log, n)
  {
    if n == 0 {
      assert CorrectWindow(log, 0, LongestUpTo(log, 0));
    } else {
      LongestRunSpec(log, n - 1);
      TrailingRunSpec(log, n);
      var run := RunUpTo(log, n);
      if LongestUpTo(log, n) == run {
        assert CorrectWindow(log, n - run, run);
      } else {
        var i :| CorrectWindow(log, i, LongestUpTo(log, n - 1)) && i + LongestUpTo(log, n - 1) <= n - 1;
        assert CorrectWindow(log, i, LongestUpTo(log, n));
      }
      forall i, j | 0 <= i <= j <= n && AllCorrect(log, i, j)
        ensures j - i <= LongestUpTo(log, n)
      {
      }
    }
  }
}
