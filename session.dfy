/** The session controller (App.tsx): the screen the game is on, the
    settings, the players and their scores, whose turn it is to guess, and
    the winner. `SessionState` is the controller's state as a value and the
    `On…` functions are its transitions; the `App` class holds the same
    state in fields, with the roster in an array as the component holds it,
    and each of its handlers is proved to perform the matching transition. */
module Session {
  import opened GameTypes
  import Constants
  import Round
  import Standings

  datatype SessionState = SessionState(
    gameState: GameState,
    config: GameConfig,
    players: seq<Player>,
    guesserIndex: int,
    winner: Option<Player>)

  /** The state the component mounts with: the lobby, English, medium, 10
      points to win, 90 seconds per round, no players, the first guesser
      and no winner. */
  function InitialSession(): (s: SessionState)
    ensures s.gameState == Lobby && s.players == [] && s.guesserIndex == 0 && s.winner == None
    ensures s.config == GameConfig(English, Medium, Constants.DefaultMaxPoints(), Constants.DefaultTimeLimit())
    ensures Invariant(s)
  {
    SessionState(Lobby, GameConfig(English, Medium, 10, 90), [], 0, None)
  }

  /** What holds between handlers. GUESSING is never entered; the guesser
      index is a position of the roster whenever there is one; the screens
      that show the next guesser or run a round have a roster; the game is
      over only with a winner from the roster who reached the target. */
  predicate Invariant(s: SessionState) {
    && s.gameState != Guessing
    && 0 <= s.guesserIndex
    && (|s.players| > 0 ==> s.guesserIndex < |s.players|)
    && (s.gameState == RoundStart || s.gameState == ClueGiving || s.gameState == Results ==> |s.players| > 0)
    && (s.gameState == GameOver ==>
          s.winner.Some? && s.winner.value in s.players && s.winner.value.score >= s.config.maxPoints)
  }

  /** The points a successful round earns: 1, plus a speed bonus of 1 when
      the guess took less than half the time limit. The source compares
      `timeTaken < timeLimit / 2` in floating point; on whole seconds that
      is exactly `2 * timeTaken < timeLimit`. */
  function RoundPoints(timeTaken: int, timeLimit: int): (points: int)
    ensures points == 1 || points == 2
    ensures points == 2 <==> (timeTaken as real) < (timeLimit as real) / 2.0
  {
    HalfLimit(timeTaken, timeLimit);
    if 2 * timeTaken < timeLimit then 2 else 1
  }

  lemma HalfLimit(timeTaken: int, timeLimit: int)
    ensures 2 * timeTaken < timeLimit <==> (timeTaken as real) < (timeLimit as real) / 2.0
  {
    assert (timeLimit as real) / 2.0 * 2.0 == timeLimit as real;
  }

  /** CREATE ROOM: the lobby leads to the setup screen; nothing else
      changes. */
  function OnCreateRoom(s: SessionState): (r: SessionState)
    requires s.gameState == Lobby
    ensures r.gameState == Setup
    ensures r.config == s.config && r.players == s.players
    ensures r.guesserIndex == s.guesserIndex && r.winner == s.winner
    ensures Invariant(s) ==> Invariant(r)
  {
    s.(gameState := Setup)
  }

  /** `startGame`: installs the settings and the roster, makes the first
      player the guesser and shows the next-round screen. The winner of an
      earlier game is kept. The invariant needs a non-empty roster, which
      the setup screen guarantees (it starts only with two or more). */
  function OnStartGame(s: SessionState, config: GameConfig, players: seq<Player>): (r: SessionState)
    ensures r.gameState == RoundStart && r.config == config && r.players == players
    ensures r.guesserIndex == 0 && r.winner == s.winner
    ensures |players| > 0 ==> Invariant(r)
  {
    s.(config := config, players := players, gameState := RoundStart, guesserIndex := 0)
  }

  /** Start Round: from the next-round screen (first round or after a
      result) the round begins; nothing else changes. */
  function OnStartRound(s: SessionState): (r: SessionState)
    requires s.gameState == RoundStart || s.gameState == Results
    ensures r.gameState == ClueGiving
    ensures r.config == s.config && r.players == s.players
    ensures r.guesserIndex == s.guesserIndex && r.winner == s.winner
    ensures Invariant(s) ==> Invariant(r)
  {
    s.(gameState := ClueGiving)
  }

  /** `handleRoundComplete(success, timeTaken)`.
      - A failure changes no score and no winner, passes the turn to the
        next player round-robin and shows the results.
      - A success adds the round's points to the guesser and to nobody else.
        If the guesser then has at least the target, they become the winner
        and the game is over with the turn not passed on; otherwise the turn
        passes and the results are shown, as after a failure.
      Names, ids, the roster's length and the settings never change. */
  function OnRoundComplete(s: SessionState, success: bool, timeTaken: int): (r: SessionState)
    requires 0 <= s.guesserIndex < |s.players|
    ensures r.config == s.config && |r.players| == |s.players|
    ensures forall i :: 0 <= i < |s.players| ==>
      r.players[i].id == s.players[i].id && r.players[i].name == s.players[i].name
    ensures forall i :: 0 <= i < |s.players| && i != s.guesserIndex ==> r.players[i] == s.players[i]
    ensures !success ==> r.players == s.players && r.winner == s.winner
    ensures success ==>
      r.players[s.guesserIndex].score == s.players[s.guesserIndex].score + RoundPoints(timeTaken, s.config.timeLimit)
    ensures r.gameState == GameOver <==> success && r.players[s.guesserIndex].score >= s.config.maxPoints
    ensures r.gameState == GameOver ==>
      r.winner == Some(r.players[s.guesserIndex]) && r.guesserIndex == s.guesserIndex
    ensures r.gameState != GameOver ==>
      r.gameState == Results && r.guesserIndex == (s.guesserIndex + 1) % |s.players| && r.winner == s.winner
    ensures Invariant(s) ==> Invariant(r)
  {
    var g := s.guesserIndex;
    if success then
      var guesser := s.players[g];
      var scored := guesser.(score := guesser.score + RoundPoints(timeTaken, s.config.timeLimit));
      var players := s.players[g := scored];
      if scored.score >= s.config.maxPoints then
        s.(players := players, winner := Some(scored), gameState := GameOver)
      else
        s.(players := players, guesserIndex := (g + 1) % |s.players|, gameState := Results)
    else
      s.(guesserIndex := (g + 1) % |s.players|, gameState := Results)
  }

  /** Play Again: back to the lobby. Only the screen changes; the roster,
      the scores, the settings, the winner and the guesser index are kept
      until the next game is started. */
  function OnPlayAgain(s: SessionState): (r: SessionState)
    requires s.gameState == GameOver
    ensures r.gameState == Lobby
    ensures r.config == s.config && r.players == s.players
    ensures r.guesserIndex == s.guesserIndex && r.winner == s.winner
    ensures Invariant(s) ==> Invariant(r)
  {
    s.(gameState := Lobby)
  }

  /** The game-over screen's standings, which replace the roster: the same
      players, highest score first, ties in roster order. The winner is
      still among them. */
  function WithStandings(s: SessionState): (r: SessionState)
    ensures r.players == Standings.SortByScore(s.players)
    ensures multiset(r.players) == multiset(s.players)
    ensures Standings.NonIncreasing(r.players)
    ensures r.gameState == s.gameState && r.config == s.config
    ensures r.guesserIndex == s.guesserIndex && r.winner == s.winner
    ensures Invariant(s) ==> Invariant(r)
  {
    var sorted := Standings.SortByScore(s.players);
    assert forall p :: p in s.players ==> p in multiset(sorted);
    s.(players := sorted)
  }

  /** One full round from the next-round screen: Start Round, then the
      round's outcome. */
  function PlayRound(s: SessionState, outcome: Round.RoundOutcome): (r: SessionState)
    requires Invariant(s) && (s.gameState == RoundStart || s.gameState == Results)
    ensures Invariant(r) && (r.gameState == Results || r.gameState == GameOver)
    ensures r.config == s.config && |r.players| == |s.players|
    ensures r.gameState != GameOver ==> r.guesserIndex == (s.guesserIndex + 1) % |s.players|
  {
    OnRoundComplete(OnStartRound(s), outcome.success, outcome.elapsed)
  }

  /** Rounds played one after another until the outcomes run out or the
      game is over. */
  function PlayRounds(s: SessionState, outcomes: seq<Round.RoundOutcome>): (r: SessionState)
    requires Invariant(s) && (s.gameState == RoundStart || s.gameState == Results)
    ensures Invariant(r)
    ensures r.gameState == GameOver || r.gameState == s.gameState || r.gameState == Results
    ensures r.config == s.config && |r.players| == |s.players|
    decreases |outcomes|
  {
    if outcomes == [] then s
    else
      var next := PlayRound(s, outcomes[0]);
      if next.gameState == GameOver then next else PlayRounds(next, outcomes[1..])
  }

  /** One step of `PlayRounds`. */
  lemma PlayRoundsStep(s: SessionState, outcomes: seq<Round.RoundOutcome>)
    requires Invariant(s) && (s.gameState == RoundStart || s.gameState == Results)
    requires outcomes != [] && PlayRound(s, outcomes[0]).gameState != GameOver
    ensures PlayRounds(s, outcomes) == PlayRounds(PlayRound(s, outcomes[0]), outcomes[1..])
  {
  }

  /** Over any number of rounds the roster keeps its players in place and
      no score goes down. */
  lemma {:induction false} RoundsNeverLowerScores(s: SessionState, outcomes: seq<Round.RoundOutcome>)
    requires Invariant(s) && (s.gameState == RoundStart || s.gameState == Results)
    ensures var r := PlayRounds(s, outcomes);
      forall i :: 0 <= i < |s.players| ==>
        r.players[i].id == s.players[i].id && r.players[i].name == s.players[i].name
        && r.players[i].score >= s.players[i].score
    decreases |outcomes|
  {
    if outcomes != [] {
      var next := PlayRound(s, outcomes[0]);
      if next.gameState != GameOver {
        PlayRoundsStep(s, outcomes);
        RoundsNeverLowerScores(next, outcomes[1..]);
      }
    }
  }

  /** The turn passes round-robin: while the game is not over, after k
      rounds the guesser is the player k places further on, modulo the
      roster's length. */
  lemma {:induction false} RoundsRotateGuesser(s: SessionState, outcomes: seq<Round.RoundOutcome>)
    requires Invariant(s) && (s.gameState == RoundStart || s.gameState == Results)
    ensures var r := PlayRounds(s, outcomes);
      r.gameState != GameOver ==> r.guesserIndex == (s.guesserIndex + |outcomes|) % |s.players|
    decreases |outcomes|
  {
    var n := |s.players|;
    if outcomes == [] {
      DivUnique(s.guesserIndex, 0, s.guesserIndex, n);
    } else {
      var next := PlayRound(s, outcomes[0]);
      if next.gameState != GameOver {
        PlayRoundsStep(s, outcomes);
        RoundsRotateGuesser(next, outcomes[1..]);
        var r := PlayRounds(next, outcomes[1..]);
        if r.gameState != GameOver {
          RotateStep(s.guesserIndex, next.guesserIndex, r.guesserIndex, |outcomes| - 1, n);
        }
      }
    }
  }

  /** One more round moves the turn one further place on. */
  lemma RotateStep(g: int, h: int, m: int, k: nat, n: int)
    requires 0 <= g && n > 0 && h == (g + 1) % n && m == (h + k) % n
    ensures m == (g + (k + 1)) % n
  {
    ModSuccessor(g, k, n);
  }

  lemma ModSuccessor(g: int, k: nat, n: int)
    requires 0 <= g && n > 0
    ensures ((g + 1) % n + k) % n == (g + (k + 1)) % n
  {
    var q := (g + 1) / n;
    assert g + 1 == q * n + (g + 1) % n;
    ModShift((g + 1) % n + k, q, n);
  }

  lemma ModShift(a: int, q: int, n: int)
    requires n > 0
    ensures (a + q * n) % n == a % n
  {
    assert a + q * n == (a / n + q) * n + a % n;
    DivUnique(a + q * n, a / n + q, a % n, n);
  }

  lemma DivUnique(b: int, q: int, m: int, n: int)
    requires n > 0 && 0 <= m < n && b == q * n + m
    ensures b % n == m
  {
    var q', m' := b / n, b % n;
    assert (q - q') * n == m' - m;
    MultipleSign(q - q', n);
  }

  lemma MultipleSign(d: int, n: int)
    requires n > 0
    ensures d >= 1 ==> d * n >= n
    ensures d <= -1 ==> d * n <= -n
  {
    if d >= 1 {
      assert d * n == (d - 1) * n + n;
    } else if d <= -1 {
      assert d * n == (d + 1) * n - n;
    }
  }

  /** Rounds that all fail change no score and no winner, and after at
      least one of them the results screen is showing. */
  lemma {:induction false} FailedRoundsKeepScores(s: SessionState, outcomes: seq<Round.RoundOutcome>)
    requires Invariant(s) && (s.gameState == RoundStart || s.gameState == Results)
    requires forall k :: 0 <= k < |outcomes| ==> !outcomes[k].success
    ensures PlayRounds(s, outcomes).players == s.players
    ensures PlayRounds(s, outcomes).winner == s.winner
    ensures outcomes != [] ==> PlayRounds(s, outcomes).gameState == Results
    decreases |outcomes|
  {
    if outcomes != [] {
      var next := PlayRound(s, outcomes[0]);
      assert !outcomes[0].success;
      FailedRoundsKeepScores(next, outcomes[1..]);
    }
  }

  /** Nobody passes the target unnoticed: if every score starts below the
      target and the game is not over, every score is still below it. */
  lemma {:induction false} RoundsStopAtTarget(s: SessionState, outcomes: seq<Round.RoundOutcome>)
    requires Invariant(s) && (s.gameState == RoundStart || s.gameState == Results)
    requires forall i :: 0 <= i < |s.players| ==> s.players[i].score < s.config.maxPoints
    ensures var r := PlayRounds(s, outcomes);
      r.gameState != GameOver ==> forall i :: 0 <= i < |r.players| ==> r.players[i].score < r.config.maxPoints
    decreases |outcomes|
  {
    if outcomes != [] {
      var next := PlayRound(s, outcomes[0]);
      if next.gameState != GameOver {
        PlayRoundsStep(s, outcomes);
        assert forall i :: 0 <= i < |next.players| ==> next.players[i].score < next.config.maxPoints;
        RoundsStopAtTarget(next, outcomes[1..]);
      }
    }
  }

  /** Three players A, B and C with 0 points, 2 points to win and 90
      seconds per round, A to guess. */
  function ExampleSession(): (s: SessionState)
    ensures Invariant(s) && s.gameState == RoundStart && |s.players| == 3 && s.guesserIndex == 0
  {
    OnStartGame(InitialSession(), GameConfig(English, Medium, 2, 90),
      [Player("a", "A", 0), Player("b", "B", 0), Player("c", "C", 0)])
  }

  /** A guesses in 40 seconds, under half of 90: two points, which is the
      target, so A wins at once and the turn does not pass. */
  lemma ExampleQuickWin()
    ensures var r := PlayRound(ExampleSession(), Round.RoundOutcome(true, 40));
      r.gameState == GameOver && r.winner == Some(Player("a", "A", 2)) && r.guesserIndex == 0
  {
  }

  /** A guesses in 60 seconds: one point, no win, B guesses next. Then B's
      round times out: a failure taking the whole 90 seconds, no score
      changes, C guesses next. */
  lemma ExampleSlowThenTimeout()
    ensures var r1 := PlayRound(ExampleSession(), Round.RoundOutcome(true, 60));
      r1.gameState == Results && r1.players[0].score == 1 && r1.guesserIndex == 1
      && var r2 := PlayRound(r1, Round.RoundOutcome(false, 90));
         r2.gameState == Results && r2.players == r1.players && r2.guesserIndex == 2
  {
  }

  class App {
    var gameState: GameState
    var config: GameConfig
    var players: array<Player>
    var guesserIndex: int
    var winner: Option<Player>

    /** The component's state as a value. */
    ghost function State(): SessionState
      reads this, players
    {
      SessionState(gameState, config, players[..], guesserIndex, winner)
    }

    ghost predicate Valid()
      reads this, players
    {
      Invariant(State())
    }

    constructor ()
      ensures Valid() && State() == InitialSession()
    {
      gameState := Lobby;
      config := GameConfig(English, Medium, 10, 90);
      players := new Player[0];
      guesserIndex := 0;
      winner := None;
    }

    /** CREATE ROOM (shown in the lobby). */
    method CreateRoom()
      requires Valid() && gameState == Lobby
      modifies this
      ensures Valid() && State() == OnCreateRoom(old(State()))
    {
      gameState := Setup;
    }

    /** `startGame(gameConfig, initialPlayers)`, the setup screen's
      `onStart`: the roster is held in a new array. */
    method StartGame(gameConfig: GameConfig, initialPlayers: seq<Player>)
      requires Valid() && |initialPlayers| > 0
      modifies this
      ensures Valid() && fresh(players)
      ensures State() == OnStartGame(old(State()), gameConfig, initialPlayers)
    {
      config := gameConfig;
      players := new Player[|initialPlayers|](i requires 0 <= i < |initialPlayers| => initialPlayers[i]);
      gameState := RoundStart;
      guesserIndex := 0;
    }

    /** Start Round (shown on the next-round screen). */
    method StartRound()
      requires Valid() && (gameState == RoundStart || gameState == Results)
      modifies this
      ensures Valid() && State() == OnStartRound(old(State()))
    {
      gameState := ClueGiving;
    }

    /** `handleRoundComplete(success, timeTaken)`, the round's callback:
        a copy of the roster gets the guesser's points, one `+ 1` at a
        time, and replaces the roster. */
    method HandleRoundComplete(success: bool, timeTaken: int)
      requires Valid() && gameState == ClueGiving
      modifies this
      ensures State() == OnRoundComplete(old(State()), success, timeTaken)
      ensures Valid()
    {
      var g := guesserIndex;
      if success {
        var roster := players[..];
        var updated := new Player[|roster|](i requires 0 <= i < |roster| => roster[i]);
        assert updated[..] == roster;
        updated[g] := updated[g].(score := updated[g].score + 1);
        if 2 * timeTaken < config.timeLimit {
          updated[g] := updated[g].(score := updated[g].score + 1);
        }
        assert updated[..] == roster[g := updated[g]];
        players := updated;
        if updated[g].score >= config.maxPoints {
          winner := Some(updated[g]);
          gameState := GameOver;
          return;
        }
      }
      guesserIndex := (g + 1) % players.Length;
      gameState := Results;
    }

    /** Play Again (shown when the game is over). */
    method PlayAgain()
      requires Valid() && gameState == GameOver
      modifies this
      ensures Valid() && State() == OnPlayAgain(old(State()))
    {
      gameState := Lobby;
    }

    /** The game-over screen sorts the roster array in place by descending
        score; the array object stays the same. */
    method ShowStandings()
      requires Valid() && gameState == GameOver
      modifies players
      ensures Valid() && State() == WithStandings(old(State()))
    {
      var sorted := Standings.SortByScore(players[..]);
      forall i | 0 <= i < players.Length {
        players[i] := sorted[i];
      }
      assert players[..] == sorted;
      assert State() == WithStandings(old(State()));
    }
  }
}
