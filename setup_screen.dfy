/** Game setup (components/SetupScreen.tsx): the settings form and the
    roster of up to six players, and the start button that hands both to
    the session. */
module Setup {
  import opened GameTypes
  import Constants
  import JsString

  /** The roster holds at most six players. */
  const MaxPlayers := 6

  /** Starting needs at least two players. */
  const MinPlayers := 2

  /** `players.filter(p => p.id !== id)`. */
  function WithoutId(players: seq<Player>, id: string): (rest: seq<Player>)
    ensures |rest| <= |players|
    ensures forall p :: p in rest <==> p in players && p.id != id
  {
    if players == [] then []
    else if players[0].id == id then WithoutId(players[1..], id)
    else [players[0]] + WithoutId(players[1..], id)
  }

  /** Filtering distributes over concatenation, so the players that stay
      keep their relative order. */
  lemma {:induction false} WithoutIdAppend(a: seq<Player>, b: seq<Player>, id: string)
    ensures WithoutId(a + b, id) == WithoutId(a, id) + WithoutId(b, id)
  {
    if a == [] {
      assert a + b == b;
    } else {
      assert (a + b)[1..] == a[1..] + b;
      WithoutIdAppend(a[1..], b, id);
    }
  }

  /** Removing an id nobody has leaves the roster as it was. */
  lemma {:induction false} WithoutAbsentId(players: seq<Player>, id: string)
    requires forall i :: 0 <= i < |players| ==> players[i].id != id
    ensures WithoutId(players, id) == players
  {
    if players != [] {
      WithoutAbsentId(players[1..], id);
      assert players == [players[0]] + players[1..];
    }
  }

  /** Removing the same id twice is removing it once. */
  lemma {:induction false} WithoutIdIdempotent(players: seq<Player>, id: string)
    ensures WithoutId(WithoutId(players, id), id) == WithoutId(players, id)
  {
    var rest := WithoutId(players, id);
    forall i | 0 <= i < |rest| ensures rest[i].id != id {
      assert rest[i] in rest;
    }
    WithoutAbsentId(rest, id);
  }

  /** A roster entry as `addPlayer` creates it: a trimmed, non-empty name
      and no points. */
  predicate IsNewEntry(p: Player) {
    p.score == 0 && p.name != "" && JsString.Trim(p.name) == p.name
  }

  /** The roster's invariant. */
  predicate ValidRoster(players: seq<Player>) {
    |players| <= MaxPlayers && forall p :: p in players ==> IsNewEntry(p)
  }

  /** What `onStart` receives. */
  datatype StartRequest = StartRequest(config: GameConfig, players: seq<Player>)

  class SetupScreen {
    var language: Language
    var difficulty: Difficulty
    var maxPoints: int
    var timeLimit: int
    var playerInput: string
    var players: seq<Player>

    ghost predicate Valid()
      reads this
    {
      ValidRoster(players)
    }

    /** The form's initial state: English, medium, the default points and
        time limit, an empty name field and an empty roster. */
    constructor ()
      ensures Valid()
      ensures language == English && difficulty == Medium
      ensures maxPoints == Constants.DefaultMaxPoints() && timeLimit == Constants.DefaultTimeLimit()
      ensures playerInput == "" && players == []
    {
      language := English;
      difficulty := Medium;
      maxPoints := Constants.DefaultMaxPoints();
      timeLimit := Constants.DefaultTimeLimit();
      playerInput := "";
      players := [];
    }

    /** `addPlayer`, with `id` standing for the random id: when the trimmed
        input is not empty and the roster is not full, a player with that
        name and no points is appended and the input is cleared; otherwise
        neither the roster nor the input changes. */
    method AddPlayer(id: string)
      requires Valid()
      modifies this`players, this`playerInput
      ensures Valid()
      ensures var name := JsString.Trim(old(playerInput));
        if name != "" && |old(players)| < MaxPlayers then
          players == old(players) + [Player(id, name, 0)] && playerInput == ""
        else
          players == old(players) && playerInput == old(playerInput)
    {
      var name := JsString.Trim(playerInput);
      if name != "" && |players| < MaxPlayers {
        JsString.TrimIdempotent(playerInput);
        players := players + [Player(id, name, 0)];
        playerInput := "";
      }
    }

    /** `removePlayer(id)`: every player with that id leaves, the others
        stay in their order. */
    method RemovePlayer(id: string)
      requires Valid()
      modifies this`players
      ensures Valid()
      ensures players == WithoutId(old(players), id)
      ensures forall p :: p in players ==> p.id != id
    {
      players := WithoutId(players, id);
    }

    /** `handleStart`: with fewer than two players nothing is started;
        otherwise `onStart` receives the current settings and roster. */
    method HandleStart() returns (start: Option<StartRequest>)
      requires Valid()
      ensures start.None? <==> |players| < MinPlayers
      ensures start.Some? ==>
        start.value == StartRequest(GameConfig(language, difficulty, maxPoints, timeLimit), players)
      ensures start.Some? ==> MinPlayers <= |start.value.players| <= MaxPlayers
      ensures start.Some? ==> forall p :: p in start.value.players ==> p.score == 0
    {
      if |players| < MinPlayers {
        return None;
      }
      return Some(StartRequest(GameConfig(language, difficulty, maxPoints, timeLimit), players));
    }

    method SetLanguage(l: Language)
      modifies this`language
      ensures language == l
    {
      language := l;
    }

    method SetDifficulty(d: Difficulty)
      modifies this`difficulty
      ensures difficulty == d
    {
      difficulty := d;
    }

    method SetMaxPoints(points: int)
      modifies this`maxPoints
      ensures maxPoints == points
    {
      maxPoints := points;
    }

    method SetTimeLimit(seconds: int)
      modifies this`timeLimit
      ensures timeLimit == seconds
    {
      timeLimit := seconds;
    }

    method SetPlayerInput(text: string)
      modifies this`playerInput
      ensures playerInput == text
    {
      playerInput := text;
    }
  }
}
