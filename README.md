# Behind the Screen Guesser — a verified model of the game core

Behind the Screen Guesser is a party word-guessing game. Clue-givers
describe a secret topic to one player, the guesser, who cannot see the
screen. Each round the topic comes from a text-generation service, with a
built-in fallback pool. The clue-givers can ask an image-generation service
for a picture hint. A guess earns one point, plus a speed bonus of one point
when it took less than half the round's time. The first guesser to reach the
target wins. The turn to guess passes round-robin.

This project models that core in Dafny and proves what it promises:

- `types.dfy` (module `GameTypes`) holds the enums and records of `types.ts`.
- `constants.dfy` (module `Constants`) holds the literal tables of
  `constants.ts` and proves them well formed.
- `js_string.dfy` (module `JsString`) holds the ECMAScript string built-ins
  the game relies on: `trim` with the exact ECMAScript whitespace set,
  integer `toString` and `padStart`, with their round-trip lemmas.
- `gemini_service.dfy` (module `GeminiService`) holds the defaulting and
  fallback logic of `generateTopic` and the first-inline-part scan of
  `generateImageClue`. Each remote reply is an input value.
- `round_screen.dfy` (module `Round`) holds the round controller as the
  class `RoundScreen`. It covers loading, reveal, tick, timeout, GOT IT /
  GIVE UP and the image merge, plus the `m:ss` clock text.
- `setup_screen.dfy` (module `Setup`) holds the setup form as the class
  `SetupScreen`. It covers adding and removing players and the start guard.
- `standings.dfy` (module `Standings`) holds the stable ordering of the
  final standings, as a reference insertion sort.
- `session.dfy` (module `Session`) holds the session controller. Its state
  is the value `SessionState`, and the `On…` functions are its transitions.
  The class `App` keeps the roster in an array, as the component does. Each
  of its handlers is proved to perform the matching transition. Lemmas
  cover multi-round play, and three worked examples are included.

Behaviour of the code worth noting:

- After the results screen, "Start Round" goes straight to the round
  (`CLUE_GIVING`). No separate next-round step is taken.
- Play Again only changes the screen back to the lobby. It does not reset
  players, scores, settings, winner or guesser index.
- The final standings are fully determined. The sort of ECMAScript 2019 and
  later is stable, so equal scores keep their roster order.
- The setup screen's heading says "Players (3-6)" (components/SetupScreen.tsx:117),
  but the code starts a game with two players.
- The topic's image is added by building a new topic object; the old one is
  not mutated.

## Model

| member | source | states |
|---|---|---|
| GameTypes.Language.Code | types.ts:2-6 | each language's string value is a two-letter code ("en", "fi", "vi") |
| GameTypes.Difficulty.Code | types.ts:8-12 | each difficulty has a non-empty string value |
| GameTypes.GameState.Code | types.ts:14-22 | each of the seven screens has a non-empty string value |
| GameTypes.EnumCodesAreDistinct | types.ts:2-22 | within each enum, no two members share a string value |
| Constants.DefaultTimeLimit | constants.ts:4 | a round lasts 90 seconds by default, a positive limit |
| Constants.DefaultMaxPoints | constants.ts:5 | 10 points win by default, a positive target |
| Constants.Languages | constants.ts:7-11 | the language table lists every language, each exactly once |
| Constants.Difficulties | constants.ts:13-17 | the difficulty table lists every difficulty, each exactly once |
| Constants.AspectRatios | constants.ts:19-26 | the image select offers six ratios |
| Constants.AspectRatioValuesListed | constants.ts:19-26 | the offered ratios are 1:1, 16:9, 9:16, 4:3, 3:2 and 21:9, in that order |
| Constants.AspectRatiosAllowed | constants.ts:19-26 | every offered ratio is allowed by the option type, and "2:3" and "3:4" are not offered |
| Constants.AspectRatiosDistinct | constants.ts:19-26 | no ratio is offered twice |
| Constants.ImageSizes | constants.ts:28-32 | the image select offers three sizes |
| Constants.ImageSizesExact | constants.ts:28-32 | a value is offered exactly when it is a size the option type allows (1K, 2K, 4K) |
| Constants.FallbackTopics | constants.ts:34-47 | every language has a pool of two topics; each has a non-empty secret and category, exactly five forbidden words and no image |
| JsString.Trim | components/SetupScreen.tsx:19-20 | the result is the input with a whitespace-only prefix and suffix cut off, it has no whitespace at either end, and it is empty exactly when the input is blank |
| JsString.TrimIdempotent | components/SetupScreen.tsx:19-20 | trimming a trimmed name changes nothing |
| JsString.NatToString | components/RoundScreen.tsx:90 | a non-negative number prints as decimal digits with no leading zero, one digit exactly below 10 |
| JsString.IntToString | components/RoundScreen.tsx:90 | a negative number prints as a minus sign before the digits of its magnitude |
| JsString.NatToStringRoundTrip | components/RoundScreen.tsx:90 | reading the printed digits back gives the number |
| JsString.PadStart | components/RoundScreen.tsx:90 | padding keeps the text as a suffix, fills the front with the pad character and reaches the width |
| JsString.ZeroPadValue | components/RoundScreen.tsx:90 | zero-padding a digit string keeps its value |
| GeminiService.LanguageName | services/geminiService.ts:13-17 | the prompt's language name is the name the language table gives the same language |
| GeminiService.OrElse | services/geminiService.ts:51-52 | the `or` default keeps a present non-empty string and otherwise gives the fallback |
| GeminiService.TopicFromData | services/geminiService.ts:49-54 | secret and category are kept when truthy and default to "Unknown" and "Miscellaneous"; forbidden words are kept when present and empty otherwise; no image; the secret is never empty |
| GeminiService.FallbackIndex | services/geminiService.ts:57-58 | `floor(r * n)` with r in [0, 1) is a valid index into a pool of n |
| GeminiService.GenerateTopic | services/geminiService.ts:28-58 | every reply yields a topic with a non-empty secret and no image; a failure picks the pool entry at `floor(r * 2)`; empty text gives the three defaults, not a fallback; parsed text goes through the defaults |
| GeminiService.ResponseParts | services/geminiService.ts:86 | the first candidate's parts, or none when candidates, the first candidate's content or its parts are missing |
| GeminiService.FirstInlineUrl | services/geminiService.ts:86-91 | nothing exactly when no part has inline data; otherwise the data URL of the first part that has it, ending in "undefined" when that part has no `data` |
| GeminiService.FirstInlineUnique | services/geminiService.ts:86-90 | there is only one first part with inline data |
| GeminiService.FirstInlineImage | services/geminiService.ts:86-91 | the early-return loop over the parts computes the first-inline data URL |
| GeminiService.ImageClue | services/geminiService.ts:69-95 | a failed call gives no URL; a URL always starts with `data:image/png;base64,`, so it is never empty |
| GeminiService.GenerateImageClue | services/geminiService.ts:62-96 | returns the URL of the first inline part of the first candidate's parts, and nothing on failure or when no part carries an image |
| Round.WithImage | components/RoundScreen.tsx:57 | the merged topic has the same secret, category and forbidden words, and the new image |
| Round.JsRemainder | components/RoundScreen.tsx:90 | JavaScript `%` is a remainder of truncated division: `a == q * b + r` for some whole q, with r strictly between -b and b and of the sign of the dividend; on non-negative values it agrees with Euclidean remainder |
| Round.DivIsFloor | components/RoundScreen.tsx:90 | integer division by a positive divisor is `Math.floor` of the exact quotient |
| Round.FormatTime | components/RoundScreen.tsx:90 | the clock text starts with the printed minutes and a colon, followed by at least two characters of seconds |
| Round.FormatTimeReadsBack | components/RoundScreen.tsx:90 | the clock text is minutes, a colon and two digits of seconds; seconds are below 60 and minutes * 60 + seconds is the time left |
| Round.SecondsText | components/RoundScreen.tsx:90 | the seconds field is exactly two digits that read back as the seconds |
| Round.RoundScreen.constructor | components/RoundScreen.tsx:14-20 | a round mounts loading, with no topic, hidden clues, the clock at the limit, ratio 1:1 and size 1K |
| Round.RoundScreen.TimerRunning | components/RoundScreen.tsx:37 | the interval runs only while the outcome buttons are shown, never while the reveal button is, and only with time left |
| Round.RoundScreen.OutcomeButtonsShown | components/RoundScreen.tsx:62-109 | GOT IT and GIVE UP appear only after loading; once loaded, they are shown exactly when the reveal button is not |
| Round.RoundScreen.RevealShown | components/RoundScreen.tsx:62-109 | the reveal button appears only after loading, and while it is up the topic is loaded and the clock reads the full limit |
| Round.RoundScreen.LoadTopic | components/RoundScreen.tsx:22-29 | after loading the clues are hidden, the topic is the provider's, the clock is back at the limit and loading is over |
| Round.RoundScreen.Tick | components/RoundScreen.tsx:37-40 | a tick lowers the clock by exactly one only while loaded, revealed and above zero; the clock never rises and never drops below zero |
| Round.RoundScreen.TimeoutCheck | components/RoundScreen.tsx:41-42 | the round ends exactly when the clock reads zero, as a failure taking the whole limit; before the reveal that happens only with a zero limit |
| Round.RoundScreen.Reveal | components/RoundScreen.tsx:94-107 | the reveal button exists only after loading while the clues are hidden, and it shows them, which brings up the outcome buttons |
| Round.RoundScreen.GotIt | components/RoundScreen.tsx:138 | reports a success taking `timeLimit - timeLeft` seconds, which lies in [0, timeLimit] |
| Round.RoundScreen.GiveUp | components/RoundScreen.tsx:144 | reports a failure taking `timeLimit - timeLeft` seconds, which lies in [0, timeLimit] |
| Round.RoundScreen.GenerateImage | components/RoundScreen.tsx:47-60 | no topic means no change; a URL is merged into the topic; no URL leaves it as it was; no request is pending afterwards |
| Round.RoundScreen.SelectAspectRatio | components/RoundScreen.tsx:172-178 | only offered ratios are selected |
| Round.RoundScreen.SelectImageSize | components/RoundScreen.tsx:179-185 | only offered sizes are selected |
| Setup.WithoutId | components/SetupScreen.tsx:25-27 | the filtered roster holds exactly the players whose id differs |
| Setup.WithoutIdAppend | components/SetupScreen.tsx:26 | filtering distributes over concatenation, so the remaining players keep their order |
| Setup.WithoutAbsentId | components/SetupScreen.tsx:26 | removing an id nobody has leaves the roster unchanged |
| Setup.WithoutIdIdempotent | components/SetupScreen.tsx:25-27 | removing the same id twice is removing it once |
| Setup.SetupScreen.constructor | components/SetupScreen.tsx:11-16 | the form starts with English, medium, the default points and time limit, an empty input and an empty roster |
| Setup.SetupScreen.AddPlayer | components/SetupScreen.tsx:18-23 | a non-blank trimmed name is appended with score 0 and the input is cleared when fewer than six players exist; otherwise nothing changes; the roster stays at most six players, all with score 0 and trimmed non-empty names |
| Setup.SetupScreen.RemovePlayer | components/SetupScreen.tsx:25-27 | the roster becomes the filtered roster, and no player with that id remains |
| Setup.SetupScreen.HandleStart | components/SetupScreen.tsx:29-35 | below two players nothing starts; otherwise the current settings and roster are handed on, with 2 to 6 players all at score 0 |
| Setup.SetupScreen.SetLanguage | components/SetupScreen.tsx:53 | the chosen language is stored |
| Setup.SetupScreen.SetDifficulty | components/SetupScreen.tsx:76 | the chosen difficulty is stored |
| Setup.SetupScreen.SetMaxPoints | components/SetupScreen.tsx:97 | the entered target is stored |
| Setup.SetupScreen.SetTimeLimit | components/SetupScreen.tsx:106 | the entered time limit is stored |
| Setup.SetupScreen.SetPlayerInput | components/SetupScreen.tsx:126 | the typed name is stored |
| Standings.NonIncreasingPairwise | App.tsx:156 | standings ordered between neighbours put each player at or above everyone after them |
| Standings.Insert | App.tsx:156 | inserting adds exactly one player, keeps the rest, and puts either the new player or the former first player first |
| Standings.InsertSorted | App.tsx:156 | inserting into ordered standings keeps them ordered |
| Standings.SortByScore | App.tsx:156 | the standings are a permutation of the roster with scores never going up |
| Standings.InsertKeepsTies | App.tsx:156 | an inserted player lands before every player with its own score |
| Standings.SortIsStable | App.tsx:156 | for every score, the players with that score keep their roster order |
| Standings.SortOfSorted | App.tsx:156 | ordered standings are left as they are |
| Standings.SortIdempotent | App.tsx:156 | sorting the standings again changes nothing |
| Session.InitialSession | App.tsx:9-18 | the session starts in the lobby with English, medium, the default target and time limit, no players, index 0, no winner, and the invariant holds |
| Session.RoundPoints | App.tsx:30-36 | a success earns 1 or 2 points, and 2 exactly when the time taken is below half the limit |
| Session.HalfLimit | App.tsx:34 | on whole seconds, `timeTaken < timeLimit / 2` is `2 * timeTaken < timeLimit` |
| Session.OnCreateRoom | App.tsx:70 | the lobby leads to setup, and nothing else changes |
| Session.OnStartGame | App.tsx:20-25 | the settings and roster are installed, the first player guesses, the next-round screen shows, and the invariant holds for a non-empty roster |
| Session.OnStartRound | App.tsx:96-114 | from the next-round or results screen the round begins, and nothing else changes |
| Session.OnRoundComplete | App.tsx:27-51 | a failure changes no score and passes the turn round-robin to the results; a success adds 1 or 2 to the guesser only; at the target the guesser wins, the game is over and the turn stays; otherwise the turn passes; the invariant is kept |
| Session.OnPlayAgain | App.tsx:164-165 | back to the lobby, with roster, settings, winner and guesser index kept |
| Session.WithStandings | App.tsx:156 | the roster is replaced by its stable descending order, the same players, and the winner is still among them |
| Session.PlayRound | App.tsx:27-51 | one round from the next-round screen ends in the results or the game's end and keeps the invariant, the settings and the roster size; the turn passes unless the game is over |
| Session.PlayRounds | App.tsx:27-51 | any sequence of rounds keeps the invariant, the settings and the roster size |
| Session.RoundsNeverLowerScores | App.tsx:31-35 | over any rounds every player keeps their place, id and name, and no score goes down |
| Session.RoundsRotateGuesser | App.tsx:48-50 | while the game is not over, after k rounds the guesser is k places further on, modulo the roster size |
| Session.FailedRoundsKeepScores | App.tsx:27-50 | rounds that all fail change no score and no winner and end on the results screen |
| Session.RoundsStopAtTarget | App.tsx:40-45 | when every score starts below the target, a game that is not over still has every score below it |
| Session.ExampleSession | App.tsx:20-25 | three players A, B and C, target 2, 90 seconds, A to guess |
| Session.ExampleQuickWin | App.tsx:27-45 | A guessing in 40 seconds scores 2 and wins at once, with no rotation |
| Session.ExampleSlowThenTimeout | App.tsx:27-50 | A guessing in 60 seconds scores 1 and B guesses next; B timing out changes nothing and C guesses next |
| Session.App.constructor | App.tsx:9-18 | the component mounts in the initial session state |
| Session.App.CreateRoom | App.tsx:70 | performs the create-room transition |
| Session.App.StartGame | App.tsx:20-25 | holds the roster in a new array and performs the start-game transition |
| Session.App.StartRound | App.tsx:114 | performs the start-round transition |
| Session.App.HandleRoundComplete | App.tsx:27-51 | scoring on a copy of the roster, one `+ 1` at a time, performs the round-complete transition and keeps the invariant |
| Session.App.PlayAgain | App.tsx:165 | performs the play-again transition |
| Session.App.ShowStandings | App.tsx:156 | reorders the same roster array in place into the stable descending standings |

## Left out

- The remote calls themselves, the model names, the API key and the prompt
  text are not modelled. Each call's outcome is an input value. For text it
  is a failure, empty text, or the parsed fields. For images it is a failure
  or the response's candidates. The difficulty and the image ratio and size
  only shape the requests, so they do not appear in the service functions.
- The credential prompt before an image request is not modelled. It is a
  foreign dialog, and the request goes ahead whatever it returns.
- `Math.random()` is a parameter. For the fallback choice it is a real number
  in [0, 1). For player ids the id is passed in, and its random format is not
  modelled.
- Timers, effects and asynchronous scheduling become explicit methods: `Tick`,
  `TimeoutCheck`, `LoadTopic` and `GenerateImage`. Interleavings are not
  modelled, such as an image reply arriving after the round has ended or a
  tick landing mid-request.
- `JSON.parse` is not modelled; its result is the parsed-fields input. A
  parse error, or fields of the wrong type, count as a failure or are given
  as absent. `console.error` and `alert` are not modelled.
- Settings typed into number inputs can become NaN or fractions. Only
  integers are modelled.
- Scores, time limits, targets and the clock are unbounded integers here.
  JavaScript numbers are doubles, exact only up to 2^53, so rounding at
  larger magnitudes is not modelled.
- Round.RoundScreen.Valid: the invariant assumes a time limit that does not
  change during a round. A negative limit is allowed and simply never
  starts the clock.
- Session.App.HandleRoundComplete: the copied roster shares its player
  objects with the old one. The source's `score += 1` therefore also alters
  the previous state's objects. Players are values here, so that aliasing is
  not captured. Nothing reads the old roster afterwards.
- Session.App.StartGame: requires a non-empty roster. With none, the
  next-round screen would index past the roster's end. Its only caller, the
  setup screen, hands on at least two players.
- The JSX markup, styling, the warning colour under ten seconds and the
  static header component are not modelled.
