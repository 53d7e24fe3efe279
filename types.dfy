/** The game's enums and records (types.ts). */
module GameTypes {

  datatype Option<+T> = None | Some(value: T)

  /** The three languages a topic can be asked for. */
  datatype Language = English | Finnish | Vietnamese {
    /** The enum's string value. */
    function Code(): (c: string)
      ensures |c| == 2
    {
      match this
      case English => "en"
      case Finnish => "fi"
      case Vietnamese => "vi"
    }
  }

  /** The three difficulty tiers. */
  datatype Difficulty = Easy | Medium | Hard {
    function Code(): (c: string)
      ensures c != ""
    {
      match this
      case Easy => "easy"
      case Medium => "medium"
      case Hard => "hard"
    }
  }

  /** The screens of a session. `Guessing` is declared but no handler ever
      enters it. */
  datatype GameState = Lobby | Setup | RoundStart | ClueGiving | Guessing | Results | GameOver {
    function Code(): (c: string)
      ensures c != ""
    {
      match this
      case Lobby => "lobby"
      case Setup => "setup"
      case RoundStart => "round_start"
      case ClueGiving => "clue_giving"
      case Guessing => "guessing"
      case Results => "results"
      case GameOver => "game_over"
    }
  }

  /** The enum string values identify the enum members: no two members of
      one enum share a value. */
  lemma EnumCodesAreDistinct()
    ensures forall a: Language, b: Language :: a.Code() == b.Code() ==> a == b
    ensures forall a: Difficulty, b: Difficulty :: a.Code() == b.Code() ==> a == b
    ensures forall a: GameState, b: GameState :: a.Code() == b.Code() ==> a == b
  {
  }

  /** One round's topic; `imageUrl` is the optional member. */
  datatype GameTopic = GameTopic(secret: string, category: string, forbidden: seq<string>, imageUrl: Option<string>)

  datatype Player = Player(id: string, name: string, score: int)

  /** Game settings. Both numbers come from numeric inputs; only integer
      values are modelled. */
  datatype GameConfig = GameConfig(language: Language, difficulty: Difficulty, maxPoints: int, timeLimit: int)

  /** The string values `AspectRatioOption.value` may take. */
  const AspectRatioValues: set<string> := {"1:1", "2:3", "3:2", "3:4", "4:3", "9:16", "16:9", "21:9"}

  /** The string values `ImageSizeOption.value` may take. */
  const ImageSizeValues: set<string> := {"1K", "2K", "4K"}

  /** An option of a select box (`label` is a Dafny keyword, hence `caption`). */
  datatype AspectRatioOption = AspectRatioOption(caption: string, value: string)

  datatype ImageSizeOption = ImageSizeOption(caption: string, value: string)

  predicate IsAspectRatio(v: string) {
    v in AspectRatioValues
  }

  predicate IsImageSize(v: string) {
    v in ImageSizeValues
  }
}
