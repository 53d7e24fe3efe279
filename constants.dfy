/** The literal tables of constants.ts and their well-formedness. */
module Constants {
  import opened GameTypes

  /** `DEFAULT_TIME_LIMIT`: a round lasts 90 seconds unless set otherwise,
      a positive limit, so the clock starts at the reveal. */
  function DefaultTimeLimit(): (seconds: int)
    ensures seconds == 90 && seconds > 0
  {
    90
  }

  /** `DEFAULT_MAX_POINTS`: 10 points win unless set otherwise, a positive
      target, so no player has won before the first round. */
  function DefaultMaxPoints(): (points: int)
    ensures points == 10 && points > 0
  {
    10
  }

  datatype LanguageEntry = LanguageEntry(code: Language, name: string, flag: string)

  datatype DifficultyEntry = DifficultyEntry(level: Difficulty, name: string, color: string)

  function LanguageCodes(entries: seq<LanguageEntry>): (codes: seq<Language>)
    ensures |codes| == |entries|
    ensures forall i :: 0 <= i < |entries| ==> codes[i] == entries[i].code
  {
    if entries == [] then [] else [entries[0].code] + LanguageCodes(entries[1..])
  }

  function DifficultyLevels(entries: seq<DifficultyEntry>): (levels: seq<Difficulty>)
    ensures |levels| == |entries|
    ensures forall i :: 0 <= i < |entries| ==> levels[i] == entries[i].level
  {
    if entries == [] then [] else [entries[0].level] + DifficultyLevels(entries[1..])
  }

  lemma EveryLanguageListed(codes: seq<Language>)
    requires codes == [English, Finnish, Vietnamese]
    ensures forall l: Language :: l in codes
  {
    forall l: Language ensures l in codes {
      match l
      case English => assert codes[0] == l;
      case Finnish => assert codes[1] == l;
      case Vietnamese => assert codes[2] == l;
    }
  }

  lemma EveryDifficultyListed(levels: seq<Difficulty>)
    requires levels == [Easy, Medium, Hard]
    ensures forall d: Difficulty :: d in levels
  {
    forall d: Difficulty ensures d in levels {
      match d
      case Easy => assert levels[0] == d;
      case Medium => assert levels[1] == d;
      case Hard => assert levels[2] == d;
    }
  }

  /** LANGUAGES: every language is listed, and listed once. */
  function Languages(): (entries: seq<LanguageEntry>)
    ensures forall l: Language :: l in LanguageCodes(entries)
    ensures forall i, j :: 0 <= i < j < |entries| ==> entries[i].code != entries[j].code
  {
    var entries := [
      LanguageEntry(English, "English", "\U{1F1FA}\U{1F1F8}"),
      LanguageEntry(Finnish, "Finnish", "\U{1F1EB}\U{1F1EE}"),
      LanguageEntry(Vietnamese, "Vietnamese", "\U{1F1FB}\U{1F1F3}") ];
    assert LanguageCodes(entries) == [English, Finnish, Vietnamese];
    EveryLanguageListed(LanguageCodes(entries));
    entries
  }

  /** DIFFICULTIES: every difficulty is listed, and listed once. */
  function Difficulties(): (entries: seq<DifficultyEntry>)
    ensures forall d: Difficulty :: d in DifficultyLevels(entries)
    ensures forall i, j :: 0 <= i < j < |entries| ==> entries[i].level != entries[j].level
  {
    var entries := [
      DifficultyEntry(Easy, "Easy", "bg-green-100 text-green-700"),
      DifficultyEntry(Medium, "Medium", "bg-yellow-100 text-yellow-700"),
      DifficultyEntry(Hard, "Hard", "bg-red-100 text-red-700") ];
    assert DifficultyLevels(entries) == [Easy, Medium, Hard];
    EveryDifficultyListed(DifficultyLevels(entries));
    entries
  }

  /** ASPECT_RATIOS: the six ratios the image select offers. */
  function AspectRatios(): (options: seq<AspectRatioOption>)
    ensures |options| == 6
  {
    [ AspectRatioOption("1:1 (Square)", "1:1"),
      AspectRatioOption("16:9 (Cinema)", "16:9"),
      AspectRatioOption("9:16 (Phone)", "9:16"),
      AspectRatioOption("4:3 (Classic)", "4:3"),
      AspectRatioOption("3:2 (Photo)", "3:2"),
      AspectRatioOption("21:9 (Ultrawide)", "21:9") ]
  }

  /** The ratios of the table, in order. */
  lemma AspectRatioValuesListed()
    ensures AspectRatios()[0].value == "1:1" && AspectRatios()[1].value == "16:9"
    ensures AspectRatios()[2].value == "9:16" && AspectRatios()[3].value == "4:3"
    ensures AspectRatios()[4].value == "3:2" && AspectRatios()[5].value == "21:9"
  {
  }

  /** Every offered ratio is one the option type allows, and "2:3" and
      "3:4" are not offered. */
  lemma AspectRatiosAllowed()
    ensures forall i :: 0 <= i < |AspectRatios()| ==> IsAspectRatio(AspectRatios()[i].value)
    ensures forall i :: 0 <= i < |AspectRatios()| ==> AspectRatios()[i].value !in {"2:3", "3:4"}
  {
    AspectRatioValuesListed();
  }

  /** Each ratio is offered once. */
  lemma AspectRatiosDistinct()
    ensures forall i, j :: 0 <= i < j < |AspectRatios()| ==> AspectRatios()[i].value != AspectRatios()[j].value
  {
    AspectRatioValuesListed();
  }

  /** IMAGE_SIZES: the three sizes the image select offers. */
  function ImageSizes(): (options: seq<ImageSizeOption>)
    ensures |options| == 3
  {
    [ ImageSizeOption("Standard (1K)", "1K"),
      ImageSizeOption("High Def (2K)", "2K"),
      ImageSizeOption("Ultra HD (4K)", "4K") ]
  }

  /** The offered sizes are exactly the sizes the option type allows. */
  lemma ImageSizesExact()
    ensures forall v :: IsImageSize(v) <==> exists i :: 0 <= i < |ImageSizes()| && ImageSizes()[i].value == v
  {
    var options := ImageSizes();
    assert options[0].value == "1K" && options[1].value == "2K" && options[2].value == "4K";
  }

  predicate IsOfferedAspectRatio(v: string) {
    exists i :: 0 <= i < |AspectRatios()| && AspectRatios()[i].value == v
  }

  predicate IsOfferedImageSize(v: string) {
    exists i :: 0 <= i < |ImageSizes()| && ImageSizes()[i].value == v
  }

  /** A topic as the fallback tables write it: no image. */
  function Topic(secret: string, category: string, forbidden: seq<string>): (t: GameTopic)
    ensures t.imageUrl == None
  {
    GameTopic(secret, category, forbidden, None)
  }

  /** FALLBACK_TOPICS: every language has a pool of two topics, each with a
      non-empty secret and category, exactly five forbidden words and no
      image. */
  function FallbackTopics(language: Language): (pool: seq<GameTopic>)
    ensures |pool| == 2
    ensures forall t :: t in pool ==>
      t.secret != "" && t.category != "" && |t.forbidden| == 5 && t.imageUrl == None
  {
    match language
    case English => [
      Topic("Apple", "Fruit", ["Fruit", "Red", "Eat", "Crunchy", "Pie"]),
      Topic("Pencil", "Stationery", ["Write", "Lead", "Eraser", "Draw", "Wood"]) ]
    case Finnish => [
      Topic("Omena", "Hedelmä", ["Hedelmä", "Punainen", "Syödä", "Rapea", "Piirakka"]),
      Topic("Kynä", "Toimistotarvike", ["Kirjoittaa", "Lyijy", "Kumi", "Piirtää", "Puu"]) ]
    case Vietnamese => [
      Topic("Quả táo", "Trái cây", ["Trái cây", "Đỏ", "Ăn", "Giòn", "Bánh"]),
      Topic("Bút chì", "Văn phòng phẩm", ["Viết", "Chì", "Tẩy", "Vẽ", "Gỗ"]) ]
  }
}
