/** One round (components/RoundScreen.tsx): load a topic, wait for the
    reveal, count down one second per tick, and report how the round ended.
    React state becomes fields, effects and handlers become methods, and
    the callback to the session is a returned `RoundOutcome`. */
module Round {
  import opened GameTypes
  import Constants
  import GeminiService
  import JsString

  /** What the round reports to the session: guessed or not, and the
      seconds it took. */
  datatype RoundOutcome = RoundOutcome(success: bool, elapsed: int)

  /** `{ ...topic, imageUrl }`: the same topic with its image set. */
  function WithImage(topic: GameTopic, url: string): (t: GameTopic)
    ensures t.secret == topic.secret && t.category == topic.category && t.forbidden == topic.forbidden
    ensures t.imageUrl == Some(url)
  {
    topic.(imageUrl := Some(url))
  }

  /** JavaScript's `%`: the remainder of the quotient truncated toward
      zero, so it lies strictly between -b and b and takes the sign of the
      dividend. On non-negative values it is Dafny's `%`. */
  function JsRemainder(a: int, b: int): (r: int)
    requires b > 0
    ensures -b < r < b && exists q :: a == q * b + r
    ensures a >= 0 ==> 0 <= r
    ensures a < 0 ==> r <= 0
    ensures a >= 0 ==> r == a % b
  {
    if a >= 0 then
      assert a == (a / b) * b + a % b;
      a % b
    else
      var q := (-a) / b;
      assert -a == q * b + (-a) % b;
      assert a == (-q) * b + -((-a) % b);
      -((-a) % b)
  }

  /** For a positive divisor, Dafny's `/` on integers is `Math.floor` of the
      exact quotient. */
  lemma {:induction false} DivIsFloor(a: int, b: int)
    requires b > 0
    ensures a / b == ((a as real) / (b as real)).Floor
  {
    var q, r := a / b, a % b;
    assert a == q * b + r && 0 <= r < b;
    var x := (a as real) / (b as real);
    assert x * (b as real) == a as real;
    assert (q as real) * (b as real) <= a as real < ((q + 1) as real) * (b as real);
    QuotientBetween(x, q, b as real);
  }

  lemma QuotientBetween(x: real, q: int, b: real)
    requires b > 0.0
    requires (q as real) * b <= x * b < ((q + 1) as real) * b
    ensures x.Floor == q
  {
    ProductsOrdered(q as real, x, b);
    ProductsStrictlyOrdered(x, (q + 1) as real, b);
  }

  lemma ProductsOrdered(a: real, c: real, b: real)
    requires b > 0.0 && a * b <= c * b
    ensures a <= c
  {
    assert (c - a) * b >= 0.0;
  }

  lemma ProductsStrictlyOrdered(a: real, c: real, b: real)
    requires b > 0.0 && a * b < c * b
    ensures a < c
  {
    assert (c - a) * b > 0.0;
  }

  /** The clock text `{Math.floor(t / 60)}:{(t % 60).toString().padStart(2, '0')}`. */
  function FormatTime(timeLeft: int): (text: string)
    ensures var minutes := JsString.IntToString(timeLeft / 60);
      |text| >= |minutes| + 3 && text[..|minutes|] == minutes && text[|minutes|] == ':'
  {
    var minutes := JsString.IntToString(timeLeft / 60);
    var seconds := JsString.PadStart(JsString.IntToString(JsRemainder(timeLeft, 60)), 2, '0');
    assert |seconds| >= 2;
    minutes + ":" + seconds
  }

  /** `text` is `minutes:seconds` with two digits of seconds below 60, and
      reading it back gives `timeLeft`: minutes * 60 + seconds. */
  predicate ReadsBackAs(text: string, timeLeft: int) {
    |text| >= 4 && text[|text| - 3] == ':'
    && JsString.AllDigits(text[..|text| - 3]) && JsString.AllDigits(text[|text| - 2..])
    && JsString.DecimalValue(text[|text| - 2..]) < 60
    && JsString.DecimalValue(text[..|text| - 3]) * 60 + JsString.DecimalValue(text[|text| - 2..]) == timeLeft
  }

  /** For a non-negative time the display reads back as the time. */
  lemma {:induction false} FormatTimeReadsBack(timeLeft: nat)
    ensures ReadsBackAs(FormatTime(timeLeft), timeLeft)
  {
    var minutes, seconds := timeLeft / 60, timeLeft % 60;
    var m := JsString.NatToString(minutes);
    var padded := JsString.PadStart(JsString.NatToString(seconds), 2, '0');
    ClockText(timeLeft);
    SecondsText(seconds);
    JsString.NatToStringRoundTrip(minutes);
    ClockReadsBack(FormatTime(timeLeft), m, padded, minutes, seconds, timeLeft);
  }

  /** The read-back of `m:padded` from the read-backs of its two fields. */
  lemma ClockReadsBack(text: string, m: string, padded: string, minutes: nat, seconds: nat, timeLeft: nat)
    requires text == m + ":" + padded
    requires |m| >= 1 && JsString.AllDigits(m) && JsString.DecimalValue(m) == minutes
    requires |padded| == 2 && JsString.AllDigits(padded) && JsString.DecimalValue(padded) == seconds
    requires seconds < 60 && minutes * 60 + seconds == timeLeft
    ensures ReadsBackAs(text, timeLeft)
  {
    ClockFields(text, m, padded);
    var minutesField, secondsField := text[..|text| - 3], text[|text| - 2..];
    assert minutesField == m && secondsField == padded;
    assert JsString.DecimalValue(minutesField) * 60 + JsString.DecimalValue(secondsField) == timeLeft;
  }

  /** For a non-negative time both fields print non-negative numbers. */
  lemma ClockText(timeLeft: nat)
    ensures FormatTime(timeLeft) ==
      JsString.NatToString(timeLeft / 60) + ":" + JsString.PadStart(JsString.NatToString(timeLeft % 60), 2, '0')
  {
    assert JsRemainder(timeLeft, 60) == timeLeft % 60;
  }

  /** Where the two fields sit in `minutes:seconds`. */
  lemma ClockFields(text: string, m: string, padded: string)
    requires |padded| == 2 && text == m + ":" + padded
    ensures |text| == |m| + 3 && text[|text| - 3] == ':'
    ensures text[..|text| - 3] == m && text[|text| - 2..] == padded
  {
  }

  /** The seconds field is exactly two digits that read back as the
      seconds. */
  lemma SecondsText(seconds: nat)
    requires seconds < 60
    ensures var padded := JsString.PadStart(JsString.IntToString(seconds), 2, '0');
      |padded| == 2 && JsString.AllDigits(padded) && JsString.DecimalValue(padded) == seconds
  {
    var s := JsString.NatToString(seconds);
    if seconds >= 10 {
      assert s == JsString.NatToString(seconds / 10) + [JsString.DigitChar(seconds % 10)];
    }
    JsString.NatToStringRoundTrip(seconds);
    JsString.ZeroPadValue(s, 2);
  }

  class RoundScreen {
    const config: GameConfig
    var loading: bool
    var topic: Option<GameTopic>
    var cluesVisible: bool
    var timeLeft: int
    var imageGenerating: bool
    var aspectRatio: string
    var imageSize: string

    /** The round's invariant. The clock stays at the time limit until the
        clues are revealed and afterwards lies in [0, timeLimit) once it has
        moved; the clues are only shown once loading has produced a topic;
        no image request is pending between handlers; the selected ratio and
        size are among the offered options. */
    ghost predicate Valid()
      reads this
    {
      && (timeLeft == config.timeLimit || 0 <= timeLeft < config.timeLimit)
      && (!cluesVisible ==> timeLeft == config.timeLimit)
      && (!loading ==> topic.Some?)
      && (cluesVisible ==> !loading)
      && !imageGenerating
      && Constants.IsOfferedAspectRatio(aspectRatio)
      && Constants.IsOfferedImageSize(imageSize)
    }

    /** The initial state when the round mounts: loading, no topic, clues
        hidden, the clock at the time limit, ratio "1:1" and size "1K". */
    constructor (config: GameConfig)
      ensures Valid()
      ensures this.config == config
      ensures loading && topic == None && !cluesVisible && timeLeft == config.timeLimit
      ensures !imageGenerating && aspectRatio == "1:1" && imageSize == "1K"
    {
      this.config := config;
      loading := true;
      topic := None;
      cluesVisible := false;
      timeLeft := config.timeLimit;
      imageGenerating := false;
      aspectRatio := "1:1";
      imageSize := "1K";
      new;
      assert Constants.AspectRatios()[0].value == "1:1";
      assert Constants.ImageSizes()[0].value == "1K";
    }

    /** The interval runs only while the topic is loaded, the clues are
        shown and time is left: so only while GOT IT and GIVE UP can be
        pressed, never while the reveal button is up, and never at zero. */
    predicate TimerRunning()
      reads this
      ensures TimerRunning() ==> OutcomeButtonsShown() && !RevealShown()
      ensures TimerRunning() ==> timeLeft > 0
    {
      !loading && cluesVisible && timeLeft > 0
    }

    /** The GOT IT and GIVE UP buttons exist only after loading and after
        the reveal. Once loading is over, exactly one of them and the
        reveal button is on screen. */
    predicate OutcomeButtonsShown()
      reads this
      ensures OutcomeButtonsShown() ==> !loading && !RevealShown()
      ensures !loading ==> (OutcomeButtonsShown() <==> !RevealShown())
    {
      !loading && cluesVisible
    }

    /** The REVEAL TOPIC button exists only after loading while the clues
        are hidden; while it is up, the clock still reads the full limit. */
    predicate RevealShown()
      reads this
      ensures RevealShown() ==> !loading
      ensures Valid() && RevealShown() ==> timeLeft == config.timeLimit && topic.Some?
    {
      !loading && !cluesVisible
    }

    /** `initRound`, from the moment the topic request settles: the clues
        are hidden, the topic is the one the provider produced from `reply`
        (with `r` standing for `Math.random()`), the clock is reset to the
        time limit and loading is over. */
    method LoadTopic(reply: GeminiService.TextReply, r: real)
      requires Valid()
      requires 0.0 <= r < 1.0
      modifies this
      ensures Valid()
      ensures !loading && !cluesVisible && timeLeft == config.timeLimit
      ensures topic == Some(GeminiService.GenerateTopic(config.language, reply, r))
      ensures imageGenerating == old(imageGenerating)
      ensures aspectRatio == old(aspectRatio) && imageSize == old(imageSize)
    {
      loading := true;
      cluesVisible := false;
      var newTopic := GeminiService.GenerateTopic(config.language, reply, r);
      topic := Some(newTopic);
      timeLeft := config.timeLimit;
      loading := false;
    }

    /** One second of the interval: the clock goes down by exactly one
        while the timer runs, and nothing changes otherwise. The clock
        never goes up and never below zero. */
    method Tick()
      requires Valid()
      modifies this`timeLeft
      ensures Valid()
      ensures old(TimerRunning()) ==> timeLeft == old(timeLeft) - 1
      ensures !old(TimerRunning()) ==> timeLeft == old(timeLeft)
      ensures timeLeft <= old(timeLeft)
      ensures old(timeLeft) >= 0 ==> timeLeft >= 0
    {
      if TimerRunning() {
        timeLeft := timeLeft - 1;
      }
    }

    /** The timer effect's other branch: when the clock reads zero the round
        ends as a failure that took the whole time limit. This is not gated
        on the reveal, so a time limit of 0 ends the round at once. */
    method TimeoutCheck() returns (outcome: Option<RoundOutcome>)
      requires Valid()
      ensures outcome.Some? <==> timeLeft == 0
      ensures outcome.Some? ==> outcome.value == RoundOutcome(false, config.timeLimit)
      ensures outcome.Some? ==> !TimerRunning()
      ensures outcome.Some? && !cluesVisible ==> config.timeLimit == 0
    {
      if TimerRunning() {
        outcome := None;
      } else if timeLeft == 0 {
        outcome := Some(RoundOutcome(false, config.timeLimit));
      } else {
        outcome := None;
      }
    }

    /** REVEAL TOPIC: shows the clues, which starts the clock. */
    method Reveal()
      requires Valid() && RevealShown()
      modifies this`cluesVisible
      ensures Valid() && cluesVisible
      ensures OutcomeButtonsShown()
    {
      cluesVisible := true;
    }

    /** GOT IT: a success that took the time used so far, which lies in
        [0, timeLimit] for a non-negative limit. */
    method GotIt() returns (outcome: RoundOutcome)
      requires Valid() && OutcomeButtonsShown()
      ensures outcome.success
      ensures outcome.elapsed == config.timeLimit - timeLeft
      ensures 0 <= outcome.elapsed && (config.timeLimit >= 0 ==> outcome.elapsed <= config.timeLimit)
    {
      outcome := RoundOutcome(true, config.timeLimit - timeLeft);
    }

    /** GIVE UP: a failure that took the time used so far. */
    method GiveUp() returns (outcome: RoundOutcome)
      requires Valid() && OutcomeButtonsShown()
      ensures !outcome.success
      ensures outcome.elapsed == config.timeLimit - timeLeft
      ensures 0 <= outcome.elapsed && (config.timeLimit >= 0 ==> outcome.elapsed <= config.timeLimit)
    {
      outcome := RoundOutcome(false, config.timeLimit - timeLeft);
    }

    /** `handleGenerateImage`, with the image call settling on `reply`:
        without a topic nothing happens; otherwise a returned URL is merged
        into the topic (same secret, category and forbidden words) and no
        URL leaves the topic as it was. No request is pending afterwards,
        and the clock, the reveal and loading are untouched. */
    method GenerateImage(reply: GeminiService.ImageReply)
      requires Valid()
      modifies this`topic, this`imageGenerating
      ensures Valid() && !imageGenerating
      ensures old(topic).None? ==> topic == None
      ensures old(topic).Some? && GeminiService.ImageClue(reply).Some? ==>
        topic == Some(WithImage(old(topic).value, GeminiService.ImageClue(reply).value))
      ensures GeminiService.ImageClue(reply).None? ==> topic == old(topic)
    {
      if topic.None? {
        return;
      }
      imageGenerating := true;
      var url := GeminiService.GenerateImageClue(reply);
      if url.Some? {
        topic := Some(WithImage(topic.value, url.value));
      }
      imageGenerating := false;
    }

    /** The aspect-ratio select: only offered values can be chosen. */
    method SelectAspectRatio(value: string)
      requires Valid() && Constants.IsOfferedAspectRatio(value)
      modifies this`aspectRatio
      ensures Valid() && aspectRatio == value
    {
      aspectRatio := value;
    }

    /** The image-size select: only offered values can be chosen. */
    method SelectImageSize(value: string)
      requires Valid() && Constants.IsOfferedImageSize(value)
      modifies this`imageSize
      ensures Valid() && imageSize == value
    {
      imageSize := value;
    }
  }
}
