/**
 * The heads-up display (GameUI.java): an observer of the engine that keeps
 * the level, score and status message it shows and redraws through a
 * renderer. Every redraw is appended to the renderer's log of frames; the
 * console box drawing is reduced to the two rules it applies to its inputs.
 */
module Hud {
  import opened Optional

  /** What one `Renderer.draw(level, score, msg)` call receives. */
  datatype Frame = Frame(level: int, score: int, msg: string)

  /** The rendering strategy, as the log of the frames it has been asked to draw. */
  class Renderer {
    var frames: seq<Frame>

    constructor ()
      ensures frames == []
    {
      frames := [];
    }

    method Draw(level: int, score: int, msg: string)
      modifies this`frames
      ensures frames == old(frames) + [Frame(level, score, msg)]
    {
      frames := frames + [Frame(level, score, msg)];
    }
  }

  /** The width of the status cell of the console box. */
  const StatusWidth: nat := 27

  /**
   * The status cell of `ConsoleRenderer.draw`: a placeholder for a missing
   * or empty message, otherwise at most the first 27 characters of it.
   */
  function StatusText(msg: Option<string>): (t: string)
  {
    if msg.Some? && msg.value != [] then
      if |msg.value| > StatusWidth then msg.value[..StatusWidth] else msg.value
    else "[Waiting...]"
  }

  /** The level cell of `ConsoleRenderer.draw`: negative levels show as 0. */
  function LevelCell(level: int): (n: nat)
  {
    if level > 0 then level else 0
  }

  /**
   * A message is shown whole when it fits in 27 characters and cut to its
   * first 27 otherwise; the placeholder stands for no message at all.
   */
  lemma StatusTextFacts(msg: Option<string>)
    ensures msg.None? || msg.value == [] ==> StatusText(msg) == "[Waiting...]"
    ensures msg.Some? && msg.value != [] ==>
      && |StatusText(msg)| <= StatusWidth
      && StatusText(msg) <= msg.value
      && (|msg.value| <= StatusWidth <==> StatusText(msg) == msg.value)
      && |StatusText(msg)| == (if |msg.value| < StatusWidth then |msg.value| else StatusWidth)
  {
  }

  /** Cutting a status twice cuts nothing more. */
  lemma StatusTextIdempotent(msg: string)
    requires msg != []
    ensures StatusText(Some(StatusText(Some(msg)))) == StatusText(Some(msg))
  {
  }

  /** The level cell is the level itself for positive levels and 0 otherwise. */
  lemma LevelCellFacts(level: int)
    ensures level > 0 ==> LevelCell(level) == level
    ensures level <= 0 ==> LevelCell(level) == 0
  {
  }

  /** The character of a decimal digit. */
  function DigitChar(d: nat): char
    requires d < 10
  {
    ('0' as int + d) as char
  }

  /** The value of a decimal digit character. */
  function DigitValue(c: char): nat
  {
    if '0' <= c <= '9' then (c - '0') as nat else 0
  }

  /** The decimal digits of a natural number, most significant first. */
  function Digits(n: nat): (s: string)
    ensures |s| >= 1
    ensures forall i :: 0 <= i < |s| ==> '0' <= s[i] <= '9'
    decreases n
  {
    if n < 10 then [DigitChar(n)] else Digits(n / 10) + [DigitChar(n % 10)]
  }

  /** The number a string of decimal digits denotes. */
  function ValueOf(s: string): nat
  {
    if s == [] then 0 else 10 * ValueOf(s[..|s| - 1]) + DigitValue(s[|s| - 1])
  }

  /** Java's decimal rendering of an `int`, as string concatenation produces it. */
  function DecimalString(n: int): string
  {
    if n < 0 then "-" + Digits(-n) else Digits(n)
  }

  /** Reading the digits back gives the number, and only 0 starts with the digit 0. */
  lemma {:induction false} DigitsRoundTrip(n: nat)
    ensures ValueOf(Digits(n)) == n
    ensures Digits(n)[0] == '0' <==> n == 0
    decreases n
  {
    if n >= 10 {
      DigitsRoundTrip(n / 10);
      var s := Digits(n);
      assert s[..|s| - 1] == Digits(n / 10);
      assert s[0] == Digits(n / 10)[0];
      assert DigitValue(s[|s| - 1]) == n % 10;
      assert ValueOf(s) == 10 * (n / 10) + n % 10;
    }
  }

  /** The number a decimal text with an optional leading minus denotes. */
  function ValueOfDecimal(s: string): int
  {
    if s != [] && s[0] == '-' then -(ValueOf(s[1..]) as int) else ValueOf(s)
  }

  /** Reading a rendered number back gives the number. */
  lemma DecimalStringRoundTrip(n: int)
    ensures ValueOfDecimal(DecimalString(n)) == n
  {
    if n < 0 {
      DigitsRoundTrip(-n);
      assert DecimalString(n)[1..] == Digits(-n);
    } else {
      DigitsRoundTrip(n);
    }
  }

  /** Distinct scores produce distinct texts. */
  lemma DecimalStringInjective(a: int, b: int)
    requires DecimalString(a) == DecimalString(b)
    ensures a == b
  {
    DecimalStringRoundTrip(a);
    DecimalStringRoundTrip(b);
  }

  /** The status text of the game-over screen. */
  function GameOverText(finalScore: int): string
  {
    "GAME OVER! Score: " + DecimalString(finalScore)
  }

  /** Why a display cannot be built. */
  datatype Built = Built(ui: GameUI) | Rejected(reason: string)

  class GameUI {
    var currentLevel: int
    var displayedScore: int
    var message: string
    var lastMessage: string
    const renderer: Renderer

    /** What the display keeps: a level that is 0 or a real level, and a score that is not negative. */
    ghost predicate Valid()
      reads this
    {
      currentLevel >= 0 && displayedScore >= 0
    }

    /** `GameUI(renderer)` for a renderer that is present: level 0, score 0, no message. */
    constructor (r: Renderer)
      ensures renderer == r
      ensures currentLevel == 0 && displayedScore == 0 && message == "" && lastMessage == ""
      ensures Valid()
    {
      renderer := r;
      currentLevel := 0;
      displayedScore := 0;
      message := "";
      lastMessage := "";
    }

    /** `GameUI()`: a display drawing through a new console renderer. */
    constructor Console()
      ensures fresh(renderer) && renderer.frames == []
      ensures currentLevel == 0 && displayedScore == 0 && message == "" && lastMessage == ""
      ensures Valid()
    {
      renderer := new Renderer();
      currentLevel := 0;
      displayedScore := 0;
      message := "";
      lastMessage := "";
    }

    /** `GameUI(renderer)` with Java's null check: a missing renderer is rejected. */
    static method Create(r: Renderer?) returns (b: Built)
      ensures r == null <==> b.Rejected?
      ensures b.Rejected? ==> b.reason == "renderer cannot be null"
      ensures b.Built? ==> fresh(b.ui) && b.ui.renderer == r && b.ui.message == "" && b.ui.Valid()
      ensures b.Built? ==> b.ui.currentLevel == 0 && b.ui.displayedScore == 0 && b.ui.lastMessage == ""
    {
      if r == null {
        return Rejected("renderer cannot be null");
      }
      var ui := new GameUI(r);
      return Built(ui);
    }

    /** `render()`: one frame with the current level, score and message. */
    method Render()
      modifies renderer`frames
      ensures renderer.frames == old(renderer.frames) + [Frame(currentLevel, displayedScore, message)]
    {
      renderer.Draw(currentLevel, displayedScore, message);
    }

    /** `onLevelChanged`: levels below 1 are ignored; nothing is drawn. */
    method OnLevelChanged(level: int)
      requires Valid()
      modifies this`currentLevel
      ensures currentLevel == if level < 1 then old(currentLevel) else level
      ensures Valid()
    {
      if level < 1 {
        return;
      }
      currentLevel := level;
    }

    /** `onScoreChanged`: the shown score is clamped at 0, and one frame is drawn. */
    method OnScoreChanged(score: int)
      requires Valid()
      modifies this`displayedScore, renderer`frames
      ensures displayedScore == if score < 0 then 0 else score
      ensures renderer.frames == old(renderer.frames) + [Frame(currentLevel, displayedScore, message)]
      ensures Valid()
    {
      displayedScore := if 0 < score then score else 0;
      Render();
    }

    /**
     * `onMessage`: a missing message counts as "". A message equal to the
     * last one changes nothing and draws nothing; any other becomes both the
     * message and the last message, and is drawn once.
     */
    method OnMessage(msg: Option<string>)
      modifies this`message, this`lastMessage, renderer`frames
      ensures var text := if msg.None? then "" else msg.value;
        if text == old(lastMessage) then
          message == old(message) && lastMessage == old(lastMessage) && renderer.frames == old(renderer.frames)
        else
          message == text && lastMessage == text
          && renderer.frames == old(renderer.frames) + [Frame(currentLevel, displayedScore, text)]
      ensures old(Valid()) ==> Valid()
    {
      var newMessage := if msg.None? then "" else msg.value;
      if newMessage == lastMessage {
        return;
      }
      message := newMessage;
      lastMessage := newMessage;
      Render();
    }

    /**
     * `onGameEnded`: shows the final score and draws once. The last message
     * is kept, so repeating it afterwards is still suppressed.
     */
    method OnGameEnded(finalScore: int)
      modifies this`message, renderer`frames
      ensures message == GameOverText(finalScore)
      ensures lastMessage == old(lastMessage)
      ensures renderer.frames == old(renderer.frames) + [Frame(currentLevel, displayedScore, GameOverText(finalScore))]
      ensures old(Valid()) ==> Valid()
    {
      message := "GAME OVER! Score: " + DecimalString(finalScore);
      Render();
    }
  }

  /** The game-over text names the score, and different scores give different texts. */
  lemma GameOverTextFacts(a: int, b: int)
    ensures GameOverText(a)[..18] == "GAME OVER! Score: "
    ensures GameOverText(a) == GameOverText(b) ==> a == b
  {
    if GameOverText(a) == GameOverText(b) {
      assert GameOverText(a)[18..] == DecimalString(a);
      assert GameOverText(b)[18..] == DecimalString(b);
      DecimalStringInjective(a, b);
    }
  }
}
