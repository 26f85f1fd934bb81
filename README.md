# Floor-tile memory game host, modelled in Dafny

The host program runs a "Simon says" game on a floor of six lit tiles. It
talks to two microcontrollers over one serial link, one byte per message: the
floor panel (Arduino 1), which lights tiles and reports pressed tiles, and a
wearable (Arduino 2), which reports a start button and two bonus flags
(acceleration and heart rate). In each level the host shows a random tile
sequence, then checks the player's steps tile by tile. A passed level asks the
wearable for its bonus report (up to three times), adds the level score and
goes on to the next level. A wrong step applies the fail rule and ends the
game. A heads-up display observes the engine and redraws on changes.

The model consists of these modules:

- `Wire` (wire.dfy) is the byte codec of `ArduinoMessage`. `Parse` and
  `EncodeTileOn` are functions, and lemmas state how they decode and encode
  the bits.
- `Scoring` (scoring.dfy) holds the integer part of `ScoringSystem`. The
  exponential time score enters as an opaque integer.
- `Stats` (stats.dfy) models `PlayerStats` as a class whose methods update its
  timestamps, bonus flags and total in place.
- `Serial` (serial.dfy) models the serial port as a class `Link`:
  - a queue of arrivals, where -1 is a poll that finds nothing;
  - a log of the bytes written.
- `Observer` (observer.dfy) lists the four notifications the engine sends.
- `GameRules` (rules.dfy) is the specification of the engine.
  - It defines the command bytes, sequence generation, playback, the
    three-way input decision, the flush, and the bonus-retrieval windows.
  - Each engine operation is a function on a `Snapshot` of the whole state.
  - Lemmas state what a passed, failed or stalled level does and what a
    whole session does.
- `Engine` (engine.dfy) is the class `GameEngine`, with the source's fields
  and loops.
  - The level and game methods (`HandleLevelPass`, `EndGame`,
    `HandleLevelFail`, `WaitForPlayerInput`, `ShowSequence`, `NextLevel`,
    `ResetGame`, `StartGame`, `PlayLevel` and `Play`) are proved to leave
    exactly the snapshot the matching `GameRules` function computes
    (`State() == AfterPass(old(State()), ...)` and so on).
  - The other methods are proved against their own `GameRules` functions:
    `DrawTile` against `Sample`, `GenerateSequence` against `Generated`,
    `PlaySequence` against `Playback`, `Flush` against `Flushed`,
    `AwaitBonusReport` against `PollWindow`, `RequestBonusReport` against
    `Retrieve`, `LatchBonus` against `BonusNotices`, and `ReadSteps`
    against `Replay`.
  - `Notify` states its effect on the event log directly.
  - `java.util.Random` is replaced by a supplied stream of draws.
  - Clock readings are parameters.
  - Each one-second bonus window is a number of polls.
- `Hud` (hud.dfy) is the class `GameUI`. Its renderer keeps a log of drawn
  frames. The console box is reduced to its 27-character status cut and its
  level cell.

## Model

| member | source | states |
|---|---|---|
| Wire.SignedUnsignedInverse | ArduinoMessage.java:57-58 | `(byte)` and `& 0xFF` undo each other, and a byte is non-negative exactly when its unsigned value is below 128 |
| Wire.Make | ArduinoMessage.java:30-39 | the constructor stores the raw value and the mask cut to its low six bits |
| Wire.MakeStores | ArduinoMessage.java:32-38 | the constructor keeps the sender and the four flags as given |
| Wire.FloorMaskBits | ArduinoMessage.java:67 | the floor mask `u & 0x3F` presses tile t exactly when bit t-1 of u is set, for t in 1..6 |
| Wire.PressedTileMask | GameEngine.java:170 | the one-hot mask of tile n passes the `(mask >> (t-1)) & 1` test for tile n and for no other tile |
| Wire.Parse | ArduinoMessage.java:57-87 | decoding is total and keeps `b & 0xFF`; bit 7 clear gives a floor message whose mask is bits 0-5 and whose wearable flags are false; bit 7 set gives a wearable message with mask 0, start = bit 3, accel = bit 1, hr = bit 0 and report = not start |
| Wire.EncodeTileOn | ArduinoMessage.java:95-98 | the LED command always lies in 0..63 |
| Wire.ShiftCount | ArduinoMessage.java:96 | Java's shift count for `1 << (n - 1)` is in 0..31 |
| Wire.EncodeTileOnValue | ArduinoMessage.java:95-98 | the LED command is 2^s for a shift count s below 6, and 0 otherwise |
| Wire.ParseTotal | ArduinoMessage.java:57-61 | each of the 256 byte values decodes, keeps its unsigned value, and is a floor message exactly when it is below 128 |
| Wire.FloorIgnoresBitSix | ArduinoMessage.java:61-68 | bit 6 of a floor byte changes neither the sender nor the mask |
| Wire.StopByteIsEmptyMask | ArduinoMessage.java:61-68 | 0x40 decodes to a floor message pressing no tile |
| Wire.WearableIgnoresOtherBits | ArduinoMessage.java:69-86 | two wearable bytes that agree on bits 0, 1 and 3 decode to messages equal in every flag |
| Wire.StartOrReport | ArduinoMessage.java:63-86 | a wearable message is exactly one of start and bonus report; a floor message is neither |
| Wire.EncodeTileOnOneHot | ArduinoMessage.java:95-98 | for n in 1..6 the command is `1 << (n - 1)`: one of the low six bits set and bit 7 clear |
| Wire.EncodeTileOnOutOfRange | ArduinoMessage.java:96-97 | tile 0 and tiles 7..32 encode to 0, because the shift count wraps at 32 and `& 0x3F` drops the bit |
| Wire.EncodeTileOnPeriodic | ArduinoMessage.java:96 | tile n and tile n + 32 encode alike |
| Wire.EncodeTileOnInjective | ArduinoMessage.java:95-98 | distinct tiles 1..6 get distinct commands |
| Wire.EncodeTileOnRoundTrip | ArduinoMessage.java:61-98 | the command for tile n, decoded, is a floor message that presses tile n and no other |
| Scoring.Bonus | ScoringSystem.java:36-38 | the bonus is between 0 and 70, and 0 exactly when neither flag is set |
| Scoring.ScorePassedLevel | ScoringSystem.java:26-41 | a passed level scores at least the time score and at most 70 more |
| Scoring.ApplyFailRule | ScoringSystem.java:49-51 | the fail rule yields 0 or the total so far |
| Scoring.MaxScoreStep | ScoringSystem.java:11-28 | the ceiling is 200 on level 1 and rises by exactly 50 per level |
| Scoring.BonusesAdditive | ScoringSystem.java:17-40 | the accel flag adds exactly 40 and the heart-rate flag exactly 30, independently; both add 70 |
| Scoring.PassedScoreBounds | ScoringSystem.java:28-40 | with the time score in 0..maxScore, a passed level scores between 0 and maxScore + 70 |
| Scoring.FailRuleCases | ScoringSystem.java:49-51 | failing at level 1 or below (0 and negative levels included) gives 0; failing later keeps the total |
| Scoring.FailRuleNeverIncreases | ScoringSystem.java:49-51 | on a non-negative total the fail rule never adds points, and applying it twice equals applying it once |
| Stats.PlayerStats.constructor | PlayerStats.java:5-14 | a new record has zero timestamps, zero total and both flags clear |
| Stats.PlayerStats.AddToTotal | PlayerStats.java:17 | the total grows by `max(0, points)`, so it never decreases |
| Stats.PlayerStats.StartLevel | PlayerStats.java:20-25 | records the start time, clears the end time and both flags; the duration is then 0 |
| Stats.PlayerStats.StartTracking | PlayerStats.java:46 | the alias does what `startLevel` does |
| Stats.PlayerStats.EndLevel | PlayerStats.java:28-30 | only the end time changes, so the flags survive; with both times recorded the duration is end minus start |
| Stats.PlayerStats.StopTracking | PlayerStats.java:47 | the alias does what `endLevel` does |
| Stats.PlayerStats.MarkAccelBonusHit | PlayerStats.java:39 | the accel flag becomes true and nothing else changes |
| Stats.PlayerStats.MarkHrBonusHit | PlayerStats.java:40 | the heart-rate flag becomes true and nothing else changes |
| Stats.PlayerStats.LevelDurationNs | PlayerStats.java:33-36 | the duration is 0 while either timestamp is 0, and otherwise the end minus the start, in nanoseconds |
| Serial.Link.ReadRawByte | SerialPortHandle.java:37-49 | a read takes the next arrival, or returns -1 and consumes nothing when none is waiting |
| Serial.Link.WriteByte | SerialPortHandle.java:54-60 | a write appends the byte's unsigned value to the log |
| GameRules.CommandOrigins | GameEngine.java:22-27 | the floor commands are 0x00 and 0x40 with bit 7 clear; the wearable commands are 0x81, 0x82 and 0x83 with bit 7 set |
| GameRules.FloorCommandsAsMessages | GameEngine.java:22-23 | both floor commands, read as messages, press no tile |
| GameRules.CommandsAsMessages | GameEngine.java:25-27 | the three wearable commands, read as messages, are bonus reports, and 0x83 carries both flags |
| GameRules.SampleStep | GameEngine.java:130-140 | one draw of the do-while is skipped when it repeats the last tile and taken otherwise |
| GameRules.SampleShape | GameEngine.java:128-143 | rejection sampling yields the requested count of entries, each in range, with no entry equal to its neighbour or to the last tile before it |
| GameRules.GeneratedSequence | GameEngine.java:123-144 | a generated sequence has `3 + (level - 1)` entries with no adjacent repeats; tiles are 2..5 below level 3, 1..5 on levels 3-4 and 1..6 from level 5 |
| GameRules.SampleWithoutRejection | GameEngine.java:128-143 | draws that never repeat the previous tile are used one per entry, each offset by the level's base |
| GameRules.PlaybackShape | GameEngine.java:84-92 | showing n tiles writes 2n bytes: tile i's LED command at position 2i and 0x40 at 2i + 1 |
| GameRules.PlaybackLightsTiles | GameEngine.java:84-92 | every LED command of a playback decodes on the panel side to exactly its tile, and every stop byte to no tile |
| GameRules.JudgeStepMeaning | GameEngine.java:170-201 | a floor mask advances exactly when the expected tile is pressed; it is ignored exactly when that tile is not pressed and the mask is empty or, past the first tile, is the previous tile's bit alone; anything else fails |
| GameRules.FirstStepHasNoTolerance | GameEngine.java:185-201 | at the first tile every non-empty mask without the expected tile fails |
| GameRules.ExtraBitsTolerated | GameEngine.java:170-174 | a mask holding both the expected and the previous tile advances |
| GameRules.ReplayFacts | GameEngine.java:151-181 | the input loop never matches more tiles than the sequence holds, passes exactly when it has matched them all, and leaves an unread suffix of the arrivals |
| GameRules.ReplaySkipsNonFloor | GameEngine.java:155-164 | empty polls and wearable bytes leave the input loop unchanged |
| GameRules.FloorStep | GameEngine.java:164-201 | a floor byte is judged on its low six bits: advance moves to the next tile or passes on the last one, ignore reads on, a wrong step fails |
| GameRules.JudgeOneTile | GameEngine.java:170-196 | a one-tile press advances on the expected tile, is ignored on the previous tile, and fails on any other tile |
| GameRules.PressesPass | GameEngine.java:172-181 | stepping on the tiles in order, one at a time, passes the level with no arrivals left over |
| GameRules.LingeringIgnored | GameEngine.java:185-196 | past the first tile, a foot still on the previous tile and both feet in the air are ignored |
| GameRules.WrongTileFails | GameEngine.java:195-200 | stepping on a tile that is neither the expected nor the previous one fails the level at once |
| GameRules.FlushedFacts | GameEngine.java:214 | the flush drops everything up to and including the first empty poll, and everything if there is none |
| GameRules.PollWindowSuffix | GameEngine.java:224-249 | a window reads at most its number of polls and leaves the rest unread, in order |
| GameRules.PollWindowFound | GameEngine.java:227-244 | a report a window finds is the last byte it read, decoded |
| GameRules.PollWindowSkipped | GameEngine.java:227-232 | every byte a window read before it stopped is not a bonus report |
| GameRules.PollWindowFirstReport | GameEngine.java:224-249 | a window returns the first wearable bonus report among the bytes it reads, and its unread rest |
| GameRules.RetrieveCounts | GameEngine.java:216-250 | between one and three requests go out, all three when no report arrives, and what comes back is a wearable bonus report |
| GameRules.RetrieveStopsAtReport | GameEngine.java:219-244 | when a report arrives, the attempts made are exactly those up to the window that found it, and every earlier attempt found nothing, so no request follows the report |
| GameRules.RetrieveFirstReport | GameEngine.java:216-250 | across all attempts the loop reads a prefix of the arrivals; a returned report is the last byte read, and no byte read before it is a report |
| GameRules.RetrieveFacts | GameEngine.java:216-250 | the retry loop sends one to three requests, all three only without a report, stops at the window that finds the first report and sends nothing after it, and returns that first report read |
| GameRules.SilentWearable | GameEngine.java:216-250 | when no report arrives in any window, every attempt sends a request and no bonus is earned |
| GameRules.InactiveLevelIsNoOp | GameEngine.java:75 | `nextLevel` changes nothing while the game is inactive |
| GameRules.PassedLevel | GameEngine.java:212-266 | a passed level adds exactly the time score plus the reported bonuses, so at most maxScore + 70, raises the level by one, stays active, latches the reported flags, and writes the playback, 0x00 0x81, 0x40, then one to three 0x83 |
| GameRules.FailedLevel | GameEngine.java:272-290 | a failed level applies the fail rule (0 on level 1, the total otherwise), keeps the level, ends the game, writes 0x82 0x40 0x40 0x82 after the playback and enables, and announces the final score last |
| GameRules.StalledLevel | GameEngine.java:150-206 | a level whose arrivals run out undecided keeps level, total and the active flag, and has read every arrival |
| GameRules.LevelKeepsHealthy | GameEngine.java:74-114 | every level step keeps the level at least 1, the total non-negative and the tiles in 1..6, and never lowers the level |
| GameRules.StartThenFirstLevel | GameEngine.java:50-66 | a game starts by writing 0x40 then 0x82; a game ended on level 1 has score 0, and a game still active is on level 1 or 2 |
| GameRules.SessionAdvances | GameEngine.java:262-265 | after a passed level the game continues from the next level with the next environment |
| GameRules.SessionStops | GameEngine.java:195-206 | a level that does not advance ends the session in its own state |
| GameRules.SessionFacts | GameEngine.java:50-290 | over a session the level rises by at most one per supplied level, and the total never drops below its start unless the game ended on level 1 with score 0 |
| Engine.GameEngine.constructor | GameEngine.java:29-37 | a new engine is inactive on level 1 with score 0, an empty sequence and fresh statistics |
| Engine.GameEngine.Notify | GameEngine.java:40-44 | a notification is appended to what the observers have been told |
| Engine.GameEngine.DrawTile | GameEngine.java:130-140 | the do-while redraws until a tile differs from the last one and returns it with the position of the next draw |
| Engine.GameEngine.GenerateSequence | GameEngine.java:123-144 | the sequence is replaced by the one rejection sampling generates for the level |
| Engine.GameEngine.PlaySequence | GameEngine.java:84-92 | each tile's LED command and a stop byte are written, tile by tile |
| Engine.GameEngine.Flush | GameEngine.java:214 | reads are discarded up to the first empty poll |
| Engine.GameEngine.AwaitBonusReport | GameEngine.java:224-249 | one window of polls returns the first wearable bonus report, if any, and consumes exactly what it read |
| Engine.GameEngine.RequestBonusReport | GameEngine.java:216-250 | the retry loop writes one 0x83 per attempt until a report arrives, latches its flags and announces them, heart rate first |
| Engine.GameEngine.LatchBonus | GameEngine.java:232-244 | each flag a report carries is set in the statistics and announced; flags are never cleared |
| Engine.GameEngine.HandleLevelPass | GameEngine.java:212-266 | a pass stops the pads, flushes, retrieves the bonus, adds the level score and advances the level, as the specification function computes |
| Engine.GameEngine.EndGame | GameEngine.java:284-290 | the game becomes inactive, 0x40 and 0x82 are written and the final score is announced |
| Engine.GameEngine.HandleLevelFail | GameEngine.java:272-282 | a failure writes 0x82 and 0x40, applies the fail rule, announces the score and ends the game |
| Engine.GameEngine.ReadSteps | GameEngine.java:150-206 | the polling loop returns the verdict of the input decision and leaves the unread arrivals |
| Engine.GameEngine.WaitForPlayerInput | GameEngine.java:150-206 | input checking then hands over to the pass (after stopping the clock) or the fail handler |
| Engine.GameEngine.ShowSequence | GameEngine.java:77-112 | the new sequence is shown, both peripherals are enabled and the level clock starts with cleared flags |
| Engine.GameEngine.NextLevel | GameEngine.java:74-114 | one level does nothing while inactive and otherwise generates, shows and checks, keeping the engine's invariant |
| Engine.GameEngine.ResetGame | GameEngine.java:50-62 | level 1, score 0, active, three notifications, then 0x40 and 0x82 written |
| Engine.GameEngine.StartGame | GameEngine.java:50-66 | the reset followed by the first level |
| Engine.GameEngine.PlayLevel | GameEngine.java:262-265 | the new state is exactly what `nextLevel` leaves; a passed level leaves the game active one level up with the rest of the session ahead; any other outcome is the session's end |
| Engine.GameEngine.Play | GameEngine.java:50-66 | a whole game is the reset followed by the session of levels, each passed level leading to the next |
| Hud.Renderer.constructor | GameUI.java:13-15 | a new renderer has drawn nothing |
| Hud.Renderer.Draw | GameUI.java:13-15 | drawing appends one frame with the given level, score and message |
| Hud.StatusTextFacts | GameUI.java:31-37 | the status shows a message whole if it has at most 27 characters and its first 27 otherwise; a missing or empty message shows the placeholder |
| Hud.StatusTextIdempotent | GameUI.java:33 | cutting a status a second time changes nothing |
| Hud.LevelCellFacts | GameUI.java:27 | the level cell shows positive levels as they are and others as 0 |
| Hud.DigitsRoundTrip | GameUI.java:83 | the decimal digits of a number read back to the number, and only 0 starts with the digit 0 |
| Hud.DecimalStringRoundTrip | GameUI.java:83 | Java's decimal text of an int, read back, is the int |
| Hud.DecimalStringInjective | GameUI.java:83 | distinct ints have distinct decimal texts |
| Hud.GameOverTextFacts | GameUI.java:83 | the game-over text begins "GAME OVER! Score: " and distinct scores give distinct texts |
| Hud.GameUI.constructor | GameUI.java:48-51 | a display with a renderer starts at level 0 and score 0 with no message |
| Hud.GameUI.Console | GameUI.java:44-46 | the default display draws through a new console renderer |
| Hud.GameUI.Create | GameUI.java:48-51 | a missing renderer is rejected with "renderer cannot be null"; any other builds a fresh display on it at level 0 and score 0, with message and last message both "" as the field initialisers leave them |
| Hud.GameUI.Render | GameUI.java:87-89 | one frame with the current level, score and message is drawn |
| Hud.GameUI.OnLevelChanged | GameUI.java:56-59 | levels below 1 are ignored, others are taken, and nothing is drawn |
| Hud.GameUI.OnScoreChanged | GameUI.java:62-65 | the shown score is `max(0, score)`, never negative, and exactly one frame is drawn |
| Hud.GameUI.OnMessage | GameUI.java:68-79 | a missing message counts as ""; one equal to the last message changes and draws nothing; any other becomes message and last message and is drawn once; the display stays valid |
| Hud.GameUI.OnGameEnded | GameUI.java:82-85 | the message becomes "GAME OVER! Score: " and the score, the last message is kept, and one frame is drawn; the display stays valid |

## Left out

- Serial port opening, configuration and closing are not modelled; the port is an arrival queue and a write log.
- `Thread.sleep` pacing is not modelled, and neither are the sound clips (`SoundManager.play`, `playBlocking`), which become no-ops.
- The program's entry point, with its wait-for-start loop and shutdown hook, is not modelled; its decision is `Parse` followed by the start flag, which the codec covers.
- `java.util.Random` is a supplied stream of draws in `0..k-1`. A generated sequence exists only when the stream is long enough, which `DrawsSuffice` requires.
- `System.nanoTime()` is replaced by timestamps passed in with each level. The one-second deadline of each bonus window is a number of polls.
- The floating-point time score `round(maxScore * exp(-t / 6.0))` is an integer input between 0 and the level's maximum score, the range that formula gives for a duration that is not negative.
- Scoring.ScorePassedLevel: takes the time score as a parameter and does not derive it from the level and the duration.
- Stats.PlayerStats.LevelDurationNs: stops at nanoseconds; the division by 10^9 into a `double` is floating point.
- 32-bit `int` and 64-bit `long` overflow of the score, the level and the timestamps is not modelled; integers are unbounded.
- Engine.GameEngine.ReadSteps: ends with `OutOfInput` when the arrivals run out. The source keeps polling until a step decides the level.
- The unbounded recursion `nextLevel`, `handleLevelPass`, `nextLevel`, … is a session over a finite list of per-level environments (`Session`, `Play`). It ends when the list does.
- The `catch` blocks around parsing are not modelled, because nothing in the modelled code throws.
- The `InterruptedException` handler of `nextLevel` is not modelled either.
- Observers are one event log rather than a list of `GameObserver`s, and `addObserver` is not modelled.
- Hud.StatusTextFacts: lengths count Unicode characters, whereas Java's `length()` and `substring(0, 27)` count UTF-16 code units. A message with characters outside the Basic Multilingual Plane is cut later in the model than in Java, and Java's cut can split a surrogate pair. Every message the engine sends is ASCII, where the two agree.
- `ConsoleRenderer` printing and box layout are reduced to the status cut (`StatusText`) and the level cell (`LevelCell`).
- The `ScoringSystem` fields `baseTargetTime` and `timeFactor` are used only inside the exponential time score, which enters as an input.
- The engine's notifications and its serial writes go to two separate logs (`events` and the link's write log), so their relative order is not captured; the "Watch sequence" notice, for one, precedes the playback writes in the source. No property stated here depends on that order.
- `PlayerStats.getTotalScore` is not modelled: the engine keeps its own total and never calls `addToTotal`, which is modelled on its own.
- `ArduinoMessage` getters are the fields of the `Message` datatype.
