/**
 * The game engine (GameEngine.java) as a class whose methods change its
 * fields, the serial link and the player statistics in place. Each method is
 * proved to leave exactly the state that module GameRules computes for it.
 */
module Engine {
  import opened Optional
  import opened Wire
  import opened Scoring
  import opened Observer
  import opened Serial
  import opened Stats
  import opened GameRules

  class GameEngine {
    const serial: Link
    const playerStats: PlayerStats
    var sequence: seq<int>
    var currentLevel: int
    var gameActive: bool
    var totalScore: int
    /** What the observers have been told, in order. */
    var events: seq<Event>

    /** A level of at least 1, a total that is not negative, and a sequence of tiles 1..6. */
    ghost predicate Valid()
      reads this
    {
      currentLevel >= 1 && totalScore >= 0 && ValidTiles(sequence)
    }

    /** The engine, the link and the statistics, as one value. */
    ghost function State(): Snapshot
      reads this, serial, playerStats
    {
      Snapshot(currentLevel, totalScore, gameActive, sequence, serial.rx, serial.tx, events,
               playerStats.levelStartNs, playerStats.levelEndNs,
               playerStats.accelBonusHit, playerStats.hrBonusHit)
    }

    /** A new engine is idle on level 1 with no score, fresh statistics and an empty sequence. */
    constructor (port: Link)
      ensures serial == port && fresh(playerStats)
      ensures sequence == [] && currentLevel == 1 && !gameActive && totalScore == 0 && events == []
      ensures playerStats.levelStartNs == 0 && playerStats.levelEndNs == 0
      ensures !playerStats.accelBonusHit && !playerStats.hrBonusHit
      ensures Valid()
    {
      serial := port;
      playerStats := new PlayerStats();
      sequence := [];
      currentLevel := 1;
      gameActive := false;
      totalScore := 0;
      events := [];
    }

    /** Tells every observer about `e`. */
    method Notify(e: Event)
      modifies this`events
      ensures events == old(events) + [e]
    {
      events := events + [e];
    }

    /**
     * The do-while of `generateSequence`: reads draws from index `j` on
     * until one, offset for the level, differs from `lastPad`; returns that
     * tile and the index after the draw used.
     */
    static method DrawTile(level: int, draws: seq<int>, j: nat, lastPad: int, ghost count: nat)
      returns (pad: int, next: nat)
      requires j <= |draws| && count > 0
      requires Sample(DrawBase(level), count, lastPad, draws[j..]).Some?
      ensures j < next <= |draws| && pad == draws[next - 1] + DrawBase(level) && pad != lastPad
      ensures Sample(DrawBase(level), count - 1, pad, draws[next..]).Some?
      ensures Sample(DrawBase(level), count, lastPad, draws[j..]).value
              == [pad] + Sample(DrawBase(level), count - 1, pad, draws[next..]).value
    {
      ghost var base := DrawBase(level);
      var k := j;
      SampleStep(base, count, lastPad, draws[k..]);
      pad := draws[k] + DrawBase(level);
      while pad == lastPad
        invariant j <= k < |draws| && pad == draws[k] + base
        invariant Sample(base, count, lastPad, draws[k..]) == Sample(base, count, lastPad, draws[j..])
        decreases |draws| - k
      {
        assert draws[k..][1..] == draws[k + 1..];
        SampleStep(base, count, lastPad, draws[k + 1..]);
        k := k + 1;
        pad := draws[k] + DrawBase(level);
      }
      SampleStep(base, count, lastPad, draws[k..]);
      assert draws[k..][1..] == draws[k + 1..];
      next := k + 1;
    }

    /**
     * `generateSequence`: replaces the sequence with `3 + (level - 1)` tiles,
     * each drawn anew while it repeats the previous one.
     */
    method GenerateSequence(level: int, draws: seq<int>)
      requires DrawsSuffice(level, draws)
      modifies this`sequence
      ensures sequence == Generated(level, draws).value
    {
      ghost var n := SequenceLength(level);
      ghost var base := DrawBase(level);
      ghost var goal := Generated(level, draws).value;
      var pads: seq<int> := [];
      var seqLength := 3 + (level - 1);
      var lastPad := -1;
      var j := 0;
      assert draws[j..] == draws;
      for i := 0 to if seqLength > 0 then seqLength else 0
        invariant 0 <= j <= |draws|
        invariant |pads| == i
        invariant Sample(base, n - i, lastPad, draws[j..]).Some?
        invariant goal == pads + Sample(base, n - i, lastPad, draws[j..]).value
      {
        var pad;
        pad, j := DrawTile(level, draws, j, lastPad, n - i);
        ghost var rest := Sample(base, n - (i + 1), pad, draws[j..]).value;
        assert goal == pads + ([pad] + rest);
        lastPad := pad;
        pads := pads + [pad];
      }
      sequence := pads;
    }

    /** Phase 1 of `nextLevel`: each tile's LED command, then "stop pads", tile by tile. */
    method PlaySequence()
      modifies serial`tx
      ensures serial.tx == old(serial.tx) + Playback(sequence)
    {
      for i := 0 to |sequence|
        invariant serial.tx == old(serial.tx) + Playback(sequence[..i])
      {
        assert sequence[..i + 1][..i] == sequence[..i];
        serial.WriteByte(EncodeTileOn(sequence[i]));
        serial.WriteByte(CmdStopPads);
      }
      assert sequence[..|sequence|] == sequence;
    }

    /** `while (serial.readRawByte() != -1) {}`: drops what has arrived up to the first empty poll. */
    method Flush()
      modifies serial`rx
      ensures serial.rx == Flushed(old(serial.rx))
    {
      var raw := serial.ReadRawByte();
      while raw != NoData
        invariant Flushed(old(serial.rx)) == if raw == NoData then serial.rx else Flushed(serial.rx)
        decreases |serial.rx| + (if raw == NoData then 0 else 1)
      {
        raw := serial.ReadRawByte();
      }
    }

    /** One attempt's one-second window of `polls` reads, stopping at the first bonus report. */
    method AwaitBonusReport(polls: nat) returns (found: Option<Message>)
      modifies serial`rx
      ensures (found, serial.rx) == PollWindow(polls, old(serial.rx))
    {
      var left: nat := polls;
      while left > 0
        invariant left <= polls
        invariant PollWindow(polls, old(serial.rx)) == PollWindow(left, serial.rx)
      {
        var raw := serial.ReadRawByte();
        if raw != NoData {
          var msg := Parse(Signed(raw));
          if msg.source == Arduino2 && msg.bonusReport {
            return Some(msg);
          }
        }
        left := left - 1;
      }
      return None;
    }

    /**
     * The retry loop of `handleLevelPass`: up to three requests for the
     * bonus report, one per window, stopping at the first report; its flags
     * are latched into the statistics and announced, heart rate first.
     */
    method RequestBonusReport(windows: seq<nat>)
      requires |windows| == BonusAttempts
      modifies this`events, serial`rx, serial`tx, playerStats`accelBonusHit, playerStats`hrBonusHit
      ensures var r := Retrieve(windows, old(serial.rx));
        && serial.rx == r.rest
        && serial.tx == old(serial.tx) + Repeat(Unsigned(CmdReportBonus), r.requests)
        && events == old(events) + BonusNotices(r.report)
        && playerStats.accelBonusHit == (old(playerStats.accelBonusHit) || ReportsAccel(r.report))
        && playerStats.hrBonusHit == (old(playerStats.hrBonusHit) || ReportsHr(r.report))
    {
      ghost var pending := Retrieve(windows, serial.rx);
      ghost var sent := 0;
      ghost var report: Option<Message> := None;
      var reportReceived := false;
      for attempt := 1 to BonusAttempts + 1
        invariant sent <= attempt - 1 && sent <= |windows|
        invariant serial.tx == old(serial.tx) + Repeat(Unsigned(CmdReportBonus), sent)
        invariant reportReceived == report.Some?
        invariant !reportReceived ==> sent == attempt - 1
        invariant !reportReceived ==>
          var r := Retrieve(windows[sent..], serial.rx);
          pending == Retrieval(sent + r.requests, r.report, r.rest)
        invariant reportReceived ==> pending == Retrieval(sent, report, serial.rx)
        invariant events == old(events) + BonusNotices(report)
        invariant playerStats.accelBonusHit == (old(playerStats.accelBonusHit) || ReportsAccel(report))
        invariant playerStats.hrBonusHit == (old(playerStats.hrBonusHit) || ReportsHr(report))
      {
        if reportReceived {
          break;
        }
        assert windows[sent..][1..] == windows[sent + 1..];
        serial.WriteByte(CmdReportBonus);
        sent := sent + 1;
        var found := AwaitBonusReport(windows[attempt - 1]);
        if found.Some? {
          LatchBonus(found.value);
          reportReceived := true;
          report := found;
        }
      }
    }

    /** The body of a received report: each flag is latched and announced, heart rate first. */
    method LatchBonus(msg: Message)
      modifies this`events, playerStats`accelBonusHit, playerStats`hrBonusHit
      ensures events == old(events) + BonusNotices(Some(msg))
      ensures playerStats.accelBonusHit == (old(playerStats.accelBonusHit) || msg.accelExceeded)
      ensures playerStats.hrBonusHit == (old(playerStats.hrBonusHit) || msg.hrExceeded)
    {
      if msg.hrExceeded {
        playerStats.MarkHrBonusHit();
        Notify(StatusMessage("Bonus: Heart Rate!"));
      }
      if msg.accelExceeded {
        playerStats.MarkAccelBonusHit();
        Notify(StatusMessage("Bonus: Speed!"));
      }
    }

    /**
     * `handleLevelPass`: stop the pads, flush, retrieve the bonus report,
     * add the level score and advance the level. `timeScore` is the
     * exponential time score of the level.
     */
    method HandleLevelPass(windows: seq<nat>, timeScore: int)
      requires |windows| == BonusAttempts
      modifies this`totalScore, this`currentLevel, this`events, serial`rx, serial`tx
      modifies playerStats`accelBonusHit, playerStats`hrBonusHit
      ensures State() == AfterPass(old(State()), windows, timeScore)
    {
      serial.WriteByte(CmdStopPads);
      Flush();
      RequestBonusReport(windows);
      var levelScore := ScorePassedLevel(currentLevel, timeScore, playerStats.accelBonusHit, playerStats.hrBonusHit);
      totalScore := totalScore + levelScore;
      Notify(ScoreChanged(totalScore));
      Notify(StatusMessage("Level Cleared!"));
      currentLevel := currentLevel + 1;
      Notify(LevelChanged(currentLevel));
    }

    /** `endGame`: inactive, both peripherals stopped, the final score announced. */
    method EndGame()
      modifies this`gameActive, this`events, serial`tx
      ensures State() == GameRules.EndGame(old(State()))
    {
      gameActive := false;
      serial.WriteByte(CmdStopPads);
      serial.WriteByte(CmdAbortIdle);
      Notify(GameEnded(totalScore));
    }

    /** `handleLevelFail`: idle the wearable, stop the pads, apply the fail rule, end the game. */
    method HandleLevelFail()
      modifies this`totalScore, this`gameActive, this`events, serial`tx
      ensures State() == AfterFail(old(State()))
    {
      serial.WriteByte(CmdAbortIdle);
      serial.WriteByte(CmdStopPads);
      totalScore := ApplyFailRule(currentLevel, totalScore);
      Notify(ScoreChanged(totalScore));
      Notify(StatusMessage("Failed! Game Over."));
      EndGame();
    }

    /**
     * The polling loop of `waitForPlayerInput`: skips empty polls and wearable
     * bytes, and judges each floor mask against the next expected tile. It
     * ends on the last tile, on a wrong step, or when nothing more arrives.
     */
    method ReadSteps() returns (verdict: InputVerdict)
      requires ValidTiles(sequence) && |sequence| > 0
      modifies serial`rx
      ensures var run := Replay(sequence, 0, old(serial.rx));
        verdict == run.verdict && serial.rx == run.rest
    {
      var playerInput: seq<int> := [];
      while |playerInput| < |sequence| && serial.rx != []
        invariant |playerInput| < |sequence|
        invariant playerInput == sequence[..|playerInput|]
        invariant Replay(sequence, 0, old(serial.rx)) == Replay(sequence, |playerInput|, serial.rx)
        decreases |serial.rx|
      {
        ghost var rx := serial.rx;
        var raw := serial.ReadRawByte();
        assert rx == [raw] + serial.rx;
        if raw == NoData || raw >= 128 {
          ReplaySkipsNonFloor(sequence, |playerInput|, raw, serial.rx);
        } else {
          FloorStep(sequence, |playerInput|, raw, serial.rx);
        }
        if raw == NoData {
          continue;
        }
        var msg := Parse(Signed(raw));
        ParseTotal(raw);
        if msg.source == Arduino1 {
          var currentIndex := |playerInput|;
          var step := JudgeStep(msg.mask6, sequence, currentIndex);
          match step
          case Advance =>
            assert sequence[..currentIndex + 1] == sequence[..currentIndex] + [sequence[currentIndex]];
            playerInput := playerInput + [sequence[currentIndex]];
            if |playerInput| == |sequence| {
              return LevelPass;
            }
          case Ignore =>
          case WrongStep =>
            return LevelFail;
        }
      }
      return OutOfInput;
    }

    /**
     * `waitForPlayerInput`: read the player's steps, then pass the level
     * (after stopping the level clock) or fail it.
     */
    method WaitForPlayerInput(env: LevelEnv)
      requires ValidTiles(sequence) && |sequence| > 0
      requires |env.windows| == BonusAttempts
      modifies this`totalScore, this`currentLevel, this`gameActive, this`events, serial`rx, serial`tx
      modifies playerStats`levelEndNs, playerStats`accelBonusHit, playerStats`hrBonusHit
      ensures State() == AfterInput(old(State()), env)
    {
      var verdict := ReadSteps();
      if verdict == LevelPass {
        playerStats.EndLevel(env.endNs);
        HandleLevelPass(env.windows, env.timeScore);
      } else if verdict == LevelFail {
        HandleLevelFail();
      }
    }

    /**
     * Phases 1 and 2 of `nextLevel`: generate and show the sequence, enable
     * both peripherals and start the level clock.
     */
    method ShowSequence(env: LevelEnv)
      requires DrawsSuffice(currentLevel, env.draws)
      modifies this`sequence, this`events, serial`tx
      modifies playerStats`levelStartNs, playerStats`levelEndNs, playerStats`accelBonusHit, playerStats`hrBonusHit
      ensures State() == Shown(old(State()), Generated(old(currentLevel), env.draws).value, env)
    {
      ghost var s0 := State();
      GenerateSequence(currentLevel, env.draws);
      assert State() == s0.(sequence := sequence);
      Notify(StatusMessage("Watch sequence..."));
      PlaySequence();
      ghost var shown := serial.tx;
      assert shown == s0.tx + Playback(sequence);
      Notify(StatusMessage("Prepare..."));
      Notify(StatusMessage("GO!"));
      assert events == s0.events + [StatusMessage("Watch sequence..."), StatusMessage("Prepare..."), StatusMessage("GO!")];
      serial.WriteByte(CmdStartPads);
      serial.WriteByte(CmdStartTracking);
      assert serial.tx == shown + [Unsigned(CmdStartPads), Unsigned(CmdStartTracking)];
      playerStats.StartTracking(env.startNs);
    }

    /**
     * `nextLevel` for one level: when the game is active, show the level's
     * sequence and read the player's steps.
     */
    method NextLevel(env: LevelEnv)
      requires Valid()
      requires gameActive ==> EnvFits(currentLevel, env)
      modifies this`sequence, this`totalScore, this`currentLevel, this`gameActive, this`events
      modifies serial`rx, serial`tx
      modifies playerStats`levelStartNs, playerStats`levelEndNs, playerStats`accelBonusHit, playerStats`hrBonusHit
      ensures State() == AfterLevel(old(State()), env)
      ensures Valid()
    {
      LevelKeepsHealthy(State(), env);
      if !gameActive {
        return;
      }
      GeneratedSequence(currentLevel, env.draws);
      ShowSequence(env);
      WaitForPlayerInput(env);
    }

    /** The first half of `startGame`: level 1, score 0, active, both peripherals idled. */
    method ResetGame()
      modifies this`totalScore, this`currentLevel, this`gameActive, this`events, serial`tx
      ensures State() == Reset(old(State()))
    {
      currentLevel := 1;
      totalScore := 0;
      gameActive := true;
      Notify(LevelChanged(currentLevel));
      Notify(ScoreChanged(totalScore));
      Notify(StatusMessage("Get Ready..."));
      serial.WriteByte(CmdStopPads);
      serial.WriteByte(CmdAbortIdle);
    }

    /** `startGame`: reset level and score, idle both peripherals, then play the first level. */
    method StartGame(env: LevelEnv)
      requires Valid()
      requires EnvFits(1, env)
      modifies this`sequence, this`totalScore, this`currentLevel, this`gameActive, this`events
      modifies serial`rx, serial`tx
      modifies playerStats`levelStartNs, playerStats`levelEndNs, playerStats`accelBonusHit, playerStats`hrBonusHit
      ensures State() == AfterStart(old(State()), env)
      ensures Valid()
    {
      ResetGame();
      NextLevel(env);
    }

    /**
     * One level of a game in progress, played with the first of the
     * remaining environments; `passed` says whether `handleLevelPass` went
     * on to the next level.
     */
    method PlayLevel(envs: seq<LevelEnv>) returns (passed: bool)
      requires Valid() && gameActive && envs != []
      requires EnvsFit(currentLevel, envs)
      modifies this`sequence, this`totalScore, this`currentLevel, this`gameActive, this`events
      modifies serial`rx, serial`tx
      modifies playerStats`levelStartNs, playerStats`levelEndNs, playerStats`accelBonusHit, playerStats`hrBonusHit
      ensures Valid()
      ensures State() == AfterLevel(old(State()), envs[0])
      ensures passed ==> gameActive && currentLevel == old(currentLevel) + 1 && EnvsFit(currentLevel, envs[1..])
      ensures passed ==> Session(old(State()), envs) == Session(State(), envs[1..])
      ensures !passed ==> Session(old(State()), envs) == State()
    {
      ghost var s := State();
      EnvsFitSuffix(currentLevel, envs, 0);
      var before := currentLevel;
      NextLevel(envs[0]);
      passed := currentLevel == before + 1;
      if passed {
        SessionAdvances(s, envs, State());
      } else {
        SessionStops(s, envs, State());
      }
    }

    /**
     * A whole game: `startGame`, then, as `handleLevelPass` does, the next
     * level after every passed one, with the j-th environment serving level
     * j + 1.
     */
    method Play(envs: seq<LevelEnv>)
      requires Valid()
      requires EnvsFit(1, envs)
      modifies this`sequence, this`totalScore, this`currentLevel, this`gameActive, this`events
      modifies serial`rx, serial`tx
      modifies playerStats`levelStartNs, playerStats`levelEndNs, playerStats`accelBonusHit, playerStats`hrBonusHit
      ensures State() == Session(Reset(old(State())), envs)
      ensures Valid()
    {
      ResetGame();
      ghost var goal := Session(State(), envs);
      var i := 0;
      var passed := true;
      while i < |envs| && passed
        invariant 0 <= i <= |envs|
        invariant Valid()
        invariant passed ==> gameActive && currentLevel == i + 1 && EnvsFit(currentLevel, envs[i..])
        invariant passed ==> goal == Session(State(), envs[i..])
        invariant !passed ==> goal == State()
      {
        assert envs[i..][1..] == envs[i + 1..];
        passed := PlayLevel(envs[i..]);
        i := i + 1;
      }
      assert passed ==> envs[i..] == [];
    }
  }
}
