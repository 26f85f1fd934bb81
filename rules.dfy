/**
 * The host's level step (GameEngine.java) as functions of an explicit state.
 * `java.util.Random` becomes a supplied list of draws, the serial port the
 * arrival queue and write log of module Serial, each 1-second bonus-report
 * window a number of polls, and `System.nanoTime()` two timestamps. The
 * class in module Engine performs these steps in place and is proved to
 * produce exactly the states computed here.
 */
module GameRules {
  import opened Optional
  import opened Wire
  import opened Scoring
  import opened Observer
  import opened Serial

  // ---------------------------------------------------------------------
  // Protocol commands (GameEngine.java:22-27), as the Java bytes written
  // ---------------------------------------------------------------------

  /** Floor panel: start reporting pad presses. */
  const CmdStartPads: JavaByte := 0x00
  /** Floor panel: stop reporting, LEDs only. */
  const CmdStopPads: JavaByte := 0x40
  /** Wearable: start sensing. */
  const CmdStartTracking: JavaByte := Signed(0x81)
  /** Wearable: reset to idle. */
  const CmdAbortIdle: JavaByte := Signed(0x82)
  /** Wearable: send the bonus report. */
  const CmdReportBonus: JavaByte := Signed(0x83)

  /** How many times a passed level asks the wearable for its report. */
  const BonusAttempts: nat := 3

  /** Floor commands have bit 7 clear; wearable commands have it set. */
  lemma CommandOrigins()
    ensures Unsigned(CmdStartPads) == 0x00 && Unsigned(CmdStopPads) == 0x40
    ensures Unsigned(CmdStartTracking) == 0x81 && Unsigned(CmdAbortIdle) == 0x82
    ensures Unsigned(CmdReportBonus) == 0x83
    ensures Parse(CmdStartPads).source == Parse(CmdStopPads).source == Arduino1
    ensures Parse(CmdStartTracking).source == Parse(CmdAbortIdle).source == Arduino2
    ensures Parse(CmdReportBonus).source == Arduino2
  {
  }

  /** Read back as messages, the two floor commands press no tile. */
  lemma FloorCommandsAsMessages()
    ensures Parse(CmdStartPads).mask6 == 0 && Parse(CmdStopPads).mask6 == 0
  {
  }

  /**
   * Read back as messages, the three wearable commands decode as bonus
   * reports (bit 3 is clear in all of them); 0x83 even carries both bonus
   * flags. The host never reads its own commands, so this overlap is
   * harmless on the link.
   */
  lemma CommandsAsMessages()
    ensures Parse(CmdStartTracking).bonusReport && Parse(CmdAbortIdle).bonusReport
    ensures Parse(CmdReportBonus).bonusReport
    ensures Parse(CmdReportBonus).hrExceeded && Parse(CmdReportBonus).accelExceeded
    ensures Parse(CmdStartTracking).hrExceeded && !Parse(CmdStartTracking).accelExceeded
  {
    assert Unsigned(CmdStartTracking) == 0x81 && Unsigned(CmdAbortIdle) == 0x82 && Unsigned(CmdReportBonus) == 0x83;
  }

  // ---------------------------------------------------------------------
  // Sequence generation (generateSequence, GameEngine.java:123-144)
  // ---------------------------------------------------------------------

  /** `random.nextInt(k)`'s bound: 4 tiles below level 3, 5 below level 5, else 6. */
  function DrawBound(level: int): int
  {
    if level < 3 then 4 else if level < 5 then 5 else 6
  }

  /** The offset added to a draw: tiles 2..5 below level 3, otherwise from tile 1. */
  function DrawBase(level: int): int
  {
    if level < 3 then 2 else 1
  }

  /** `3 + (level - 1)` entries; the for loop runs no times when that is not positive. */
  function SequenceLength(level: int): nat
  {
    if 3 + (level - 1) > 0 then 3 + (level - 1) else 0
  }

  /** Draws as `nextInt(DrawBound(level))` returns them. */
  predicate DrawsInRange(level: int, draws: seq<int>)
  {
    forall i :: 0 <= i < |draws| ==> 0 <= draws[i] < DrawBound(level)
  }

  /**
   * The do-while rejection sampling over a finite stream of draws: each entry
   * is `draw + base`, redrawn while equal to the previous entry. None when the
   * stream runs out first.
   */
  function Sample(base: int, count: nat, last: int, draws: seq<int>): Option<seq<int>>
    decreases |draws|
  {
    if count == 0 then Some([])
    else if draws == [] then None
    else
      var pad := draws[0] + base;
      if pad == last then Sample(base, count, last, draws[1..])
      else
        match Sample(base, count - 1, pad, draws[1..])
        case None => None
        case Some(rest) => Some([pad] + rest)
  }

  /** One draw of the rejection sampling: a repeat of the last entry is skipped, any other is taken. */
  lemma SampleStep(base: int, count: nat, last: int, draws: seq<int>)
    requires count > 0 && Sample(base, count, last, draws).Some?
    ensures draws != []
    ensures draws[0] + base == last ==> Sample(base, count, last, draws[1..]) == Sample(base, count, last, draws)
    ensures draws[0] + base != last ==>
      && Sample(base, count - 1, draws[0] + base, draws[1..]).Some?
      && Sample(base, count, last, draws).value
         == [draws[0] + base] + Sample(base, count - 1, draws[0] + base, draws[1..]).value
  {
  }

  /** The sequence generated for a level from a stream of draws (lastPad starts at -1). */
  function Generated(level: int, draws: seq<int>): Option<seq<int>>
  {
    Sample(DrawBase(level), SequenceLength(level), -1, draws)
  }

  /** What the engine needs of its environment to generate a level's sequence. */
  predicate DrawsSuffice(level: int, draws: seq<int>)
  {
    DrawsInRange(level, draws) && Generated(level, draws).Some?
  }

  /** Tile numbers a sequence may hold. */
  predicate ValidTiles(sq: seq<int>)
  {
    forall i :: 0 <= i < |sq| ==> 1 <= sq[i] <= 6
  }

  /** No two adjacent entries are equal. */
  predicate NoAdjacentRepeats(sq: seq<int>)
  {
    forall i :: 0 < i < |sq| ==> sq[i] != sq[i - 1]
  }

  /** What rejection sampling produces: the count, the range, and no repeats. */
  lemma {:induction false} SampleShape(base: int, k: int, count: nat, last: int, draws: seq<int>)
    requires forall i :: 0 <= i < |draws| ==> 0 <= draws[i] < k
    requires Sample(base, count, last, draws).Some?
    ensures var s := Sample(base, count, last, draws).value;
      && |s| == count
      && (forall i :: 0 <= i < |s| ==> base <= s[i] < base + k)
      && NoAdjacentRepeats(s)
      && (|s| > 0 ==> s[0] != last)
    decreases |draws|
  {
    if count > 0 {
      var pad := draws[0] + base;
      if pad == last {
        SampleShape(base, k, count, last, draws[1..]);
      } else {
        SampleShape(base, k, count - 1, pad, draws[1..]);
      }
    }
  }

  /**
   * A generated sequence has `3 + (level - 1)` entries, none equal to its
   * neighbour, drawn from tiles 2..5 below level 3, 1..5 on levels 3 and 4,
   * and 1..6 from level 5 on.
   */
  lemma GeneratedSequence(level: int, draws: seq<int>)
    requires DrawsSuffice(level, draws)
    ensures var sq := Generated(level, draws).value;
      && (level >= -1 ==> |sq| == 3 + (level - 1))
      && (level < -1 ==> sq == [])
      && NoAdjacentRepeats(sq)
      && ValidTiles(sq)
      && (level < 3 ==> forall i :: 0 <= i < |sq| ==> 2 <= sq[i] <= 5)
      && (3 <= level < 5 ==> forall i :: 0 <= i < |sq| ==> 1 <= sq[i] <= 5)
      && (level >= 5 ==> forall i :: 0 <= i < |sq| ==> 1 <= sq[i] <= 6)
  {
    SampleShape(DrawBase(level), DrawBound(level), SequenceLength(level), -1, draws);
  }

  /** Each draw offset by `base`: the tiles the draws name when none is rejected. */
  function Offset(base: int, draws: seq<int>): (r: seq<int>)
    ensures |r| == |draws| && forall i :: 0 <= i < |r| ==> r[i] == draws[i] + base
  {
    if draws == [] then [] else [draws[0] + base] + Offset(base, draws[1..])
  }

  /**
   * Draws that never repeat the previous tile are used one per entry, so a
   * stream of `3 + (level - 1)` such draws is enough.
   */
  lemma {:induction false} SampleWithoutRejection(base: int, count: nat, last: int, draws: seq<int>)
    requires |draws| == count
    requires count > 0 ==> draws[0] + base != last
    requires forall i :: 0 < i < |draws| ==> draws[i] != draws[i - 1]
    ensures Sample(base, count, last, draws) == Some(Offset(base, draws))
    decreases |draws|
  {
    if count > 0 {
      var tail := draws[1..];
      assert forall i :: 0 < i < |tail| ==> tail[i] != tail[i - 1] by {
        forall i | 0 < i < |tail| ensures tail[i] != tail[i - 1] {
          assert tail[i] == draws[i + 1] && tail[i - 1] == draws[i];
        }
      }
      if count > 1 {
        assert tail[0] == draws[1];
      }
      SampleWithoutRejection(base, count - 1, draws[0] + base, tail);
    }
  }

  // ---------------------------------------------------------------------
  // Sequence playback (nextLevel, GameEngine.java:84-92)
  // ---------------------------------------------------------------------

  /** The bytes written while showing a sequence: each tile's LED command, then "stop". */
  function Playback(sq: seq<int>): seq<Octet>
  {
    if sq == [] then []
    else Playback(sq[..|sq| - 1]) + [Unsigned(EncodeTileOn(sq[|sq| - 1])), Unsigned(CmdStopPads)]
  }

  /** Showing n tiles writes 2n bytes: tile i's one-hot command at 2i, 0x40 at 2i + 1. */
  lemma {:induction false} PlaybackShape(sq: seq<int>)
    ensures |Playback(sq)| == 2 * |sq|
    ensures forall i :: 0 <= i < |sq| ==>
      Playback(sq)[2 * i] == Unsigned(EncodeTileOn(sq[i])) && Playback(sq)[2 * i + 1] == 0x40
  {
    if sq != [] {
      var init := sq[..|sq| - 1];
      PlaybackShape(init);
      forall i | 0 <= i < |sq|
        ensures Playback(sq)[2 * i] == Unsigned(EncodeTileOn(sq[i])) && Playback(sq)[2 * i + 1] == 0x40
      {
        if i < |init| {
          assert sq[i] == init[i];
        }
      }
    }
  }

  /** Every LED command of a playback decodes, on the panel's side, to exactly its tile. */
  lemma PlaybackLightsTiles(sq: seq<int>, i: int)
    requires ValidTiles(sq) && 0 <= i < |sq|
    ensures |Playback(sq)| == 2 * |sq|
    ensures Parse(Signed(Playback(sq)[2 * i])).source == Arduino1
    ensures Parse(Signed(Playback(sq)[2 * i])).mask6 == TileMask(sq[i])
    ensures Parse(Signed(Playback(sq)[2 * i + 1])).mask6 == 0
  {
    PlaybackShape(sq);
    EncodeTileOnRoundTrip(sq[i]);
    EncodeTileOnOneHot(sq[i]);
  }

  // ---------------------------------------------------------------------
  // Input validation (waitForPlayerInput, GameEngine.java:150-206)
  // ---------------------------------------------------------------------

  datatype Step = Advance | Ignore | WrongStep

  /**
   * The three-way decision on one floor mask while tile `sq[idx]` is
   * expected: advance when the expected tile is pressed (other bits are
   * tolerated); ignore an empty mask, and, past the first tile, a mask that is
   * exactly the previous tile (the foot still leaving it); otherwise fail.
   */
  function JudgeStep(mask: bv8, sq: seq<int>, idx: nat): Step
    requires ValidTiles(sq) && idx < |sq|
  {
    var expectedTile := sq[idx];
    if (mask >> (expectedTile - 1)) & 1 == 1 then Advance
    else if mask == 0 then Ignore
    else if idx > 0 && mask & !TileMask(sq[idx - 1]) == 0 then Ignore
    else WrongStep
  }

  /**
   * The decision in terms of pressed tiles: advance exactly when the
   * expected tile is pressed; ignore exactly when it is not and the mask is
   * empty or, past the first tile, is the previous tile alone.
   */
  lemma JudgeStepMeaning(mask: bv8, sq: seq<int>, idx: nat)
    requires ValidTiles(sq) && idx < |sq|
    ensures JudgeStep(mask, sq, idx) == Advance <==> Pressed(mask, sq[idx])
    ensures JudgeStep(mask, sq, idx) == Ignore <==>
      !Pressed(mask, sq[idx]) && (mask == 0 || (idx > 0 && mask == TileMask(sq[idx - 1])))
  {
  }

  /** At the first tile nothing lingers: any non-empty mask without the expected tile fails. */
  lemma FirstStepHasNoTolerance(mask: bv8, sq: seq<int>)
    requires ValidTiles(sq) && 0 < |sq|
    requires mask != 0 && !Pressed(mask, sq[0])
    ensures JudgeStep(mask, sq, 0) == WrongStep
  {
    JudgeStepMeaning(mask, sq, 0);
  }

  /** A mask with the expected tile and the previous one both pressed still advances. */
  lemma ExtraBitsTolerated(sq: seq<int>, idx: nat)
    requires ValidTiles(sq) && 0 < idx < |sq|
    ensures JudgeStep(TileMask(sq[idx]) | TileMask(sq[idx - 1]), sq, idx) == Advance
  {
    var t := sq[idx];
    var p := sq[idx - 1];
    JudgeStepMeaning(TileMask(t) | TileMask(p), sq, idx);
    assert Pressed(TileMask(t) | TileMask(p), t) by {
      if t == 1 {} else if t == 2 {} else if t == 3 {} else if t == 4 {} else if t == 5 {} else {}
    }
  }

  datatype InputVerdict = LevelPass | LevelFail | OutOfInput

  /** Where the input loop stops: its verdict, how many tiles were matched, the unread arrivals. */
  datatype InputRun = InputRun(verdict: InputVerdict, matched: nat, rest: seq<Raw>)

  /**
   * The polling loop from tile `idx` on: "no data" and wearable bytes are
   * skipped, each floor byte is judged. It ends at the last tile, at a wrong
   * step, or when the arrivals run out.
   */
  function Replay(sq: seq<int>, idx: nat, rx: seq<Raw>): InputRun
    requires ValidTiles(sq) && idx < |sq|
    decreases |rx|
  {
    if rx == [] then InputRun(OutOfInput, idx, [])
    else if rx[0] == NoData then Replay(sq, idx, rx[1..])
    else
      var msg := Parse(Signed(rx[0]));
      if msg.source != Arduino1 then Replay(sq, idx, rx[1..])
      else
        match JudgeStep(msg.mask6, sq, idx)
        case Advance =>
          if idx + 1 == |sq| then InputRun(LevelPass, idx + 1, rx[1..])
          else Replay(sq, idx + 1, rx[1..])
        case Ignore => Replay(sq, idx, rx[1..])
        case WrongStep => InputRun(LevelFail, idx, rx[1..])
  }

  /**
   * The input loop never matches more tiles than the sequence holds, passes
   * exactly when it has matched them all, and leaves a suffix of the arrivals.
   */
  lemma {:induction false} ReplayFacts(sq: seq<int>, idx: nat, rx: seq<Raw>)
    requires ValidTiles(sq) && idx < |sq|
    ensures var r := Replay(sq, idx, rx);
      && idx <= r.matched <= |sq|
      && (r.verdict == LevelPass <==> r.matched == |sq|)
      && |r.rest| <= |rx| && r.rest == rx[|rx| - |r.rest|..]
      && (r.verdict == OutOfInput ==> r.rest == [])
      && (r.verdict != OutOfInput ==> |r.rest| < |rx|)
    decreases |rx|
  {
    if rx != [] {
      if rx[0] == NoData || Parse(Signed(rx[0])).source != Arduino1 {
        ReplayFacts(sq, idx, rx[1..]);
      } else {
        match JudgeStep(Parse(Signed(rx[0])).mask6, sq, idx)
        case Advance =>
          if idx + 1 < |sq| {
            ReplayFacts(sq, idx + 1, rx[1..]);
          }
        case Ignore => ReplayFacts(sq, idx, rx[1..]);
        case WrongStep =>
      }
    }
  }

  /** Bytes from the wearable and empty polls do not affect the input loop. */
  lemma ReplaySkipsNonFloor(sq: seq<int>, idx: nat, raw: Raw, rx: seq<Raw>)
    requires ValidTiles(sq) && idx < |sq|
    requires raw == NoData || raw >= 128
    ensures Replay(sq, idx, [raw] + rx) == Replay(sq, idx, rx)
  {
    assert ([raw] + rx)[1..] == rx;
    if raw != NoData {
      ParseTotal(raw);
    }
  }

  /** One floor byte in the input loop: its low six bits are judged against the expected tile. */
  lemma FloorStep(sq: seq<int>, idx: nat, u: Octet, rx: seq<Raw>)
    requires ValidTiles(sq) && idx < |sq| && u < 128
    ensures Parse(Signed(u)).source == Arduino1 && Parse(Signed(u)).mask6 == Low6(u)
    ensures JudgeStep(Low6(u), sq, idx) == Advance && idx + 1 == |sq| ==>
      Replay(sq, idx, [u] + rx) == InputRun(LevelPass, idx + 1, rx)
    ensures JudgeStep(Low6(u), sq, idx) == Advance && idx + 1 < |sq| ==>
      Replay(sq, idx, [u] + rx) == Replay(sq, idx + 1, rx)
    ensures JudgeStep(Low6(u), sq, idx) == Ignore ==> Replay(sq, idx, [u] + rx) == Replay(sq, idx, rx)
    ensures JudgeStep(Low6(u), sq, idx) == WrongStep ==> Replay(sq, idx, [u] + rx) == InputRun(LevelFail, idx, rx)
  {
    assert ([u] + rx)[1..] == rx;
    ParseTotal(u);
    assert Parse(Signed(u)).mask6 == Low6(u);
  }

  /** The floor byte of a player standing on tile t alone: the bit pattern of t's LED command. */
  function Press(t: int): Octet
    requires 1 <= t <= 6
  {
    Unsigned(EncodeTileOn(t))
  }

  /** A floor byte pressing exactly tile t. */
  lemma PressFacts(t: int)
    requires 1 <= t <= 6
    ensures Press(t) < 128 && Low6(Press(t)) == TileMask(t)
  {
    EncodeTileOnOneHot(t);
    assert Low6(EncodeTileOn(t)) == TileMask(t) by {
      if t == 1 {} else if t == 2 {} else if t == 3 {} else if t == 4 {} else if t == 5 {} else {}
    }
  }

  /** The bytes of a player stepping on each tile of `sq` in turn, one foot at a time. */
  function Presses(sq: seq<int>): seq<Raw>
    requires ValidTiles(sq)
  {
    if sq == [] then [] else [Press(sq[0]) as Raw] + Presses(sq[1..])
  }

  /**
   * A one-tile mask advances on the expected tile, is ignored when it is
   * the previous tile, and fails on any other tile.
   */
  lemma JudgeOneTile(sq: seq<int>, idx: nat, t: int)
    requires ValidTiles(sq) && idx < |sq| && 1 <= t <= 6
    ensures JudgeStep(TileMask(t), sq, idx) ==
      if t == sq[idx] then Advance
      else if idx > 0 && t == sq[idx - 1] then Ignore
      else WrongStep
  {
    JudgeStepMeaning(TileMask(t), sq, idx);
    PressedTileMask(t);
    assert TileMask(t) != 0;
    if idx > 0 {
      PressedTileMask(sq[idx - 1]);
      assert TileMask(t) == TileMask(sq[idx - 1]) ==> Pressed(TileMask(sq[idx - 1]), t);
    }
  }

  /** Stepping on the tiles in order, each alone, passes the level with nothing left over. */
  lemma {:induction false} PressesPass(sq: seq<int>, idx: nat)
    requires ValidTiles(sq) && idx < |sq|
    ensures Replay(sq, idx, Presses(sq[idx..])) == InputRun(LevelPass, |sq|, [])
    decreases |sq| - idx
  {
    var rest := Presses(sq[idx + 1..]);
    assert sq[idx..][1..] == sq[idx + 1..];
    assert Presses(sq[idx..]) == [Press(sq[idx]) as Raw] + rest;
    PressFacts(sq[idx]);
    FloorStep(sq, idx, Press(sq[idx]), rest);
    JudgeOneTile(sq, idx, sq[idx]);
    if idx + 1 < |sq| {
      PressesPass(sq, idx + 1);
    } else {
      assert sq[idx + 1..] == [];
    }
  }

  /**
   * While tile `sq[idx]` is expected, a foot still on the previous tile and
   * both feet in the air are ignored; since no tile repeats its neighbour,
   * the tolerance never swallows the expected tile.
   */
  lemma LingeringIgnored(sq: seq<int>, idx: nat, rx: seq<Raw>)
    requires ValidTiles(sq) && NoAdjacentRepeats(sq) && 0 < idx < |sq|
    ensures Replay(sq, idx, [Press(sq[idx - 1]) as Raw] + rx) == Replay(sq, idx, rx)
    ensures Replay(sq, idx, [0] + rx) == Replay(sq, idx, rx)
  {
    PressFacts(sq[idx - 1]);
    FloorStep(sq, idx, Press(sq[idx - 1]), rx);
    JudgeOneTile(sq, idx, sq[idx - 1]);
    FloorStep(sq, idx, 0, rx);
    assert Low6(0) == 0;
  }

  /** Stepping on any tile other than the expected and the previous one fails the level at once. */
  lemma WrongTileFails(sq: seq<int>, idx: nat, t: int, rx: seq<Raw>)
    requires ValidTiles(sq) && idx < |sq| && 1 <= t <= 6
    requires t != sq[idx] && (idx == 0 || t != sq[idx - 1])
    ensures Replay(sq, idx, [Press(t) as Raw] + rx) == InputRun(LevelFail, idx, rx)
  {
    PressFacts(t);
    FloorStep(sq, idx, Press(t), rx);
    JudgeOneTile(sq, idx, t);
  }

  // ---------------------------------------------------------------------
  // Level pass: flush and bonus retrieval (handleLevelPass, GameEngine.java:212-250)
  // ---------------------------------------------------------------------

  /** `while (readRawByte() != -1) {}`: drops arrivals up to and including the first "no data". */
  function Flushed(rx: seq<Raw>): seq<Raw>
    decreases |rx|
  {
    if rx == [] then [] else if rx[0] == NoData then rx[1..] else Flushed(rx[1..])
  }

  /** Flushing keeps exactly what follows the first "no data", and nothing if there is none. */
  lemma {:induction false} FlushedFacts(rx: seq<Raw>)
    ensures NoData !in rx ==> Flushed(rx) == []
    ensures NoData in rx ==> exists k :: 0 <= k < |rx| && rx[k] == NoData && NoData !in rx[..k] && Flushed(rx) == rx[k + 1..]
    decreases |rx|
  {
    if rx != [] {
      FlushedFacts(rx[1..]);
      if rx[0] == NoData {
        assert rx[..0] == [];
      } else if NoData in rx {
        assert NoData in rx[1..];
        var k :| 0 <= k < |rx[1..]| && rx[1..][k] == NoData && NoData !in rx[1..][..k] && Flushed(rx[1..]) == rx[1..][k + 1..];
        assert rx[..k + 1] == [rx[0]] + rx[1..][..k];
        assert rx[k + 1] == NoData;
      }
    }
  }

  /** A wearable bonus report (`getSource() == ARDUINO_2 && isBonusReport()`). */
  predicate IsBonusReport(m: Message)
  {
    m.source == Arduino2 && m.bonusReport
  }

  /** An arrival that the retrieval loop accepts as the report. */
  predicate ReportByte(raw: Raw)
  {
    raw != NoData && IsBonusReport(Parse(Signed(raw)))
  }

  /**
   * One attempt's window: up to `polls` reads, stopping at the first bonus
   * report. Other bytes are read and discarded.
   */
  function PollWindow(polls: nat, rx: seq<Raw>): (r: (Option<Message>, seq<Raw>))
  {
    if polls == 0 then (None, rx)
    else
      var raw := Head(rx);
      if ReportByte(raw) then (Some(Parse(Signed(raw))), Tail(rx))
      else PollWindow(polls - 1, Tail(rx))
  }

  /** A window reads at most `polls` arrivals and leaves the rest unread, in order. */
  lemma {:induction false} PollWindowSuffix(polls: nat, rx: seq<Raw>)
    ensures var rest := PollWindow(polls, rx).1;
      |rest| <= |rx| && |rx| - |rest| <= polls && rest == rx[|rx| - |rest|..]
  {
    if polls > 0 && rx != [] && !ReportByte(rx[0]) {
      PollWindowSuffix(polls - 1, rx[1..]);
      var rest := PollWindow(polls - 1, rx[1..]).1;
      assert rest == rx[1..][|rx[1..]| - |rest|..];
    } else if polls > 0 && rx == [] {
      PollWindowSuffix(polls - 1, rx);
    }
  }

  /** A report a window finds is the last byte it read, decoded. */
  lemma {:induction false} PollWindowFound(polls: nat, rx: seq<Raw>)
    ensures var r := PollWindow(polls, rx);
      var used := |rx| - |r.1|;
      r.0.Some? ==> used > 0 && ReportByte(rx[used - 1]) && r.0.value == Parse(Signed(rx[used - 1]))
  {
    PollWindowSuffix(polls, rx);
    if polls > 0 && rx != [] && !ReportByte(rx[0]) {
      var r := PollWindow(polls - 1, rx[1..]);
      assert PollWindow(polls, rx) == r;
      PollWindowFound(polls - 1, rx[1..]);
      var used := |rx[1..]| - |r.1|;
      if r.0.Some? {
        assert rx[used] == rx[1..][used - 1];
      }
    } else if polls > 0 && rx == [] {
      PollWindowFound(polls - 1, rx);
    }
  }

  /** Every byte a window read before the one it stopped at is not a report. */
  lemma {:induction false} PollWindowSkipped(polls: nat, rx: seq<Raw>)
    ensures var r := PollWindow(polls, rx);
      var used := |rx| - |r.1|;
      forall i :: 0 <= i < used - (if r.0.Some? then 1 else 0) ==> !ReportByte(rx[i])
  {
    PollWindowSuffix(polls, rx);
    if polls > 0 && rx != [] && !ReportByte(rx[0]) {
      var r := PollWindow(polls - 1, rx[1..]);
      assert PollWindow(polls, rx) == r;
      PollWindowSkipped(polls - 1, rx[1..]);
      var skipped := |rx[1..]| - |r.1| - (if r.0.Some? then 1 else 0);
      forall i | 0 <= i < skipped + 1
        ensures !ReportByte(rx[i])
      {
        if i > 0 {
          assert rx[i] == rx[1..][i - 1];
        }
      }
    } else if polls > 0 && rx == [] {
      PollWindowSkipped(polls - 1, rx);
    }
  }

  /**
   * A window takes the first report among the bytes it reads and skips
   * only non-reports before it; a window that finds nothing read no report.
   */
  lemma PollWindowFirstReport(polls: nat, rx: seq<Raw>)
    ensures var r := PollWindow(polls, rx);
      var used := |rx| - |r.1|;
      && |r.1| <= |rx| && r.1 == rx[used..] && used <= polls
      && (r.0.Some? ==>
            used > 0 && ReportByte(rx[used - 1]) && r.0.value == Parse(Signed(rx[used - 1]))
            && IsBonusReport(r.0.value))
      && (forall i :: 0 <= i < used - (if r.0.Some? then 1 else 0) ==> !ReportByte(rx[i]))
  {
    PollWindowSuffix(polls, rx);
    PollWindowFound(polls, rx);
    PollWindowSkipped(polls, rx);
  }

  /** The outcome of the retry loop: how many requests went out, the report, the unread arrivals. */
  datatype Retrieval = Retrieval(requests: nat, report: Option<Message>, rest: seq<Raw>)

  /** The retry loop: one request and one window per attempt until a report arrives. */
  function Retrieve(windows: seq<nat>, rx: seq<Raw>): Retrieval
    decreases |windows|
  {
    if windows == [] then Retrieval(0, None, rx)
    else
      var (found, rest) := PollWindow(windows[0], rx);
      if found.Some? then Retrieval(1, found, rest)
      else
        var r := Retrieve(windows[1..], rest);
        Retrieval(r.requests + 1, r.report, r.rest)
  }

  /**
   * At most one request per window and at least one in all; the loop ends
   * early only on a report, and whatever it returns is a bonus report.
   */
  lemma {:induction false} RetrieveCounts(windows: seq<nat>, rx: seq<Raw>)
    ensures var r := Retrieve(windows, rx);
      && r.requests <= |windows|
      && (windows != [] ==> r.requests >= 1)
      && (r.report.None? ==> r.requests == |windows|)
      && (r.report.Some? ==> IsBonusReport(r.report.value))
    decreases |windows|
  {
    if windows != [] {
      PollWindowFirstReport(windows[0], rx);
      var (found, rest) := PollWindow(windows[0], rx);
      if found.None? {
        RetrieveCounts(windows[1..], rest);
      }
    }
  }

  /**
   * The retry loop stops at the window that finds a report: the attempts it
   * made are exactly those up to that window, and the attempts before it
   * found nothing.
   */
  lemma {:induction false} RetrieveStopsAtReport(windows: seq<nat>, rx: seq<Raw>)
    ensures var r := Retrieve(windows, rx);
      r.report.Some? ==>
        && 1 <= r.requests <= |windows|
        && Retrieve(windows[..r.requests], rx) == r
        && Retrieve(windows[..r.requests - 1], rx).report.None?
    decreases |windows|
  {
    if windows != [] {
      var (found, rest) := PollWindow(windows[0], rx);
      if found.Some? {
        assert windows[..1] == [windows[0]];
        assert windows[..1][1..] == [];
      } else {
        var tail := windows[1..];
        var r' := Retrieve(tail, rest);
        RetrieveStopsAtReport(tail, rest);
        if r'.report.Some? {
          var k := r'.requests;
          var pre := windows[..k + 1];
          assert pre[0] == windows[0] && pre[1..] == tail[..k];
          var pre' := windows[..k];
          assert pre'[0] == windows[0] && pre'[1..] == tail[..k - 1];
        }
      }
    }
  }

  /**
   * Over all attempts the loop reads a prefix of the arrivals; the report it
   * returns is the last byte read, and every byte read before it is not a
   * report. When no report comes, no byte read was a report.
   */
  lemma {:induction false} RetrieveFirstReport(windows: seq<nat>, rx: seq<Raw>)
    ensures var r := Retrieve(windows, rx);
      var used := |rx| - |r.rest|;
      && |r.rest| <= |rx| && r.rest == rx[used..]
      && (r.report.Some? ==>
            used > 0 && ReportByte(rx[used - 1]) && r.report.value == Parse(Signed(rx[used - 1])))
      && (forall i :: 0 <= i < used - (if r.report.Some? then 1 else 0) ==> !ReportByte(rx[i]))
    decreases |windows|
  {
    if windows != [] {
      PollWindowFirstReport(windows[0], rx);
      var (found, rest) := PollWindow(windows[0], rx);
      if found.None? {
        RetrieveFirstReport(windows[1..], rest);
        var r' := Retrieve(windows[1..], rest);
        var used0 := |rx| - |rest|;
        var used1 := |rest| - |r'.rest|;
        assert r'.rest == rx[used0 + used1..];
        forall i | 0 <= i < used0 + used1 - (if r'.report.Some? then 1 else 0)
          ensures !ReportByte(rx[i])
        {
          if i >= used0 {
            assert rx[i] == rest[i - used0];
          }
        }
        if r'.report.Some? {
          assert rx[used0 + used1 - 1] == rest[used1 - 1];
        }
      }
    }
  }

  /**
   * The retry loop as a whole: at most one request per window and at least
   * one in all, all of them only when no report came; it stops at the first
   * report it reads, sends no request after the window that found it, and
   * returns that report, which is a wearable bonus report.
   */
  lemma RetrieveFacts(windows: seq<nat>, rx: seq<Raw>)
    ensures var r := Retrieve(windows, rx);
      && r.requests <= |windows|
      && (windows != [] ==> r.requests >= 1)
      && (r.report.None? ==> r.requests == |windows|)
      && (r.report.Some? ==> IsBonusReport(r.report.value))
    ensures var r := Retrieve(windows, rx);
      r.report.Some? ==>
        Retrieve(windows[..r.requests], rx) == r && Retrieve(windows[..r.requests - 1], rx).report.None?
    ensures var r := Retrieve(windows, rx);
      var used := |rx| - |r.rest|;
      r.report.Some? ==>
        && used > 0 && ReportByte(rx[used - 1]) && r.report.value == Parse(Signed(rx[used - 1]))
        && forall i :: 0 <= i < used - 1 ==> !ReportByte(rx[i])
  {
    RetrieveCounts(windows, rx);
    RetrieveStopsAtReport(windows, rx);
    RetrieveFirstReport(windows, rx);
  }

  /** With no report in any window, all three requests go out and no bonus is earned. */
  lemma {:induction false} SilentWearable(windows: seq<nat>, rx: seq<Raw>)
    requires forall i :: 0 <= i < |rx| ==> !ReportByte(rx[i])
    ensures Retrieve(windows, rx).report == None
    ensures Retrieve(windows, rx).requests == |windows|
    decreases |windows|
  {
    if windows != [] {
      PollWindowFirstReport(windows[0], rx);
      var (found, rest) := PollWindow(windows[0], rx);
      var used := |rx| - |rest|;
      forall i | 0 <= i < |rest| ensures !ReportByte(rest[i]) {
        assert rest[i] == rx[used + i];
      }
      SilentWearable(windows[1..], rest);
    }
  }

  /** `n` copies of a byte. */
  function Repeat(b: Octet, n: nat): (r: seq<Octet>)
    ensures |r| == n && forall i :: 0 <= i < n ==> r[i] == b
  {
    if n == 0 then [] else Repeat(b, n - 1) + [b]
  }

  function ReportsAccel(report: Option<Message>): bool
  {
    report.Some? && report.value.accelExceeded
  }

  function ReportsHr(report: Option<Message>): bool
  {
    report.Some? && report.value.hrExceeded
  }

  /** The status messages a report produces: heart rate first, then speed. */
  function BonusNotices(report: Option<Message>): seq<Event>
  {
    (if ReportsHr(report) then [StatusMessage("Bonus: Heart Rate!")] else [])
    + (if ReportsAccel(report) then [StatusMessage("Bonus: Speed!")] else [])
  }

  // ---------------------------------------------------------------------
  // The engine's state and its transitions
  // ---------------------------------------------------------------------

  /**
   * Everything a level step reads or changes: the engine's fields, the serial
   * port, and the PlayerStats timestamps and flags.
   */
  datatype Snapshot = Snapshot(
    level: int,
    total: int,
    active: bool,
    sequence: seq<int>,
    rx: seq<Raw>,
    tx: seq<Octet>,
    events: seq<Event>,
    startNs: int,
    endNs: int,
    accelHit: bool,
    hrHit: bool)

  /** What a level step needs from outside: random draws, clock readings, bonus windows, time score. */
  datatype LevelEnv = LevelEnv(
    draws: seq<int>,
    startNs: int,
    endNs: int,
    windows: seq<nat>,
    timeScore: int)

  /**
   * The environment is one the source can produce: draws as `nextInt` returns
   * them, enough of them, three bonus windows, and a time score that is
   * `round(maxScore * exp(-t / 6.0))` for a duration t that is not negative,
   * hence between 0 and maxScore.
   */
  predicate EnvFits(level: int, env: LevelEnv)
  {
    DrawsSuffice(level, env.draws) && |env.windows| == BonusAttempts && 0 <= env.timeScore <= MaxScore(level)
  }

  /** The engine's invariant: a level of at least 1, a non-negative total, tiles 1..6. */
  predicate Healthy(s: Snapshot)
  {
    s.level >= 1 && s.total >= 0 && ValidTiles(s.sequence)
  }

  /** `endGame`: inactive, both peripherals told to stop, observers told the final score. */
  function EndGame(s: Snapshot): Snapshot
  {
    s.(active := false,
       tx := s.tx + [Unsigned(CmdStopPads), Unsigned(CmdAbortIdle)],
       events := s.events + [GameEnded(s.total)])
  }

  /** `handleLevelFail`: abort both peripherals, apply the fail rule, end the game. */
  function AfterFail(s: Snapshot): Snapshot
  {
    var total := ApplyFailRule(s.level, s.total);
    EndGame(s.(total := total,
               tx := s.tx + [Unsigned(CmdAbortIdle), Unsigned(CmdStopPads)],
               events := s.events + [ScoreChanged(total), StatusMessage("Failed! Game Over.")]))
  }

  /**
   * `handleLevelPass`: stop the pads, flush, retrieve the bonus report, latch
   * its flags, add the level score, and advance the level.
   */
  function AfterPass(s: Snapshot, windows: seq<nat>, timeScore: int): Snapshot
  {
    var ret := Retrieve(windows, Flushed(s.rx));
    var accel := s.accelHit || ReportsAccel(ret.report);
    var hr := s.hrHit || ReportsHr(ret.report);
    var total := s.total + ScorePassedLevel(s.level, timeScore, accel, hr);
    s.(total := total,
       level := s.level + 1,
       rx := ret.rest,
       tx := s.tx + [Unsigned(CmdStopPads)] + Repeat(Unsigned(CmdReportBonus), ret.requests),
       events := s.events + BonusNotices(ret.report)
                 + [ScoreChanged(total), StatusMessage("Level Cleared!"), LevelChanged(s.level + 1)],
       accelHit := accel,
       hrHit := hr)
  }

  /** `waitForPlayerInput` and what it hands over to: pass, fail, or (out of arrivals) nothing. */
  function AfterInput(s: Snapshot, env: LevelEnv): Snapshot
    requires ValidTiles(s.sequence) && |s.sequence| > 0
  {
    var run := Replay(s.sequence, 0, s.rx);
    match run.verdict
    case LevelPass => AfterPass(s.(rx := run.rest, endNs := env.endNs), env.windows, env.timeScore)
    case LevelFail => AfterFail(s.(rx := run.rest))
    case OutOfInput => s.(rx := run.rest)
  }

  /** The state once the sequence has been shown and sensing enabled. */
  function Shown(s: Snapshot, sq: seq<int>, env: LevelEnv): Snapshot
  {
    s.(sequence := sq,
       tx := s.tx + Playback(sq) + [Unsigned(CmdStartPads), Unsigned(CmdStartTracking)],
       events := s.events + [StatusMessage("Watch sequence..."), StatusMessage("Prepare..."), StatusMessage("GO!")],
       startNs := env.startNs,
       endNs := 0,
       accelHit := false,
       hrHit := false)
  }

  /** `nextLevel`, one level: nothing when inactive, else generate, show, and read input. */
  function AfterLevel(s: Snapshot, env: LevelEnv): Snapshot
    requires Healthy(s)
    requires s.active ==> EnvFits(s.level, env)
  {
    if !s.active then s
    else
      var sq := Generated(s.level, env.draws).value;
      GeneratedSequence(s.level, env.draws);
      AfterInput(Shown(s, sq, env), env)
  }

  /** The reset at the start of `startGame`: level 1, score 0, active, both peripherals idled. */
  function Reset(s: Snapshot): Snapshot
  {
    s.(level := 1, total := 0, active := true,
       events := s.events + [LevelChanged(1), ScoreChanged(0), StatusMessage("Get Ready...")],
       tx := s.tx + [Unsigned(CmdStopPads), Unsigned(CmdAbortIdle)])
  }

  /** `startGame`: the reset, then the first level. */
  function AfterStart(s: Snapshot, env: LevelEnv): Snapshot
    requires ValidTiles(s.sequence)
    requires EnvFits(1, env)
  {
    AfterLevel(Reset(s), env)
  }

  /** One environment per level, the j-th one fitting level `first + j`. */
  predicate EnvsFit(first: int, envs: seq<LevelEnv>)
  {
    forall j :: 0 <= j < |envs| ==> EnvFits(first + j, envs[j])
  }

  /** The first environment fits the first level, and the rest fit the levels after it. */
  lemma EnvsFitSuffix(first: int, envs: seq<LevelEnv>, k: nat)
    requires EnvsFit(first, envs) && k <= |envs|
    ensures EnvsFit(first + k, envs[k..])
    ensures k < |envs| ==> EnvFits(first + k, envs[k])
  {
    forall j | 0 <= j < |envs[k..]| ensures EnvFits(first + k + j, envs[k..][j]) {
      assert EnvFits(first + (k + j), envs[k + j]);
    }
  }

  /**
   * Infinite mode: `handleLevelPass` goes straight on to the next level, so
   * levels follow one another while each is passed. The session ends at a
   * failed level, at a level whose input runs out, or when the supplied
   * environments do.
   */
  function Session(s: Snapshot, envs: seq<LevelEnv>): Snapshot
    requires Healthy(s)
    requires s.active ==> EnvsFit(s.level, envs)
    decreases |envs|
  {
    if envs == [] || !s.active then s
    else
      var t := AfterLevel(s, envs[0]);
      LevelKeepsHealthy(s, envs[0]);
      if t.level == s.level + 1 then
        EnvsFitSuffix(s.level, envs, 1);
        Session(t, envs[1..])
      else t
  }

  /** The verdict of the input phase of an active level. */
  function LevelVerdict(s: Snapshot, env: LevelEnv): InputVerdict
    requires Healthy(s) && s.active && EnvFits(s.level, env)
  {
    GeneratedSequence(s.level, env.draws);
    Replay(Generated(s.level, env.draws).value, 0, s.rx).verdict
  }

  /** The report the bonus retrieval of a passed level obtains. */
  function LevelReport(s: Snapshot, env: LevelEnv): Retrieval
    requires Healthy(s) && s.active && EnvFits(s.level, env)
  {
    GeneratedSequence(s.level, env.draws);
    var sq := Generated(s.level, env.draws).value;
    Retrieve(env.windows, Flushed(Replay(sq, 0, s.rx).rest))
  }

  // ---------------------------------------------------------------------
  // Properties of a level step
  // ---------------------------------------------------------------------

  /** `nextLevel` does nothing while the game is inactive. */
  lemma InactiveLevelIsNoOp(s: Snapshot, env: LevelEnv)
    requires Healthy(s) && !s.active
    ensures AfterLevel(s, env) == s
  {
  }

  /**
   * A passed level adds exactly the level score (time score plus the bonuses
   * the report carries) and raises the level by one; the game stays active.
   * The pads are stopped and one to three bonus requests follow.
   */
  lemma PassedLevel(s: Snapshot, env: LevelEnv)
    requires Healthy(s) && s.active && EnvFits(s.level, env)
    requires LevelVerdict(s, env) == LevelPass
    ensures var t := AfterLevel(s, env);
      var ret := LevelReport(s, env);
      && t.level == s.level + 1
      && t.total == s.total + ScorePassedLevel(s.level, env.timeScore, ReportsAccel(ret.report), ReportsHr(ret.report))
      && s.total <= t.total <= s.total + MaxScore(s.level) + AccelBonusPoints + HrBonusPoints
      && t.active
      && t.accelHit == ReportsAccel(ret.report) && t.hrHit == ReportsHr(ret.report)
      && 1 <= ret.requests <= BonusAttempts
      && t.tx == s.tx + Playback(t.sequence) + [0x00, 0x81, 0x40] + Repeat(0x83, ret.requests)
  {
    GeneratedSequence(s.level, env.draws);
    var sq := Generated(s.level, env.draws).value;
    var run := Replay(sq, 0, s.rx);
    RetrieveFacts(env.windows, Flushed(run.rest));
    var ret := LevelReport(s, env);
    PassedScoreBounds(s.level, env.timeScore, ReportsAccel(ret.report), ReportsHr(ret.report));
    CommandOrigins();
  }

  /**
   * A failed level applies the fail rule to the total, ends the game, keeps
   * the level, and writes abort, stop, stop, abort after the playback.
   */
  lemma FailedLevel(s: Snapshot, env: LevelEnv)
    requires Healthy(s) && s.active && EnvFits(s.level, env)
    requires LevelVerdict(s, env) == LevelFail
    ensures var t := AfterLevel(s, env);
      && t.total == ApplyFailRule(s.level, s.total)
      && (s.level == 1 ==> t.total == 0)
      && (s.level > 1 ==> t.total == s.total)
      && !t.active
      && t.level == s.level
      && t.tx == s.tx + Playback(t.sequence) + [0x00, 0x81] + [0x82, 0x40, 0x40, 0x82]
      && t.events[|t.events| - 1] == GameEnded(t.total)
  {
    GeneratedSequence(s.level, env.draws);
    CommandOrigins();
  }

  /** A level whose arrivals run out undecided changes only the shown sequence, logs and timers. */
  lemma StalledLevel(s: Snapshot, env: LevelEnv)
    requires Healthy(s) && s.active && EnvFits(s.level, env)
    requires LevelVerdict(s, env) == OutOfInput
    ensures var t := AfterLevel(s, env);
      t.level == s.level && t.total == s.total && t.active && t.rx == []
  {
    GeneratedSequence(s.level, env.draws);
    var sq := Generated(s.level, env.draws).value;
    ReplayFacts(sq, 0, s.rx);
  }

  /** Every level step keeps the engine healthy: level at least 1, total not negative. */
  lemma LevelKeepsHealthy(s: Snapshot, env: LevelEnv)
    requires Healthy(s)
    requires s.active ==> EnvFits(s.level, env)
    ensures Healthy(AfterLevel(s, env))
    ensures AfterLevel(s, env).level >= s.level
  {
    if s.active {
      GeneratedSequence(s.level, env.draws);
      var sq := Generated(s.level, env.draws).value;
      ReplayFacts(sq, 0, s.rx);
      FailRuleNeverIncreases(s.level, s.total);
    }
  }

  /**
   * Starting a game resets level and score before the first level, so a
   * wrong step on level 1 ends the game with score 0, and a pass moves to
   * level 2 with exactly the level's score.
   */
  lemma StartThenFirstLevel(s: Snapshot, env: LevelEnv)
    requires ValidTiles(s.sequence) && EnvFits(1, env)
    ensures var t := AfterStart(s, env);
      && t.tx[..|s.tx| + 2] == s.tx + [0x40, 0x82]
      && (!t.active ==> t.total == 0 && t.level == 1)
      && (t.active ==> t.level == 1 || t.level == 2)
  {
    var reset := Reset(s);
    GeneratedSequence(1, env.draws);
    var sq := Generated(1, env.draws).value;
    ReplayFacts(sq, 0, reset.rx);
    CommandOrigins();
    var t := AfterStart(s, env);
    assert t.tx[..|s.tx| + 2] == reset.tx;
  }

  /** A passed level lets the session go on with the next environment from the next level. */
  lemma SessionAdvances(s: Snapshot, envs: seq<LevelEnv>, t: Snapshot)
    requires Healthy(s) && s.active && envs != []
    requires EnvsFit(s.level, envs) && EnvFits(s.level, envs[0])
    requires t == AfterLevel(s, envs[0]) && t.level == s.level + 1
    ensures Healthy(t) && t.active && EnvsFit(t.level, envs[1..])
    ensures Session(s, envs) == Session(t, envs[1..])
  {
    EnvsFitSuffix(s.level, envs, 1);
    LevelKeepsHealthy(s, envs[0]);
    var v := LevelVerdict(s, envs[0]);
    if v == LevelPass {
      PassedLevel(s, envs[0]);
    } else {
      assert false;
    }
  }

  /** Any other outcome of a level (failed, or out of input) ends the session there. */
  lemma SessionStops(s: Snapshot, envs: seq<LevelEnv>, t: Snapshot)
    requires Healthy(s) && s.active && envs != []
    requires EnvsFit(s.level, envs) && EnvFits(s.level, envs[0])
    requires t == AfterLevel(s, envs[0]) && t.level != s.level + 1
    ensures Session(s, envs) == t
  {
  }

  /**
   * Over a whole session the level rises by one per passed level and never
   * beyond the levels supplied, and the total never drops below where it
   * started, except that a failure on level 1 forfeits everything.
   */
  lemma {:induction false} SessionFacts(s: Snapshot, envs: seq<LevelEnv>)
    requires Healthy(s)
    requires s.active ==> EnvsFit(s.level, envs)
    ensures var t := Session(s, envs);
      && Healthy(t)
      && s.level <= t.level <= s.level + |envs|
      && (t.total >= s.total || (t.level == 1 && t.total == 0 && !t.active))
      && (!s.active ==> t == s)
    decreases |envs|
  {
    if envs != [] && s.active {
      var t := AfterLevel(s, envs[0]);
      LevelKeepsHealthy(s, envs[0]);
      var v := LevelVerdict(s, envs[0]);
      if v == LevelPass {
        PassedLevel(s, envs[0]);
        EnvsFitSuffix(s.level, envs, 1);
        SessionFacts(t, envs[1..]);
        assert Session(s, envs) == Session(t, envs[1..]);
      } else if v == LevelFail {
        FailedLevel(s, envs[0]);
        FailRuleCases(s.level, s.total);
        assert Session(s, envs) == t;
      } else {
        StalledLevel(s, envs[0]);
        assert Session(s, envs) == t;
      }
    }
  }
}
