/**
 * The one-byte wire format shared by the host and the two microcontrollers
 * (ArduinoMessage.java). Bit 7 names the sender: clear for the floor-tile
 * panel (Arduino 1), set for the wearable (Arduino 2). A floor message carries
 * the pressed-tile mask in bits 0-5; a wearable message carries the start
 * button in bit 3, the acceleration bonus in bit 1 and the heart-rate bonus
 * in bit 0. Decoding never rejects a byte.
 */
module Wire {

  /** A Java `byte`: a signed 8-bit value. */
  type JavaByte = x: int | -128 <= x < 128

  /** An unsigned octet, the value `b & 0xFF` of a byte's bit pattern. */
  type Octet = x: int | 0 <= x < 256

  /** `b & 0xFF`: the unsigned reading of a byte's two's-complement bits. */
  function Unsigned(b: JavaByte): Octet
  {
    b % 256
  }

  /** `(byte) u`: Java's narrowing cast of 0..255 back to a signed byte. */
  function Signed(u: Octet): JavaByte
  {
    if u < 128 then u else u - 256
  }

  /** The narrowing cast and the `& 0xFF` widening undo each other. */
  lemma SignedUnsignedInverse(u: Octet, b: JavaByte)
    ensures Unsigned(Signed(u)) == u
    ensures Signed(Unsigned(b)) == b
    ensures Unsigned(b) < 128 <==> b >= 0
  {
  }

  function Pow2(k: nat): (p: nat)
    ensures p >= 1
  {
    if k == 0 then 1 else 2 * Pow2(k - 1)
  }

  /** Bit k of a non-negative value, by arithmetic rather than masking. */
  predicate Bit(x: int, k: nat)
  {
    (x / Pow2(k)) % 2 == 1
  }

  /** Tile t (1..6) is pressed in a floor mask when bit t-1 is set: `((mask >> (t - 1)) & 1) == 1`. */
  predicate Pressed(mask: bv8, t: int)
  {
    1 <= t <= 6 && (mask >> (t - 1)) & 1 == 1
  }

  /** The one-hot mask of tile t, `1 << (t - 1)`. */
  function TileMask(t: int): bv8
    requires 1 <= t <= 6
  {
    (1 as bv8) << (t - 1)
  }

  /** The values with exactly one of the low six bits set and no other bit. */
  predicate OneHot6(x: int)
  {
    x == 1 || x == 2 || x == 4 || x == 8 || x == 16 || x == 32
  }

  datatype Source = Arduino1 | Arduino2

  /**
   * A parsed message. The accessors stand for the Java getters:
   * `mask6` is getPressedTilesMask6 (a six-bit mask, held here as a bit-vector),
   * `hrExceeded` isHrExceeded, `accelExceeded` isAccelExceeded,
   * `startGame` isStartGame and `bonusReport` isBonusReport.
   */
  datatype Message = Message(
    source: Source,
    raw: Octet,
    mask6: bv8,
    hrExceeded: bool,
    accelExceeded: bool,
    startGame: bool,
    bonusReport: bool)

  /** The private constructor, which normalises `raw & 0xFF` and `mask & 0x3F`. */
  function Make(source: Source, raw: Octet, mask: bv8, hr: bool, acc: bool, start: bool, report: bool): (m: Message)
    ensures m.raw == raw && m.mask6 == mask & 0x3F
  {
    Message(source, raw % 256, mask & 0x3F, hr, acc, start, report)
  }

  /** The constructor keeps the sender and the four flags as given. */
  lemma MakeStores(source: Source, raw: Octet, mask: bv8, hr: bool, acc: bool, start: bool, report: bool)
    ensures var m := Make(source, raw, mask, hr, acc, start, report);
      && m.source == source && m.hrExceeded == hr && m.accelExceeded == acc
      && m.startGame == start && m.bonusReport == report
  {
  }

  /** `u & 0x3F`: the low six bits of a byte. */
  function Low6(u: Octet): bv8
  {
    (u as bv8) & 0x3F
  }

  /** Bit t-1 of the byte, read through the mask, is bit t-1 by arithmetic. */
  lemma PressedIsBit(u: Octet, t: int)
    requires 1 <= t <= 6
    ensures Pressed(Low6(u), t) == Bit(u, t - 1)
  {
    if t == 1 {} else if t == 2 {} else if t == 3 {} else if t == 4 {} else if t == 5 {} else {}
  }

  /** The floor mask of a byte presses exactly the tiles whose bits are set. */
  lemma FloorMaskBits(u: Octet)
    ensures forall t :: Pressed(Low6(u), t) <==> 1 <= t <= 6 && Bit(u, t - 1)
  {
    forall t | 1 <= t <= 6
      ensures Pressed(Low6(u), t) == Bit(u, t - 1)
    {
      PressedIsBit(u, t);
    }
  }

  /** A one-hot tile mask presses its own tile and no other. */
  lemma PressedTileMask(n: int)
    requires 1 <= n <= 6
    ensures forall t :: Pressed(TileMask(n), t) <==> t == n
  {
    forall t | 1 <= t <= 6
      ensures Pressed(TileMask(n), t) <==> t == n
    {
      if n == 1 {} else if n == 2 {} else if n == 3 {} else if n == 4 {} else if n == 5 {} else {}
    }
  }

  /**
   * `ArduinoMessage.parse`: total over all 256 byte values. The contract
   * restates the bit-mask decoding arithmetically (quotients and remainders).
   */
  function Parse(b: JavaByte): (m: Message)
    ensures m.raw == Unsigned(b)
    ensures m.source == Arduino1 <==> m.raw < 128
    ensures m.source == Arduino1 ==>
      && (forall t :: Pressed(m.mask6, t) <==> 1 <= t <= 6 && Bit(m.raw, t - 1))
      && !m.hrExceeded && !m.accelExceeded && !m.startGame && !m.bonusReport
    ensures m.source == Arduino2 ==>
      && m.mask6 == 0
      && m.startGame == Bit(m.raw, 3)
      && m.accelExceeded == Bit(m.raw, 1)
      && m.hrExceeded == Bit(m.raw, 0)
      && m.bonusReport == !m.startGame
    ensures m.mask6 & 0xC0 == 0
  {
    var u := Unsigned(b);
    var v := u as bv8;
    var fromArduino2 := (v & 0x80) != 0;
    if !fromArduino2 then
      FloorMaskBits(u);
      Make(Arduino1, u, Low6(u), false, false, false, false)
    else
      var start := (v & 0x08) != 0;
      var hr := (v & 0x01) != 0;
      var acc := (v & 0x02) != 0;
      Make(Arduino2, u, 0, hr, acc, start, !start)
  }

  /**
   * `ArduinoMessage.encodeTileOn`: `(byte) ((1 << (n - 1)) & 0x3F)` with Java's
   * 32-bit shift, whose count is taken modulo 32 (`(n - 1) & 31`).
   */
  function EncodeTileOn(n: int): (r: JavaByte)
    ensures 0 <= r < 64
  {
    var bit := (1 as bv32) << ShiftCount(n);
    Signed((bit & 0x3F) as int)
  }

  /** Java's shift count for `1 << (n - 1)` on an `int`: the low five bits of n - 1. */
  function ShiftCount(n: int): (s: int)
    ensures 0 <= s < 32
  {
    (n - 1) % 32
  }

  /** The LED command is `2^s` for a shift count s = (n - 1) mod 32 below 6, and 0 otherwise. */
  lemma EncodeTileOnValue(n: int)
    ensures EncodeTileOn(n) == if ShiftCount(n) < 6 then Pow2(ShiftCount(n)) else 0
  {
    var s := ShiftCount(n);
    if s == 0 {} else if s == 1 {} else if s == 2 {} else if s == 3 {} else if s == 4 {} else if s == 5 {}
    else {
      assert ((1 as bv32) << s) & 0x3F == 0;
    }
  }

  /** Every byte decodes, and the stored raw value is the byte's unsigned value. */
  lemma ParseTotal(u: Octet)
    ensures Parse(Signed(u)).raw == u
    ensures Parse(Signed(u)).source == (if u < 128 then Arduino1 else Arduino2)
  {
    SignedUnsignedInverse(u, 0);
  }

  /** A floor byte keeps only bits 0-5: bit 6 changes nothing, so 0x40 decodes to an empty mask. */
  lemma FloorIgnoresBitSix(u: Octet)
    requires 64 <= u < 128
    ensures Parse(Signed(u)).source == Parse(Signed(u - 64)).source == Arduino1
    ensures Parse(Signed(u)).mask6 == Parse(Signed(u - 64)).mask6
  {
    SignedUnsignedInverse(u, 0);
    SignedUnsignedInverse(u - 64, 0);
  }

  /** The stop-reporting byte 0x40 read back as a message presses no tile. */
  lemma StopByteIsEmptyMask()
    ensures Parse(0x40).source == Arduino1 && Parse(0x40).mask6 == 0
  {
  }

  /** The frame bits of a wearable byte: only bits 0, 1 and 3 carry meaning. */
  lemma WearableIgnoresOtherBits(u: Octet, w: Octet)
    requires u >= 128 && w >= 128
    requires Bit(u, 0) == Bit(w, 0) && Bit(u, 1) == Bit(w, 1) && Bit(u, 3) == Bit(w, 3)
    ensures var mu, mw := Parse(Signed(u)), Parse(Signed(w));
      mu.source == mw.source == Arduino2 && mu.mask6 == mw.mask6 == 0 &&
      mu.hrExceeded == mw.hrExceeded && mu.accelExceeded == mw.accelExceeded &&
      mu.startGame == mw.startGame && mu.bonusReport == mw.bonusReport
  {
    SignedUnsignedInverse(u, 0);
    SignedUnsignedInverse(w, 0);
  }

  /**
   * A wearable message is exactly one of a start signal and a bonus report;
   * a floor message is neither.
   */
  lemma StartOrReport(b: JavaByte)
    ensures var m := Parse(b);
      if m.source == Arduino2 then m.startGame != m.bonusReport
      else !m.startGame && !m.bonusReport
  {
  }

  /** For tiles 1..6 the LED command is the one-hot mask `1 << (n - 1)` with bit 7 clear. */
  lemma EncodeTileOnOneHot(n: int)
    requires 1 <= n <= 6
    ensures EncodeTileOn(n) == Pow2(n - 1)
    ensures OneHot6(EncodeTileOn(n)) && 0 < EncodeTileOn(n) < 128
  {
    EncodeTileOnValue(n);
    assert ShiftCount(n) == n - 1;
    if n == 1 {
      assert Pow2(0) == 1;
    } else if n == 2 {
      assert Pow2(1) == 2;
    } else if n == 3 {
      assert Pow2(2) == 4;
    } else if n == 4 {
      assert Pow2(3) == 8;
    } else if n == 5 {
      assert Pow2(4) == 16;
    } else {
      assert Pow2(5) == 32;
    }
  }

  /** Tile 0 and tiles 7..32 shift the bit out of the low six and encode to 0. */
  lemma EncodeTileOnOutOfRange(n: int)
    requires n == 0 || 7 <= n <= 32
    ensures EncodeTileOn(n) == 0
  {
    EncodeTileOnValue(n);
  }

  /** Shift counts are taken modulo 32, so tile n and tile n + 32 encode alike. */
  lemma EncodeTileOnPeriodic(n: int)
    ensures EncodeTileOn(n + 32) == EncodeTileOn(n)
  {
    assert ShiftCount(n + 32) == ShiftCount(n);
    EncodeTileOnValue(n);
    EncodeTileOnValue(n + 32);
  }

  /** Distinct tiles get distinct LED commands. */
  lemma EncodeTileOnInjective(n: int, n': int)
    requires 1 <= n <= 6 && 1 <= n' <= 6
    requires EncodeTileOn(n) == EncodeTileOn(n')
    ensures n == n'
  {
    EncodeTileOnOneHot(n);
    EncodeTileOnOneHot(n');
  }

  /**
   * Round trip: the LED command for tile n, read back as a message, is a floor
   * message whose mask is tile n's one-hot mask and presses tile n and no other.
   */
  lemma EncodeTileOnRoundTrip(n: int)
    requires 1 <= n <= 6
    ensures Parse(EncodeTileOn(n)).source == Arduino1
    ensures Parse(EncodeTileOn(n)).mask6 == TileMask(n)
    ensures forall t :: Pressed(Parse(EncodeTileOn(n)).mask6, t) <==> t == n
  {
    EncodeTileOnOneHot(n);
    assert Low6(EncodeTileOn(n)) == TileMask(n) by {
      if n == 1 {} else if n == 2 {} else if n == 3 {} else if n == 4 {} else if n == 5 {} else {}
    }
    PressedTileMask(n);
  }
}
