/** CRC-32C (Castagnoli) as a shift register, its table-driven form, and what
    the checksum is guaranteed to detect.

    The bit-vector facts are proved one at a time; the proofs built on them hide
    the operators and reason by equality alone. */
module Crc32c {
  import opened Bytes

  // The reflected Castagnoli polynomial.
  const POLYNOMIAL: bv32 := 0x82F63B78
  const INITIAL: bv32 := 0xFFFF_FFFF

  function Xor(x: bv32, y: bv32): bv32 { x ^ y }

  function Half(x: bv32): bv32 { x >> 1 }

  function Drop8(x: bv32): bv32 { x >> 8 }

  function Complement(x: bv32): bv32 { !x }

  // ---- the bit-serial definition ------------------------------------------

  function Feedback(x: bv32): bv32 {
    if x & 1 == 1 then POLYNOMIAL else 0
  }

  /** One clock of the register with nothing shifted in. */
  function Shift(x: bv32): bv32 {
    Xor(Half(x), Feedback(x))
  }

  function Shifts(x: bv32, n: nat): bv32
    decreases n
  {
    if n == 0 then x else Shifts(Shift(x), n - 1)
  }

  function BitValue(b: bool): bv32 {
    if b then 1 else 0
  }

  /** The defining machine: message bits enter one at a time. */
  function BitSerial(state: bv32, bits: seq<bool>): bv32
    decreases bits
  {
    if bits == [] then state else BitSerial(Shift(Xor(state, BitValue(bits[0]))), bits[1..])
  }

  function ToBits(b: byte): bv32 {
    (b as bv8) as bv32
  }

  function LowBit(x: bv32): bool { x & 1 == 1 }

  /** The low n bits of x, least significant first. */
  function BitsOf(x: bv32, n: nat): (r: seq<bool>)
    ensures |r| == n
    decreases n
  {
    if n == 0 then [] else [LowBit(x)] + BitsOf(Half(x), n - 1)
  }

  /** A message as bits, each octet least significant bit first. */
  function MessageBits(s: bytes): seq<bool> {
    if s == [] then [] else BitsOf(ToBits(s[0]), 8) + MessageBits(s[1..])
  }

  // ---- the octet-wise register ----------------------------------------------

  function Absorb(state: bv32, b: byte): bv32 {
    Shifts(Xor(state, ToBits(b)), 8)
  }

  function Run(state: bv32, s: bytes): bv32
    decreases s
  {
    if s == [] then state else Run(Absorb(state, s[0]), s[1..])
  }

  function Checksum(s: bytes): bv32 {
    Complement(Run(INITIAL, s))
  }

  // ---- linearity of the register -----------------------------------------

  lemma FeedbackLinear(x: bv32, y: bv32)
    ensures Feedback(Xor(x, y)) == Xor(Feedback(x), Feedback(y))
  {}

  lemma HalfLinear(x: bv32, y: bv32)
    ensures Half(Xor(x, y)) == Xor(Half(x), Half(y))
  {}

  lemma XorCommutes(a: bv32, b: bv32)
    ensures Xor(a, b) == Xor(b, a)
  {}

  lemma XorAssociates(a: bv32, b: bv32, c: bv32)
    ensures Xor(Xor(a, b), c) == Xor(a, Xor(b, c))
  {}

  lemma XorShuffle(a: bv32, b: bv32, c: bv32, d: bv32)
    ensures Xor(Xor(a, b), Xor(c, d)) == Xor(Xor(a, c), Xor(b, d))
  {
    hide Xor;
    XorAssociates(a, b, Xor(c, d));
    XorAssociates(b, c, d);
    XorCommutes(b, c);
    XorAssociates(c, b, d);
    XorAssociates(a, c, Xor(b, d));
  }

  lemma ShiftLinear(x: bv32, y: bv32)
    ensures Shift(Xor(x, y)) == Xor(Shift(x), Shift(y))
  {
    hide Feedback, Half, Xor;
    FeedbackLinear(x, y);
    HalfLinear(x, y);
    XorShuffle(Half(x), Half(y), Feedback(x), Feedback(y));
  }

  lemma {:induction false} ShiftsLinear(x: bv32, y: bv32, n: nat)
    ensures Shifts(Xor(x, y), n) == Xor(Shifts(x, n), Shifts(y, n))
    decreases n
  {
    hide Shift, Xor;
    if n > 0 {
      ShiftLinear(x, y);
      ShiftsLinear(Shift(x), Shift(y), n - 1);
    }
  }

  lemma ShiftInjective(x: bv32, y: bv32)
    requires Shift(x) == Shift(y)
    ensures x == y
  {}

  lemma {:induction false} ShiftsInjective(x: bv32, y: bv32, n: nat)
    requires Shifts(x, n) == Shifts(y, n)
    ensures x == y
    decreases n
  {
    hide Shift;
    if n > 0 {
      ShiftsInjective(Shift(x), Shift(y), n - 1);
      ShiftInjective(x, y);
    }
  }

  lemma {:induction false} ShiftsCompose(x: bv32, m: nat, n: nat)
    ensures Shifts(Shifts(x, m), n) == Shifts(x, m + n)
    decreases m
  {
    hide Shift;
    if m > 0 {
      ShiftsCompose(Shift(x), m - 1, n);
    }
  }

  function LowOctet(x: bv32): bv32 { x & 0xFF }

  function HighOctets(x: bv32): bv32 { x & 0xFFFF_FF00 }

  predicate Even(x: bv32) { x & 1 == 0 }

  lemma ShiftOfEven(x: bv32)
    requires Even(x)
    ensures Shift(x) == Half(x)
  {}

  lemma EightHalvings(x: bv32)
    requires LowOctet(x) == 0
    ensures Even(x) && Even(Half(x)) && Even(Half(Half(x))) && Even(Half(Half(Half(x))))
    ensures var y := Half(Half(Half(Half(x))));
            Even(y) && Even(Half(y)) && Even(Half(Half(y))) && Even(Half(Half(Half(y))))
            && Half(Half(Half(Half(y)))) == Drop8(x)
  {}

  lemma FourShifts(x: bv32, n: nat)
    requires Even(x) && Even(Half(x)) && Even(Half(Half(x))) && Even(Half(Half(Half(x))))
    ensures Shifts(x, n + 4) == Shifts(Half(Half(Half(Half(x)))), n)
  {
    hide Shift, Half, Even;
    ShiftOfEven(x);
    ShiftOfEven(Half(x));
    ShiftOfEven(Half(Half(x)));
    ShiftOfEven(Half(Half(Half(x))));
    var y := Half(Half(x));
    assert Shifts(x, n + 4) == Shifts(Half(x), n + 3) == Shifts(y, n + 2);
    assert Shifts(y, n + 2) == Shifts(Half(y), n + 1) == Shifts(Half(Half(y)), n);
  }

  /** A register whose low octet is clear just moves down by eight. */
  lemma ShiftsOfHigh(x: bv32)
    requires LowOctet(x) == 0
    ensures Shifts(x, 8) == Drop8(x)
  {
    hide Shift, Half, Even, Drop8, LowOctet;
    EightHalvings(x);
    FourShifts(x, 4);
    FourShifts(Half(Half(Half(Half(x)))), 0);
  }

  // ---- the table-driven step ---------------------------------------------

  lemma SplitOctets(x: bv32)
    ensures Xor(LowOctet(x), HighOctets(x)) == x
    ensures LowOctet(HighOctets(x)) == 0 && Drop8(HighOctets(x)) == Drop8(x)
  {}

  lemma DropLinear(x: bv32, y: bv32)
    ensures Drop8(Xor(x, y)) == Xor(Drop8(x), Drop8(y))
  {}

  lemma XorZero(x: bv32)
    ensures Xor(x, 0) == x && Xor(0, x) == x && Xor(x, x) == 0
  {}

  lemma OctetIsSmall(b: byte)
    ensures Drop8(ToBits(b)) == 0
  {
    ZeroExtended(b as bv8);
  }

  lemma ZeroExtended(p: bv8)
    ensures (p as bv32) >> 8 == 0
  {}

  function TableIndex(x: bv32): (i: int)
    ensures 0 <= i < 256
  {
    IndexRange(LowOctet(x));
    LowOctet(x) as int
  }

  lemma IndexRange(y: bv32)
    requires y & 0xFF == y
    ensures 0 <= y as int < 256
  {}

  lemma IndexInverse(y: bv32)
    ensures (y as int) as bv32 == y
  {}

  function TableEntry(i: int): bv32
    requires 0 <= i < 256
  {
    Shifts(i as bv32, 8)
  }

  const TABLE: seq<bv32> := seq(256, i requires 0 <= i < 256 => TableEntry(i))

  /** The nested loops that fill the table leave eight register clocks in each entry. */
  method BuildTable() returns (entries: array<bv32>)
    ensures fresh(entries) && entries[..] == TABLE
  {
    hide Shift;
    entries := new bv32[256];
    var index := 0;
    while index < 256
      invariant 0 <= index <= 256
      invariant forall i :: 0 <= i < index ==> entries[i] == TableEntry(i)
    {
      var value := index as bv32;
      var bit := 0;
      while bit < 8
        invariant 0 <= bit <= 8
        invariant Shifts(value, 8 - bit) == TableEntry(index)
        invariant forall i :: 0 <= i < index ==> entries[i] == TableEntry(i)
      {
        assert Shifts(value, 8 - bit) == Shifts(Shift(value), 8 - bit - 1);
        ClockIsShift(value);
        value := if value & 1 != 0 then (value >> 1) ^ POLYNOMIAL else value >> 1;
        bit := bit + 1;
      }
      entries[index] := value;
      index := index + 1;
    }
  }

  lemma ClockIsShift(x: bv32)
    ensures (if x & 1 != 0 then (x >> 1) ^ POLYNOMIAL else x >> 1) == Shift(x)
  {}

  /** One table look-up advances the register by a whole octet. */
  lemma TableStep(state: bv32, b: byte)
    ensures Xor(TABLE[TableIndex(Xor(state, ToBits(b)))], Drop8(state)) == Absorb(state, b)
  {
    hide Shift, Shifts, Xor, Drop8, LowOctet, HighOctets, ToBits;
    var x := Xor(state, ToBits(b));
    IndexInverse(LowOctet(x));
    SplitOctets(x);
    ShiftsLinear(LowOctet(x), HighOctets(x), 8);
    ShiftsOfHigh(HighOctets(x));
    DropLinear(state, ToBits(b));
    OctetIsSmall(b);
    XorZero(Drop8(state));
  }

  lemma {:induction false} RunConcat(state: bv32, a: bytes, b: bytes)
    ensures Run(state, a + b) == Run(Run(state, a), b)
    decreases a
  {
    hide Absorb;
    if a == [] {
      assert a + b == b;
    } else {
      assert (a + b)[1..] == a[1..] + b;
      RunConcat(Absorb(state, a[0]), a[1..], b);
    }
  }

  /** The incremental checksum object. */
  class Incremental {
    var state: bv32
    var processed: nat

    constructor ()
      ensures state == INITIAL && processed == 0
    {
      state := INITIAL;
      processed := 0;
    }

    method Update(s: bytes)
      modifies this
      ensures state == Run(old(state), s)
      ensures processed == old(processed) + |s|
    {
      hide Absorb, Drop8, Xor, ToBits;
      var running := state;
      for i := 0 to |s|
        invariant running == Run(old(state), s[..i])
        invariant state == old(state) && processed == old(processed)
      {
        TableStep(running, s[i]);
        assert s[..i + 1] == s[..i] + [s[i]];
        RunConcat(old(state), s[..i], [s[i]]);
        assert Run(running, [s[i]]) == Absorb(running, s[i]);
        running := Xor(TABLE[TableIndex(Xor(running, ToBits(s[i])))], Drop8(running));
      }
      assert s[..|s|] == s;
      state := running;
      processed := processed + |s|;
    }

    /** The value so far, without disturbing the running state. */
    method Value() returns (crc: bv32)
      ensures crc == Complement(state)
    {
      crc := !state;
    }
  }

  /** One-shot checksum over a buffer. */
  method ChecksumOf(s: bytes) returns (crc: bv32)
    ensures crc == Checksum(s)
  {
    hide Absorb, Drop8, Xor, ToBits;
    var state := INITIAL;
    for i := 0 to |s|
      invariant state == Run(INITIAL, s[..i])
    {
      TableStep(state, s[i]);
      assert s[..i + 1] == s[..i] + [s[i]];
      RunConcat(INITIAL, s[..i], [s[i]]);
      assert Run(state, [s[i]]) == Absorb(state, s[i]);
      state := Xor(TABLE[TableIndex(Xor(state, ToBits(s[i])))], Drop8(state));
    }
    assert s[..|s|] == s;
    crc := !state;
  }

  /** Cutting the input anywhere does not change the checksum. */
  method ChecksumOfParts(parts: seq<bytes>) returns (crc: bv32)
    ensures crc == Checksum(Joined(parts))
  {
    hide Run;
    var c := new Incremental();
    RunEmpty(INITIAL);
    for i := 0 to |parts|
      invariant c.state == Run(INITIAL, Joined(parts[..i]))
    {
      assert parts[..i + 1] == parts[..i] + [parts[i]];
      JoinedSnoc(parts[..i], parts[i]);
      RunConcat(INITIAL, Joined(parts[..i]), parts[i]);
      c.Update(parts[i]);
    }
    assert parts[..|parts|] == parts;
    crc := c.Value();
  }

  lemma RunEmpty(state: bv32)
    ensures Run(state, []) == state
  {}

  function Joined(parts: seq<bytes>): bytes {
    if parts == [] then [] else parts[0] + Joined(parts[1..])
  }

  lemma {:induction false} JoinedSnoc(parts: seq<bytes>, last: bytes)
    ensures Joined(parts + [last]) == Joined(parts) + last
  {
    if parts == [] {
      assert Joined([last]) == last + Joined([]);
    } else {
      assert (parts + [last])[1..] == parts[1..] + [last];
      JoinedSnoc(parts[1..], last);
    }
  }

  // ---- agreement with the bit-serial machine --------------------------------

  function Halves(x: bv32, n: nat): bv32
    decreases n
  {
    if n == 0 then x else Halves(Half(x), n - 1)
  }

  function StripLow(x: bv32): bv32 { x & 0xFFFF_FFFE }

  lemma StripLowIsEven(x: bv32)
    ensures Even(StripLow(x)) && Half(StripLow(x)) == Half(x)
  {}

  lemma LowPlusStripped(x: bv32)
    ensures Xor(BitValue(LowBit(x)), StripLow(x)) == x
  {}

  /** Feeding n bits one at a time is clocking the register n times on their
      sum, up to the bits not yet fed. */
  lemma {:induction false} FeedBits(state: bv32, x: bv32, n: nat)
    ensures Xor(BitSerial(state, BitsOf(x, n)), Halves(x, n)) == Shifts(Xor(state, x), n)
    decreases n
  {
    hide Shift, Xor, Half, Even, LowBit, BitValue, StripLow;
    if n > 0 {
      var low := BitValue(LowBit(x));
      StripLowIsEven(x);
      LowPlusStripped(x);
      XorAssociates(state, low, StripLow(x));
      ShiftLinear(Xor(state, low), StripLow(x));
      ShiftOfEven(StripLow(x));
      assert BitsOf(x, n)[1..] == BitsOf(Half(x), n - 1);
      FeedBits(Shift(Xor(state, low)), Half(x), n - 1);
    }
  }

  lemma EightHalves(x: bv32)
    ensures Halves(x, 8) == Drop8(x)
  {
    hide Half, Drop8;
    var y := Half(Half(Half(Half(x))));
    assert Halves(x, 8) == Halves(Half(Half(x)), 6) == Halves(y, 4);
    assert Halves(y, 4) == Halves(Half(Half(y)), 2) == Half(Half(Half(Half(y))));
    HalfEightTimes(x);
  }

  lemma HalfEightTimes(x: bv32)
    ensures Half(Half(Half(Half(Half(Half(Half(Half(x)))))))) == Drop8(x)
  {}

  lemma {:induction false} BitSerialConcat(state: bv32, a: seq<bool>, b: seq<bool>)
    ensures BitSerial(state, a + b) == BitSerial(BitSerial(state, a), b)
    decreases a
  {
    hide Shift, Xor, BitValue;
    if a == [] {
      assert a + b == b;
    } else {
      assert (a + b)[1..] == a[1..] + b;
      BitSerialConcat(Shift(Xor(state, BitValue(a[0]))), a[1..], b);
    }
  }

  /** The octet-wise register computes exactly what the bit-serial definition does. */
  lemma {:induction false} RunIsBitSerial(state: bv32, s: bytes)
    ensures Run(state, s) == BitSerial(state, MessageBits(s))
    decreases s
  {
    hide Xor, Shifts, Drop8, BitsOf, Halves, ToBits;
    if s != [] {
      var x := ToBits(s[0]);
      FeedBits(state, x, 8);
      EightHalves(x);
      OctetIsSmall(s[0]);
      XorZero(BitSerial(state, BitsOf(x, 8)));
      BitSerialConcat(state, BitsOf(x, 8), MessageBits(s[1..]));
      RunIsBitSerial(Absorb(state, s[0]), s[1..]);
    }
  }

  // ---- detection --------------------------------------------------------------

  /** Up to four octets laid out as the register sees them. */
  function Pack(s: bytes): bv32 {
    if s == [] then 0 else Xor(ToBits(s[0]), Lift8(Pack(s[1..])))
  }

  function Lift8(x: bv32): bv32 { x << 8 }

  predicate Below8(x: bv32) { x < 0x100 }
  predicate Below16(x: bv32) { x < 0x1_0000 }
  predicate Below24(x: bv32) { x < 0x100_0000 }

  lemma ToBitsInjective(x: byte, y: byte)
    requires ToBits(x) == ToBits(y)
    ensures x == y
  {
    OctetInverse(x);
    OctetInverse(y);
    ZeroExtensionInjective(x as bv8, y as bv8);
  }

  lemma NextOctet(q: bv8)
    requires q < 255
    ensures OctetValue(q + 1) == OctetValue(q) + 1
  {}

  /** Every octet value is the value of some bit-vector. */
  lemma {:induction false} OctetWithValue(b: byte) returns (p: bv8)
    ensures OctetValue(p) == b
    decreases b
  {
    if b == 0 {
      p := 0;
    } else {
      var q := OctetWithValue(b - 1);
      BelowTop(q);
      NextOctet(q);
      p := q + 1;
    }
  }

  lemma BelowTop(q: bv8)
    requires OctetValue(q) < 255
    ensures q < 255
  {}

  lemma OctetRoundTrip(p: bv8)
    ensures OctetValue(p) as bv8 == p
  {}

  lemma OctetInverse(b: byte)
    ensures OctetValue(b as bv8) == b
  {
    hide OctetValue;
    var p := OctetWithValue(b);
    OctetRoundTrip(p);
  }

  lemma ZeroExtensionInjective(p: bv8, q: bv8)
    requires p as bv32 == q as bv32
    ensures p == q
  {}

  lemma OctetBelow(b: byte)
    ensures Below8(ToBits(b))
  {
    ZeroExtendedBelow(b as bv8);
  }

  lemma ZeroExtendedBelow(p: bv8)
    ensures (p as bv32) < 0x100
  {}

  lemma PackStepBelow(a: bv32, x: bv32)
    requires Below8(a)
    ensures x == 0 ==> Below8(Xor(a, Lift8(x)))
    ensures Below8(x) ==> Below16(Xor(a, Lift8(x)))
    ensures Below16(x) ==> Below24(Xor(a, Lift8(x)))
  {}

  lemma PackBelow(s: bytes)
    requires |s| <= 3
    ensures Below24(Pack(s))
    ensures |s| <= 2 ==> Below16(Pack(s))
    ensures |s| <= 1 ==> Below8(Pack(s))
    ensures |s| == 0 ==> Pack(s) == 0
  {
    hide Below8, Below16, Below24, Xor, Lift8, ToBits;
    BelowChain(Pack(s));
    if s != [] {
      PackBelow(s[1..]);
      OctetBelow(s[0]);
      PackStepBelow(ToBits(s[0]), Pack(s[1..]));
    }
  }

  lemma BelowChain(x: bv32)
    ensures x == 0 ==> Below8(x)
    ensures Below8(x) ==> Below16(x)
    ensures Below16(x) ==> Below24(x)
  {}

  lemma PackStepInjective(a: bv32, b: bv32, x: bv32, y: bv32)
    requires Below8(a) && Below8(b) && Below24(x) && Below24(y)
    requires Xor(a, Lift8(x)) == Xor(b, Lift8(y))
    ensures a == b && x == y
  {}

  lemma {:induction false} PackInjective(s: bytes, t: bytes)
    requires |s| == |t| <= 4
    requires Pack(s) == Pack(t)
    ensures s == t
  {
    hide Below8, Below24, Xor, Lift8, ToBits;
    if s != [] {
      PackBelow(s[1..]);
      PackBelow(t[1..]);
      OctetBelow(s[0]);
      OctetBelow(t[0]);
      PackStepInjective(ToBits(s[0]), ToBits(t[0]), Pack(s[1..]), Pack(t[1..]));
      ToBitsInjective(s[0], t[0]);
      PackInjective(s[1..], t[1..]);
      assert s == [s[0]] + s[1..] && t == [t[0]] + t[1..];
    }
  }

  lemma Lift8Clear(x: bv32)
    ensures LowOctet(Lift8(x)) == 0
    ensures Below24(x) ==> Drop8(Lift8(x)) == x
  {}

  /** Up to four octets enter the register as one word. */
  lemma {:induction false} RunOfPack(state: bv32, s: bytes)
    requires |s| <= 4
    ensures Run(state, s) == Shifts(Xor(state, Pack(s)), 8 * |s|)
    decreases s
  {
    hide Xor, Shift, Shifts, Drop8, LowOctet, Lift8, Below24, ToBits;
    if s == [] {
      XorZero(state);
      ShiftsNone(state);
    } else {
      var rest := Pack(s[1..]);
      PackBelow(s[1..]);
      RunOfPack(Absorb(state, s[0]), s[1..]);
      XorAssociates(state, ToBits(s[0]), Lift8(rest));
      ShiftsLinear(Xor(state, ToBits(s[0])), Lift8(rest), 8);
      Lift8Clear(rest);
      ShiftsOfHigh(Lift8(rest));
      ShiftsCompose(Xor(state, Pack(s)), 8, 8 * |s[1..]|);
    }
  }

  lemma ShiftsNone(x: bv32)
    ensures Shifts(x, 0) == x
  {}

  lemma XorCancels(s: bv32, x: bv32, y: bv32)
    requires Xor(s, x) == Xor(s, y)
    ensures x == y
  {}

  lemma XorCancelsLeft(s: bv32, t: bv32, x: bv32)
    requires Xor(s, x) == Xor(t, x)
    ensures s == t
  {}

  /** From one state, different blocks of up to four octets lead to different states. */
  lemma RunInjectiveInBlock(state: bv32, s: bytes, t: bytes)
    requires |s| == |t| <= 4
    requires Run(state, s) == Run(state, t)
    ensures s == t
  {
    hide Xor, Shifts, Pack, Run;
    RunOfPack(state, s);
    RunOfPack(state, t);
    ShiftsInjective(Xor(state, Pack(s)), Xor(state, Pack(t)), 8 * |s|);
    XorCancels(state, Pack(s), Pack(t));
    PackInjective(s, t);
  }

  /** Different states stay different over any common input. */
  lemma {:induction false} RunInjectiveInState(state: bv32, other: bv32, s: bytes)
    requires Run(state, s) == Run(other, s)
    ensures state == other
    decreases s
  {
    hide Xor, Shifts, ToBits;
    if s != [] {
      RunInjectiveInState(Absorb(state, s[0]), Absorb(other, s[0]), s[1..]);
      ShiftsInjective(Xor(state, ToBits(s[0])), Xor(other, ToBits(s[0])), 8);
      XorCancelsLeft(state, other, ToBits(s[0]));
    }
  }

  lemma ComplementInjective(x: bv32, y: bv32)
    requires Complement(x) == Complement(y)
    ensures x == y
  {}

  /** Damage confined to four consecutive octets always changes the checksum. */
  lemma BurstDetected(before: bytes, x: bytes, y: bytes, after: bytes)
    requires |x| == |y| <= 4 && x != y
    ensures Checksum(before + x + after) != Checksum(before + y + after)
  {
    hide Run, Complement;
    if Checksum(before + x + after) == Checksum(before + y + after) {
      RunConcat(INITIAL, before + x, after);
      RunConcat(INITIAL, before + y, after);
      RunConcat(INITIAL, before, x);
      RunConcat(INITIAL, before, y);
      ComplementInjective(Run(INITIAL, before + x + after), Run(INITIAL, before + y + after));
      var s := Run(INITIAL, before);
      RunInjectiveInState(Run(s, x), Run(s, y), after);
      RunInjectiveInBlock(s, x, y);
    }
  }

  // ---- the checksum as a stored word --------------------------------------------

  function LowByte(c: bv32): bv8 { (c & 0xFF) as bv8 }

  function OctetValue(p: bv8): byte { p as int }

  function Drop16(x: bv32): bv32 { x >> 16 }

  function Drop24(x: bv32): bv32 { x >> 24 }

  /** The checksum as the 32-bit number that is written to a segment or frame. */
  function Word(c: bv32): u32 {
    OctetValue(LowByte(c)) + 0x100 * OctetValue(LowByte(Drop8(c)))
    + 0x1_0000 * OctetValue(LowByte(Drop16(c))) + 0x100_0000 * OctetValue(LowByte(Drop24(c)))
  }

  lemma OctetValueInjective(p: bv8, q: bv8)
    requires OctetValue(p) == OctetValue(q)
    ensures p == q
  {}

  lemma OctetsDetermine(c: bv32, d: bv32)
    requires LowByte(c) == LowByte(d) && LowByte(Drop8(c)) == LowByte(Drop8(d))
    requires LowByte(Drop16(c)) == LowByte(Drop16(d)) && LowByte(Drop24(c)) == LowByte(Drop24(d))
    ensures c == d
  {}

  lemma OctetsOfSum(a: byte, b: byte, c: byte, d: byte, p: byte, q: byte, r: byte, s: byte)
    requires a + 0x100 * b + 0x1_0000 * c + 0x100_0000 * d == p + 0x100 * q + 0x1_0000 * r + 0x100_0000 * s
    ensures a == p && b == q && c == r && d == s
  {}

  lemma WordInjective(c: bv32, d: bv32)
    requires Word(c) == Word(d)
    ensures c == d
  {
    hide LowByte, OctetValue, Drop8, Drop16, Drop24;
    OctetsOfSum(OctetValue(LowByte(c)), OctetValue(LowByte(Drop8(c))),
                OctetValue(LowByte(Drop16(c))), OctetValue(LowByte(Drop24(c))),
                OctetValue(LowByte(d)), OctetValue(LowByte(Drop8(d))),
                OctetValue(LowByte(Drop16(d))), OctetValue(LowByte(Drop24(d))));
    OctetValueInjective(LowByte(c), LowByte(d));
    OctetValueInjective(LowByte(Drop8(c)), LowByte(Drop8(d)));
    OctetValueInjective(LowByte(Drop16(c)), LowByte(Drop16(d)));
    OctetValueInjective(LowByte(Drop24(c)), LowByte(Drop24(d)));
    OctetsDetermine(c, d);
  }
}
