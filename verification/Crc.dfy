/**
 The CRC of the program-specific information sections: the table-driven form the muxer uses, and
 the bit-serial shift register of Annex A of ISO/IEC 13818-1 it has to agree with.
 */
module Crc {
  import opened Bytes

  // x^32 + x^26 + x^23 + x^22 + x^16 + x^12 + x^11 + x^10 + x^8 + x^7 + x^5 + x^4 + x^2 + x + 1
  const POLY: bv32 := 0x04C1_1DB7
  const INITIAL: bv32 := 0xFFFF_FFFF

  // ---------------------------------------------------------------- words

  function Xor(a: bv32, b: bv32): bv32 {
    a ^ b
  }

  function Doubled(x: bv32): bv32 {
    x << 1
  }

  predicate TopBit(x: bv32) {
    x & 0x8000_0000 != 0
  }

  function Feedback(on: bool): bv32 {
    if on then POLY else 0
  }

  // A byte at the output end of the register.
  function Top(b: byte): bv32 {
    (b as bv32) << 24
  }

  function BitOf(b: byte, k: nat): bool
    requires k < 8
  {
    ((b as bv32) >> (k as bv8)) & 1 != 0
  }

  // ---------------------------------------------------------------- the shift register

  // One clock of the register, with the message bit added at the output end.
  function Clock(reg: bv32, bit: bool): bv32 {
    Xor(Doubled(reg), Feedback(TopBit(reg) != bit))
  }

  // The n most significant bits of a byte, most significant first.
  function ClockBits(reg: bv32, b: byte, n: nat): bv32
    requires n <= 8
  {
    if n == 0 then reg else Clock(ClockBits(reg, b, n - 1), BitOf(b, 8 - n))
  }

  // The register after a whole message.
  function Register(reg: bv32, msg: seq<byte>): bv32 {
    if msg == [] then reg else ClockBits(Register(reg, msg[..|msg| - 1]), msg[|msg| - 1], 8)
  }

  // What a section decoder checks: the register is zero after the CRC bytes.
  predicate Accepted(section: seq<byte>) {
    Register(INITIAL, section) == 0
  }

  lemma {:induction false} RegisterAppend(reg: bv32, a: seq<byte>, b: seq<byte>)
    ensures Register(reg, a + b) == Register(Register(reg, a), b)
  {
    if b == [] {
      assert a + b == a;
    } else {
      assert (a + b)[..|a + b| - 1] == a + b[..|b| - 1];
      RegisterAppend(reg, a, b[..|b| - 1]);
    }
  }

  // ---------------------------------------------------------------- the table

  // One turn of the inner loop of the table set-up.
  function Shift(crc: bv32): bv32 {
    Xor(Doubled(crc), Feedback(TopBit(crc)))
  }

  function Shifts(crc: bv32, n: nat): bv32 {
    if n == 0 then crc else Shift(Shifts(crc, n - 1))
  }

  method InitCrcTable(table: array<bv32>)
    requires table.Length == 256
    modifies table
    ensures forall i: byte :: table[i] == Shifts(Top(i), 8)
  {
    hide Xor, Doubled, TopBit, Feedback, Top;
    var i := 0;
    while i < 256
      invariant 0 <= i <= 256
      invariant forall k: byte :: k < i ==> table[k] == Shifts(Top(k), 8)
    {
      var crc := Top(i);
      var j := 0;
      while j < 8
        invariant 0 <= j <= 8 && crc == Shifts(Top(i), j)
      {
        crc := Xor(Doubled(crc), if TopBit(crc) then POLY else 0);
        assert crc == Shift(Shifts(Top(i), j)) by { FeedbackIs(Shifts(Top(i), j)); }
        j := j + 1;
      }
      table[i] := crc;
      i := i + 1;
    }
  }

  lemma FeedbackIs(x: bv32)
    ensures Feedback(TopBit(x)) == if TopBit(x) then POLY else 0
  {
  }

  // The conversion C applies when an int is stored in an unsigned char.
  function LowByte(w: bv32): byte {
    (w & 0xFF) as byte
  }

  lemma WordOfByte(w: bv32)
    requires w < 256
    ensures ((w as byte) as bv32) == w
  {
  }

  lemma LowByteBack(w: bv32)
    ensures (LowByte(w) as bv32) == w & 0xFF
  {
    assert w & 0xFF < 256;
    WordOfByte(w & 0xFF);
  }

  // The table entry a step looks up.
  function IndexOf(crc: bv32, b: byte): byte {
    LowByte((crc >> 24) ^ (b as bv32))
  }

  // ---------------------------------------------------------------- algebra of words

  lemma XorLaws(a: bv32, b: bv32, c: bv32)
    ensures Xor(Xor(a, b), c) == Xor(a, Xor(b, c)) && Xor(a, b) == Xor(b, a)
    ensures Xor(a, 0) == a && Xor(a, a) == 0 && Xor(Xor(a, b), b) == a
  {
  }

  lemma Shuffle(a: bv32, b: bv32, c: bv32, d: bv32)
    ensures Xor(Xor(a, b), Xor(c, d)) == Xor(Xor(a, c), Xor(b, d))
  {
    XorLaws(a, b, Xor(c, d));
    XorLaws(b, c, d);
    XorLaws(c, b, d);
    XorLaws(a, c, Xor(b, d));
    hide Xor;
  }

  lemma DoubledIsLinear(x: bv32, y: bv32)
    ensures Doubled(Xor(x, y)) == Xor(Doubled(x), Doubled(y))
  {
  }

  lemma TopBitOfXor(x: bv32, y: bv32)
    ensures TopBit(Xor(x, y)) == (TopBit(x) != TopBit(y))
  {
  }

  lemma FeedbackIsLinear(p: bool, q: bool)
    ensures Feedback(p != q) == Xor(Feedback(p), Feedback(q))
  {
  }

  lemma ShiftIsLinear(x: bv32, y: bv32)
    ensures Shift(Xor(x, y)) == Xor(Shift(x), Shift(y))
  {
    hide Xor, Doubled, TopBit, Feedback;
    DoubledIsLinear(x, y);
    TopBitOfXor(x, y);
    FeedbackIsLinear(TopBit(x), TopBit(y));
    Shuffle(Doubled(x), Doubled(y), Feedback(TopBit(x)), Feedback(TopBit(y)));
  }

  lemma {:induction false} ShiftsAreLinear(x: bv32, y: bv32, n: nat)
    ensures Shifts(Xor(x, y), n) == Xor(Shifts(x, n), Shifts(y, n))
  {
    hide Xor, Shift;
    if n > 0 {
      ShiftsAreLinear(x, y, n - 1);
      ShiftIsLinear(Shifts(x, n - 1), Shifts(y, n - 1));
    }
  }

  // ---------------------------------------------------------------- a table step is eight clocks

  function Doublings(x: bv32, n: nat): bv32 {
    if n == 0 then x else Doubled(Doublings(x, n - 1))
  }

  lemma Twice(x: bv32)
    ensures Doubled(x) == x << 1 && Doubled(x << 1) == x << 2 && Doubled(x << 2) == x << 3
    ensures Doubled(x << 3) == x << 4 && Doubled(x << 4) == x << 5 && Doubled(x << 5) == x << 6
    ensures Doubled(x << 6) == x << 7 && Doubled(x << 7) == x << 8
  {
  }

  lemma DoublingsAre(x: bv32)
    ensures Doublings(x, 0) == x && Doublings(x, 1) == x << 1 && Doublings(x, 2) == x << 2
    ensures Doublings(x, 3) == x << 3 && Doublings(x, 4) == x << 4 && Doublings(x, 5) == x << 5
    ensures Doublings(x, 6) == x << 6 && Doublings(x, 7) == x << 7 && Doublings(x, 8) == x << 8
  {
    Twice(x);
    hide Doubled;
    assert Doublings(x, 1) == x << 1;
    assert Doublings(x, 2) == x << 2;
    assert Doublings(x, 3) == x << 3;
    assert Doublings(x, 4) == x << 4;
    assert Doublings(x, 5) == x << 5;
    assert Doublings(x, 6) == x << 6;
    assert Doublings(x, 7) == x << 7;
  }

  // A message bit that reaches the top of the shifted byte is the one the register is fed.
  lemma TopBits(b: byte, n: nat)
    requires n < 8
    ensures TopBit(Doublings(Top(b), n)) == BitOf(b, 7 - n)
  {
    DoublingsAre(Top(b));
    hide Doublings;
  }

  lemma {:induction false} ShiftsAreDoublings(y: bv32, n: nat)
    requires forall k :: 0 <= k < n ==> !TopBit(Doublings(y, k))
    ensures Shifts(y, n) == Doublings(y, n)
  {
    hide Xor, TopBit, Feedback, Doubled;
    if n > 0 {
      ShiftsAreDoublings(y, n - 1);
      NoFeedback(Doublings(y, n - 1));
    }
  }

  lemma NoFeedback(x: bv32)
    requires !TopBit(x)
    ensures Shift(x) == Doubled(x)
  {
  }

  lemma LowBits(y: bv32)
    requires y & 0xFF00_0000 == 0
    ensures !TopBit(y) && !TopBit(y << 1) && !TopBit(y << 2) && !TopBit(y << 3)
    ensures !TopBit(y << 4) && !TopBit(y << 5) && !TopBit(y << 6) && !TopBit(y << 7)
  {
  }

  // A word whose top byte is clear is only shifted.
  lemma LowShifts(y: bv32)
    requires y & 0xFF00_0000 == 0
    ensures Shifts(y, 8) == y << 8
  {
    DoublingsAre(y);
    LowBits(y);
    hide Doubled, TopBit;
    ShiftsAreDoublings(y, 8);
  }

  // Feeding a message bit at the output end is adding it to the register's top bit.
  lemma ClockIsShift(s: bv32, t: bv32, bit: bool)
    requires TopBit(t) == bit
    ensures Clock(Xor(s, t), bit) == Xor(Shift(s), Doubled(t))
  {
    hide Xor, Doubled, TopBit, Feedback;
    DoubledIsLinear(s, t);
    TopBitOfXor(s, t);
    var f := Feedback(TopBit(s));
    Shuffle(Doubled(s), f, Doubled(t), 0);
    XorLaws(Doubled(t), f, f);
    XorLaws(f, f, f);
  }

  // n clocks of a byte, with the bits still to come kept apart.
  lemma {:induction false} ClockBitsAre(reg: bv32, b: byte, n: nat)
    requires n <= 8
    ensures ClockBits(reg, b, n) == Xor(Shifts(Xor(reg, Top(b)), n), Doublings(Top(b), n))
  {
    hide Xor, Top, TopBit, BitOf, Clock, Shift, Doubled;
    if n > 0 {
      ClockBitsAre(reg, b, n - 1);
      TopBits(b, n - 1);
      ClockIsShift(Shifts(Xor(reg, Top(b)), n - 1), Doublings(Top(b), n - 1), BitOf(b, 8 - n));
    } else {
      XorLaws(reg, Top(b), 0);
    }
  }

  lemma TopGone(b: byte)
    ensures Doublings(Top(b), 8) == 0
  {
    DoublingsAre(Top(b));
  }

  // The step of the table-driven loop.
  function TableStep(crc: bv32, b: byte): bv32 {
    Xor(crc << 8, Shifts(Top(IndexOf(crc, b)), 8))
  }

  lemma IndexWord(crc: bv32, b: byte)
    ensures (IndexOf(crc, b) as bv32) == ((crc >> 24) ^ (b as bv32)) & 0xFF
  {
    LowByteBack((crc >> 24) ^ (b as bv32));
    hide LowByte;
  }

  lemma SplitWord(crc: bv32, x: bv32)
    ensures crc ^ (x << 24) == ((((crc >> 24) ^ x) & 0xFF) << 24) ^ (crc & 0x00FF_FFFF)
    ensures (crc & 0x00FF_FFFF) & 0xFF00_0000 == 0 && (crc & 0x00FF_FFFF) << 8 == crc << 8
  {
  }

  lemma IndexedTop(crc: bv32, b: byte)
    ensures Xor(crc, Top(b)) == Xor(Top(IndexOf(crc, b)), crc & 0x00FF_FFFF)
    ensures (crc & 0x00FF_FFFF) & 0xFF00_0000 == 0 && (crc & 0x00FF_FFFF) << 8 == crc << 8
  {
    IndexWord(crc, b);
    SplitWord(crc, b as bv32);
    hide IndexOf;
  }

  // One table step is eight clocks of the register.
  lemma TableStepIsClocks(crc: bv32, b: byte)
    ensures TableStep(crc, b) == ClockBits(crc, b, 8)
  {
    IndexedTop(crc, b);
    hide Xor, Top, IndexOf, Shift, ClockBits;
    var low, high := crc & 0x00FF_FFFF, Top(IndexOf(crc, b));
    ClockBitsAre(crc, b, 8);
    TopGone(b);
    ShiftsAreLinear(high, low, 8);
    LowShifts(low);
    XorLaws(Shifts(high, 8), low << 8, 0);
    XorLaws(Xor(Shifts(high, 8), low << 8), 0, 0);
  }

  // ---------------------------------------------------------------- the checksum loop

  // Main result for the checksum: over every byte string the table-driven loop leaves the serial
  // register's value.
  method Crc32(table: array<bv32>, data: seq<byte>) returns (crc: bv32)
    requires table.Length == 256 && forall i: byte :: table[i] == Shifts(Top(i), 8)
    ensures crc == Register(INITIAL, data)
  {
    hide *;
    crc := 0xFFFF_FFFF;
    RegisterSteps(data, 0);
    var p := 0;
    while p < |data|
      invariant 0 <= p <= |data| && crc == Register(INITIAL, data[..p])
    {
      RegisterSteps(data, p);
      TableStepIsClocks(crc, data[p]);
      ghost var before := crc;
      crc := Xor(crc << 8, table[IndexOf(crc, data[p])]);
      assert crc == TableStep(before, data[p]) by { TableStepIs(before, data[p]); }
      p := p + 1;
    }
    assert data[..p] == data;
  }

  lemma TableStepIs(crc: bv32, b: byte)
    ensures TableStep(crc, b) == Xor(crc << 8, Shifts(Top(IndexOf(crc, b)), 8))
  {
  }

  lemma RegisterSteps(data: seq<byte>, p: nat)
    requires p <= |data|
    ensures Register(INITIAL, data[..0]) == 0xFFFF_FFFF
    ensures p < |data| ==> Register(INITIAL, data[..p + 1]) == ClockBits(Register(INITIAL, data[..p]), data[p], 8)
  {
    hide ClockBits;
    if p < |data| {
      assert data[..p + 1][..p] == data[..p];
    }
  }

  // ---------------------------------------------------------------- sections

  // htonl, then memcpy: the most significant byte first.
  function CrcBytes(crc: bv32): seq<byte> {
    [LowByte(crc >> 24), LowByte(crc >> 16), LowByte(crc >> 8), LowByte(crc)]
  }

  lemma TopByteWord(c: bv32)
    ensures c ^ (((c >> 24) & 0xFF) << 24) == c & 0x00FF_FFFF
    ensures (c & 0x00FF_FFFF) & 0xFF00_0000 == 0 && (c & 0x00FF_FFFF) << 8 == c << 8
  {
  }

  // Feeding the register its own top byte shifts the byte out.
  lemma FeedTop(c: bv32)
    ensures ClockBits(c, LowByte(c >> 24), 8) == c << 8
  {
    var b := LowByte(c >> 24);
    TopByteOut(c);
    TopByteWord(c);
    hide Xor, Top, Shift, ClockBits, LowByte;
    ClockBitsAre(c, b, 8);
    TopGone(b);
    LowShifts(c & 0x00FF_FFFF);
    XorLaws(c << 8, 0, 0);
  }

  lemma TopByteOut(c: bv32)
    ensures Xor(c, Top(LowByte(c >> 24))) == c & 0x00FF_FFFF
  {
    LowByteBack(c >> 24);
    TopByteWord(c);
    hide LowByte;
  }

  function TopByte(c: bv32): byte {
    LowByte(c >> 24)
  }

  function Times256(c: bv32): bv32 {
    c << 8
  }

  lemma FeedTopByte(c: bv32)
    ensures ClockBits(c, TopByte(c), 8) == Times256(c)
  {
    FeedTop(c);
    hide ClockBits, LowByte;
  }

  lemma Times256Thrice(c: bv32)
    ensures Times256(Times256(c)) == c << 16 && Times256(c << 16) == c << 24 && Times256(c << 24) == 0
  {
  }

  // The CRC bytes are what the register shifts out.
  lemma CrcBytesOut(c: bv32)
    ensures var d := Times256(c);
            var e := Times256(d);
            var f := Times256(e);
            && CrcBytes(c) == [TopByte(c), TopByte(d), TopByte(e), TopByte(f)] && Times256(f) == 0
  {
    Times256Thrice(c);
    assert ((c << 8) >> 24) & 0xFF == (c >> 16) & 0xFF && ((c << 16) >> 24) & 0xFF == (c >> 8) & 0xFF
        && ((c << 24) >> 24) & 0xFF == c & 0xFF;
  }

  lemma RegisterSnoc(reg: bv32, msg: seq<byte>, b: byte)
    ensures Register(reg, msg + [b]) == ClockBits(Register(reg, msg), b, 8)
  {
    hide ClockBits;
    assert (msg + [b])[..|msg|] == msg;
  }

  lemma OneByOne(msg: seq<byte>, b0: byte, b1: byte, b2: byte, b3: byte)
    ensures msg + [b0, b1, b2, b3] == msg + [b0] + [b1] + [b2] + [b3]
  {
  }

  // Main result for sections: any message followed by its CRC leaves the decoder's register zero.
  lemma CrcIsAccepted(msg: seq<byte>)
    ensures Accepted(msg + CrcBytes(Register(INITIAL, msg)))
  {
    hide ClockBits, Register, TopByte, Times256, CrcBytes;
    var c := Register(INITIAL, msg);
    var d := Times256(c);
    var e := Times256(d);
    var f := Times256(e);
    var b0, b1, b2, b3 := TopByte(c), TopByte(d), TopByte(e), TopByte(f);
    CrcBytesOut(c);
    OneByOne(msg, b0, b1, b2, b3);
    FeedTopByte(c);
    FeedTopByte(d);
    FeedTopByte(e);
    FeedTopByte(f);
    RegisterSnoc(INITIAL, msg, b0);
    RegisterSnoc(INITIAL, msg + [b0], b1);
    RegisterSnoc(INITIAL, msg + [b0] + [b1], b2);
    RegisterSnoc(INITIAL, msg + [b0] + [b1] + [b2], b3);
  }

  function EightShifts(x: bv32): bv32 {
    Shift(Shift(Shift(Shift(Shift(Shift(Shift(Shift(x))))))))
  }

  lemma EightClocks(reg: bv32, b: byte)
    ensures ClockBits(reg, b, 8) == EightShifts(Xor(reg, Top(b)))
  {
    hide Xor, Top, Shift, ClockBits;
    ClockBitsAre(reg, b, 8);
    TopGone(b);
    var x := Xor(reg, Top(b));
    XorLaws(Shifts(x, 8), 0, 0);
    assert Shifts(x, 1) == Shift(x);
    assert Shifts(x, 2) == Shift(Shifts(x, 1));
    assert Shifts(x, 3) == Shift(Shifts(x, 2));
    assert Shifts(x, 4) == Shift(Shifts(x, 3));
    assert Shifts(x, 5) == Shift(Shifts(x, 4));
    assert Shifts(x, 6) == Shift(Shifts(x, 5));
    assert Shifts(x, 7) == Shift(Shifts(x, 6));
  }

  lemma PatClocks0()
    ensures EightShifts(0xFFFFFFFF) == 0x4E08BFB4
    ensures EightShifts(0xFE08BFB4) == 0xBD89E903
    ensures EightShifts(0xB089E903) == 0x34D78E7E
    ensures EightShifts(0x34D78E7E) == 0x10B8654C
  {
  }

  lemma PatClocks1()
    ensures EightShifts(0x10B8654C) == 0xF4749770
    ensures EightShifts(0x37749770) == 0xBEE24D95
    ensures EightShifts(0xBEE24D95) == 0x63FDB874
    ensures EightShifts(0x63FDB874) == 0x5C5E944E
  {
  }

  lemma PatClocks2()
    ensures EightShifts(0x5C5E944E) == 0x130F7E63
    ensures EightShifts(0x120F7E63) == 0x4AED831E
    ensures EightShifts(0xABED831E) == 0x37E7836F
    ensures EightShifts(0xD7E7836F) == 0xE85F74EC
  {
  }

  lemma PatWords()
    ensures Xor(0xFFFFFFFF, Top(0x00)) == 0xFFFFFFFF
    ensures Xor(0x4E08BFB4, Top(0xB0)) == 0xFE08BFB4
    ensures Xor(0xBD89E903, Top(0x0D)) == 0xB089E903
    ensures Xor(0x34D78E7E, Top(0x00)) == 0x34D78E7E
    ensures Xor(0x10B8654C, Top(0x00)) == 0x10B8654C
    ensures Xor(0xF4749770, Top(0xC3)) == 0x37749770
    ensures Xor(0xBEE24D95, Top(0x00)) == 0xBEE24D95
    ensures Xor(0x63FDB874, Top(0x00)) == 0x63FDB874
    ensures Xor(0x5C5E944E, Top(0x00)) == 0x5C5E944E
    ensures Xor(0x130F7E63, Top(0x01)) == 0x120F7E63
    ensures Xor(0x4AED831E, Top(0xE1)) == 0xABED831E
    ensures Xor(0x37E7836F, Top(0xE0)) == 0xD7E7836F
  {
  }

  // The program association section, without its CRC.
  const PAT_SECTION: seq<byte> := [0x00, 0xb0, 0x0d, 0x00, 0x00, 0xc3, 0x00, 0x00, 0x00, 0x01, 0xe1, 0xe0]

  lemma PatStep(s: seq<byte>, reg: bv32, b: byte, w: bv32, next: bv32)
    requires Register(INITIAL, s) == reg && Xor(reg, Top(b)) == w && EightShifts(w) == next
    ensures Register(INITIAL, s + [b]) == next
  {
    hide *;
    RegisterSnoc(INITIAL, s, b);
    EightClocks(reg, b);
  }

  lemma PatCrcBytes()
    ensures CrcBytes(0xE85F_74EC) == [0xe8, 0x5f, 0x74, 0xec]
  {
  }

  lemma PatQuad0(s: seq<byte>)
    requires Register(INITIAL, s) == 0xFFFFFFFF
    ensures Register(INITIAL, s + [0x00, 0xb0, 0x0d, 0x00]) == 0x10B8654C
  {
    PatClocks0();
    PatWords();
    hide *;
    var t := s;
    PatStep(t, 0xFFFFFFFF, 0x00, 0xFFFFFFFF, 0x4E08BFB4);
    t := t + [0x00];
    PatStep(t, 0x4E08BFB4, 0xB0, 0xFE08BFB4, 0xBD89E903);
    t := t + [0xB0];
    PatStep(t, 0xBD89E903, 0x0D, 0xB089E903, 0x34D78E7E);
    t := t + [0x0D];
    PatStep(t, 0x34D78E7E, 0x00, 0x34D78E7E, 0x10B8654C);
    t := t + [0x00];
    assert t == s + [0x00, 0xb0, 0x0d, 0x00];
  }

  lemma PatQuad1(s: seq<byte>)
    requires Register(INITIAL, s) == 0x10B8654C
    ensures Register(INITIAL, s + [0x00, 0xc3, 0x00, 0x00]) == 0x5C5E944E
  {
    PatClocks1();
    PatWords();
    hide *;
    var t := s;
    PatStep(t, 0x10B8654C, 0x00, 0x10B8654C, 0xF4749770);
    t := t + [0x00];
    PatStep(t, 0xF4749770, 0xC3, 0x37749770, 0xBEE24D95);
    t := t + [0xC3];
    PatStep(t, 0xBEE24D95, 0x00, 0xBEE24D95, 0x63FDB874);
    t := t + [0x00];
    PatStep(t, 0x63FDB874, 0x00, 0x63FDB874, 0x5C5E944E);
    t := t + [0x00];
    assert t == s + [0x00, 0xc3, 0x00, 0x00];
  }

  lemma PatQuad2(s: seq<byte>)
    requires Register(INITIAL, s) == 0x5C5E944E
    ensures Register(INITIAL, s + [0x00, 0x01, 0xe1, 0xe0]) == 0xE85F74EC
  {
    PatClocks2();
    PatWords();
    hide *;
    var t := s;
    PatStep(t, 0x5C5E944E, 0x00, 0x5C5E944E, 0x130F7E63);
    t := t + [0x00];
    PatStep(t, 0x130F7E63, 0x01, 0x120F7E63, 0x4AED831E);
    t := t + [0x01];
    PatStep(t, 0x4AED831E, 0xE1, 0xABED831E, 0x37E7836F);
    t := t + [0xE1];
    PatStep(t, 0x37E7836F, 0xE0, 0xD7E7836F, 0xE85F74EC);
    t := t + [0xE0];
    assert t == s + [0x00, 0x01, 0xe1, 0xe0];
  }

  // The four bytes written behind the program association section are its CRC.
  lemma PatCrc()
    ensures Register(INITIAL, PAT_SECTION) == 0xE85F_74EC
    ensures CrcBytes(0xE85F_74EC) == [0xe8, 0x5f, 0x74, 0xec]
  {
    PatCrcBytes();
    assert Register(INITIAL, []) == 0xFFFF_FFFF;
    hide Register;
    var a: seq<byte>, b: seq<byte> := [0x00, 0xb0, 0x0d, 0x00], [0x00, 0xc3, 0x00, 0x00];
    PatQuad0([]);
    assert [] + a == a;
    PatQuad1(a);
    PatQuad2(a + b);
    assert PAT_SECTION == a + b + [0x00, 0x01, 0xe1, 0xe0];
  }
}
