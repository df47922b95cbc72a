/**
 The bit-packed fields of the transport stream muxer, and the decoders they have to satisfy.
 */
module TsFields {
  import opened Bytes
  import opened Bits

  // ---------------------------------------------------------------- presentation time stamp

  // The 90 kHz clock, stored in an unsigned int; pts is in milliseconds.
  function Clock90(ptsMs: int): uint32 {
    ToU32(ptsMs * 1000 * 9 / 100)
  }

  // The 90 kHz clock ticks ninety times a millisecond, and wraps at 2^32.
  lemma Clock90Ticks(ptsMs: int)
    ensures Clock90(ptsMs) == ptsMs * 90 % 0x1_0000_0000
    ensures 0 <= ptsMs * 90 < 0x1_0000_0000 ==> Clock90(ptsMs) == ptsMs * 90
  {
    assert ptsMs * 1000 * 9 / 100 == ptsMs * 90;
  }

  function PtsBytes(pts: uint32): (s: seq<nat>)
    ensures |s| == 5
  {
    [Or(Or(0x20, pts / 0x4000_0000 % 8 * 2), 1), pts / 0x40_0000 % 256, Or(pts / 0x8000 % 128 * 2, 1),
     pts / 0x80 % 256, Or(pts % 128 * 2, 1)]
  }

  // The five bytes as one number, and the restore formula the source gives for it.
  function Word40(s: seq<nat>): nat
    requires |s| == 5
  {
    s[0] * 0x1_0000_0000 + s[1] * 0x100_0000 + s[2] * 0x1_0000 + s[3] * 0x100 + s[4]
  }

  function RestorePts(val: nat): nat {
    val / 2 % 0x80 + val / 0x100 % 0x100 * 0x80 + val / 0x2_0000 % 0x80 * 0x8000
    + val / 0x100_0000 % 0x100 * 0x40_0000 + val / 0x2_0000_0000 % 8 * 0x4000_0000
  }

  lemma PtsBytesAre(pts: uint32)
    ensures PtsBytes(pts) == [0x21 + pts / 0x4000_0000 * 2, pts / 0x40_0000 % 256, pts / 0x8000 % 128 * 2 + 1,
                              pts / 0x80 % 256, pts % 128 * 2 + 1]
  {
    hide Or, Pow2;
    Powers();
    assert pts / 0x4000_0000 % 8 == pts / 0x4000_0000;
    OrIsSum(0x20, pts / 0x4000_0000 % 8 * 2, 4);
    OrMarker(0x20 + pts / 0x4000_0000 % 8 * 2);
    OrMarker(pts / 0x8000 % 128 * 2);
    OrMarker(pts % 128 * 2);
  }

  lemma OrMarker(n: nat)
    requires n % 2 == 0
    ensures Or(n, 1) == n + 1
  {
    Powers();
    OrIsSum(n, 1, 1);
  }

  lemma SliceWord40(a: nat, b: nat, c: nat, d: nat, e: nat)
    requires a < 8 && b < 256 && c < 128 && d < 256 && e < 128
    ensures var val := (0x21 + a * 2) * 0x1_0000_0000 + b * 0x100_0000 + (c * 2 + 1) * 0x1_0000 + d * 0x100 + (e * 2 + 1);
            RestorePts(val) == e + d * 0x80 + c * 0x8000 + b * 0x40_0000 + a * 0x4000_0000
  {
    var val := (0x21 + a * 2) * 0x1_0000_0000 + b * 0x100_0000 + (c * 2 + 1) * 0x1_0000 + d * 0x100 + (e * 2 + 1);
    var t := 0x21 + a * 2;
    var y := t * 0x100_0000 + b * 0x1_0000 + (c * 2 + 1) * 0x100 + d;
    var v := t * 0x1_0000 + b * 0x100 + (c * 2 + 1);
    var w := t * 0x8000 + b * 0x80 + c;
    var u := t * 0x100 + b;
    assert val == 2 * (y * 0x80 + e) + 1 && val == y * 0x100 + (e * 2 + 1);
    assert val == w * 0x2_0000 + (0x1_0000 + d * 0x100 + (e * 2 + 1));
    assert val == u * 0x100_0000 + ((c * 2 + 1) * 0x1_0000 + d * 0x100 + (e * 2 + 1));
    assert val / 2 == y * 0x80 + e && val / 0x100 == y && val / 0x2_0000 == w && val / 0x100_0000 == u;
    assert val / 0x2_0000_0000 == 0x10 + a;
    Remainders(y, t, u, a, b, c, d, e);
  }

  lemma Remainders(y: nat, t: nat, u: nat, a: nat, b: nat, c: nat, d: nat, e: nat)
    requires a < 8 && b < 256 && c < 128 && d < 256 && e < 128
    ensures (y * 0x80 + e) % 0x80 == e
    ensures (t * 0x100_0000 + b * 0x1_0000 + (c * 2 + 1) * 0x100 + d) % 0x100 == d
    ensures (t * 0x8000 + b * 0x80 + c) % 0x80 == c && (t * 0x100 + b) % 0x100 == b && (0x10 + a) % 8 == a
  {
  }

  // Every 32-bit time stamp is restored, its three marker bits and its prefix are in place.
  lemma PtsRoundTrip(pts: uint32)
    ensures var s := PtsBytes(pts);
            && (forall i :: 0 <= i < 5 ==> s[i] < 256)
            && s[0] / 16 == 2 && s[0] % 2 == 1 && s[2] % 2 == 1 && s[4] % 2 == 1
            && RestorePts(Word40(s)) == pts
  {
    hide *;
    PtsBytesAre(pts);
    Slices(pts);
    PtsFields(pts / 0x4000_0000, pts / 0x40_0000 % 256, pts / 0x8000 % 128, pts / 0x80 % 256, pts % 128);
  }

  // The same on the bytes: three, fifteen and fifteen bits, each group behind its marker.
  lemma PtsOnBytes(pts: uint32)
    ensures var s := PtsBytes(pts);
            s[0] / 2 % 8 * 0x4000_0000 + s[1] * 0x40_0000 + s[2] / 2 * 0x8000 + s[3] * 0x80 + s[4] / 2 == pts
  {
    hide *;
    PtsBytesAre(pts);
    Slices(pts);
    HalvesOf(pts / 0x4000_0000, pts / 0x8000 % 128, pts % 128);
  }

  lemma HalvesOf(a: nat, c: nat, e: nat)
    requires a < 8
    ensures (0x21 + a * 2) / 2 % 8 == a && (c * 2 + 1) / 2 == c && (e * 2 + 1) / 2 == e
  {
    assert (0x21 + a * 2) / 2 == 16 + a;
  }

  lemma PtsFields(a: nat, b: nat, c: nat, d: nat, e: nat)
    requires a < 8 && b < 256 && c < 128 && d < 256 && e < 128
    ensures var s: seq<nat> := [0x21 + a * 2, b, c * 2 + 1, d, e * 2 + 1];
            && (forall i :: 0 <= i < 5 ==> s[i] < 256)
            && s[0] / 16 == 2 && s[0] % 2 == 1 && s[2] % 2 == 1 && s[4] % 2 == 1
            && RestorePts(Word40(s)) == e + d * 0x80 + c * 0x8000 + b * 0x40_0000 + a * 0x4000_0000
  {
    hide RestorePts;
    SliceWord40(a, b, c, d, e);
    hide Word40;
    var s: seq<nat> := [0x21 + a * 2, b, c * 2 + 1, d, e * 2 + 1];
    Word40Is(s[0], b, s[2], d, s[4]);
  }

  lemma Word40Is(a: nat, b: nat, c: nat, d: nat, e: nat)
    ensures Word40([a, b, c, d, e]) == a * 0x1_0000_0000 + b * 0x100_0000 + c * 0x1_0000 + d * 0x100 + e
  {
  }

  lemma Slices(n: nat)
    ensures n == n % 128 + n / 0x80 % 256 * 0x80 + n / 0x8000 % 128 * 0x8000 + n / 0x40_0000 % 256 * 0x40_0000
                 + n / 0x4000_0000 * 0x4000_0000
  {
    var n1, n2, n3, n4 := n / 0x80, n / 0x8000, n / 0x40_0000, n / 0x4000_0000;
    assert n == n % 0x80 + n1 * 0x80;
    assert n2 == n1 / 0x100 && n1 == n1 % 0x100 + n2 * 0x100;
    assert n3 == n2 / 0x80 && n2 == n2 % 0x80 + n3 * 0x80;
    assert n4 == n3 / 0x100 && n3 == n3 % 0x100 + n4 * 0x100;
  }

  // ---------------------------------------------------------------- program clock reference

  // pcr counts 27 MHz ticks; each store keeps the low eight bits.
  function PcrBytes(pcr: nat): (s: seq<nat>)
    ensures |s| == 6
  {
    var low, high := pcr % 300, pcr / 300;
    [high / 0x200_0000 % 256, high / 0x2_0000 % 256, high / 0x200 % 256, high / 2 % 256,
     Or(Or(high * 128 % 256, low / 256), 0x7e), low % 256]
  }

  // Section 2.4.3.5 of ISO/IEC 13818-1: a 33-bit base, six reserved bits, a nine-bit extension.
  function PcrBase(s: seq<nat>): nat
    requires |s| == 6
  {
    s[0] * 0x200_0000 + s[1] * 0x2_0000 + s[2] * 0x200 + s[3] * 2 + s[4] / 128
  }

  function PcrExtension(s: seq<nat>): nat
    requires |s| == 6
  {
    s[4] % 2 * 256 + s[5]
  }

  lemma PcrMiddle(high: nat, low: nat)
    requires low < 300
    ensures Or(Or(high * 128 % 256, low / 256), 0x7e) == high % 2 * 128 + 0x7e + low / 256
  {
    var n := high * 128 % 256;
    assert n == high % 2 * 128;
    var m := low / 256;
    hide Or, Pow2;
    Powers();
    OrIsSum(n, m, 1);
    OrIs126(n + m);
  }

  lemma OrIs126(n: nat)
    requires n / 2 == 0 || n / 2 == 64
    ensures Or(n, 0x7e) == n + 0x7e
  {
    Powers();
    hide Pow2;
    OrIsSum(n / 2, 0x3f, 6);
    assert n > 0 ==> Or(n, 0x7e) == 2 * Or(n / 2, 0x3f) + n % 2;
  }

  // Main result for the clock: base times 300 plus extension is the clock, for every clock that
  // fits 33 bits, and the reserved bits are ones.
  lemma PcrRoundTrip(pcr: nat)
    ensures var s := PcrBytes(pcr);
            && (forall i :: 0 <= i < 6 ==> s[i] < 256)
            && s[4] / 2 % 64 == 63 && PcrExtension(s) < 300
            && (PcrBase(s) * 300 + PcrExtension(s) == pcr <==> pcr < 300 * 0x2_0000_0000)
  {
    var low, high := pcr % 300, pcr / 300;
    var s := PcrBytes(pcr);
    PcrMiddle(high, low);
    assert s[4] == high % 2 * 128 + 0x7e + low / 256 && s[5] == low % 256;
    MiddleByte(high % 2, low);
    assert PcrBase(s) == high % 0x2_0000_0000 by {
      hide Or;
      PcrBaseOf(high);
    }
    hide Or, PcrBase, PcrExtension;
    assert PcrExtension(s) == low by { ExtensionOf(s, low); }
  }

  lemma ClockOnBytes(s: seq<nat>)
    requires |s| == 6
    ensures PcrBase(s) == s[0] * 0x200_0000 + s[1] * 0x2_0000 + s[2] * 0x200 + s[3] * 2 + s[4] / 128
    ensures PcrExtension(s) == s[4] % 2 * 256 + s[5]
  {
  }

  lemma MiddleByte(bit: nat, low: nat)
    requires bit < 2 && low < 300
    ensures var m := bit * 128 + 0x7e + low / 256;
            m < 256 && m / 128 == bit && m / 2 % 64 == 63 && m % 2 == low / 256
  {
  }

  lemma ExtensionOf(s: seq<nat>, low: nat)
    requires |s| == 6 && s[4] % 2 == low / 256 && s[5] == low % 256
    ensures PcrExtension(s) == low
  {
  }

  lemma PcrBaseOf(high: nat)
    ensures high / 0x200_0000 % 256 * 0x200_0000 + high / 0x2_0000 % 256 * 0x2_0000 + high / 0x200 % 256 * 0x200
            + high / 2 % 256 * 2 + high % 2 == high % 0x2_0000_0000
  {
    var h1, h2, h3, h4, h5 := high / 2, high / 0x200, high / 0x2_0000, high / 0x200_0000, high / 0x2_0000_0000;
    assert high == high % 2 + h1 * 2;
    assert h2 == h1 / 256 && h1 == h1 % 256 + h2 * 256;
    assert h3 == h2 / 256 && h2 == h2 % 256 + h3 * 256;
    assert h4 == h3 / 256 && h3 == h3 % 256 + h4 * 256;
    assert h5 == h4 / 256 && h4 == h4 % 256 + h5 * 256;
  }

  // ---------------------------------------------------------------- ADTS

  // csd holds profile (5 bits), sampling index (4) and channels (4); length is the whole frame.
  function Profile(csd: seq<byte>): int
    requires |csd| >= 2
  {
    (csd[0] as int) / 8 - 1
  }

  function SamplingIndex(csd: seq<byte>): nat
    requires |csd| >= 2
  {
    Or(csd[0] % 8 * 2, csd[1] / 128)
  }

  function Channels(csd: seq<byte>): nat
    requires |csd| >= 2
  {
    csd[1] / 8 % 16
  }

  function AdtsBytes(csd: seq<byte>, length: nat): (s: seq<nat>)
    requires |csd| >= 2
    ensures |s| == 7
  {
    [0xff, 0xf1,
     Or(Or(Profile(csd) * 64 % 256, SamplingIndex(csd) * 4), Channels(csd) / 4 % 2),
     Or(Channels(csd) % 4 * 64, length / 2048) % 256,
     length / 8 % 256, length % 8 * 32, 0]
  }

  function AdtsLength(s: seq<nat>): nat
    requires |s| == 7
  {
    s[3] % 4 * 2048 + s[4] * 8 + s[5] / 32
  }

  lemma AdtsBytesAre(csd: seq<byte>, length: nat)
    requires |csd| >= 2
    ensures var s := AdtsBytes(csd, length);
            && s[2] == Profile(csd) % 4 * 64 + SamplingIndex(csd) * 4 + Channels(csd) / 4 % 2
            && s[3] == Or(Channels(csd) % 4 * 64, length / 2048) % 256
            && SamplingIndex(csd) == csd[0] % 8 * 2 + csd[1] / 128 < 16 && Channels(csd) < 16
  {
    hide Or, Pow2;
    Powers();
    OrIsSum(csd[0] % 8 * 2, csd[1] / 128, 1);
    var p := Profile(csd) * 64 % 256;
    assert p == Profile(csd) % 4 * 64;
    OrIsSum(p, SamplingIndex(csd) * 4, 6);
    OrIsSum(p + SamplingIndex(csd) * 4, Channels(csd) / 4 % 2, 2);
  }

  lemma OrEven(a: nat, b: nat)
    ensures Or(2 * a, b) == 2 * Or(a, b / 2) + b % 2
  {
  }

  lemma OrLowBits(a: nat, b: nat)
    ensures Or(4 * a, b) % 4 == b % 4
  {
    hide Or;
    OrEven(2 * a, b);
    OrEven(a, b / 2);
    LowTwo(Or(a, b / 2 / 2), b);
  }

  lemma LowTwo(x: nat, b: nat)
    ensures (2 * (2 * x + b / 2 % 2) + b % 2) % 4 == b % 4
  {
    var low := b / 2 % 2 * 2 + b % 2;
    assert b == b / 2 / 2 * 4 + low && low < 4;
  }

  lemma AdtsFields(csd: seq<byte>, length: nat)
    requires |csd| >= 2
    ensures var s := AdtsBytes(csd, length);
            && (forall i :: 0 <= i < 7 ==> s[i] < 256)
            && s[0] * 16 + s[1] / 16 == 0xfff
            && s[2] / 64 == Profile(csd) % 4 && s[2] / 4 % 16 == SamplingIndex(csd)
            && (length < 8192 ==> s[2] % 2 * 4 + s[3] / 64 == Channels(csd) % 8)
            && (AdtsLength(s) == length <==> length < 8192)
  {
    hide *;
    var c := Channels(csd);
    AdtsLast(csd, length);
    AdtsBytesAre(csd, length);
    OrLowBits(c % 4 * 16, length / 2048);
    if length < 8192 {
      Powers();
      OrIsSum(c % 4 * 64, length / 2048, 6);
    }
    ByteTwo(Profile(csd) % 4, SamplingIndex(csd), c / 4 % 2);
    LengthFields(length);
    ByteThree(c, length);
  }

  lemma AdtsOnBytes(csd: seq<byte>, s: seq<nat>)
    requires |csd| >= 2 && |s| == 7
    ensures Profile(csd) == (csd[0] as int) / 8 - 1 && Channels(csd) == csd[1] / 8 % 16
    ensures AdtsLength(s) == s[3] % 4 * 2048 + s[4] * 8 + s[5] / 32
  {
  }

  // Main result for the ADTS header: the sync word, the object type less one, the sampling index and
  // the channels of the codec data, and the frame length, read back; the length does exactly when it
  // is below 8192.
  lemma AdtsRoundTrip(csd: seq<byte>, length: nat)
    requires |csd| >= 2
    ensures var s := AdtsBytes(csd, length);
            && (forall i :: 0 <= i < 7 ==> s[i] < 256)
            && s[0] * 16 + s[1] / 16 == 0xfff && s[1] % 2 == 1
            && s[2] / 64 == ((csd[0] as int) / 8 - 1) % 4
            && s[2] / 4 % 16 == csd[0] % 8 * 2 + csd[1] / 128
            && (length < 8192 ==> s[2] % 2 * 4 + s[3] / 64 == csd[1] / 8 % 16 % 8)
            && (s[3] % 4 * 2048 + s[4] * 8 + s[5] / 32 == length <==> length < 8192)
  {
    hide *;
    AdtsFields(csd, length);
    AdtsBytesAre(csd, length);
    AdtsLast(csd, length);
    AdtsOnBytes(csd, AdtsBytes(csd, length));
  }

  lemma AdtsLast(csd: seq<byte>, length: nat)
    requires |csd| >= 2
    ensures var s := AdtsBytes(csd, length);
            && s[0] == 0xff && s[1] == 0xf1 && s[4] == length / 8 % 256 && s[5] == length % 8 * 32 && s[6] == 0
            && (s[2] < 256 ==> forall i :: 0 <= i < 7 ==> s[i] < 256)
            && AdtsLength(s) == s[3] % 4 * 2048 + length / 8 % 256 * 8 + length % 8
  {
  }

  lemma ByteTwo(p: nat, i: nat, c: nat)
    requires p < 4 && i < 16 && c < 2
    ensures var b := p * 64 + i * 4 + c; b < 256 && b / 64 == p && b / 4 % 16 == i && b % 2 == c
  {
    assert (p * 64 + i * 4 + c) / 4 == p * 16 + i;
  }

  lemma ByteThree(c: nat, length: nat)
    ensures c / 4 % 2 * 4 + c % 4 == c % 8
    ensures length < 8192 ==> length / 2048 < 4 && c % 4 * 64 + length / 2048 < 256
                              && (c % 4 * 64 + length / 2048) / 64 == c % 4
  {
  }

  lemma LengthFields(length: nat)
    ensures length / 2048 % 4 * 2048 + length / 8 % 256 * 8 + length % 8 == length % 8192
  {
    var a, b, c := length / 8, length / 2048, length / 8192;
    assert length == length % 8 + a * 8;
    assert b == a / 256 && a == a % 256 + b * 256;
    assert c == b / 4 && b == b % 4 + c * 4;
  }
}
