/**
 The H.264 byte-stream scanner and the converter from Annex B start codes to length prefixes.

 Positions are indexes into the buffer; `base` is the address of the buffer, of which only the
 alignment matters. The scanner tests four bytes at a time once it is aligned.
 */
module AnnexB {
  import opened Bytes

  // ---------------------------------------------------------------- the byte-by-byte scan

  predicate IsCode(buf: seq<byte>, i: nat) {
    i + 3 <= |buf| && buf[i] == 0 && buf[i + 1] == 0 && buf[i + 2] == 1
  }

  // The first 00 00 01 at or after p that starts before the last three bytes; |buf| if none.
  function FirstCode(buf: seq<byte>, p: nat): (i: nat)
    requires p <= |buf|
    ensures p <= i <= |buf|
    ensures i < |buf| ==> i + 3 < |buf| && IsCode(buf, i)
    ensures forall j :: p <= j < i && j + 3 < |buf| ==> !IsCode(buf, j)
    decreases |buf| - p
  {
    if p + 3 >= |buf| then |buf| else if IsCode(buf, p) then p else FirstCode(buf, p + 1)
  }

  lemma {:induction false} FirstCodeIs(buf: seq<byte>, p: nat, i: nat)
    requires p <= i <= |buf| && (i < |buf| ==> i + 3 < |buf| && IsCode(buf, i))
    requires forall j :: p <= j < i && j + 3 < |buf| ==> !IsCode(buf, j)
    ensures FirstCode(buf, p) == i
  {
  }

  // Where the word loop starts: the next aligned address after p.
  function WordStart(p: nat, base: nat): nat {
    p + 4 - (base + p) % 4
  }

  // Whether the scan from p meets position i in its word loop.
  predicate InWordLoop(n: nat, p: nat, base: nat, i: nat) {
    var a := WordStart(p, base);
    a <= i && a + (i - a) / 4 * 4 + 6 < n
  }

  // What the fast scan returns: the start code the byte-by-byte scan finds, or the byte before it
  // when the word loop met it.
  function Found(buf: seq<byte>, p: nat, base: nat): (r: nat)
    requires p <= |buf|
    ensures p <= r <= |buf|
    ensures var i := FirstCode(buf, p); r == i || (i < |buf| && r == i - 1)
  {
    var i := FirstCode(buf, p);
    if i < |buf| && InWordLoop(|buf|, p, base, i) then i - 1 else i
  }

  // ---------------------------------------------------------------- the word test

  function Word(b0: byte, b1: byte, b2: byte, b3: byte): bv32 {
    b0 as bv32 | (b1 as bv32 << 8) | (b2 as bv32 << 16) | (b3 as bv32 << 24)
  }

  lemma ZeroByteBits(a: bv8, b: bv8, c: bv8, d: bv8)
    ensures var x := a as bv32 | (b as bv32 << 8) | (c as bv32 << 16) | (d as bv32 << 24);
            (x - 0x01010101) & !x & 0x80808080 != 0 <==> a == 0 || b == 0 || c == 0 || d == 0
  {
  }

  // The classic test: the expression is non-zero exactly when one of the four bytes is zero.
  lemma ZeroByteTest(b0: byte, b1: byte, b2: byte, b3: byte)
    ensures var x := Word(b0, b1, b2, b3);
            (x - 0x01010101) & !x & 0x80808080 != 0 <==> b0 == 0 || b1 == 0 || b2 == 0 || b3 == 0
  {
    ByteBits(b0);
    ByteBits(b1);
    ByteBits(b2);
    ByteBits(b3);
    ZeroByteBits(b0 as bv8, b1 as bv8, b2 as bv8, b3 as bv8);
  }

  lemma ByteBits(b: byte)
    ensures b as bv32 == (b as bv8) as bv32
    ensures b as bv8 == 0 <==> b == 0
  {
  }

  // ---------------------------------------------------------------- the fast scan

  // The words the loop visits lie at a, a + 4, a + 8, ...
  lemma WordHit(n: nat, p: nat, base: nat, k: nat, j: nat)
    requires j < 4 && WordStart(p, base) + 4 * k + 6 < n
    ensures InWordLoop(n, p, base, WordStart(p, base) + 4 * k + j)
  {
  }

  lemma TailMiss(n: nat, p: nat, base: nat, k: nat, i: nat)
    requires WordStart(p, base) + 4 * k <= i && n <= WordStart(p, base) + 4 * k + 6
    ensures !InWordLoop(n, p, base, i)
  {
  }

  // A code in the word at p, if any, is the one of these four the loop tests first.
  lemma CodeInWord(buf: seq<byte>, p: nat)
    requires p + 6 < |buf|
    ensures var i := FirstCode(buf, p);
            if IsCode(buf, p) then i == p
            else if IsCode(buf, p + 1) then i == p + 1
            else if IsCode(buf, p + 2) then i == p + 2
            else if IsCode(buf, p + 3) then i == p + 3
            else i == FirstCode(buf, p + 4)
  {
    assert FirstCode(buf, p + 1) == if IsCode(buf, p + 1) then p + 1 else FirstCode(buf, p + 2);
    assert FirstCode(buf, p + 2) == if IsCode(buf, p + 2) then p + 2 else FirstCode(buf, p + 3);
  }

  // The body of the word loop: the value it returns, if it returns.
  method ScanWord(buf: seq<byte>, p: nat) returns (found: bool, r: int)
    requires p + 6 < |buf|
    ensures found <==> IsCode(buf, p) || IsCode(buf, p + 1) || IsCode(buf, p + 2) || IsCode(buf, p + 3)
    ensures found ==> r == FirstCode(buf, p) - 1 && r < p + 3
    ensures !found ==> FirstCode(buf, p) == FirstCode(buf, p + 4)
  {
    hide FirstCode;
    CodeInWord(buf, p);
    var x := Word(buf[p], buf[p + 1], buf[p + 2], buf[p + 3]);
    ZeroByteTest(buf[p], buf[p + 1], buf[p + 2], buf[p + 3]);
    if (x - 0x01010101) & !x & 0x80808080 != 0 {
      if buf[p + 1] == 0 {
        if buf[p] == 0 && buf[p + 2] == 1 {
          return true, p - 1;
        }
        if buf[p + 2] == 0 && buf[p + 3] == 1 {
          return true, p;
        }
      }
      if buf[p + 3] == 0 {
        if buf[p + 2] == 0 && buf[p + 4] == 1 {
          return true, p + 1;
        }
        if buf[p + 4] == 0 && buf[p + 5] == 1 {
          return true, p + 2;
        }
      }
    }
    return false, 0;
  }

  // The fast scan refines the byte-by-byte scan, for every buffer and every alignment.
  method FindStartCode(buf: seq<byte>, start: nat, base: nat) returns (r: nat)
    requires start <= |buf|
    ensures r == Found(buf, start, base)
  {
    hide WordStart, InWordLoop;
    var a := start + 4 - (base + start) % 4;
    assert a == WordStart(start, base) && a <= start + 4 by { WordStartIs(start, base); }
    var end := |buf| - 3;
    var p := start;
    while p < a && p < end
      invariant start <= p <= a && p <= |buf|
      invariant FirstCode(buf, start) == FirstCode(buf, p)
    {
      if buf[p] == 0 && buf[p + 1] == 0 && buf[p + 2] == 1 {
        HeadMiss(|buf|, start, base, p);
        return p;
      }
      p := p + 1;
    }
    end := end - 3;
    ghost var k := 0;
    while p < end
      invariant start <= p <= |buf|
      invariant p < end ==> p == a + 4 * k
      invariant p == a + 4 * k || p >= |buf| - 3
      invariant FirstCode(buf, start) == FirstCode(buf, p)
    {
      var found, q := ScanWord(buf, p);
      if found {
        WordHit(|buf|, start, base, k, FirstCode(buf, p) - p);
        return q;
      }
      p := p + 4;
      k := k + 1;
    }
    ghost var tail := p;
    end := end + 3;
    while p < end
      invariant start <= tail <= p <= |buf|
      invariant p < end ==> tail == a + 4 * k && |buf| <= tail + 6
      invariant FirstCode(buf, start) == FirstCode(buf, p)
    {
      if buf[p] == 0 && buf[p + 1] == 0 && buf[p + 2] == 1 {
        TailMiss(|buf|, start, base, k, p);
        return p;
      }
      p := p + 1;
    }
    return end + 3;
  }

  lemma WordStartIs(p: nat, base: nat)
    ensures WordStart(p, base) == p + 4 - (base + p) % 4 && p < WordStart(p, base) <= p + 4
  {
  }

  lemma HeadMiss(n: nat, p: nat, base: nat, i: nat)
    requires i < WordStart(p, base)
    ensures !InWordLoop(n, p, base, i)
  {
  }

  // ---------------------------------------------------------------- the converter

  // Just past the first non-zero byte at or after k.
  function PastZeros(buf: seq<byte>, k: nat): (r: nat)
    requires k <= |buf|
    ensures k <= r <= |buf| && (k < |buf| ==> k < r)
    decreases |buf| - k
  {
    if k == |buf| then k else if buf[k] != 0 then k + 1 else PastZeros(buf, k + 1)
  }

  // The units the converter copies, from the scan result `at` on.
  function Units(buf: seq<byte>, at: nat, base: nat): seq<seq<byte>>
    requires at <= |buf|
    decreases |buf| - at
  {
    if at == |buf| then []
    else
      var s := PastZeros(buf, at);
      var e := Found(buf, s, base);
      [buf[s..e]] + Units(buf, e, base)
  }

  function Converted(buf: seq<byte>, base: nat): seq<seq<byte>> {
    Units(buf, Found(buf, 0, base), base)
  }

  // Each unit behind its length as a big-endian word.
  function Prefixed(us: seq<seq<byte>>): seq<byte> {
    if us == [] then [] else BE32(|us[0]|) + us[0] + Prefixed(us[1..])
  }

  // The reader of length prefixes.
  function ReadUnits(s: seq<byte>): seq<seq<byte>>
    decreases |s|
  {
    if |s| < 4 then []
    else
      var n := U32At(s, 0);
      if |s| < 4 + n then [] else [s[4..4 + n]] + ReadUnits(s[4 + n..])
  }

  lemma {:induction false} PrefixedSnoc(us: seq<seq<byte>>, u: seq<byte>)
    ensures Prefixed(us + [u]) == Prefixed(us) + (BE32(|u|) + u)
  {
    if us == [] {
      assert us + [u] == [u] && [u][1..] == [];
    } else {
      assert (us + [u])[1..] == us[1..] + [u];
      PrefixedSnoc(us[1..], u);
    }
  }

  lemma SplitPrefix(u: seq<byte>, rest: seq<byte>)
    requires |u| < TWO_32
    ensures var s := BE32(|u|) + u + rest;
            U32At(s, 0) == |u| && s[4..4 + |u|] == u && s[4 + |u|..] == rest
  {
    BE32RoundTrip(|u|);
    var s := BE32(|u|) + u + rest;
    assert U32At(s, 0) == U32At(BE32(|u|), 0);
  }

  lemma {:induction false} ReadPrefixed(us: seq<seq<byte>>)
    requires forall u :: u in us ==> |u| < TWO_32
    ensures ReadUnits(Prefixed(us)) == us
  {
    hide BE32, U32At;
    if us != [] {
      SplitPrefix(us[0], Prefixed(us[1..]));
      ReadPrefixed(us[1..]);
      assert us == [us[0]] + us[1..];
    }
  }

  // A scan result always has a non-zero byte in reach, so the skip loop stays inside the buffer.
  lemma FoundHasNonZero(buf: seq<byte>, p: nat, base: nat)
    requires p <= |buf| && Found(buf, p, base) < |buf|
    ensures FirstCode(buf, p) + 3 < |buf| && buf[FirstCode(buf, p) + 2] == 1
    ensures Found(buf, p, base) < FirstCode(buf, p) + 2
  {
  }

  // The skip loop: steps past the first non-zero byte.
  method SkipZeros(buf: seq<byte>, from: nat, ghost one: nat) returns (k: nat)
    requires from <= one < |buf| && buf[one] != 0
    ensures k == PastZeros(buf, from)
  {
    k := from;
    while buf[k] == 0
      invariant from <= k <= one
      invariant PastZeros(buf, from) == PastZeros(buf, k)
      decreases one - k
    {
      k := k + 1;
    }
    k := k + 1;
  }

  lemma UnitsSteps(buf: seq<byte>, base: nat)
    ensures Converted(buf, base) == Units(buf, Found(buf, 0, base), base)
    ensures Units(buf, |buf|, base) == []
  {
  }

  lemma UnitsStep(buf: seq<byte>, at: nat, base: nat)
    requires at < |buf|
    ensures var s := PastZeros(buf, at);
            var e := Found(buf, s, base);
            at < s <= e <= |buf| && Units(buf, at, base) == [buf[s..e]] + Units(buf, e, base)
  {
    hide Found;
  }

  method ParseNalUnits(buf: seq<byte>, base: nat) returns (out: seq<byte>)
    ensures out == Prefixed(Converted(buf, base))
  {
    hide *;
    UnitsSteps(buf, base);
    ghost var p := 0;
    ghost var done: seq<seq<byte>> := [];
    out := [];
    assert Prefixed([]) == [] by { EmptyPrefixed(); }
    var nalStart := FindStartCode(buf, 0, base);
    while nalStart < |buf|
      invariant p <= nalStart <= |buf| && nalStart == Found(buf, p, base)
      invariant out == Prefixed(done)
      invariant Converted(buf, base) == done + Units(buf, nalStart, base)
      decreases |buf| - nalStart
    {
      FoundHasNonZero(buf, p, base);
      UnitsStep(buf, nalStart, base);
      nalStart := SkipZeros(buf, nalStart, FirstCode(buf, p) + 2);
      var nalEnd := FindStartCode(buf, nalStart, base);
      ghost var unit := buf[nalStart..nalEnd];
      out := out + (BE32(nalEnd - nalStart) + buf[nalStart..nalEnd]);
      PrefixedSnoc(done, unit);
      assert done + ([unit] + Units(buf, nalEnd, base)) == (done + [unit]) + Units(buf, nalEnd, base);
      done := done + [unit];
      p := nalStart;
      nalStart := nalEnd;
    }
    assert done + [] == done;
  }

  lemma EmptyPrefixed()
    ensures Prefixed([]) == []
  {
  }

  // The next unit starts right behind its start code exactly when the scan met the code outside
  // the word loop, or the byte before the code is zero, as it is for a four-byte code.
  lemma BoundaryRight(buf: seq<byte>, p: nat, base: nat)
    requires p <= |buf| && FirstCode(buf, p) < |buf|
    ensures var i := FirstCode(buf, p);
            PastZeros(buf, Found(buf, p, base)) == i + 3
            <==> !InWordLoop(|buf|, p, base, i) || buf[i - 1] == 0
  {
    hide InWordLoop;
    var i := FirstCode(buf, p);
    assert Found(buf, p, base) != i ==> Found(buf, p, base) == i - 1;
    assert PastZeros(buf, i + 2) == i + 3;
    assert PastZeros(buf, i + 1) == PastZeros(buf, i + 2);
    assert PastZeros(buf, i) == PastZeros(buf, i + 1);
  }

  // ---------------------------------------------------------------- streams of units

  // No start code inside a NAL unit (emulation prevention, section 7.4.1 of ITU-T H.264).
  predicate NoCode(u: seq<byte>) {
    forall i :: 0 <= i < |u| ==> !IsCode(u, i)
  }

  // A unit and the start code in front of it: the long one has a zero byte more.
  datatype Coded = Coded(long: bool, unit: seq<byte>)

  function Code(long: bool): seq<byte> {
    if long then [0, 0, 0, 1] else [0, 0, 1]
  }

  // Section B.1.1 of ITU-T H.264.
  function Stream(cs: seq<Coded>): seq<byte> {
    if cs == [] then [] else Code(cs[0].long) + cs[0].unit + Stream(cs[1..])
  }

  predicate EndsWithZero(u: seq<byte>) {
    |u| > 0 && u[|u| - 1] == 0
  }

  // A zero at the end of a unit could not be told from that of a long start code.
  predicate StreamOk(cs: seq<Coded>) {
    && cs != [] && cs[|cs| - 1].unit != []
    && (forall k :: 0 <= k < |cs| ==> NoCode(cs[k].unit))
    && (forall k :: 0 < k < |cs| && !cs[k].long ==> !EndsWithZero(cs[k - 1].unit))
  }

  function UnitsOf(cs: seq<Coded>): (us: seq<seq<byte>>)
    ensures |us| == |cs|
  {
    seq(|cs|, i requires 0 <= i < |cs| => cs[i].unit)
  }

  // Each unit comes out as it was, or followed by the first zero of the next start code.
  predicate UpToOneZero(ns: seq<seq<byte>>, us: seq<seq<byte>>) {
    && |ns| == |us|
    && (forall k :: 0 <= k < |us| ==> ns[k] == us[k] || (k < |us| - 1 && ns[k] == us[k] + [0]))
  }

  lemma StreamOkTail(cs: seq<Coded>)
    requires StreamOk(cs) && |cs| > 1
    ensures StreamOk(cs[1..])
  {
    var ds := cs[1..];
    assert ds[|ds| - 1] == cs[|cs| - 1];
    assert forall k :: 0 <= k < |ds| ==> ds[k] == cs[k + 1];
  }

  lemma {:induction false} StreamLong(cs: seq<Coded>)
    requires StreamOk(cs)
    ensures |Stream(cs)| > |Code(cs[0].long)| && Stream(cs)[..|Code(cs[0].long)|] == Code(cs[0].long)
  {
    if |cs| > 1 {
      StreamOkTail(cs);
      StreamLong(cs[1..]);
    }
  }

  // Behind a start code the scan finds the one that ends the unit.
  lemma FirstCodeAfterUnit(buf: seq<byte>, s: nat, u: seq<byte>, rest: seq<Coded>)
    requires s <= |buf| && buf[s..] == u + Stream(rest) && NoCode(u) && (rest == [] || StreamOk(rest))
    ensures FirstCode(buf, s) == if rest == [] then |buf| else s + |u| + |Code(rest[0].long)| - 3
  {
    var t := u + Stream(rest);
    var i := if rest == [] then |buf| else s + |u| + |Code(rest[0].long)| - 3;
    if rest != [] {
      StreamLong(rest);
    }
    assert forall k :: s <= k < |buf| ==> buf[k] == t[k - s];
    hide Stream, StreamOk;
    forall j | s <= j < i && j + 3 < |buf|
      ensures !IsCode(buf, j)
    {
      if j - s + 3 <= |u| {
        assert !IsCode(u, j - s);
      } else {
        assert buf[j + 2] == Stream(rest)[j + 2 - s - |u|] == Code(rest[0].long)[j + 2 - s - |u|] == 0;
      }
    }
    FirstCodeIs(buf, s, i);
  }

  lemma SplitSuffix(buf: seq<byte>, s: nat, a: seq<byte>, b: seq<byte>)
    requires s <= |buf| && buf[s..] == a + b
    ensures s + |a| <= |buf| && buf[s..s + |a|] == a && buf[s + |a|..] == b
  {
    assert buf[s..s + |a|] == buf[s..][..|a|];
    assert buf[s + |a|..] == buf[s..][|a|..];
  }

  // Whether the unit at s is cut where it ends, its start code being at i: always before a long
  // code, before a short one only when the scan does not meet it in its word loop.
  predicate CutRight(n: nat, base: nat, s: nat, i: nat, long: bool) {
    long || !InWordLoop(n, s, base, i)
  }

  // How many units behind the one at s are cut wrong in a stream of n bytes.
  function WrongCuts(n: nat, base: nat, s: nat, cs: seq<Coded>): nat
    requires cs != []
    decreases |cs|
  {
    if |cs| == 1 then 0
    else
      var i := s + |cs[0].unit| + |Code(cs[1].long)| - 3;
      (if CutRight(n, base, s, i, cs[1].long) then 0 else 1) + WrongCuts(n, base, i + 3, cs[1..])
  }

  // A unit, a start code and what follows it, as slices of the buffer.
  lemma CodeAhead(buf: seq<byte>, s: nat, u: seq<byte>, long: bool, tail: seq<byte>)
    requires s <= |buf| && buf[s..] == u + (Code(long) + tail) && tail != []
    ensures var i := s + |u| + |Code(long)| - 3;
            && i + 3 < |buf| && buf[s..s + |u|] == u && buf[i + 3..] == tail
            && (long ==> buf[i - 1] == 0)
  {
    SplitSuffix(buf, s, u, Code(long) + tail);
    SplitSuffix(buf, s + |u|, Code(long), tail);
    assert long ==> buf[s + |u|] == buf[s + |u|..s + |u| + 4][0];
  }

  // Where the unit at s ends and the next one starts.
  lemma NextUnit(buf: seq<byte>, s: nat, cs: seq<Coded>)
    requires StreamOk(cs) && |cs| > 1 && s <= |buf| && buf[s..] == cs[0].unit + Stream(cs[1..])
    ensures var i := FirstCode(buf, s);
            && i == s + |cs[0].unit| + |Code(cs[1].long)| - 3 && i + 3 < |buf|
            && buf[s..s + |cs[0].unit|] == cs[0].unit && (cs[1].long ==> buf[i - 1] == 0)
            && buf[i + 3..] == cs[1].unit + Stream(cs[2..]) && StreamOk(cs[1..])
  {
    assert NoCode(cs[0].unit);
    hide *;
    StreamOkTail(cs);
    FirstCodeAfterUnit(buf, s, cs[0].unit, cs[1..]);
    StreamLong(cs[1..]);
    StreamOpens(cs[1..]);
    assert cs[1..][1..] == cs[2..];
    CodeAhead(buf, s, cs[0].unit, cs[1].long, cs[1].unit + Stream(cs[2..]));
  }

  lemma StreamOpens(cs: seq<Coded>)
    requires cs != []
    ensures Stream(cs) == Code(cs[0].long) + (cs[0].unit + Stream(cs[1..]))
  {
  }

  // A unit cut right comes out up to one zero, and the next one starts behind its code.
  lemma RightCut(buf: seq<byte>, base: nat, s: nat, cs: seq<Coded>)
    requires StreamOk(cs) && |cs| > 1 && s <= |buf| && buf[s..] == cs[0].unit + Stream(cs[1..])
    requires CutRight(|buf|, base, s, FirstCode(buf, s), cs[1].long)
    ensures var e, u := Found(buf, s, base), cs[0].unit;
            s <= e <= FirstCode(buf, s) && (buf[s..e] == u || buf[s..e] == u + [0]) && PastZeros(buf, e) == FirstCode(buf, s) + 3
  {
    hide StreamOk, NoCode, PastZeros, Stream, InWordLoop;
    NextUnit(buf, s, cs);
    BoundaryRight(buf, s, base);
    hide FirstCode;
    var u := cs[0].unit;
    assert cs[1].long ==> buf[s..s + |u| + 1] == u + [0];
  }

  // A unit cut wrong loses its last byte, and an empty one comes out behind it.
  lemma WrongCut(buf: seq<byte>, base: nat, s: nat, cs: seq<Coded>)
    requires StreamOk(cs) && |cs| > 1 && s <= |buf| && buf[s..] == cs[0].unit + Stream(cs[1..])
    requires !CutRight(|buf|, base, s, FirstCode(buf, s), cs[1].long)
    ensures var i := FirstCode(buf, s);
            && s < i && Found(buf, s, base) == i - 1 && PastZeros(buf, i - 1) == i
            && Found(buf, i, base) == i && PastZeros(buf, i) == i + 3
  {
    NextUnit(buf, s, cs);
    var i, u := FirstCode(buf, s), cs[0].unit;
    assert s < i by { WordStartIs(s, base); }
    assert buf[i - 1] == u[|u| - 1] != 0 by {
      assert !EndsWithZero(cs[1 - 1].unit);
      assert buf[i - 1] == buf[s..s + |u|][|u| - 1];
    }
    FirstCodeIs(buf, i, i);
    WordStartIs(i, base);
    HeadMiss(|buf|, i, base, i);
    BoundaryRight(buf, i, base);
    assert PastZeros(buf, i - 1) == i;
  }

  lemma UpToOneZeroCons(n: seq<byte>, ns: seq<seq<byte>>, us: seq<seq<byte>>)
    requires |us| > 1 && UpToOneZero(ns, us[1..]) && (n == us[0] || n == us[0] + [0])
    ensures UpToOneZero([n] + ns, us)
  {
    forall k | 0 <= k < |us|
      ensures ([n] + ns)[k] == us[k] || (k < |us| - 1 && ([n] + ns)[k] == us[k] + [0])
    {
      if k > 0 {
        assert ([n] + ns)[k] == ns[k - 1] && us[k] == us[1..][k - 1];
      }
    }
  }

  lemma {:induction false} UnitsOfStream(buf: seq<byte>, at: nat, base: nat, s: nat, cs: seq<Coded>)
    requires StreamOk(cs) && s <= |buf| && buf[s..] == cs[0].unit + Stream(cs[1..])
    requires at < s && PastZeros(buf, at) == s
    ensures var ns, wrong := Units(buf, at, base), WrongCuts(|buf|, base, s, cs);
            |ns| == |cs| + wrong && (wrong == 0 ==> UpToOneZero(ns, UnitsOf(cs)))
    decreases |cs|
  {
    hide NoCode, PastZeros, Found, IsCode, FirstCode, CutRight;
    UnitsStep(buf, at, base);
    var u, e := cs[0].unit, Found(buf, s, base);
    if |cs| == 1 {
      FirstCodeAfterUnit(buf, s, u, []);
      assert FirstCode(buf, s) == |buf| ==> e == |buf| by { NothingFound(buf, s, base); }
      assert Units(buf, |buf|, base) == [] by { UnitsSteps(buf, base); }
      assert buf[s..e] == u;
    } else {
      NextUnit(buf, s, cs);
      var i := FirstCode(buf, s);
      assert cs[1..][1..] == cs[2..] && UnitsOf(cs)[1..] == UnitsOf(cs[1..]);
      hide StreamOk, Stream, UpToOneZero, Units;
      if CutRight(|buf|, base, s, i, cs[1].long) {
        RightCut(buf, base, s, cs);
        UnitsOfStream(buf, e, base, i + 3, cs[1..]);
        if WrongCuts(|buf|, base, s, cs) == 0 {
          UpToOneZeroCons(buf[s..e], Units(buf, e, base), UnitsOf(cs));
        }
      } else {
        WrongCut(buf, base, s, cs);
        UnitsStep(buf, e, base);
        UnitsOfStream(buf, i, base, i + 3, cs[1..]);
      }
    }
  }

  lemma NothingFound(buf: seq<byte>, p: nat, base: nat)
    requires p <= |buf| && FirstCode(buf, p) == |buf|
    ensures Found(buf, p, base) == |buf|
  {
  }

  // Main result: any list of NAL units, joined with any mixture of the two start codes, is converted
  // to one unit more for every cut the scan makes wrong. So the units come out in order, each the
  // original or the original plus one zero byte, if and only if every cut is right.
  lemma ConvertedMixture(cs: seq<Coded>, base: nat)
    requires StreamOk(cs)
    ensures var ns, wrong := Converted(Stream(cs), base), WrongCuts(|Stream(cs)|, base, |Code(cs[0].long)|, cs);
            |ns| == |cs| + wrong && (UpToOneZero(ns, UnitsOf(cs)) <==> wrong == 0)
  {
    var buf, code, tail := Stream(cs), Code(cs[0].long), cs[0].unit + Stream(cs[1..]);
    StreamLong(cs);
    assert buf == code + tail;
    SplitSuffix(buf, 0, code, tail);
    FirstCodeIs(buf, 0, |code| - 3);
    BoundaryRight(buf, 0, base);
    WordStartIs(0, base);
    HeadMiss(|buf|, 0, base, 0);
    UnitsSteps(buf, base);
    hide FirstCode, Found, InWordLoop, PastZeros, Units, NoCode;
    UnitsOfStream(buf, Found(buf, 0, base), base, |code|, cs);
  }

  // ---------------------------------------------------------------- four-byte start codes

  function Joined(us: seq<seq<byte>>): seq<byte> {
    if us == [] then [] else [0, 0, 0, 1] + us[0] + Joined(us[1..])
  }

  predicate NalStream(us: seq<seq<byte>>) {
    us != [] && us[|us| - 1] != [] && forall u :: u in us ==> NoCode(u)
  }

  function AllLong(us: seq<seq<byte>>): (cs: seq<Coded>)
    ensures |cs| == |us|
  {
    seq(|us|, i requires 0 <= i < |us| => Coded(true, us[i]))
  }

  lemma {:induction false} JoinedIsStream(us: seq<seq<byte>>)
    ensures Joined(us) == Stream(AllLong(us)) && UnitsOf(AllLong(us)) == us
  {
    if us != [] {
      assert AllLong(us)[1..] == AllLong(us[1..]);
      JoinedIsStream(us[1..]);
    }
  }

  lemma {:induction false} LongCutsRight(n: nat, base: nat, s: nat, cs: seq<Coded>)
    requires cs != [] && forall c :: c in cs ==> c.long
    ensures WrongCuts(n, base, s, cs) == 0
    decreases |cs|
  {
    if |cs| > 1 {
      var i := s + |cs[0].unit| + |Code(cs[1].long)| - 3;
      assert cs[1] in cs;
      LongCutsRight(n, base, i + 3, cs[1..]);
    }
  }

  // Main result: every list of NAL units joined with four-byte start codes is converted to that
  // many units in order, each the original or the original plus one zero byte, for any alignment.
  lemma ConvertedStream(us: seq<seq<byte>>, base: nat)
    requires NalStream(us)
    ensures UpToOneZero(Converted(Joined(us), base), us)
  {
    var cs := AllLong(us);
    JoinedIsStream(us);
    assert StreamOk(cs) by { hide NoCode; }
    ConvertedMixture(cs, base);
    LongCutsRight(|Stream(cs)|, base, 4, cs);
  }

  // A three-byte code met in the word loop is a wrong cut: the unit 9 9 9 9 7 loses its last byte.
  lemma ShortCodeCutWrong()
    ensures var buf := [9, 9, 9, 9, 7, 0, 0, 1, 0x65, 9, 9, 9, 9, 9, 9, 9];
            FirstCode(buf, 0) == 5 && Found(buf, 0, 0) == 4 && PastZeros(buf, 4) == 5
  {
    var buf: seq<byte> := [9, 9, 9, 9, 7, 0, 0, 1, 0x65, 9, 9, 9, 9, 9, 9, 9];
    FirstCodeIs(buf, 0, 5);
  }

  function StripZero(u: seq<byte>): seq<byte> {
    if |u| > 0 && u[|u| - 1] == 0 then u[..|u| - 1] else u
  }

  // Reading the prefixes back recovers the units: a NAL unit never ends with a zero byte.
  lemma RecoverUnits(us: seq<seq<byte>>, base: nat)
    requires NalStream(us) && |Joined(us)| < TWO_32
    requires forall u :: u in us ==> u == StripZero(u)
    ensures var ns := ReadUnits(Prefixed(Converted(Joined(us), base)));
            |ns| == |us| && forall k :: 0 <= k < |us| ==> StripZero(ns[k]) == us[k]
  {
    ConvertedStream(us, base);
    var ns := Converted(Joined(us), base);
    forall n | n in ns
      ensures |n| < TWO_32
    {
      var k :| 0 <= k < |ns| && ns[k] == n;
      UnitShorter(us, k);
    }
    ReadPrefixed(ns);
    forall k | 0 <= k < |us|
      ensures StripZero(ns[k]) == us[k]
    {
      assert us[k] in us;
    }
  }

  lemma {:induction false} UnitShorter(us: seq<seq<byte>>, k: nat)
    requires k < |us|
    ensures |us[k]| + 4 <= |Joined(us)|
  {
    if k > 0 {
      UnitShorter(us[1..], k - 1);
    }
  }

  // The output is at most one byte per unit longer than the input.
  lemma {:induction false} ConvertedLength(ns: seq<seq<byte>>, us: seq<seq<byte>>)
    requires UpToOneZero(ns, us)
    ensures |Joined(us)| <= |Prefixed(ns)| <= |Joined(us)| + |us|
  {
    if us != [] {
      assert UpToOneZero(ns[1..], us[1..]);
      ConvertedLength(ns[1..], us[1..]);
    }
  }
}
