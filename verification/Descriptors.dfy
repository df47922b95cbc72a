/**
 MPEG-4 descriptor headers: a tag and a length in groups of seven bits, most significant first,
 with the top bit set on every byte but the last.
 */
module Descriptors {
  import opened Bytes

  // n >> (7 * i)
  function Shift7(n: nat, i: nat): nat
    decreases i
  {
    if i == 0 then n else Shift7(n / 128, i - 1)
  }

  lemma {:induction false} Shift7Step(n: nat, i: nat)
    ensures Shift7(n, i + 1) == Shift7(n, i) / 128
    decreases i
  {
    if i > 0 {
      Shift7Step(n / 128, i - 1);
    }
  }

  // How many seven-bit groups a length takes; at least one.
  function Groups(n: nat): (g: nat)
    ensures g >= 1
  {
    if n < 128 then 1 else 1 + Groups(n / 128)
  }

  // The whole descriptor: tag, length field and payload.
  function DescrLength(n: nat): nat {
    n + 1 + Groups(n)
  }

  // The groups above the last, each flagged as continued.
  function Continued(n: nat): (s: seq<byte>) {
    if n == 0 then [] else Continued(n / 128) + [128 + n % 128]
  }

  function DescrHeader(tag: byte, n: nat): seq<byte> {
    [tag] + Continued(n / 128) + [n % 128]
  }

  // A reader of the length field: the value and the number of bytes taken; None if it is cut off.
  datatype Length = Length(value: nat, bytes: nat) | CutOff

  function ReadLength(s: seq<byte>, acc: nat): Length
    decreases |s|
  {
    if s == [] then CutOff
    else if s[0] < 128 then Length(acc * 128 + s[0], 1)
    else
      match ReadLength(s[1..], acc * 128 + (s[0] - 128))
      case CutOff => CutOff
      case Length(v, k) => Length(v, k + 1)
  }

  lemma {:induction false} ContinuedGroups(n: nat)
    ensures 1 + |Continued(n / 128)| == Groups(n)
  {
    if n >= 128 {
      ContinuedGroups(n / 128);
    }
  }

  lemma {:induction false} ReadContinued(n: nat, tail: seq<byte>)
    ensures ReadLength(Continued(n) + tail, 0)
         == match ReadLength(tail, n) case CutOff => CutOff case Length(v, k) => Length(v, k + |Continued(n)|)
  {
    if n > 0 {
      var b: byte := 128 + n % 128;
      assert Continued(n) + tail == Continued(n / 128) + ([b] + tail);
      ReadContinued(n / 128, [b] + tail);
      assert ([b] + tail)[1..] == tail;
      assert n / 128 * 128 + n % 128 == n;
    } else {
      assert Continued(0) + tail == tail;
    }
  }

  // The header takes exactly DescrLength(n) - n bytes, and its length field reads back as n.
  lemma HeaderRoundTrip(tag: byte, n: nat, rest: seq<byte>)
    ensures |DescrHeader(tag, n)| == DescrLength(n) - n
    ensures ReadLength((DescrHeader(tag, n) + rest)[1..], 0) == Length(n, DescrLength(n) - n - 1)
  {
    ContinuedGroups(n);
    var last: byte := n % 128;
    assert (DescrHeader(tag, n) + rest)[1..] == Continued(n / 128) + ([last] + rest);
    ReadContinued(n / 128, [last] + rest);
    assert n / 128 * 128 + n % 128 == n;
  }

  // Four groups are enough below 2^28, so no shift reaches the width of the word.
  lemma FourGroups(n: nat)
    requires n < 0x1000_0000
    ensures Groups(n) <= 4
  {
    assert Groups(n / 128) == if n / 128 < 128 then 1 else 1 + Groups(n / 128 / 128);
    assert n / 128 / 128 / 128 < 128;
  }

  method ComputeDescrLength(len: nat) returns (r: nat)
    requires len < 0x1000_0000
    ensures r == DescrLength(len)
  {
    FourGroups(len);
    var i := 1;
    Shift7Step(len, 0);
    while Shift7(len, i) != 0
      invariant 1 <= i <= 4
      invariant Groups(len) == i - 1 + Groups(Shift7(len, i - 1))
      invariant Shift7(len, i) == Shift7(len, i - 1) / 128
      decreases 5 - i
    {
      Shift7Step(len, i);
      i := i + 1;
    }
    r := len + 1 + i;
  }

  method PutDescr(tag: byte, size: nat) returns (out: seq<byte>)
    requires size < 0x1000_0000
    ensures out == DescrHeader(tag, size)
  {
    var len := ComputeDescrLength(size);
    var i := len - size - 2;
    ghost var top := i;
    ContinuedGroups(size);
    out := [tag];
    ShiftOut(size, i + 1);
    while i > 0
      invariant 0 <= i <= top && top + 1 == Groups(size)
      invariant out == [tag] + Continued(Shift7(size, i + 1))
    {
      Shift7Step(size, i);
      ShiftPositive(size, i);
      // (size >> (7 * i)) | 0x80, stored in a byte
      out := out + [128 + Shift7(size, i) % 128];
      i := i - 1;
    }
    Shift7Step(size, 0);
    out := out + [size % 128];
  }

  lemma {:induction false} ShiftOut(n: nat, i: nat)
    requires i >= Groups(n)
    ensures Shift7(n, i) == 0
    decreases i
  {
    if n >= 128 {
      ShiftOut(n / 128, i - 1);
    } else {
      ShiftZero(i - 1);
    }
  }

  lemma {:induction false} ShiftZero(i: nat)
    ensures Shift7(0, i) == 0
  {
    if i > 0 {
      ShiftZero(i - 1);
    }
  }

  lemma {:induction false} ShiftPositive(n: nat, i: nat)
    requires 0 < i < Groups(n)
    ensures Shift7(n, i) > 0
    decreases i
  {
    if i > 1 {
      ShiftPositive(n / 128, i - 1);
    } else {
      assert Shift7(n, 1) == Shift7(n / 128, 0) == n / 128;
    }
  }
}
