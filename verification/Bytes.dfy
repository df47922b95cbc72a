/**
 Bytes, fixed-width integers in both byte orders, and the small sequence helpers that
 every other module shares.
 */
module Bytes {

  datatype Option<+T> = None | Some(value: T)

  type byte = b: int | 0 <= b < 256

  const TWO_32: int := 0x1_0000_0000

  type uint32 = n: int | 0 <= n < 0x1_0000_0000

  // The conversion C applies when an int of any sign is stored in a uint32_t.
  function ToU32(n: int): uint32 {
    n % 0x1_0000_0000
  }

  // Big-endian stores. Division by a positive constant floors, so a negative n is stored in
  // two's complement, as the C casts do.
  function BE16(n: int): (s: seq<byte>)
    ensures |s| == 2
  {
    [n / 0x100 % 256, n % 256]
  }

  function BE24(n: int): (s: seq<byte>)
    ensures |s| == 3
  {
    BE16(n / 0x100) + [n % 256]
  }

  function BE32(n: int): (s: seq<byte>)
    ensures |s| == 4
  {
    [n / 0x100_0000 % 256, n / 0x1_0000 % 256, n / 0x100 % 256, n % 256]
  }

  function U32At(s: seq<byte>, i: nat): uint32
    requires i + 4 <= |s|
  {
    var b0: int, b1: int, b2: int, b3: int := s[i], s[i + 1], s[i + 2], s[i + 3];
    b0 * 0x100_0000 + b1 * 0x1_0000 + b2 * 0x100 + b3
  }

  // A number is its four low bytes and the rest.
  lemma FourBytes(n: int)
    ensures n == n / 0x1_0000_0000 * 0x1_0000_0000 + n / 0x100_0000 % 256 * 0x100_0000 + n / 0x1_0000 % 256 * 0x1_0000
                 + n / 0x100 % 256 * 0x100 + n % 256
  {
    var a, b, c, d := n / 0x100, n / 0x1_0000, n / 0x100_0000, n / 0x1_0000_0000;
    assert n == n % 256 + a * 256;
    assert b == a / 256 && a == a % 256 + b * 256;
    assert c == b / 256 && b == b % 256 + c * 256;
    assert d == c / 256 && c == c % 256 + d * 256;
  }

  lemma BE32RoundTrip(n: int)
    ensures U32At(BE32(n), 0) == ToU32(n)
  {
    FourBytes(n);
  }

  // A table of 32-bit words, as the box writers emit it.
  function Words(ws: seq<int>): (s: seq<byte>)
    ensures |s| == 4 * |ws|
  {
    if ws == [] then [] else BE32(ws[0]) + Words(ws[1..])
  }

  lemma {:induction false} WordsAppend(a: seq<int>, b: seq<int>)
    ensures Words(a + b) == Words(a) + Words(b)
  {
    if a == [] {
      assert a + b == b;
    } else {
      assert (a + b)[1..] == a[1..] + b;
      WordsAppend(a[1..], b);
    }
  }

  // The reader's side of Words.
  function ReadWords(s: seq<byte>): (ws: seq<uint32>)
    ensures |ws| == |s| / 4
  {
    if |s| < 4 then [] else [U32At(s, 0)] + ReadWords(s[4..])
  }

  lemma {:induction false} ReadWordsInverse(ws: seq<uint32>)
    ensures ReadWords(Words(ws)) == ws
  {
    if ws != [] {
      var s := Words(ws);
      assert s[4..] == Words(ws[1..]);
      assert U32At(s, 0) == U32At(BE32(ws[0]), 0);
      BE32RoundTrip(ws[0]);
      ReadWordsInverse(ws[1..]);
    }
  }

  function Fill(n: nat, b: byte): (s: seq<byte>)
    ensures |s| == n
  {
    seq(n, _ => b)
  }

  function Sum(s: seq<nat>): nat {
    if s == [] then 0 else s[0] + Sum(s[1..])
  }

  lemma {:induction false} SumAppend(a: seq<nat>, b: seq<nat>)
    ensures Sum(a + b) == Sum(a) + Sum(b)
  {
    if a == [] {
      assert a + b == b;
    } else {
      assert (a + b)[1..] == a[1..] + b;
      SumAppend(a[1..], b);
    }
  }

  function Flatten<T>(ss: seq<seq<T>>): seq<T> {
    if ss == [] then [] else ss[0] + Flatten(ss[1..])
  }

  lemma {:induction false} FlattenAppend<T>(a: seq<seq<T>>, b: seq<seq<T>>)
    ensures Flatten(a + b) == Flatten(a) + Flatten(b)
  {
    if a == [] {
      assert a + b == b;
    } else {
      assert (a + b)[1..] == a[1..] + b;
      FlattenAppend(a[1..], b);
    }
  }
}
