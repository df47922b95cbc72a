/**
 The box structure of ISO/IEC 14496-12 section 4.2: an independent writer and reader of nested
 boxes, against which the muxer's size and emit functions are judged.

 A box is a kind, a fixed header that depends on the kind, and child boxes. `Serialize` computes
 every size from the bytes actually written; `Parse` is a reader that trusts only size fields.
 */
module Boxes {
  import opened Bytes

  datatype Box = Box(kind: uint32, header: seq<byte>, children: seq<Box>)

  // Four-character codes, as big-endian words.
  const FTYP: uint32 := 0x66747970
  const MOOV: uint32 := 0x6d6f6f76
  const FREE: uint32 := 0x66726565
  const MDAT: uint32 := 0x6d646174
  const UDTA: uint32 := 0x75647461
  const XYZ: uint32 := 0xa978797a
  const MVHD: uint32 := 0x6d766864
  const TRAK: uint32 := 0x7472616b
  const TKHD: uint32 := 0x746b6864
  const MDIA: uint32 := 0x6d646961
  const MDHD: uint32 := 0x6d646864
  const HDLR: uint32 := 0x68646c72
  const MINF: uint32 := 0x6d696e66
  const VMHD: uint32 := 0x766d6864
  const SMHD: uint32 := 0x736d6864
  const DINF: uint32 := 0x64696e66
  const DREF: uint32 := 0x64726566
  const URL: uint32 := 0x75726c20
  const STBL: uint32 := 0x7374626c
  const STSD: uint32 := 0x73747364
  const AVC1: uint32 := 0x61766331
  const MP4V: uint32 := 0x6d703476
  const MJPA: uint32 := 0x6d6a7061
  const AVCC: uint32 := 0x61766343
  const MP4A: uint32 := 0x6d703461
  const SOWT: uint32 := 0x736f7774
  const MS11: uint32 := 0x6d730011
  const ESDS: uint32 := 0x65736473
  const STTS: uint32 := 0x73747473
  const STSS: uint32 := 0x73747373
  const STSC: uint32 := 0x73747363
  const STSZ: uint32 := 0x7374737a
  const STCO: uint32 := 0x7374636f

  // How many payload bytes precede the children; None for a box that holds no boxes.
  function HeaderLength(kind: uint32): Option<nat> {
    if kind == MOOV || kind == UDTA || kind == TRAK || kind == MDIA || kind == MINF || kind == DINF || kind == STBL
    then Some(0)
    else if kind == DREF || kind == STSD then Some(8)
    else if kind == AVC1 || kind == MP4V || kind == MJPA then Some(78)
    else if kind == MP4A || kind == SOWT || kind == MS11 then Some(28)
    else None
  }

  function Serialize(b: Box): (s: seq<byte>)
    ensures |s| >= 8
    decreases b, 1
  {
    var body := Body(b);
    BE32(8 + |body|) + BE32(b.kind) + body
  }

  function Body(b: Box): seq<byte>
    decreases b, 0
  {
    b.header + SerializeAll(b.children)
  }

  function SerializeAll(bs: seq<Box>): seq<byte> {
    if bs == [] then [] else Serialize(bs[0]) + SerializeAll(bs[1..])
  }

  predicate WellFormed(b: Box) {
    && 8 + |Body(b)| < TWO_32
    && (match HeaderLength(b.kind)
        case None => b.children == []
        case Some(n) => |b.header| == n)
    && AllWellFormed(b.children)
  }

  predicate AllWellFormed(bs: seq<Box>) {
    bs == [] || (WellFormed(bs[0]) && AllWellFormed(bs[1..]))
  }

  // A reader: splits the bytes at the size fields, recursing where the kind says so.
  function Parse(s: seq<byte>): Option<seq<Box>>
    decreases |s|, 0
  {
    if s == [] then Some([])
    else if |s| < 8 then None
    else
      var size := U32At(s, 0);
      var kind := U32At(s, 4);
      if size < 8 || |s| < size then None
      else
        match (ParseBody(kind, s[8..size]), Parse(s[size..]))
        case (Some(b), Some(rest)) => Some([b] + rest)
        case _ => None
  }

  function ParseBody(kind: uint32, body: seq<byte>): Option<Box>
    decreases |body|, 1
  {
    match HeaderLength(kind)
    case None => Some(Box(kind, body, []))
    case Some(n) =>
      if |body| < n then None
      else
        match Parse(body[n..])
        case Some(children) => Some(Box(kind, body[..n], children))
        case None => None
  }

  // What a reader finds at the front of a serialized box followed by anything.
  lemma SplitBox(b: Box, rest: seq<byte>)
    requires 8 + |Body(b)| < TWO_32
    ensures var s, size := Serialize(b) + rest, 8 + |Body(b)|;
            && size <= |s| && U32At(s, 0) == size && U32At(s, 4) == b.kind
            && s[8..size] == Body(b) && s[size..] == rest
  {
    var body := Body(b);
    var s := Serialize(b) + rest;
    hide BE32, U32At, Body;
    assert s == BE32(8 + |body|) + (BE32(b.kind) + (body + rest));
    BE32At(8 + |body|, BE32(b.kind) + (body + rest));
    assert s[4..] == BE32(b.kind) + (body + rest);
    BE32At(b.kind, body + rest);
    U32Later(s, 4);
  }

  lemma U32Later(s: seq<byte>, i: nat)
    requires i + 4 <= |s|
    ensures U32At(s, i) == U32At(s[i..], 0)
  {
  }

  // Reading back what was serialized gives exactly the boxes, at every depth.
  lemma {:induction false} ParseSerialize(bs: seq<Box>)
    requires AllWellFormed(bs)
    ensures Parse(SerializeAll(bs)) == Some(bs)
  {
    hide HeaderLength, Serialize, Body;
    if bs != [] {
      SplitBox(bs[0], SerializeAll(bs[1..]));
      ParseBodySerialize(bs[0]);
      ParseSerialize(bs[1..]);
      assert bs == [bs[0]] + bs[1..];
    }
  }

  lemma {:induction false} ParseBodySerialize(b: Box)
    requires WellFormed(b)
    ensures ParseBody(b.kind, Body(b)) == Some(b)
    decreases b, 0
  {
    var body := Body(b);
    match HeaderLength(b.kind) {
      case None =>
        assert body == b.header;
      case Some(n) =>
        assert body[n..] == SerializeAll(b.children) && body[..n] == b.header;
        ParseSerialize(b.children);
    }
  }

  lemma BE32At(n: uint32, tail: seq<byte>)
    ensures U32At(BE32(n) + tail, 0) == n
  {
    BE32RoundTrip(n);
    assert U32At(BE32(n) + tail, 0) == U32At(BE32(n), 0);
  }

  lemma {:induction false} SerializeAppend(a: seq<Box>, b: seq<Box>)
    ensures SerializeAll(a + b) == SerializeAll(a) + SerializeAll(b)
  {
    if a == [] {
      assert a + b == b;
    } else {
      assert (a + b)[1..] == a[1..] + b;
      SerializeAppend(a[1..], b);
    }
  }

  lemma {:induction false} WellFormedAppend(a: seq<Box>, b: seq<Box>)
    requires AllWellFormed(a) && AllWellFormed(b)
    ensures AllWellFormed(a + b)
  {
    if a == [] {
      assert a + b == b;
    } else {
      assert (a + b)[1..] == a[1..] + b;
      WellFormedAppend(a[1..], b);
    }
  }

  // The first child of a given kind, as a reader looks one up.
  function Find(bs: seq<Box>, kind: uint32): Option<Box> {
    if bs == [] then None
    else if bs[0].kind == kind then Some(bs[0])
    else Find(bs[1..], kind)
  }
}
