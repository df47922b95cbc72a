/**
 The transport stream muxer as the source runs it: one packet buffer filled in place, counters
 bumped in three different ways, coded data cut out of two memory blocks by a moving pointer, and
 everything written through the cache. Its contracts tie it to the functions of TsPackets.
 */
module Mpeg2tsMuxer {
  import opened Bytes
  import opened Bits
  import opened FileCache
  import opened TsPackets
  import TsDemux
  import TsReceiver
  import TsFields
  import Crc

  class AVFormatContext {
    const config: Config
    const crcTable: array<bv32>
    const tsBuf: array<byte>
    var patCounter: nat
    var pmtCounter: nat
    var tsCounter: seq<nat>

    ghost const Repr: set<object> := {this, crcTable, tsBuf}

    ghost predicate Valid()
      reads this, crcTable, tsBuf
    {
      && (crcTable as object) != tsBuf
      && crcTable.Length == 256 && (forall i: byte :: crcTable[i] == Crc.Shifts(Crc.Top(i), 8))
      && tsBuf.Length == TS_PACKET
      && InRange(Counters(patCounter, pmtCounter, tsCounter))
    }

    ghost function State(): (k: Counters)
      reads this, crcTable, tsBuf
      requires Valid()
      ensures InRange(k)
    {
      Counters(patCounter, pmtCounter, tsCounter)
    }

    constructor (config: Config)
      ensures Valid() && State() == ALL_ZERO && this.config == config && fresh(Repr)
    {
      hide Crc.Shifts, Crc.Top;
      this.config := config;
      crcTable := new bv32[256](_ => 0);
      tsBuf := new byte[TS_PACKET](_ => 0);
      patCounter, pmtCounter, tsCounter := 0, 0, [0, 0];
      new;
      Crc.InitCrcTable(crcTable);
    }

    method Memset(v: byte)
      modifies tsBuf
      ensures tsBuf[..] == Fill(tsBuf.Length, v)
    {
      forall i | 0 <= i < tsBuf.Length {
        tsBuf[i] := v;
      }
    }

    // A run of stores through a moving pointer.
    method Store(at: nat, data: seq<byte>) returns (ptr: nat)
      requires at + |data| <= tsBuf.Length
      modifies tsBuf
      ensures ptr == at + |data|
      ensures tsBuf[..] == old(tsBuf[..at]) + data + old(tsBuf[at + |data|..])
    {
      forall i | 0 <= i < |data| {
        tsBuf[at + i] := data[i];
      }
      ptr := at + |data|;
    }
  }

  const PAT_START_DATA: seq<byte> := [0x47, 0x40, 0x00, 0x10, 0x00] + Crc.PAT_SECTION + [0xe8, 0x5f, 0x74, 0xec]

  lemma PatBuffer(cc: nat)
    ensures |PAT_START_DATA| == 21 && PAT_START_DATA[3] == 0x10
    ensures (PAT_START_DATA + Fill(167, 0xff))[3 := Or(0x10, cc) % 256] == PatPacket(cc)
  {
    hide Or;
  }

  method WriteProgramAssociationTable(ctx: AVFormatContext, pb: SimpleCache)
    requires ctx.Valid() && pb.Valid() && ctx.Repr !! pb.Repr
    modifies ctx`patCounter, ctx.tsBuf, pb.Repr
    ensures ctx.Valid() && pb.Valid()
    ensures ctx.State() == old(ctx.State()).(pat := (old(ctx.patCounter) + 1) % 16)
    ensures pb.Logical() == WriteAt(old(pb.Logical()), PatPacket(old(ctx.patCounter)))
  {
    hide WriteAt, Or;
    PatBuffer(ctx.patCounter);
    ctx.Memset(0xff);
    var _ := ctx.Store(0, PAT_START_DATA);
    ctx.tsBuf[3] := Or(ctx.tsBuf[3], ctx.patCounter) % 256;
    assert ctx.tsBuf[..] == (PAT_START_DATA + Fill(167, 0xff))[3 := Or(0x10, ctx.patCounter) % 256];
    hide PatPacket, PAT_START_DATA;
    ctx.patCounter := ctx.patCounter + 1;
    if ctx.patCounter >= 0x10 {
      ctx.patCounter := 0;
    }
    var _ := pb.Write(ctx.tsBuf[..]);
  }

  const PMT_START_DATA: seq<byte> := [0x47, 0x41, 0xe0, 0x10, 0x00, 0x02, 0xb0, 0x00, 0x00, 0x01, 0xc3, 0x00, 0x00,
                                    0xe0, 0x00, 0xf0, 0x00]

  // The fixed part of the program map section, its length and its clock PID filled in.
  method FillMapHead(ctx: AVFormatContext)
    requires ctx.tsBuf.Length == TS_PACKET && (ctx.tsBuf as object) != ctx
    modifies ctx.tsBuf
    ensures ctx.tsBuf[..17] == TableHeader(0x41, 0xe0, ctx.pmtCounter) + PmtHead(ctx.config)
    ensures ctx.tsBuf[17..] == Fill(171, 0xff)
  {
    MapHeadBytes(ctx.config, ctx.pmtCounter);
    hide Or, TableHeader, PmtHead, PMT_START_DATA;
    ctx.Memset(0xff);
    var _ := ctx.Store(0, PMT_START_DATA);
    var buf := ctx.tsBuf;
    ghost var s := PMT_START_DATA + Fill(171, 0xff);
    assert buf[..] == s;
    var sectionLength := 9 + 5 * TrackCnt(ctx.config) + 4;
    buf[3] := Or(buf[3], ctx.pmtCounter) % 256;
    buf[6] := Or(buf[6], sectionLength / 256) % 256;
    buf[7] := sectionLength % 256;
    buf[13] := Or(buf[13], VIDEO_PID / 256 % 32) % 256;
    buf[14] := Or(buf[14], VIDEO_PID % 256) % 256;
    assert buf[..17] == MapHeadOf(ctx.config, ctx.pmtCounter);
    assert buf[17..] == s[17..] == Fill(171, 0xff);
  }

  // The template with its five bytes replaced.
  ghost function MapHeadOf(c: Config, cc: nat): seq<byte>
  {
    var s, n := PMT_START_DATA, 9 + 5 * TrackCnt(c) + 4;
    s[3 := Or(s[3], cc) % 256][6 := Or(s[6], n / 256) % 256][7 := n % 256]
     [13 := Or(s[13], VIDEO_PID / 256 % 32) % 256][14 := Or(s[14], VIDEO_PID % 256) % 256]
  }

  lemma MapHeadBytes(c: Config, cc: nat)
    ensures |PMT_START_DATA| == 17 && MapHeadOf(c, cc) == TableHeader(0x41, 0xe0, cc) + PmtHead(c)
  {
    hide Or;
  }

  // One entry for each track.
  method FillMapEntries(ctx: AVFormatContext)
    requires ctx.tsBuf.Length == TS_PACKET && (ctx.tsBuf as object) != ctx
    requires ctx.tsBuf[17..] == Fill(171, 0xff)
    modifies ctx.tsBuf
    ensures ctx.tsBuf[..17] == old(ctx.tsBuf[..17])
    ensures ctx.tsBuf[17..] == TrackEntries(ctx.config, TrackCnt(ctx.config)) + Fill(171 - 5 * TrackCnt(ctx.config), 0xff)
  {
    var c, ptr, i := ctx.config, 17, 0;
    EntriesStart(c);
    hide *;
    while i < TrackCnt(c)
      invariant 0 <= i <= TrackCnt(c) && ptr == 17 + 5 * i
      invariant ctx.tsBuf[..17] == old(ctx.tsBuf[..17])
      invariant ctx.tsBuf[17..] == TrackEntries(c, i) + Fill(171 - 5 * i, 0xff)
    {
      ghost var before := ctx.tsBuf[..];
      ptr := ctx.Store(ptr, TrackEntry(c, i));
      EntryBuffer(before, ctx.tsBuf[..], TrackEntries(c, i), TrackEntry(c, i));
      EntriesSnoc(c, i);
      i := i + 1;
    }
  }

  lemma EntriesStart(c: Config)
    ensures TrackCnt(c) <= 2 && TrackEntries(c, 0) + Fill(171, 0xff) == Fill(171, 0xff)
    ensures TS_PACKET == 188
  {
  }

  lemma EntriesSnoc(c: Config, i: nat)
    ensures TrackEntries(c, i + 1) == TrackEntries(c, i) + TrackEntry(c, i)
  {
  }

  lemma EntryBuffer(buf: seq<byte>, buf': seq<byte>, es: seq<byte>, e: seq<byte>)
    requires |buf| == 188 && |e| == 5 && |es| <= 100 && buf[17..] == es + Fill(171 - |es|, 0xff)
    requires buf' == buf[..17 + |es|] + e + buf[22 + |es|..]
    ensures buf'[..17] == buf[..17] && buf'[17..] == es + e + Fill(171 - |es| - 5, 0xff)
  {
    assert buf[17..17 + |es|] == buf[17..][..|es|] == es;
    assert buf[22 + |es|..] == buf[17..][5 + |es|..] == Fill(171 - |es| - 5, 0xff);
    assert buf[..17 + |es|] == buf[..17] + buf[17..17 + |es|];
  }

  lemma PmtParts(c: Config, cc: nat)
    ensures PmtCrc(c) == Crc.CrcBytes(Crc.Register(Crc.INITIAL, PmtSection(c)))
    ensures PmtSection(c) == PmtHead(c) + TrackEntries(c, TrackCnt(c))
    ensures PmtPacket(c, cc) == TableHeader(0x41, 0xe0, cc)
                                + (PmtSection(c) + PmtCrc(c) + Fill(TS_PACKET - 21 - 5 * TrackCnt(c), 0xff))
    ensures 1 <= TrackCnt(c) <= 2 && |PmtHead(c)| == 12
  {
    hide TableHeader, PmtHead, TrackEntries, Crc.CrcBytes, Crc.Register;
  }

  // Head, entries, CRC.
  method FillMap(ctx: AVFormatContext)
    requires ctx.Valid()
    modifies ctx.tsBuf
    ensures ctx.tsBuf[..] == PmtPacket(ctx.config, ctx.pmtCounter)
  {
    ghost var c, cc := ctx.config, ctx.pmtCounter;
    PmtParts(c, cc);
    hide Crc.Shifts, Crc.Top, Crc.Register, Crc.CrcBytes, PmtSection, PmtPacket, PmtHead, TableHeader, TrackEntries,
         PmtCrc, Fill, InRange;
    FillMapHead(ctx);
    FillMapEntries(ctx);
    var n := 5 * TrackCnt(ctx.config);
    ghost var before := ctx.tsBuf[..];
    MapBuffer(before, TableHeader(0x41, 0xe0, cc), PmtHead(c), TrackEntries(c, TrackCnt(c)), PmtCrc(c));
    var crc := Crc.Crc32(ctx.crcTable, ctx.tsBuf[5..17 + n]);
    var _ := ctx.Store(17 + n, Crc.CrcBytes(crc));
  }

  method WriteProgramMapTable(ctx: AVFormatContext, pb: SimpleCache)
    requires ctx.Valid() && pb.Valid() && ctx.Repr !! pb.Repr
    modifies ctx`pmtCounter, ctx.tsBuf, pb.Repr
    ensures ctx.Valid() && pb.Valid()
    ensures ctx.State() == old(ctx.State()).(pmt := (old(ctx.pmtCounter) + 1) % 16)
    ensures pb.Logical() == WriteAt(old(pb.Logical()), PmtPacket(ctx.config, old(ctx.pmtCounter)))
  {
    hide WriteAt, Crc.Shifts, Crc.Top, PmtPacket;
    FillMap(ctx);
    ctx.pmtCounter := ctx.pmtCounter + 1;
    if ctx.pmtCounter >= 0x10 {
      ctx.pmtCounter := 0;
    }
    var _ := pb.Write(ctx.tsBuf[..]);
  }

  // The section sits behind the transport header, its CRC behind it.
  lemma MapBuffer(buf: seq<byte>, hd: seq<byte>, ph: seq<byte>, es: seq<byte>, crc: seq<byte>)
    requires |buf| == TS_PACKET && |hd| == 5 && |ph| == 12 && |es| <= 100 && |crc| == 4
    requires buf[..17] == hd + ph && buf[17..] == es + Fill(171 - |es|, 0xff)
    ensures buf[5..17 + |es|] == ph + es
    ensures buf[..17 + |es|] + crc + buf[21 + |es|..] == hd + (ph + es + crc + Fill(167 - |es|, 0xff))
  {
    assert buf == buf[..17] + buf[17..] == hd + ph + es + Fill(171 - |es|, 0xff);
    assert buf[21 + |es|..] == buf[17..][4 + |es|..] == Fill(167 - |es|, 0xff);
  }

  // ---------------------------------------------------------------- coded data by pointer

  // n bytes from a pointer into a block. A negative count, cast to size_t, would run off the block.
  method WriteFrom(pb: SimpleCache, block: seq<byte>, at: int, n: int) returns (ok: bool)
    requires pb.Valid() && (n >= 0 ==> 0 <= at && at + n <= |block|)
    modifies pb.Repr
    ensures pb.Valid() && (ok <==> n >= 0)
    ensures ok ==> pb.Logical() == WriteAt(old(pb.Logical()), block[at..at + n])
  {
    hide WriteAt;
    if n < 0 {
      return false;
    }
    var _ := pb.Write(block[at..at + n]);
    return true;
  }

  // What the code may assume of the two blocks.
  predicate Adjacent(f: Frame) {
    |f.data1| > 0 ==> f.addr1 == f.addr0 + |f.data0|
  }

  // n bytes of the coded data when `left` of them are still to be written.
  function Piece(f: Frame, left: nat, n: nat): (s: seq<byte>)
    requires n <= left <= |Data(f)|
    ensures |s| == n
  {
    Data(f)[|Data(f)| - left..|Data(f)| - left + n]
  }

  lemma PieceInOne(f: Frame, left: nat, n: nat)
    requires n <= left <= |Data(f)|
    ensures |Data(f)| == |f.data0| + |f.data1|
    ensures var from := |Data(f)| - left;
            && (from + n <= |f.data0| ==> Piece(f, left, n) == f.data0[from..from + n])
            && (|f.data0| <= from ==> Piece(f, left, n) == f.data1[from - |f.data0|..from - |f.data0| + n])
            && (from <= |f.data0| <= from + n ==> Piece(f, left, n) == f.data0[from..] + f.data1[..from + n - |f.data0|])
  {
  }

  // The next tsPktLeftSize bytes of the coded data, wherever the boundary between the blocks falls.
  // It fails, by an assertion or a negative length, exactly when that many bytes are not there.
  method WriteAvTsPacket(pb: SimpleCache, f: Frame, tsPktLeftSize: int, streamLeftSize: int, streamPtr: int)
    returns (ok: bool, left: int, ptr: int)
    requires pb.Valid() && Adjacent(f) && 0 < streamLeftSize <= |Data(f)|
    requires streamPtr == f.addr0 + (|Data(f)| - streamLeftSize)
    modifies pb.Repr
    ensures pb.Valid() && (ok <==> 0 <= tsPktLeftSize <= streamLeftSize)
    ensures ok ==> left == streamLeftSize - tsPktLeftSize && ptr == streamPtr + tsPktLeftSize
    ensures ok ==> pb.Logical() == WriteAt(old(pb.Logical()), Piece(f, streamLeftSize, tsPktLeftSize))
  {
    hide WriteAt, Piece, Data;
    if 0 <= tsPktLeftSize <= streamLeftSize {
      PieceInOne(f, streamLeftSize, tsPktLeftSize);
    }
    PieceInOne(f, streamLeftSize, 0);
    left, ptr := streamLeftSize, streamPtr;
    var size0 := |f.data0|;
    if tsPktLeftSize > streamLeftSize {
      return false, left, ptr;
    }
    var curDataBlockNum, curDataBlockLeftSize := 0, 0;
    if streamPtr >= f.addr0 && streamPtr < f.addr0 + size0 {
      curDataBlockNum, curDataBlockLeftSize := 0, f.addr0 + size0 - streamPtr;
    } else {
      curDataBlockNum, curDataBlockLeftSize := 1, f.addr1 + |f.data1| - streamPtr;
    }
    if tsPktLeftSize <= curDataBlockLeftSize {
      var block, at := f.data0, streamPtr - f.addr0;
      if curDataBlockNum == 1 {
        block, at := f.data1, streamPtr - f.addr1;
      }
      ok := WriteFrom(pb, block, at, tsPktLeftSize);
      return ok, left - tsPktLeftSize, ptr + tsPktLeftSize;
    }
    assert curDataBlockNum == 0;
    var first, second := f.data0[streamPtr - f.addr0..], tsPktLeftSize - curDataBlockLeftSize;
    var _ := pb.Write(first);
    var _ := pb.Write(f.data1[..second]);
    WriteConcat(old(pb.Logical()), first, f.data1[..second]);
    return true, left - tsPktLeftSize, f.addr1 + second;
  }

  // ---------------------------------------------------------------- the first packet

  // The header of the first packet, with room for the padding between its two parts.
  method FillFirstHeader(ctx: AVFormatContext, f: Frame, streamSize: nat, paddingSize: nat) returns (ptr: nat)
    requires ctx.Valid() && f.stream <= AUDIO && paddingSize <= 162
    modifies ctx.tsBuf
    ensures ctx.Valid()
    ensures ptr == 26 + paddingSize
    ensures paddingSize == 0 ==>
              ctx.tsBuf[..ptr] == TransportHeader(Pid(ctx.config, f.stream), ctx.tsCounter[f.stream])
                                  + ClockField(0, f.pcr) + PesHeader(f.stream, streamSize, f.pts)
  {
    hide TransportHeader, ClockField, PesHeader, Crc.Shifts, Crc.Top;
    ctx.Memset(0xff);
    ptr := ctx.Store(0, TransportHeader(Pid(ctx.config, f.stream), ctx.tsCounter[f.stream]));
    ptr := ctx.Store(ptr, ClockField(paddingSize, f.pcr));
    ptr := ptr + paddingSize;
    ptr := ctx.Store(ptr, PesHeader(f.stream, streamSize, f.pts));
  }

  // One counter n packets on.
  ghost function Moved(counters: seq<nat>, i: nat, n: nat): (r: seq<nat>)
    requires i < |counters|
    ensures |r| == |counters|
  {
    counters[i := (counters[i] + n) % 16]
  }

  lemma MovedOnce(counters: seq<nat>, i: nat, n: nat)
    requires i < |counters|
    ensures Moved(counters, i, n)[i] == (counters[i] + n) % 16
    ensures Moved(counters, i, n) == counters[i := (counters[i] + n) % 16]
    ensures counters[i] < 16 ==> Moved(counters, i, 0) == counters
  {
  }

  lemma MovedTwice(counters: seq<nat>, i: nat, a: nat, b: nat)
    requires i < |counters|
    ensures Moved(Moved(counters, i, a), i, b) == Moved(counters, i, a + b)
  {
  }

  // The counter of an elementary stream, as the first packet moves it.
  method BumpFirst(ctx: AVFormatContext, i: nat)
    requires ctx.Valid() && i <= AUDIO
    modifies ctx`tsCounter
    ensures ctx.Valid() && ctx.tsCounter == Moved(old(ctx.tsCounter), i, 1)
  {
    ctx.tsCounter := ctx.tsCounter[i := ctx.tsCounter[i] + 1];
    if ctx.tsCounter[i] >= 0x10 {
      ctx.tsCounter := ctx.tsCounter[i := 0];
    }
  }

  // The same, as the following packets move it.
  method BumpNext(ctx: AVFormatContext, i: nat)
    requires ctx.Valid() && i <= AUDIO
    modifies ctx`tsCounter
    ensures ctx.Valid() && ctx.tsCounter == Moved(old(ctx.tsCounter), i, 1)
  {
    var before := ctx.tsCounter[i];
    ctx.tsCounter := ctx.tsCounter[i := if before >= 0x0f then 0 else before + 1];
  }

  // Delimiter and codec data, or the ADTS header.
  method WriteLead(ctx: AVFormatContext, pb: SimpleCache, f: Frame, streamSize: nat) returns (n: nat)
    requires pb.Valid() && TsPackets.Valid(ctx.config, f) && streamSize == StreamSize(ctx.config, f)
    modifies pb.Repr
    ensures pb.Valid() && n == |Lead(ctx.config, f)|
    ensures pb.Logical() == WriteAt(old(pb.Logical()), Lead(ctx.config, f))
  {
    hide WriteAt, TsFields.AdtsBytes;
    ghost var before := pb.Logical();
    assert NAL_AUD + [] == NAL_AUD;
    if f.stream == VIDEO {
      var _ := pb.Write(NAL_AUD);
      n := |NAL_AUD|;
      if f.key {
        var _ := pb.Write(ctx.config.videoCsd);
        WriteConcat(before, NAL_AUD, ctx.config.videoCsd);
        n := n + |ctx.config.videoCsd|;
      }
    } else {
      var _ := pb.Write(AsBytes(TsFields.AdtsBytes(ctx.config.audioCsd, streamSize)));
      n := 7;
    }
  }

  method StreamSizeOf(c: Config, f: Frame) returns (size: nat)
    requires TsPackets.Valid(c, f)
    ensures size == StreamSize(c, f)
  {
    if f.stream == VIDEO {
      if f.key {
        size := |f.data0| + |f.data1| + |NAL_AUD| + |c.videoCsd|;
      } else {
        size := |f.data0| + |f.data1| + |NAL_AUD|;
      }
    } else {
      size := |f.data0| + |f.data1| + 7;
    }
  }

  lemma SupportedIs(c: Config, f: Frame)
    requires TsPackets.Valid(c, f)
    ensures Adjacent(f) && |Data(f)| == |f.data0| + |f.data1| > 0 && f.stream <= AUDIO && f.stream < 2
    ensures StreamSize(c, f) == |Lead(c, f)| + |Data(f)| && |Lead(c, f)| >= 6
    ensures Supported(c, f) <==> StreamSize(c, f) >= 162 && |Lead(c, f)| <= 162
  {
    hide TsFields.AdtsBytes;
  }

  // Everything of the first packet but the coded data.
  function FirstPrefix(c: Config, f: Frame, cc: nat): seq<byte>
    requires TsPackets.Valid(c, f)
  {
    FirstHeader(c, f, cc) + Lead(c, f)
  }

  lemma FirstPacketIs(c: Config, f: Frame, cc: nat)
    requires TsPackets.Valid(c, f) && Supported(c, f)
    ensures |Lead(c, f)| <= 162 && 162 - |Lead(c, f)| <= |Data(f)|
    ensures FirstPacket(c, f, cc) == FirstPrefix(c, f, cc) + Piece(f, |Data(f)|, 162 - |Lead(c, f)|)
  {
    hide FirstHeader, Lead, Data;
  }

  lemma FirstPrefixIs(c: Config, f: Frame, cc: nat)
    requires TsPackets.Valid(c, f)
    ensures FirstPrefix(c, f, cc) == FirstHeader(c, f, cc) + Lead(c, f)
    ensures FirstHeader(c, f, cc) == TransportHeader(Pid(c, f.stream), cc) + ClockField(0, f.pcr)
                                     + PesHeader(f.stream, StreamSize(c, f), f.pts)
  {
    hide TransportHeader, ClockField, PesHeader, Lead;
  }

  lemma Apart(ctx: AVFormatContext, pb: SimpleCache)
    requires ctx.Valid() && ctx.Repr !! pb.Repr
    ensures (ctx as object) !in pb.Repr && (ctx.tsBuf as object) !in pb.Repr && (ctx.crcTable as object) !in pb.Repr
    ensures ctx.tsBuf.Length == TS_PACKET && |ctx.tsCounter| == 2 && (ctx.tsBuf as object) != ctx
    ensures (ctx.crcTable as object) != ctx.tsBuf
  {
  }

  // Header, delimiter and codec data: everything of the first packet but the coded data.
  method WriteFirstHeader(ctx: AVFormatContext, pb: SimpleCache, f: Frame) returns (tsPktLeftSize: int)
    requires ctx.Valid() && pb.Valid() && ctx.Repr !! pb.Repr && TsPackets.Valid(ctx.config, f)
    modifies ctx`tsCounter, ctx.tsBuf, pb.Repr
    ensures ctx.Valid() && pb.Valid() && f.stream < |old(ctx.tsCounter)|
    ensures ctx.tsCounter == Moved(old(ctx.tsCounter), f.stream, 1)
    ensures tsPktLeftSize == (if StreamSize(ctx.config, f) < 162 then 0 else 162) - |Lead(ctx.config, f)|
    ensures StreamSize(ctx.config, f) >= 162 ==>
              pb.Logical() == WriteAt(old(pb.Logical()), FirstPrefix(ctx.config, f, old(ctx.tsCounter[f.stream])))
  {
    assert TS_PACKET == 188 && AUDIO == 1;
    hide *;
    Apart(ctx, pb);
    SupportedIs(ctx.config, f);
    FirstPrefixIs(ctx.config, f, ctx.tsCounter[f.stream]);
    var streamSize := StreamSizeOf(ctx.config, f);
    var paddingSize := if streamSize < TS_PACKET - 18 - 8 then TS_PACKET - 18 - 8 else 0;
    var p := FillFirstHeader(ctx, f, streamSize, paddingSize);
    BumpFirst(ctx, f.stream);
    ghost var g, header := pb.Logical(), ctx.tsBuf[..p];
    var _ := pb.Write(ctx.tsBuf[..p]);
    var n := WriteLead(ctx, pb, f, streamSize);
    WriteConcat(g, header, Lead(ctx.config, f));
    tsPktLeftSize := TS_PACKET - p - n;
  }

  // Everything up to the loop over the following packets. It succeeds exactly on supported frames:
  // the padding computed for small frames leaves no room at all in the packet.
  method WriteFirst(ctx: AVFormatContext, pb: SimpleCache, f: Frame) returns (ok: bool, left: int, ptr: int)
    requires ctx.Valid() && pb.Valid() && ctx.Repr !! pb.Repr && TsPackets.Valid(ctx.config, f)
    modifies ctx`tsCounter, ctx.tsBuf, pb.Repr
    ensures ctx.Valid() && pb.Valid() && f.stream < |old(ctx.tsCounter)| && |Lead(ctx.config, f)| >= 6
    ensures ok <==> Supported(ctx.config, f)
    ensures ctx.tsCounter == Moved(old(ctx.tsCounter), f.stream, 1)
    ensures ok ==> left == |Data(f)| - (162 - |Lead(ctx.config, f)|) && ptr == f.addr0 + (162 - |Lead(ctx.config, f)|)
    ensures ok ==> pb.Logical() == WriteAt(old(pb.Logical()), FirstPacket(ctx.config, f, old(ctx.tsCounter[f.stream])))
  {
    hide *;
    Apart(ctx, pb);
    SupportedIs(ctx.config, f);
    ghost var c, cc, g := ctx.config, ctx.tsCounter[f.stream], pb.Logical();
    var tsPktLeftSize := WriteFirstHeader(ctx, pb, f);
    ok, left, ptr := WriteAvTsPacket(pb, f, tsPktLeftSize, |f.data0| + |f.data1|, f.addr0);
    if ok {
      FirstPacketIs(c, f, cc);
      WriteConcat(g, FirstPrefix(c, f, cc), Piece(f, |Data(f)|, tsPktLeftSize));
    }
  }

  // The header of a following packet; the last one is stuffed.
  method FillNextHeader(ctx: AVFormatContext, pid: nat, cc: nat, left: nat) returns (n: nat)
    requires ctx.Valid() && 0 < left
    modifies ctx.tsBuf
    ensures ctx.Valid()
    ensures n == if left < 184 then 188 - left else 4
    ensures ctx.tsBuf[..n] == if left < 184 then LastHeader(pid, cc, 184 - left) else MiddleHeader(pid, cc)
  {
    hide Or, AsBytes, Crc.Shifts, Crc.Top, InRange, Fill, LastHeader;
    var lastAccessUnit := left < TS_PACKET - 4;
    ctx.Memset(0xff);
    var head := AsBytes([0x47, pid / 256, pid, Or(if lastAccessUnit then 0x30 else 0x10, cc)]);
    n := ctx.Store(0, head);
    ghost var s1 := ctx.tsBuf[..];
    if lastAccessUnit {
      var paddingSize := (TS_PACKET - 4) - left;
      var _ := ctx.Store(4, [(paddingSize - 1) % 256]);
      ghost var s2 := ctx.tsBuf[..];
      if paddingSize >= 2 {
        var _ := ctx.Store(5, [0]);
      }
      n := paddingSize + 4;
      Stuffed(s1, s2, ctx.tsBuf[..], head, paddingSize);
      LastParts(pid, cc, paddingSize);
    }
  }

  lemma Stuffed(s1: seq<byte>, s2: seq<byte>, s3: seq<byte>, head: seq<byte>, padding: nat)
    requires |s1| == |s2| == |s3| == TS_PACKET && |head| == 4 && 1 <= padding <= 184
    requires s1 == Fill(TS_PACKET, 0xff)[..0] + head + Fill(TS_PACKET, 0xff)[4..]
    requires s2 == s1[..4] + [(padding - 1) % 256] + s1[5..]
    requires s3 == if padding >= 2 then s2[..5] + [0] + s2[6..] else s2
    ensures s3[..padding + 4] == head + [(padding - 1) % 256] + (if padding >= 2 then [0] + Fill(padding - 2, 0xff) else [])
  {
    var x: byte := (padding - 1) % 256;
    assert s1 == head + Fill(184, 0xff);
    assert s2 == head + [x] + Fill(183, 0xff);
    if padding >= 2 {
      assert s3 == head + [x] + [0] + Fill(182, 0xff);
      assert Fill(182, 0xff)[..padding - 2] == Fill(padding - 2, 0xff);
    }
  }

  lemma LastParts(pid: nat, cc: nat, padding: nat)
    requires 1 <= padding
    ensures LastHeader(pid, cc, padding)
         == AsBytes([0x47, pid / 256, pid, Or(0x30, cc)]) + [(padding - 1) % 256]
            + (if padding >= 2 then [0] + Fill(padding - 2, 0xff) else [])
  {
    hide Or, Fill;
    assert AsBytes([0x47, pid / 256, pid, Or(0x30, cc), padding - 1])
        == AsBytes([0x47, pid / 256, pid, Or(0x30, cc)]) + [(padding - 1) % 256];
  }

  // The packets still to come when `left` bytes are still to be written.
  function Coming(c: Config, f: Frame, left: nat, cc: nat): seq<TsPacket>
    requires left <= |Data(f)|
  {
    Rest(Pid(c, f.stream), Data(f)[|Data(f)| - left..], cc)
  }

  function NextHeader(c: Config, f: Frame, left: nat, cc: nat): (s: seq<byte>)
    requires 0 < left
    ensures |s| == if left < 184 then 188 - left else 4
  {
    if left < 184 then LastHeader(Pid(c, f.stream), cc, 184 - left) else MiddleHeader(Pid(c, f.stream), cc)
  }

  function NextPacket(c: Config, f: Frame, left: nat, cc: nat): TsPacket
    requires 0 < left <= |Data(f)|
  {
    NextHeader(c, f, left, cc) + Piece(f, left, if left < 184 then left else 184)
  }

  lemma ComingOpens(c: Config, f: Frame, left: nat, cc: nat)
    requires 0 < left <= |Data(f)|
    ensures Coming(c, f, left, cc)
         == [NextPacket(c, f, left, cc)] + Coming(c, f, left - (if left < 184 then left else 184), (cc + 1) % 16)
  {
    var s, n := Data(f)[|Data(f)| - left..], if left < 184 then left else 184;
    assert Piece(f, left, n) == s[..n] && Data(f)[|Data(f)| - (left - n)..] == s[n..];
    assert s[..|s|] == s && s[|s|..] == [];
    hide MiddleHeader, LastHeader, Piece, Data;
  }

  lemma ComingEnds(c: Config, f: Frame, cc: nat)
    ensures Coming(c, f, 0, cc) == []
  {
  }

  // The header of one following packet.
  method WriteNextHeader(ctx: AVFormatContext, pb: SimpleCache, f: Frame, left: nat) returns (n: nat)
    requires ctx.Valid() && pb.Valid() && ctx.Repr !! pb.Repr && f.stream <= AUDIO && 0 < left
    modifies ctx`tsCounter, ctx.tsBuf, pb.Repr
    ensures ctx.Valid() && pb.Valid() && f.stream < |old(ctx.tsCounter)|
    ensures ctx.tsCounter == Moved(old(ctx.tsCounter), f.stream, 1)
    ensures n == if left < 184 then 188 - left else 4
    ensures pb.Logical() == WriteAt(old(pb.Logical()), NextHeader(ctx.config, f, left, old(ctx.tsCounter[f.stream])))
  {
    assert TS_PACKET == 188 && AUDIO == 1;
    hide *;
    Apart(ctx, pb);
    NextHeaderIs(ctx.config, f, left, ctx.tsCounter[f.stream]);
    n := FillNextHeader(ctx, Pid(ctx.config, f.stream), ctx.tsCounter[f.stream], left);
    BumpNext(ctx, f.stream);
    var _ := pb.Write(ctx.tsBuf[..n]);
  }

  // One following packet.
  method WriteNext(ctx: AVFormatContext, pb: SimpleCache, f: Frame, left: int, ptr: int) returns (left': int, ptr': int)
    requires ctx.Valid() && pb.Valid() && ctx.Repr !! pb.Repr && TsPackets.Valid(ctx.config, f)
    requires 0 < left <= |Data(f)| && ptr == f.addr0 + (|Data(f)| - left)
    modifies ctx`tsCounter, ctx.tsBuf, pb.Repr
    ensures ctx.Valid() && pb.Valid() && f.stream < |old(ctx.tsCounter)|
    ensures ctx.tsCounter == Moved(old(ctx.tsCounter), f.stream, 1)
    ensures left' == left - (if left < 184 then left else 184) && ptr' == ptr + (left - left')
    ensures pb.Logical() == WriteAt(old(pb.Logical()), NextPacket(ctx.config, f, left, old(ctx.tsCounter[f.stream])))
  {
    assert TS_PACKET == 188 && AUDIO == 1;
    hide *;
    Apart(ctx, pb);
    SupportedIs(ctx.config, f);
    ghost var cc, g := ctx.tsCounter[f.stream], pb.Logical();
    NextPacketIs(ctx.config, f, left, cc);
    var n := WriteNextHeader(ctx, pb, f, left);
    var ok;
    ok, left', ptr' := WriteAvTsPacket(pb, f, TS_PACKET - n, left, ptr);
    WriteConcat(g, NextHeader(ctx.config, f, left, cc), Piece(f, left, TS_PACKET - n));
  }

  lemma NextHeaderIs(c: Config, f: Frame, left: nat, cc: nat)
    requires 0 < left
    ensures var pid := Pid(c, f.stream);
            NextHeader(c, f, left, cc) == if left < 184 then LastHeader(pid, cc, 184 - left) else MiddleHeader(pid, cc)
  {
  }

  lemma NextPacketIs(c: Config, f: Frame, left: nat, cc: nat)
    requires 0 < left <= |Data(f)|
    ensures NextPacket(c, f, left, cc) == NextHeader(c, f, left, cc) + Piece(f, left, if left < 184 then left else 184)
  {
  }

  // ---------------------------------------------------------------- access units and packets

  lemma FlattenSnoc(ps: seq<TsPacket>, p: TsPacket)
    ensures Flatten(ps + [p]) == Flatten(ps) + p
  {
    FlattenAppend(ps, [p]);
    assert Flatten([p]) == p + Flatten([p][1..]);
  }

  lemma UnitOpens(c: Config, f: Frame, cc: nat)
    requires TsPackets.Valid(c, f) && Supported(c, f)
    ensures |Lead(c, f)| <= 162 && 162 - |Lead(c, f)| <= |Data(f)|
    ensures AccessUnit(c, f, cc)
         == [FirstPacket(c, f, cc)] + Coming(c, f, |Data(f)| - (162 - |Lead(c, f)|), (cc + 1) % 16)
    ensures Flatten([FirstPacket(c, f, cc)]) == FirstPacket(c, f, cc)
  {
    hide FirstPacket, Rest, Lead, Data;
    FlattenSnoc([], FirstPacket(c, f, cc));
  }

  // In the loop: `done` is written, the rest is still coming, the counter has followed.
  ghost predicate Underway(c: Config, f: Frame, before: seq<nat>, left0: nat, done: seq<TsPacket>, left: nat, now: seq<nat>)
    requires f.stream < |before|
  {
    && left0 <= |Data(f)| && left <= |Data(f)|
    && now == Moved(before, f.stream, |done|)
    && Coming(c, f, left0, before[f.stream]) == done + Coming(c, f, left, now[f.stream])
  }

  lemma UnderwayStart(c: Config, f: Frame, before: seq<nat>, left0: nat, g: File)
    requires f.stream < |before| && before[f.stream] < 16 && left0 <= |Data(f)|
    ensures Underway(c, f, before, left0, [], left0, before)
    ensures g == WriteAt(g, Flatten<byte>([]))
  {
    var total := Coming(c, f, left0, before[f.stream]);
    assert [] + total == total;
    EmptyWrite(g);
  }

  lemma UnderwayStep(c: Config, f: Frame, before: seq<nat>, left0: nat, done: seq<TsPacket>, left: nat, now: seq<nat>, g: File)
    requires f.stream < |before| && |before| == |now| && 0 < left <= |Data(f)| && Underway(c, f, before, left0, done, left, now)
    ensures var p, left' := NextPacket(c, f, left, now[f.stream]), left - (if left < 184 then left else 184);
            && Underway(c, f, before, left0, done + [p], left', Moved(now, f.stream, 1))
            && WriteAt(WriteAt(g, Flatten(done)), p) == WriteAt(g, Flatten(done + [p]))
  {
    var p, left' := NextPacket(c, f, left, now[f.stream]), left - (if left < 184 then left else 184);
    ComingOpens(c, f, left, now[f.stream]);
    MovedOnce(now, f.stream, 1);
    MovedTwice(before, f.stream, |done|, 1);
    hide Coming, NextPacket, Moved, WriteAt, Data;
    var rest := Coming(c, f, left', Moved(now, f.stream, 1)[f.stream]);
    assert done + ([p] + rest) == (done + [p]) + rest;
    FlattenSnoc(done, p);
    WriteConcat(g, Flatten(done), p);
  }

  lemma UnderwayEnd(c: Config, f: Frame, before: seq<nat>, left0: nat, done: seq<TsPacket>, now: seq<nat>)
    requires f.stream < |before| && |before| == |now| && left0 <= |Data(f)| && Underway(c, f, before, left0, done, 0, now)
    ensures done == Coming(c, f, left0, before[f.stream]) && now == Moved(before, f.stream, |done|)
  {
    ComingEnds(c, f, now[f.stream]);
    hide Coming, Moved, Data;
  }

  // The loop over the following packets; left is its measure.
  method WriteRest(ctx: AVFormatContext, pb: SimpleCache, f: Frame, left0: int, ptr0: int)
    requires ctx.Valid() && pb.Valid() && ctx.Repr !! pb.Repr && TsPackets.Valid(ctx.config, f)
    requires 0 <= left0 <= |Data(f)| && ptr0 == f.addr0 + (|Data(f)| - left0)
    modifies ctx`tsCounter, ctx.tsBuf, pb.Repr
    ensures ctx.Valid() && pb.Valid() && f.stream < |old(ctx.tsCounter)|
    ensures var rest := Coming(ctx.config, f, left0, old(ctx.tsCounter[f.stream]));
            && pb.Logical() == WriteAt(old(pb.Logical()), Flatten(rest))
            && ctx.tsCounter == Moved(old(ctx.tsCounter), f.stream, |rest|)
  {
    hide *;
    Apart(ctx, pb);
    SupportedIs(ctx.config, f);
    SmallCounter(ctx, f.stream);
    ghost var g, c, before := pb.Logical(), ctx.config, ctx.tsCounter;
    ghost var done: seq<TsPacket> := [];
    var left, ptr := left0, ptr0;
    UnderwayStart(c, f, before, left0, g);
    while left != 0
      invariant 0 <= left <= |Data(f)| && ptr == f.addr0 + (|Data(f)| - left)
      invariant ctx.Valid() && pb.Valid() && |ctx.tsCounter| == |before|
      invariant Underway(c, f, before, left0, done, left, ctx.tsCounter)
      invariant pb.Logical() == WriteAt(g, Flatten(done))
    {
      ghost var p := NextPacket(c, f, left, ctx.tsCounter[f.stream]);
      UnderwayStep(c, f, before, left0, done, left, ctx.tsCounter, g);
      left, ptr := WriteNext(ctx, pb, f, left, ptr);
      done := done + [p];
    }
    UnderwayEnd(c, f, before, left0, done, ctx.tsCounter);
  }

  lemma NoBytes()
    ensures Flatten<byte>([]) == []
  {
  }

  lemma SmallCounter(ctx: AVFormatContext, i: nat)
    requires ctx.Valid() && i <= AUDIO
    ensures i < |ctx.tsCounter| && ctx.tsCounter[i] < 16
  {
  }

  // Main result for one frame: the call succeeds exactly when the frame is supported, and then
  // writes the access unit's packets and moves the counter by their number.
  method WriteAccessUnit(ctx: AVFormatContext, pb: SimpleCache, f: Frame) returns (ok: bool)
    requires ctx.Valid() && pb.Valid() && ctx.Repr !! pb.Repr && TsPackets.Valid(ctx.config, f)
    modifies ctx`tsCounter, ctx.tsBuf, pb.Repr
    ensures ctx.Valid() && pb.Valid() && f.stream < |old(ctx.tsCounter)|
    ensures ok <==> Supported(ctx.config, f)
    ensures ok ==> var unit := AccessUnit(ctx.config, f, old(ctx.tsCounter[f.stream]));
                   && pb.Logical() == WriteAt(old(pb.Logical()), Flatten(unit))
                   && ctx.tsCounter == Moved(old(ctx.tsCounter), f.stream, |unit|)
  {
    assert AUDIO == 1;
    hide *;
    Apart(ctx, pb);
    SupportedIs(ctx.config, f);
    ghost var c, cc, g, before := ctx.config, ctx.tsCounter[f.stream], pb.Logical(), ctx.tsCounter;
    var left, ptr;
    ok, left, ptr := WriteFirst(ctx, pb, f);
    if ok {
      UnitOpens(c, f, cc);
      MovedOnce(before, f.stream, 1);
      ghost var first, rest := FirstPacket(c, f, cc), Coming(c, f, left, ctx.tsCounter[f.stream]);
      WriteRest(ctx, pb, f, left, ptr);
      UnitJoined(first, rest, g);
      MovedTwice(before, f.stream, 1, |rest|);
    }
  }

  lemma UnitJoined(first: TsPacket, rest: seq<TsPacket>, g: File)
    ensures WriteAt(WriteAt(g, first), Flatten(rest)) == WriteAt(g, Flatten([first] + rest))
    ensures |[first] + rest| == 1 + |rest|
  {
    hide *;
    NoBytes();
    FlattenSnoc([], first);
    assert [] + [first] == [first] && [] + first == first;
    FlattenAppend([first], rest);
    WriteConcat(g, first, Flatten(rest));
  }

  lemma StateIs(ctx: AVFormatContext)
    requires ctx.Valid()
    ensures ctx.State() == Counters(ctx.patCounter, ctx.pmtCounter, ctx.tsCounter) && InRange(ctx.State())
  {
  }

  lemma FlattenTables(pat: TsPacket, pmt: TsPacket, au: seq<TsPacket>)
    ensures Flatten([pat] + [pmt] + au) == pat + pmt + Flatten(au)
  {
    hide *;
    FlattenAppend([pat] + [pmt], au);
    FlattenSnoc([pat], pmt);
    FlattenSnoc([], pat);
    NoBytes();
    assert [] + [pat] == [pat] && [] + pat == pat;
  }

  lemma AdvanceIs(c: Config, f: Frame, k: Counters)
    requires InRange(k) && TsPackets.Valid(c, f) && Supported(c, f)
    ensures |k.av| == 2 && f.stream < 2
    ensures Advance(c, f, k) ==
            var av := Moved(k.av, f.stream, |AccessUnit(c, f, k.av[f.stream])|);
            if f.stream == VIDEO then Counters((k.pat + 1) % 16, (k.pmt + 1) % 16, av) else Counters(k.pat, k.pmt, av)
  {
    hide AccessUnit, Supported;
  }

  function TableBytes(c: Config, k: Counters): seq<byte> {
    PatPacket(k.pat) + PmtPacket(c, k.pmt)
  }

  // The bytes of a frame's packets and the counters behind them.
  lemma FrameIs(c: Config, f: Frame, k: Counters)
    requires InRange(k) && TsPackets.Valid(c, f) && Supported(c, f)
    ensures |k.av| == 2 && f.stream < 2
    ensures var au := AccessUnit(c, f, k.av[f.stream]);
            && Flatten(FramePackets(c, f, k)) == (if f.stream == VIDEO then TableBytes(c, k) + Flatten(au) else Flatten(au))
            && Advance(c, f, k) == (if f.stream == VIDEO then TablesMoved(k) else k).(av := Moved(k.av, f.stream, |au|))
  {
    hide FramePackets, AccessUnit, Advance, PatPacket, PmtPacket, Supported, TsPackets.Valid, Moved, Flatten, InRange;
    FramePacketsAre(c, f, k);
    AdvanceIs(c, f, k);
    FlattenTables(PatPacket(k.pat), PmtPacket(c, k.pmt), AccessUnit(c, f, k.av[f.stream]));
  }

  function TablesMoved(k: Counters): Counters {
    Counters((k.pat + 1) % 16, (k.pmt + 1) % 16, k.av)
  }

  method WriteTables(ctx: AVFormatContext, pb: SimpleCache)
    requires ctx.Valid() && pb.Valid() && ctx.Repr !! pb.Repr
    modifies ctx`patCounter, ctx`pmtCounter, ctx.tsBuf, pb.Repr
    ensures ctx.Valid() && pb.Valid() && ctx.State() == TablesMoved(old(ctx.State()))
    ensures pb.Logical() == WriteAt(old(pb.Logical()), TableBytes(ctx.config, old(ctx.State())))
  {
    ghost var c, k, g := ctx.config, ctx.State(), pb.Logical();
    assert TableBytes(c, k) == PatPacket(k.pat) + PmtPacket(c, k.pmt);
    assert TablesMoved(k) == Counters((k.pat + 1) % 16, (k.pmt + 1) % 16, k.av);
    hide *;
    Apart(ctx, pb);
    StateIs(ctx);
    WriteProgramAssociationTable(ctx, pb);
    StateIs(ctx);
    WriteProgramMapTable(ctx, pb);
    WriteConcat(g, PatPacket(k.pat), PmtPacket(c, k.pmt));
  }

  // A video frame: tables, then the access unit.
  method WriteVideo(ctx: AVFormatContext, pb: SimpleCache, f: Frame) returns (ok: bool)
    requires ctx.Valid() && pb.Valid() && ctx.Repr !! pb.Repr && TsPackets.Valid(ctx.config, f) && f.stream == VIDEO
    modifies ctx, ctx.tsBuf, pb.Repr
    ensures ctx.Valid() && pb.Valid() && (ok <==> Supported(ctx.config, f))
    ensures ok ==> var k := old(ctx.State());
                   && pb.Logical() == WriteAt(old(pb.Logical()), Flatten(FramePackets(ctx.config, f, k)))
                   && ctx.State() == Advance(ctx.config, f, k)
  {
    assert VIDEO == 0;
    hide *;
    Apart(ctx, pb);
    StateIs(ctx);
    ghost var c, k, g := ctx.config, ctx.State(), pb.Logical();
    WriteTables(ctx, pb);
    StateIs(ctx);
    TablesKeep(k);
    ok := WriteAccessUnit(ctx, pb, f);
    StateIs(ctx);
    if ok {
      FrameIs(c, f, k);
      WriteConcat(g, TableBytes(c, k), Flatten(AccessUnit(c, f, k.av[f.stream])));
    }
  }

  lemma TablesKeep(k: Counters)
    ensures TablesMoved(k).av == k.av
  {
  }

  // The writer's entry: tables and access unit for video, an access unit for audio; any other
  // stream is reported and nothing is written.
  method WritePacket(ctx: AVFormatContext, pb: SimpleCache, f: Frame) returns (ok: bool)
    requires ctx.Valid() && pb.Valid() && ctx.Repr !! pb.Repr && (f.stream <= AUDIO ==> TsPackets.Valid(ctx.config, f))
    modifies ctx, ctx.tsBuf, pb.Repr
    ensures ctx.Valid() && pb.Valid()
    ensures f.stream > AUDIO ==> ok && ctx.State() == old(ctx.State()) && pb.Logical() == old(pb.Logical())
    ensures f.stream <= AUDIO ==> (ok <==> Supported(ctx.config, f))
    ensures f.stream <= AUDIO && ok ==>
              && pb.Logical() == WriteAt(old(pb.Logical()), Flatten(FramePackets(ctx.config, f, old(ctx.State()))))
              && ctx.State() == Advance(ctx.config, f, old(ctx.State()))
  {
    assert AUDIO == 1 && VIDEO == 0;
    hide *;
    StateIs(ctx);
    ghost var k := ctx.State();
    if f.stream == VIDEO {
      ok := WriteVideo(ctx, pb, f);
    } else if f.stream == AUDIO {
      ok := WriteAccessUnit(ctx, pb, f);
      StateIs(ctx);
      if ok {
        FrameIs(ctx.config, f, k);
      }
    } else {
      ok := true;
    }
  }

  // Flush, go to the end, report the length.
  method WriteTrailer(pb: SimpleCache) returns (filesize: int)
    requires pb.Valid()
    modifies pb.Repr
    ensures pb.Valid() && pb.stream.file.bytes == old(pb.Logical()).bytes && filesize == |pb.stream.file.bytes|
  {
    hide WriteAt;
    var _ := pb.Flush();
    var _ := pb.Seek(0, End);
    filesize := pb.Tell();
  }

  // ---------------------------------------------------------------- a whole run

  lemma RunSnoc(c: Config, fs: seq<Frame>, n: nat)
    requires AllSupported(c, fs) && n < |fs|
    ensures AllSupported(c, fs[..n]) && AllSupported(c, fs[..n + 1]) && TsPackets.Valid(c, fs[n]) && Supported(c, fs[n])
    ensures RunCounters(c, fs[..n + 1]) == Advance(c, fs[n], RunCounters(c, fs[..n]))
    ensures Flatten(RunPackets(c, fs[..n + 1]))
         == Flatten(RunPackets(c, fs[..n])) + Flatten(FramePackets(c, fs[n], RunCounters(c, fs[..n])))
    ensures fs[n].stream <= AUDIO
  {
    hide FramePackets, Advance, Supported;
    assert fs[..n + 1][..n] == fs[..n];
    FlattenAppend(RunPackets(c, fs[..n]), FramePackets(c, fs[n], RunCounters(c, fs[..n])));
  }

  lemma RunStart(c: Config)
    ensures AllSupported(c, []) && RunCounters(c, []) == ALL_ZERO && Flatten(RunPackets(c, [])) == []
  {
  }

  lemma AppendAtEnd(file: seq<byte>, b: seq<byte>)
    ensures WriteAt(File(file, |file|), b) == File(file + b, |file + b|)
  {
    WriteAtEnd(File(file, |file|), b);
  }

  // Every frame of a run, one call each.
  method WriteFrames(ctx: AVFormatContext, pb: SimpleCache, fs: seq<Frame>)
    requires ctx.Valid() && pb.Valid() && ctx.Repr !! pb.Repr && ctx.State() == ALL_ZERO
    requires pb.Logical() == File([], 0) && AllSupported(ctx.config, fs)
    modifies ctx, ctx.tsBuf, pb.Repr
    ensures ctx.Valid() && pb.Valid()
    ensures var bytes := Flatten(RunPackets(ctx.config, fs)); pb.Logical() == File(bytes, |bytes|)
  {
    hide *;
    ghost var c := ctx.config;
    RunStart(c);
    assert fs[..0] == [];
    var n := 0;
    while n < |fs|
      invariant 0 <= n <= |fs| && ctx.Valid() && pb.Valid() && AllSupported(c, fs[..n])
      invariant ctx.State() == RunCounters(c, fs[..n])
      invariant var bytes := Flatten(RunPackets(c, fs[..n])); pb.Logical() == File(bytes, |bytes|)
    {
      RunSnoc(c, fs, n);
      AppendAtEnd(Flatten(RunPackets(c, fs[..n])), Flatten(FramePackets(c, fs[n], RunCounters(c, fs[..n]))));
      var _ := WritePacket(ctx, pb, fs[n]);
      n := n + 1;
    }
    assert fs[..n] == fs;
  }

  // Main result for the muxer: a whole run through a cache of any size, read back by the checker's
  // loop, gives every frame's bytes in order, wherever its block boundary was; and a receiver finds
  // the tables in front of each video unit and every frame's time stamp, clock and length on its PID.
  method MuxRun(config: Config, fs: seq<Frame>, cacheSize: nat) returns (stream: Stream)
    requires AllSupported(config, fs) && cacheSize > 0
    ensures stream.file.bytes == Flatten(RunPackets(config, fs))
    ensures forall buf: seq<byte> :: |buf| == TsDemux.BUF_SIZE && TsDemux.AllReadable(config, fs) ==>
              TsDemux.Demux(stream.file.bytes, buf, VIDEO_PID, AUDIO_PID)
              == TsDemux.Output(TsDemux.FileOf(config, fs, VIDEO), TsDemux.FileOf(config, fs, AUDIO))
    ensures TsReceiver.TablesAhead(TsReceiver.Packets(stream.file.bytes), config)
    ensures forall k: nat :: k < 2 ==>
              && TsReceiver.TrackIs(TsDemux.FileOf(config, fs, k), config, TsReceiver.OfStream(fs, k))
              && TsReceiver.AllTell(TsReceiver.Starts(TsReceiver.Packets(stream.file.bytes), 0x1e1 + k), config,
                                    TsReceiver.OfStream(fs, k))
  {
    hide TsReceiver.TablesAhead, TsReceiver.TrackIs;
    hide TsReceiver.AllTell, TsReceiver.Starts, TsReceiver.Packets, TsReceiver.OfStream;
    hide AllSupported, ALL_ZERO, RunPackets, WriteAt, TsDemux.Demux, TsDemux.FileOf, TsDemux.AllReadable, Crc.Shifts, Crc.Top;
    stream := new Stream();
    var pb := new SimpleCache(stream, cacheSize);
    var ctx := new AVFormatContext(config);
    WriteFrames(ctx, pb, fs);
    var _ := WriteTrailer(pb);
    forall buf: seq<byte> | |buf| == TsDemux.BUF_SIZE && TsDemux.AllReadable(config, fs)
      ensures TsDemux.Demux(stream.file.bytes, buf, VIDEO_PID, AUDIO_PID)
           == TsDemux.Output(TsDemux.FileOf(config, fs, VIDEO), TsDemux.FileOf(config, fs, AUDIO))
    {
      TsDemux.RunRoundTrip(config, fs, buf);
    }
    TsReceiver.PacketsBack(RunPackets(config, fs));
    TsReceiver.TablesInRun(config, fs);
    forall k: nat | k < 2
      ensures TsReceiver.TrackIs(TsDemux.FileOf(config, fs, k), config, TsReceiver.OfStream(fs, k))
      ensures TsReceiver.AllTell(TsReceiver.Starts(TsReceiver.Packets(stream.file.bytes), 0x1e1 + k), config,
                                 TsReceiver.OfStream(fs, k))
    {
      TsReceiver.TrackOfRun(config, fs, k);
      TsReceiver.RunStarts(config, fs, k);
    }
  }
}
