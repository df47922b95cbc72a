/**
 What the transport stream muxer emits, packet by packet, as a function of the frames written:
 every packet is 188 bytes behind a sync byte, and every PID counts its packets modulo 16.
 */
module TsPackets {
  import opened Bytes
  import opened Bits
  import opened TsFields
  import Crc

  const TS_PACKET: nat := 188

  type TsPacket = p: seq<byte> | |p| == TS_PACKET witness Fill(TS_PACKET, 0)

  const VIDEO: nat := 0
  const AUDIO: nat := 1
  const NAL_AUD: seq<byte> := [0, 0, 0, 1, 0x09, 0xf0]

  const PAT_PID: nat := 0
  const PMT_PID: nat := 0x1e0
  const VIDEO_PID: nat := 0x1e1
  const AUDIO_PID: nat := 0x1e2

  // Whether there is an audio track, and the codec data of both tracks.
  datatype Config = Config(audio: bool, videoCsd: seq<byte>, audioCsd: seq<byte>)

  // Two blocks of coded data with their addresses, the time stamp in milliseconds, and the 27 MHz
  // clock the code computes from it.
  datatype Frame = Frame(
    stream: nat, key: bool, data0: seq<byte>, data1: seq<byte>, addr0: int, addr1: int, pts: int, pcr: nat)

  function Data(f: Frame): seq<byte> {
    f.data0 + f.data1
  }

  function TrackCnt(c: Config): nat {
    if c.audio then 2 else 1
  }

  function Pid(c: Config, stream: nat): nat {
    if stream == VIDEO then VIDEO_PID else if c.audio then AUDIO_PID else 0
  }

  // What the code needs of its callers: the codec data of the audio track in place, some coded
  // data, and the second block right behind the first one in memory.
  predicate Valid(c: Config, f: Frame) {
    && f.stream <= AUDIO && (f.stream == AUDIO ==> c.audio)
    && (c.audio ==> |c.audioCsd| >= 2)
    && |Data(f)| > 0 && (|f.data1| > 0 ==> f.addr1 == f.addr0 + |f.data0|)
  }

  // Stores into unsigned chars.
  function AsBytes(s: seq<int>): (b: seq<byte>)
    ensures |b| == |s|
  {
    seq(|s|, i requires 0 <= i < |s| => s[i] % 256)
  }

  // ---------------------------------------------------------------- tables

  function TableHeader(high: byte, low: byte, cc: nat): (s: seq<byte>)
    ensures |s| == 5
  {
    [0x47, high, low, Or(0x10, cc) % 256, 0x00]
  }

  function PatPacket(cc: nat): (p: TsPacket)
  {
    TableHeader(0x40, 0x00, cc) + (Crc.PAT_SECTION + [0xe8, 0x5f, 0x74, 0xec] + Fill(167, 0xff))
  }

  function TrackEntry(c: Config, i: nat): (s: seq<byte>)
    ensures |s| == 5
  {
    AsBytes([if i == 0 then 0x1b else 0x0f, Or(0xe0, Pid(c, i) / 256), Pid(c, i), 0xf0, 0x00])
  }

  function TrackEntries(c: Config, n: nat): (s: seq<byte>)
    ensures |s| == 5 * n
  {
    if n == 0 then [] else TrackEntries(c, n - 1) + TrackEntry(c, n - 1)
  }

  function PmtHead(c: Config): (s: seq<byte>)
    ensures |s| == 12
  {
    var length := 9 + 5 * TrackCnt(c) + 4;
    AsBytes([0x02, Or(0xb0, length / 256), length, 0x00, 0x01, 0xc3, 0x00, 0x00,
             Or(0xe0, VIDEO_PID / 256 % 32), Or(0x00, VIDEO_PID % 256), 0xf0, 0x00])
  }

  // The program map section up to its CRC.
  function PmtSection(c: Config): (s: seq<byte>)
    ensures |s| == 12 + 5 * TrackCnt(c)
  {
    PmtHead(c) + TrackEntries(c, TrackCnt(c))
  }

  function PmtCrc(c: Config): (s: seq<byte>)
    ensures |s| == 4
  {
    Crc.CrcBytes(Crc.Register(Crc.INITIAL, PmtSection(c)))
  }

  function PmtPacket(c: Config, cc: nat): (p: TsPacket)
  {
    TableHeader(0x41, 0xe0, cc) + (PmtSection(c) + PmtCrc(c) + Fill(TS_PACKET - 21 - 5 * TrackCnt(c), 0xff))
  }

  lemma OrPid(flags: nat)
    requires flags == 0x40 || flags == 0xe0
    ensures Or(flags, 1) == flags + 1
  {
    Powers();
    OrIsSum(flags, 1, 1);
  }

  // Both section decoders accept: the fixed CRC of the association table is right, and the map's is
  // computed; the length field counts the bytes behind it.
  lemma TablesAccepted(c: Config, cc: nat)
    ensures Crc.Accepted(PatPacket(cc)[5..21])
    ensures var n := TrackCnt(c);
            var section := PmtPacket(c, cc)[5..21 + 5 * n];
            && Crc.Accepted(section)
            && (section[1] as int) % 16 * 256 + section[2] == |section| - 3
  {
    PatSection(cc);
    PmtSectionOf(c, cc);
    hide Crc.Accepted, PatPacket, PmtPacket, PmtSection, PmtCrc;
    Crc.CrcIsAccepted(Crc.PAT_SECTION);
    Crc.CrcIsAccepted(PmtSection(c));
    PmtLength(c);
    var s := PmtSection(c) + PmtCrc(c);
    assert s[1] == PmtSection(c)[1] && s[2] == PmtSection(c)[2];
  }

  lemma PatSection(cc: nat)
    ensures PatPacket(cc)[5..21] == Crc.PAT_SECTION + Crc.CrcBytes(Crc.Register(Crc.INITIAL, Crc.PAT_SECTION))
  {
    Crc.PatCrc();
    hide Crc.Register, Crc.CrcBytes, TableHeader;
    assert PatPacket(cc) == TableHeader(0x40, 0x00, cc) + (Crc.PAT_SECTION + [0xe8, 0x5f, 0x74, 0xec] + Fill(167, 0xff));
    Inside(TableHeader(0x40, 0x00, cc), Crc.PAT_SECTION + [0xe8, 0x5f, 0x74, 0xec], Fill(167, 0xff));
  }

  lemma Inside(a: seq<byte>, b: seq<byte>, d: seq<byte>)
    ensures (a + (b + d))[|a|..|a| + |b|] == b
  {
  }

  lemma PmtSectionOf(c: Config, cc: nat)
    ensures PmtCrc(c) == Crc.CrcBytes(Crc.Register(Crc.INITIAL, PmtSection(c)))
    ensures PmtPacket(c, cc)[5..21 + 5 * TrackCnt(c)] == PmtSection(c) + PmtCrc(c)
  {
    hide Crc.Register, Crc.CrcBytes, TableHeader, PmtSection, Fill;
    Inside(TableHeader(0x41, 0xe0, cc), PmtSection(c) + PmtCrc(c), Fill(TS_PACKET - 21 - 5 * TrackCnt(c), 0xff));
  }

  lemma PmtLength(c: Config)
    ensures PmtSection(c)[1] == 0xb0 && (PmtSection(c)[2] as int) == 13 + 5 * TrackCnt(c)
  {
    assert Or(0xb0, 0) == 0xb0;
    var h := PmtHead(c);
    assert h[1] == 0xb0 && (h[2] as int) == 13 + 5 * TrackCnt(c);
    hide PmtHead, TrackEntries, Or;
    assert PmtSection(c)[1] == h[1] && PmtSection(c)[2] == h[2];
  }

  // What a receiver reads from the map: the stream type and PID of each track, in order.
  lemma MapEntries(c: Config, k: nat)
    requires k < TrackCnt(c)
    ensures var e := PmtSection(c)[12 + 5 * k..17 + 5 * k];
            && e[0] == (if k == VIDEO then 0x1b else 0x0f)
            && (e[1] as int) % 32 * 256 + e[2] == Pid(c, k)
  {
    EntryIs(c, k);
    EntryInside(c, k);
    hide *;
    var es := TrackEntries(c, TrackCnt(c));
    SectionParts(c);
    Offset(PmtHead(c), es, 5 * k);
  }

  // What a receiver reads from the association table, at the offsets of section 2.4.4.3 of
  // ISO/IEC 13818-1: one program, its map on PID 0x1e0.
  lemma PatRead(cc: nat)
    ensures var p: seq<int> := PatPacket(cc);
            && p[0] == 0x47 && p[1] % 32 * 256 + p[2] == 0 && p[1] / 64 % 2 == 1 && p[4] == 0
            && p[5] == 0 && p[6] % 16 * 256 + p[7] == 13
            && p[13] * 256 + p[14] == 1 && p[15] % 32 * 256 + p[16] == 0x1e0
  {
    hide Fill;
    var t, s := TableHeader(0x40, 0x00, cc), Crc.PAT_SECTION;
    var p := PatPacket(cc);
    assert p == t + (s + [0xe8, 0x5f, 0x74, 0xec] + Fill(167, 0xff));
    assert forall i :: 0 <= i < 12 ==> p[5 + i] == s[i];
  }

  // And from the map, section 2.4.4.8: the program's clock and video on 0x1e1, audio on 0x1e2.
  lemma PmtRead(c: Config, cc: nat)
    ensures var p: seq<int> := PmtPacket(c, cc);
            && p[0] == 0x47 && p[1] % 32 * 256 + p[2] == 0x1e0 && p[1] / 64 % 2 == 1 && p[4] == 0
            && p[5] == 2 && p[6] % 16 * 256 + p[7] == (if c.audio then 23 else 18)
            && p[8] * 256 + p[9] == 1 && p[13] % 32 * 256 + p[14] == 0x1e1 && p[15] % 16 * 256 + p[16] == 0
            && p[17] == 0x1b && p[18] % 32 * 256 + p[19] == 0x1e1 && p[20] % 16 * 256 + p[21] == 0
            && (c.audio ==> p[22] == 0x0f && p[23] % 32 * 256 + p[24] == 0x1e2 && p[25] % 16 * 256 + p[26] == 0)
  {
    var p, t, h := PmtPacket(c, cc), TableHeader(0x41, 0xe0, cc), PmtHead(c);
    hide *;
    PmtHeadBytes(c);
    PmtFront(c, cc);
    TableHeaderBytes(0x41, 0xe0, cc);
    FrontIndex(p, t, h, [0x1b, 0xe1, 0xe1, 0xf0, 0x00]);
    if c.audio {
      FiveFrom(p, 22, [0x0f, 0xe1, 0xe2, 0xf0, 0x00]);
    }
  }

  lemma TableHeaderBytes(high: byte, low: byte, cc: nat)
    ensures var t := TableHeader(high, low, cc); |t| == 5 && t[0] == 0x47 && t[1] == high && t[2] == low && t[4] == 0
  {
    hide Or;
  }

  lemma PmtHeadBytes(c: Config)
    ensures var h := PmtHead(c);
            && h[0] == 2 && h[1] == 0xb0 && h[2] == (if c.audio then 23 else 18) && h[3] == 0 && h[4] == 1
            && h[8] == 0xe1 && h[9] == 0xe1 && h[10] == 0xf0 && h[11] == 0
  {
    PmtHeadIs(c);
    hide PmtHead;
  }

  lemma FiveFrom(p: seq<byte>, k: nat, e: seq<byte>)
    requires k + 5 <= |p| && p[k..k + 5] == e
    ensures |e| == 5 && p[k] == e[0] && p[k + 1] == e[1] && p[k + 2] == e[2] && p[k + 3] == e[3] && p[k + 4] == e[4]
  {
  }

  lemma FrontIndex(p: seq<byte>, t: seq<byte>, h: seq<byte>, e: seq<byte>)
    requires |t| == 5 && |h| == 12 && |e| == 5 && |p| >= 22 && p[..22] == t + h + e
    ensures p[0] == t[0] && p[1] == t[1] && p[2] == t[2] && p[4] == t[4]
    ensures p[5] == h[0] && p[6] == h[1] && p[7] == h[2] && p[8] == h[3] && p[9] == h[4]
    ensures p[13] == h[8] && p[14] == h[9] && p[15] == h[10] && p[16] == h[11]
    ensures p[17] == e[0] && p[18] == e[1] && p[19] == e[2] && p[20] == e[3] && p[21] == e[4]
  {
    assert forall i :: 0 <= i < 22 ==> p[i] == (t + h + e)[i];
  }

  lemma PmtFront(c: Config, cc: nat)
    ensures var p := PmtPacket(c, cc);
            && p[..22] == TableHeader(0x41, 0xe0, cc) + PmtHead(c) + [0x1b, 0xe1, 0xe1, 0xf0, 0x00]
            && (c.audio ==> p[22..27] == [0x0f, 0xe1, 0xe2, 0xf0, 0x00])
  {
    EntriesAre(c);
    PmtParts(c, cc);
    hide *;
    var e1 := if c.audio then [0x0f, 0xe1, 0xe2, 0xf0, 0x00] else [];
    FrontOf(TableHeader(0x41, 0xe0, cc), PmtHead(c), [0x1b, 0xe1, 0xe1, 0xf0, 0x00], e1, PmtCrc(c),
            Fill(TS_PACKET - 21 - 5 * TrackCnt(c), 0xff));
  }

  lemma PmtParts(c: Config, cc: nat)
    ensures PmtPacket(c, cc) == TableHeader(0x41, 0xe0, cc) + ((PmtHead(c) + TrackEntries(c, TrackCnt(c))) + PmtCrc(c)
                                                               + Fill(TS_PACKET - 21 - 5 * TrackCnt(c), 0xff))
  {
    hide TableHeader, PmtHead, TrackEntries, PmtCrc, Fill;
  }

  lemma FrontOf(t: seq<byte>, h: seq<byte>, e0: seq<byte>, e1: seq<byte>, crc: seq<byte>, fill: seq<byte>)
    requires |t| == 5 && |h| == 12 && |e0| == 5 && (|e1| == 5 || e1 == [])
    ensures var p := t + ((h + (e0 + e1)) + crc + fill);
            && |p| >= 22 && p[..22] == t + h + e0
            && (|e1| == 5 ==> |p| >= 27 && p[22..27] == e1)
  {
    var rest := e1 + crc + fill;
    assert t + ((h + (e0 + e1)) + crc + fill) == (t + h + e0) + rest;
  }

  lemma PmtHeadIs(c: Config)
    ensures PmtHead(c) == [0x02, 0xb0, if c.audio then 23 else 18, 0x00, 0x01, 0xc3, 0x00, 0x00, 0xe1, 0xe1, 0xf0, 0x00]
  {
    OrPid(0xe0);
    assert Or(0xb0, 0) == 0xb0;
    assert Or(0x00, 0xe1) == 0xe1 by { Powers(); OrIsSum(0x00, 0xe1, 8); }
    hide Or;
  }

  lemma EntriesAre(c: Config)
    ensures TrackEntries(c, TrackCnt(c))
         == [0x1b, 0xe1, 0xe1, 0xf0, 0x00] + (if c.audio then [0x0f, 0xe1, 0xe2, 0xf0, 0x00] else [])
  {
    EntryIs(c, 0);
    if c.audio {
      EntryIs(c, 1);
    }
    hide TrackEntry;
    var e0 := TrackEntry(c, 0);
    assert TrackEntries(c, 0) == [] && TrackEntries(c, 1) == [] + e0 == e0;
  }

  lemma EntryIs(c: Config, k: nat)
    requires k < TrackCnt(c)
    ensures TrackEntry(c, k) == [if k == 0 then 0x1b else 0x0f, 0xe1, Pid(c, k) - 256, 0xf0, 0x00]
    ensures var e := TrackEntry(c, k);
            e[0] == (if k == VIDEO then 0x1b else 0x0f) && (e[1] as int) % 32 * 256 + e[2] == Pid(c, k)
  {
    OrPid(0xe0);
    hide Or;
  }

  lemma EntryInside(c: Config, k: nat)
    requires k < TrackCnt(c)
    ensures TrackEntries(c, TrackCnt(c))[5 * k..5 * k + 5] == TrackEntry(c, k)
  {
    hide TrackEntry;
    assert TrackEntries(c, 0) == [] && TrackEntries(c, 1) == TrackEntries(c, 0) + TrackEntry(c, 0);
  }

  lemma SectionParts(c: Config)
    ensures PmtSection(c) == PmtHead(c) + TrackEntries(c, TrackCnt(c)) && |PmtHead(c)| == 12
  {
  }

  lemma Offset(a: seq<byte>, b: seq<byte>, i: nat)
    requires i + 5 <= |b|
    ensures (a + b)[|a| + i..|a| + i + 5] == b[i..i + 5]
  {
  }

  // ---------------------------------------------------------------- access units

  // What goes in front of the coded data: the access unit delimiter, with the codec data on key
  // frames, or the ADTS header.
  function Lead(c: Config, f: Frame): seq<byte>
    requires Valid(c, f)
  {
    if f.stream == VIDEO then NAL_AUD + (if f.key then c.videoCsd else [])
    else AsBytes(AdtsBytes(c.audioCsd, |Data(f)| + 7))
  }

  function StreamSize(c: Config, f: Frame): nat
    requires Valid(c, f)
  {
    |Lead(c, f)| + |Data(f)|
  }

  // Exactly the frames the code can write: see Mpeg2tsMuxer.WriteAccessUnit.
  predicate Supported(c: Config, f: Frame)
    requires Valid(c, f)
  {
    StreamSize(c, f) >= 162 && |Lead(c, f)| <= 162
  }

  // Small frames are real: an AAC frame of ten bytes meets every assumption and cannot be written.
  lemma SmallFrame()
    ensures var c, f := Config(true, [], [0x12, 0x10]), Frame(AUDIO, false, Fill(10, 0), [], 0, 0, 0, 0);
            Valid(c, f) && !Supported(c, f)
  {
  }

  function PesLength(size: nat): nat {
    if size + 8 >= 65535 then 0 else size + 8
  }

  function TransportHeader(pid: nat, cc: nat): (s: seq<byte>)
    ensures |s| == 4
  {
    AsBytes([0x47, Or(0x40, pid / 256), pid, Or(0x30, cc)])
  }

  // The adaptation field up to its stuffing.
  function ClockField(padding: nat, pcr: nat): (s: seq<byte>)
    ensures |s| == 8
  {
    AsBytes([padding + 7, 0x10] + PcrBytes(pcr))
  }

  function PesHeader(stream: nat, streamSize: nat, pts: int): (s: seq<byte>)
    ensures |s| == 14
  {
    var size := PesLength(streamSize);
    AsBytes([0x00, 0x00, 0x01, if stream == VIDEO then 0xe0 else 0xc0, size / 256, size, 0x84, 0x80, 0x05]
            + PtsBytes(Clock90(pts)))
  }

  // Transport header, adaptation field with the clock, PES header with the time stamp.
  function FirstHeader(c: Config, f: Frame, cc: nat): (s: seq<byte>)
    requires Valid(c, f)
    ensures |s| == 26
  {
    TransportHeader(Pid(c, f.stream), cc) + ClockField(0, f.pcr) + PesHeader(f.stream, StreamSize(c, f), f.pts)
  }

  function FirstPacket(c: Config, f: Frame, cc: nat): (p: TsPacket)
    requires Valid(c, f) && Supported(c, f)
  {
    FirstHeader(c, f, cc) + Lead(c, f) + Data(f)[..162 - |Lead(c, f)|]
  }

  function MiddleHeader(pid: nat, cc: nat): (s: seq<byte>)
    ensures |s| == 4
  {
    AsBytes([0x47, pid / 256, pid, Or(0x10, cc)])
  }

  // The last packet is padded with an adaptation field of all ones behind its length and flags.
  function LastHeader(pid: nat, cc: nat, padding: nat): (s: seq<byte>)
    requires 1 <= padding
    ensures |s| == 4 + padding
  {
    AsBytes([0x47, pid / 256, pid, Or(0x30, cc), padding - 1])
    + (if padding >= 2 then [0x00] + Fill(padding - 2, 0xff) else [])
  }

  function Rest(pid: nat, s: seq<byte>, cc: nat): (ps: seq<TsPacket>)
  {
    if s == [] then []
    else if |s| < 184 then [LastHeader(pid, cc, 184 - |s|) + s]
    else [MiddleHeader(pid, cc) + s[..184]] + Rest(pid, s[184..], (cc + 1) % 16)
  }

  function AccessUnit(c: Config, f: Frame, cc: nat): (ps: seq<TsPacket>)
    requires Valid(c, f) && Supported(c, f)
  {
    [FirstPacket(c, f, cc)] + Rest(Pid(c, f.stream), Data(f)[162 - |Lead(c, f)|..], (cc + 1) % 16)
  }

  // ---------------------------------------------------------------- runs

  datatype Counters = Counters(pat: nat, pmt: nat, av: seq<nat>)

  predicate InRange(k: Counters) {
    k.pat < 16 && k.pmt < 16 && |k.av| == 2 && k.av[0] < 16 && k.av[1] < 16
  }

  const ALL_ZERO := Counters(0, 0, [0, 0])

  // The tables are repeated in front of every video frame.
  function TablePackets(c: Config, f: Frame, k: Counters): (ps: seq<TsPacket>)
  {
    if f.stream == VIDEO then [PatPacket(k.pat)] + [PmtPacket(c, k.pmt)] else []
  }

  function FramePackets(c: Config, f: Frame, k: Counters): (ps: seq<TsPacket>)
    requires InRange(k) && Valid(c, f) && Supported(c, f)
  {
    TablePackets(c, f, k) + AccessUnit(c, f, k.av[f.stream])
  }

  function Advance(c: Config, f: Frame, k: Counters): (k': Counters)
    requires InRange(k) && Valid(c, f) && Supported(c, f)
    ensures InRange(k')
  {
    var av := k.av[f.stream := (k.av[f.stream] + |AccessUnit(c, f, k.av[f.stream])|) % 16];
    if f.stream == VIDEO then Counters((k.pat + 1) % 16, (k.pmt + 1) % 16, av) else k.(av := av)
  }

  predicate AllSupported(c: Config, fs: seq<Frame>) {
    forall i :: 0 <= i < |fs| ==> Valid(c, fs[i]) && Supported(c, fs[i])
  }

  function RunCounters(c: Config, fs: seq<Frame>): (k: Counters)
    requires AllSupported(c, fs)
    ensures InRange(k)
  {
    if fs == [] then ALL_ZERO else Advance(c, fs[|fs| - 1], RunCounters(c, fs[..|fs| - 1]))
  }

  function RunPackets(c: Config, fs: seq<Frame>): (ps: seq<TsPacket>)
    requires AllSupported(c, fs)
  {
    if fs == [] then []
    else
      var init, f := fs[..|fs| - 1], fs[|fs| - 1];
      RunPackets(c, init) + FramePackets(c, f, RunCounters(c, init))
  }

  // ---------------------------------------------------------------- continuity counters

  function PidOf(p: TsPacket): nat {
    (p[1] as int) % 32 * 256 + p[2]
  }

  function OnPid(ps: seq<TsPacket>, pid: nat): seq<TsPacket> {
    if ps == [] then [] else (if PidOf(ps[0]) == pid then [ps[0]] else []) + OnPid(ps[1..], pid)
  }

  lemma {:induction false} OnPidAppend(a: seq<TsPacket>, b: seq<TsPacket>, pid: nat)
    ensures OnPid(a + b, pid) == OnPid(a, pid) + OnPid(b, pid)
  {
    if a == [] {
      assert a + b == b;
    } else {
      assert (a + b)[1..] == a[1..] + b;
      OnPidAppend(a[1..], b, pid);
    }
  }

  // A packet of PID own with counter cc.
  predicate Marked(p: TsPacket, own: nat, cc: nat) {
    p[0] == 0x47 && PidOf(p) == own && p[3] % 16 == cc % 16
  }

  // Section 2.4.3.3 of ISO/IEC 13818-1: consecutive packets of a PID count up modulo 16.
  predicate AllMarked(ps: seq<TsPacket>, own: nat, first: nat) {
    forall i :: 0 <= i < |ps| ==> Marked(ps[i], own, first + i)
  }

  // Packets that all carry one PID.
  lemma {:induction false} OnPidAll(ps: seq<TsPacket>, pid: nat, own: nat, first: nat)
    requires AllMarked(ps, own, first)
    ensures OnPid(ps, pid) == if pid == own then ps else []
  {
    if ps != [] {
      assert Marked(ps[0], own, first + 0);
      OnPidAll(ps[1..], pid, own, first + 1);
      assert ps == [ps[0]] + ps[1..];
    }
  }

  lemma OrCounter(flags: nat, cc: nat)
    requires cc < 16 && flags % 16 == 0
    ensures Or(flags, cc) == flags + cc
  {
    Powers();
    OrIsSum(flags, cc, 4);
  }

  lemma TablesMarked(c: Config, k: Counters)
    requires InRange(k)
    ensures Marked(PatPacket(k.pat), PAT_PID, k.pat) && Marked(PmtPacket(c, k.pmt), PMT_PID, k.pmt)
  {
    TableMarked(0x40, 0x00, k.pat, PatPacket(k.pat));
    TableMarked(0x41, 0xe0, k.pmt, PmtPacket(c, k.pmt));
  }

  lemma TableMarked(high: byte, low: byte, cc: nat, p: TsPacket)
    requires cc < 16 && p[..5] == TableHeader(high, low, cc)
    ensures Marked(p, (high as int) % 32 * 256 + low, cc)
  {
    OrCounter(0x10, cc);
    hide Or;
    var h := p[..5];
    assert p[0] == h[0] && p[1] == h[1] && p[2] == h[2] && p[3] == h[3];
  }

  predicate ElementaryPid(pid: nat) {
    pid == VIDEO_PID || pid == AUDIO_PID
  }

  lemma FirstMarked(c: Config, f: Frame, cc: nat)
    requires Valid(c, f) && Supported(c, f) && cc < 16
    ensures ElementaryPid(Pid(c, f.stream)) && Marked(FirstPacket(c, f, cc), Pid(c, f.stream), cc)
    ensures var h := FirstHeader(c, f, cc); h[0] == 0x47 && h[1] == 0x41 && h[2] == Pid(c, f.stream) - 256 && h[3] == 0x30 + cc
  {
    hide Or, Lead, ClockField, PesHeader;
    OrCounter(0x30, cc);
    OrPid(0x40);
    var h, a := FirstHeader(c, f, cc), TransportHeader(Pid(c, f.stream), cc);
    assert h[0] == a[0] && h[1] == a[1] && h[2] == a[2] && h[3] == a[3];
  }

  lemma MiddleHeaderIs(pid: nat, cc: nat)
    requires cc < 16 && ElementaryPid(pid)
    ensures MiddleHeader(pid, cc) == [0x47, 1, pid - 256, 0x10 + cc]
  {
    hide Or, MiddleHeader;
    OrCounter(0x10, cc);
    MiddleHeaderBytes(pid, cc);
    SmallByte(0x10 + cc);
    LowByteOf(pid);
  }

  lemma SmallByte(n: nat)
    requires n < 256
    ensures n % 256 == n
  {
  }

  lemma LowByteOf(pid: nat)
    requires ElementaryPid(pid)
    ensures pid / 256 % 256 == 1 && pid % 256 == pid - 256
  {
  }

  lemma MiddleHeaderBytes(pid: nat, cc: nat)
    ensures MiddleHeader(pid, cc) == [0x47, pid / 256 % 256, pid % 256, Or(0x10, cc) % 256]
  {
    hide Or;
  }

  lemma LastHeaderIs(pid: nat, cc: nat, padding: nat)
    requires cc < 16 && ElementaryPid(pid) && 1 <= padding <= 184
    ensures LastHeader(pid, cc, padding)
         == [0x47, 1, pid - 256, 0x30 + cc, padding - 1] + (if padding >= 2 then [0x00] + Fill(padding - 2, 0xff) else [])
  {
    OrCounter(0x30, cc);
    hide Or, Fill;
    assert AsBytes([0x47, pid / 256, pid, Or(0x30, cc), padding - 1]) == [0x47, 1, pid - 256, 0x30 + cc, padding - 1];
  }

  lemma MarkedBy(h: seq<byte>, s: seq<byte>, p: TsPacket, pid: nat, cc: nat)
    requires p == h + s && |h| >= 4 && ElementaryPid(pid)
    requires h[0] == 0x47 && h[1] == 1 && h[2] == pid - 256 && h[3] % 16 == cc % 16
    ensures Marked(p, pid, cc)
  {
  }

  lemma MiddleMarked(pid: nat, s: seq<byte>, cc: nat)
    requires |s| == 184 && cc < 16 && ElementaryPid(pid)
    ensures Marked(MiddleHeader(pid, cc) + s, pid, cc)
  {
    hide MiddleHeader, Marked;
    MiddleHeaderIs(pid, cc);
    MarkedBy(MiddleHeader(pid, cc), s, MiddleHeader(pid, cc) + s, pid, cc);
  }

  lemma LastMarked(pid: nat, s: seq<byte>, cc: nat)
    requires 0 < |s| < 184 && cc < 16 && ElementaryPid(pid)
    ensures Marked(LastHeader(pid, cc, 184 - |s|) + s, pid, cc)
  {
    hide LastHeader, Marked, Fill;
    var h := LastHeader(pid, cc, 184 - |s|);
    LastHeaderIs(pid, cc, 184 - |s|);
    MarkedBy(h, s, h + s, pid, cc);
  }

  lemma Wraps(p: TsPacket, own: nat, cc: nat, i: nat)
    requires Marked(p, own, (cc + 1) % 16 + i)
    ensures Marked(p, own, cc + 1 + i)
  {
  }

  lemma MarkedCons(p: TsPacket, qs: seq<TsPacket>, own: nat, cc: nat)
    requires Marked(p, own, cc) && AllMarked(qs, own, (cc + 1) % 16)
    ensures AllMarked([p] + qs, own, cc)
  {
    hide Marked;
    var ps := [p] + qs;
    forall i | 0 <= i < |ps| ensures Marked(ps[i], own, cc + i) {
      if i > 0 {
        assert ps[i] == qs[i - 1];
        Wraps(qs[i - 1], own, cc, i - 1);
      }
    }
  }

  lemma {:induction false} RestMarked(pid: nat, s: seq<byte>, cc: nat)
    requires cc < 16 && ElementaryPid(pid)
    ensures AllMarked(Rest(pid, s, cc), pid, cc)
  {
    hide Marked, MiddleHeader, LastHeader;
    if s != [] && |s| < 184 {
      LastMarked(pid, s, cc);
    } else if s != [] {
      MiddleMarked(pid, s[..184], cc);
      RestMarked(pid, s[184..], (cc + 1) % 16);
      MarkedCons(MiddleHeader(pid, cc) + s[..184], Rest(pid, s[184..], (cc + 1) % 16), pid, cc);
    }
  }

  lemma AccessUnitMarked(c: Config, f: Frame, cc: nat)
    requires Valid(c, f) && Supported(c, f) && cc < 16
    ensures AllMarked(AccessUnit(c, f, cc), Pid(c, f.stream), cc)
  {
    FirstMarked(c, f, cc);
    var pid, s := Pid(c, f.stream), Data(f)[162 - |Lead(c, f)|..];
    assert AccessUnit(c, f, cc) == [FirstPacket(c, f, cc)] + Rest(pid, s, (cc + 1) % 16);
    hide *;
    RestMarked(pid, s, (cc + 1) % 16);
    MarkedCons(FirstPacket(c, f, cc), Rest(pid, s, (cc + 1) % 16), pid, cc);
  }

  // ---------------------------------------------------------------- the counters of a run

  // The packets of a PID carry 0, 1, 2, ... modulo 16, and next is the value the following one gets.
  predicate Continuous(ps: seq<TsPacket>, pid: nat, next: nat) {
    AllMarked(OnPid(ps, pid), pid, 0) && next == |OnPid(ps, pid)| % 16
  }

  lemma Renumber(p: TsPacket, own: nat, x: nat, y: nat)
    requires Marked(p, own, x) && x % 16 == y % 16
    ensures Marked(p, own, y)
  {
  }

  lemma MarkedAppend(a: seq<TsPacket>, b: seq<TsPacket>, own: nat)
    requires AllMarked(a, own, 0) && AllMarked(b, own, |a| % 16)
    ensures AllMarked(a + b, own, 0)
  {
    hide Marked;
    var ps := a + b;
    forall i | 0 <= i < |ps| ensures Marked(ps[i], own, 0 + i) {
      if i < |a| {
        assert Marked(a[i], own, 0 + i);
      } else {
        var j := i - |a|;
        assert ps[i] == b[j];
        assert Marked(b[j], own, |a| % 16 + j);
        Renumber(b[j], own, |a| % 16 + j, i);
      }
    }
  }

  lemma ContinuousMore(ps: seq<TsPacket>, qs: seq<TsPacket>, pid: nat, own: nat, next: nat)
    requires Continuous(ps, pid, next) && (pid == own ==> AllMarked(qs, own, next))
    requires exists first: nat :: AllMarked(qs, own, first)
    ensures Continuous(ps + qs, pid, if pid == own then (next + |qs|) % 16 else next)
  {
    hide AllMarked;
    OnPidAppend(ps, qs, pid);
    var first: nat :| AllMarked(qs, own, first);
    OnPidAll(qs, pid, own, first);
    if pid == own {
      MarkedAppend(OnPid(ps, pid), qs, own);
    } else {
      assert OnPid(ps, pid) + [] == OnPid(ps, pid);
    }
  }

  predicate AllContinuous(ps: seq<TsPacket>, k: Counters)
    requires InRange(k)
  {
    && Continuous(ps, PAT_PID, k.pat) && Continuous(ps, PMT_PID, k.pmt)
    && Continuous(ps, VIDEO_PID, k.av[VIDEO]) && Continuous(ps, AUDIO_PID, k.av[AUDIO])
  }

  // The counter of one PID moves on.
  function Bump(k: Counters, own: nat, n: nat): (r: Counters)
    requires InRange(k)
    ensures InRange(r)
  {
    if own == PAT_PID then k.(pat := (k.pat + n) % 16)
    else if own == PMT_PID then k.(pmt := (k.pmt + n) % 16)
    else if own == VIDEO_PID then k.(av := k.av[VIDEO := (k.av[VIDEO] + n) % 16])
    else if own == AUDIO_PID then k.(av := k.av[AUDIO := (k.av[AUDIO] + n) % 16])
    else k
  }

  function CounterOf(k: Counters, own: nat): nat
    requires InRange(k)
  {
    if own == PAT_PID then k.pat else if own == PMT_PID then k.pmt
    else if own == VIDEO_PID then k.av[VIDEO] else k.av[AUDIO]
  }

  lemma AllContinuousMore(ps: seq<TsPacket>, qs: seq<TsPacket>, own: nat, k: Counters)
    requires InRange(k) && AllContinuous(ps, k)
    requires own == PAT_PID || own == PMT_PID || ElementaryPid(own)
    requires AllMarked(qs, own, CounterOf(k, own))
    ensures AllContinuous(ps + qs, Bump(k, own, |qs|))
  {
    hide AllMarked, Continuous;
    ContinuousMore(ps, qs, PAT_PID, own, k.pat);
    ContinuousMore(ps, qs, PMT_PID, own, k.pmt);
    ContinuousMore(ps, qs, VIDEO_PID, own, k.av[VIDEO]);
    ContinuousMore(ps, qs, AUDIO_PID, own, k.av[AUDIO]);
  }

  lemma OneMarked(p: TsPacket, own: nat, cc: nat)
    requires Marked(p, own, cc)
    ensures AllMarked([p], own, cc)
  {
  }

  lemma AdvanceIsBumps(c: Config, f: Frame, k: Counters)
    requires InRange(k) && Valid(c, f) && Supported(c, f)
    ensures var n := |AccessUnit(c, f, k.av[f.stream])|;
            Advance(c, f, k) == if f.stream == VIDEO then Bump(Bump(Bump(k, PAT_PID, 1), PMT_PID, 1), VIDEO_PID, n)
                                else Bump(k, AUDIO_PID, n)
    ensures CounterOf(k, Pid(c, f.stream)) == k.av[f.stream] && ElementaryPid(Pid(c, f.stream))
  {
    hide AccessUnit, Supported;
  }

  lemma BumpsApart(k: Counters)
    requires InRange(k)
    ensures CounterOf(k, PAT_PID) == k.pat && CounterOf(Bump(k, PAT_PID, 1), PMT_PID) == k.pmt
    ensures CounterOf(Bump(Bump(k, PAT_PID, 1), PMT_PID, 1), VIDEO_PID) == k.av[VIDEO]
    ensures CounterOf(k, AUDIO_PID) == k.av[AUDIO]
  {
  }

  lemma VideoContinues(ps: seq<TsPacket>, pat: TsPacket, pmt: TsPacket, au: seq<TsPacket>, k: Counters)
    requires InRange(k) && AllContinuous(ps, k) && |k.av| == 2
    requires Marked(pat, PAT_PID, k.pat) && Marked(pmt, PMT_PID, k.pmt) && AllMarked(au, VIDEO_PID, k.av[VIDEO])
    ensures AllContinuous(ps + ([pat] + [pmt] + au), Bump(Bump(Bump(k, PAT_PID, 1), PMT_PID, 1), VIDEO_PID, |au|))
  {
    BumpsApart(k);
    assert ElementaryPid(VIDEO_PID);
    hide *;
    OneMarked(pat, PAT_PID, k.pat);
    OneMarked(pmt, PMT_PID, k.pmt);
    var k1 := Bump(k, PAT_PID, 1);
    AllContinuousMore(ps, [pat], PAT_PID, k);
    AllContinuousMore(ps + [pat], [pmt], PMT_PID, k1);
    AllContinuousMore(ps + [pat] + [pmt], au, VIDEO_PID, Bump(k1, PMT_PID, 1));
    assert ps + ([pat] + [pmt] + au) == ps + [pat] + [pmt] + au;
  }

  lemma FramePacketsAre(c: Config, f: Frame, k: Counters)
    requires InRange(k) && Valid(c, f) && Supported(c, f)
    ensures |k.av| == 2 && f.stream < 2
    ensures var au := AccessUnit(c, f, k.av[f.stream]);
            FramePackets(c, f, k) == if f.stream == VIDEO then [PatPacket(k.pat)] + [PmtPacket(c, k.pmt)] + au else au
    ensures Pid(c, f.stream) == if f.stream == VIDEO then VIDEO_PID else AUDIO_PID
    ensures f.stream != VIDEO ==> f.stream == AUDIO
  {
    hide AccessUnit, PatPacket, PmtPacket, Supported;
    var au := AccessUnit(c, f, k.av[f.stream]);
    assert [] + au == au;
  }

  lemma FrameContinues(c: Config, f: Frame, k: Counters, ps: seq<TsPacket>)
    requires InRange(k) && Valid(c, f) && Supported(c, f) && AllContinuous(ps, k)
    ensures AllContinuous(ps + FramePackets(c, f, k), Advance(c, f, k))
  {
    AdvanceIsBumps(c, f, k);
    BumpsApart(k);
    assert k.av[f.stream] < 16;
    hide *;
    FramePacketsAre(c, f, k);
    var au := AccessUnit(c, f, k.av[f.stream]);
    AccessUnitMarked(c, f, k.av[f.stream]);
    if f.stream == VIDEO {
      TablesMarked(c, k);
      VideoContinues(ps, PatPacket(k.pat), PmtPacket(c, k.pmt), au, k);
    } else {
      AllContinuousMore(ps, au, AUDIO_PID, k);
    }
  }

  // Main result for the counters: over every run, on each of the four PIDs the n-th packet carries
  // n mod 16, although four places advance the counters in three ways.
  lemma {:induction false} RunContinuous(c: Config, fs: seq<Frame>)
    requires AllSupported(c, fs)
    ensures AllContinuous(RunPackets(c, fs), RunCounters(c, fs))
  {
    if fs != [] {
      hide AllContinuous, FramePackets, Advance, Valid, Supported;
      var init, f := fs[..|fs| - 1], fs[|fs| - 1];
      RunContinuous(c, init);
      FrameContinues(c, f, RunCounters(c, init), RunPackets(c, init));
    }
  }

  // A whole packet of one of the four PIDs the muxer uses.
  predicate Recognised(p: TsPacket) {
    p[0] == 0x47 && (PidOf(p) == PAT_PID || PidOf(p) == PMT_PID || ElementaryPid(PidOf(p)))
  }

  lemma MarkedRecognised(qs: seq<TsPacket>, own: nat, first: nat)
    requires AllMarked(qs, own, first) && (own == PAT_PID || own == PMT_PID || ElementaryPid(own))
    ensures forall p :: p in qs ==> Recognised(p)
  {
    hide PidOf;
    forall p | p in qs ensures Recognised(p) {
      var i :| 0 <= i < |qs| && qs[i] == p;
      assert Marked(qs[i], own, first + i);
    }
  }

  // Every run emits whole packets only: 188 bytes each, behind the sync byte, on a known PID.
  lemma {:induction false} RunRecognised(c: Config, fs: seq<Frame>)
    requires AllSupported(c, fs)
    ensures forall p :: p in RunPackets(c, fs) ==> Recognised(p)
  {
    if fs != [] {
      var init, f := fs[..|fs| - 1], fs[|fs| - 1];
      RunRecognised(c, init);
      FrameRecognised(c, f, RunCounters(c, init));
      hide FramePackets, Recognised;
    }
  }

  lemma FrameRecognised(c: Config, f: Frame, k: Counters)
    requires InRange(k) && Valid(c, f) && Supported(c, f)
    ensures forall p :: p in FramePackets(c, f, k) ==> Recognised(p)
  {
    assert k.av[f.stream] < 16;
    FramePacketsAre(c, f, k);
    var au := AccessUnit(c, f, k.av[f.stream]);
    AccessUnitMarked(c, f, k.av[f.stream]);
    TablesMarked(c, k);
    hide AllMarked, AccessUnit, PatPacket, PmtPacket, FramePackets, Supported, Valid, PidOf;
    MarkedRecognised(au, Pid(c, f.stream), k.av[f.stream]);
  }

  // ---------------------------------------------------------------- fields read back

  lemma AsBytesSame(s: seq<int>)
    requires forall i :: 0 <= i < |s| ==> 0 <= s[i] < 256
    ensures AsBytes(s) == s
  {
  }

  // A receiver finds the time stamp and the clock in the first packet of every access unit: ninety
  // ticks a millisecond, modulo 2^32, and the clock exactly when it fits its 33-bit base.
  lemma StampsReadBack(c: Config, f: Frame, cc: nat)
    requires Valid(c, f) && Supported(c, f)
    ensures var p: seq<int> := FirstPacket(c, f, cc);
            && p[21] / 2 % 8 * 0x4000_0000 + p[22] * 0x40_0000 + p[23] / 2 * 0x8000 + p[24] * 0x80 + p[25] / 2
               == f.pts * 90 % 0x1_0000_0000
            && ((p[6] * 0x200_0000 + p[7] * 0x2_0000 + p[8] * 0x200 + p[9] * 2 + p[10] / 128) * 300
                + p[10] % 2 * 256 + p[11] == f.pcr
                <==> f.pcr < 300 * 0x2_0000_0000)
  {
    Clock90Ticks(f.pts);
    PtsOnBytes(Clock90(f.pts));
    PcrRoundTrip(f.pcr);
    ClockOnBytes(PcrBytes(f.pcr));
    StampsAt(c, f, cc);
    hide *;
    SixFrom(FirstPacket(c, f, cc), 6);
    SixFrom(FirstPacket(c, f, cc), 20);
    var p := FirstPacket(c, f, cc);
    assert p[20..26][1..] == p[21..26];
  }

  lemma SixFrom(p: TsPacket, k: nat)
    requires k + 6 <= TS_PACKET
    ensures var s := p[k..k + 6];
            s[0] == p[k] && s[1] == p[k + 1] && s[2] == p[k + 2] && s[3] == p[k + 3] && s[4] == p[k + 4] && s[5] == p[k + 5]
  {
  }

  lemma StampsAt(c: Config, f: Frame, cc: nat)
    requires Valid(c, f) && Supported(c, f)
    ensures var p := FirstPacket(c, f, cc);
            p[21..26] == PtsBytes(Clock90(f.pts)) && p[6..12] == PcrBytes(f.pcr)
  {
    PtsRoundTrip(Clock90(f.pts));
    PcrRoundTrip(f.pcr);
    hide PtsBytes, PcrBytes, RestorePts, Word40, PcrBase, PcrExtension, Clock90, Lead, Data;
    var a, b, d := TransportHeader(Pid(c, f.stream), cc), ClockField(0, f.pcr), PesHeader(f.stream, StreamSize(c, f), f.pts);
    assert b[2..] == PcrBytes(f.pcr);
    assert d[9..] == PtsBytes(Clock90(f.pts));
    hide TransportHeader, ClockField, PesHeader;
    var p, rest := FirstPacket(c, f, cc), Lead(c, f) + Data(f)[..162 - |Lead(c, f)|];
    assert p == a + b + d + rest;
    assert p[6..12] == b[2..] && p[21..26] == d[9..];
  }

  // The ADTS header in front of an audio frame gives the codec data's object type less one, sampling
  // index and channels, and the frame's length, header included, exactly when it fits 13 bits.
  lemma AdtsReadBack(c: Config, f: Frame)
    requires Valid(c, f) && f.stream == AUDIO
    ensures var h: seq<int>, csd: seq<int>, n := Lead(c, f), c.audioCsd, |f.data0| + |f.data1| + 7;
            && |h| == 7 && n == StreamSize(c, f) && h[0] == 0xff && h[1] / 16 == 0xf
            && h[2] / 64 == (csd[0] / 8 - 1) % 4
            && h[2] / 4 % 16 == csd[0] % 8 * 2 + csd[1] / 128
            && (n < 8192 ==> h[2] % 2 * 4 + h[3] / 64 == csd[1] / 8 % 16 % 8)
            && (h[3] % 4 * 2048 + h[4] * 8 + h[5] / 32 == n <==> n < 8192)
  {
    AdtsRoundTrip(c.audioCsd, |Data(f)| + 7);
    hide AdtsBytes;
    AsBytesSame(AdtsBytes(c.audioCsd, |Data(f)| + 7));
  }
}
