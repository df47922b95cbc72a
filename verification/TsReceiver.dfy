/**
 A receiver of the transport stream: it cuts the file into packets, finds where the access units of a
 PID start, and reads each one's PES header and clock. It shares nothing with the muxer but the packet
 length, and the round trip says it gets every frame's time stamp, clock, stream and length back.
 */
module TsReceiver {
  import opened Bytes
  import opened TsFields
  import opened TsPackets
  import TsDemux

  // What a receiver finds where a payload unit starts, with the first bytes of the payload.
  datatype Start = Start(streamId: nat, length: nat, stamp: nat, clock: nat, lead: seq<byte>)

  // Sections 2.4.3.2 to 2.4.3.7 of ISO/IEC 13818-1: a payload unit start, an adaptation field with a
  // clock, and behind it a PES header with a time stamp.
  function ReadStart(packet: TsPacket): Option<Start> {
    var p: seq<int> := packet;
    var at := 5 + p[4];
    if p[1] / 64 % 2 == 0 || p[3] / 32 % 2 == 0 || p[4] < 7 || p[5] / 16 % 2 == 0 || at + 14 > TS_PACKET then None
    else if at + 9 + p[at + 8] + 6 > TS_PACKET then None
    else if p[at] != 0 || p[at + 1] != 0 || p[at + 2] != 1 || p[at + 6] / 64 != 2 || p[at + 7] / 64 != 2 || p[at + 8] < 5 then
      None
    else
      Some(Start(
        p[at + 3], p[at + 4] * 256 + p[at + 5],
        p[at + 9] / 2 % 8 * 0x4000_0000 + p[at + 10] * 0x40_0000 + p[at + 11] / 2 * 0x8000 + p[at + 12] * 0x80 + p[at + 13] / 2,
        (p[6] * 0x200_0000 + p[7] * 0x2_0000 + p[8] * 0x200 + p[9] * 2 + p[10] / 128) * 300 + p[10] % 2 * 256 + p[11],
        packet[at + 9 + p[at + 8]..at + 9 + p[at + 8] + 6]))
  }

  function Starts(ps: seq<TsPacket>, pid: nat): seq<Start> {
    if ps == [] then []
    else
      var rest := Starts(ps[1..], pid);
      match (PidOf(ps[0]) == pid, ReadStart(ps[0]))
      case (true, Some(s)) => [s] + rest
      case _ => rest
  }

  // The whole packets of a file.
  function Packets(file: seq<byte>): seq<TsPacket>
    decreases |file|
  {
    if |file| < TS_PACKET then [] else [file[..TS_PACKET]] + Packets(file[TS_PACKET..])
  }

  lemma {:induction false} PacketsBack(ps: seq<TsPacket>)
    ensures Packets(Flatten(ps)) == ps
  {
    if ps != [] {
      var file := Flatten(ps);
      assert file[..TS_PACKET] == ps[0] && file[TS_PACKET..] == Flatten(ps[1..]);
      PacketsBack(ps[1..]);
      assert ps == [ps[0]] + ps[1..];
    }
  }

  lemma {:induction false} StartsAppend(a: seq<TsPacket>, b: seq<TsPacket>, pid: nat)
    ensures Starts(a + b, pid) == Starts(a, pid) + Starts(b, pid)
  {
    hide ReadStart, PidOf;
    if a == [] {
      assert a + b == b;
    } else {
      assert (a + b)[1..] == a[1..] + b;
      StartsAppend(a[1..], b, pid);
    }
  }

  lemma {:induction false} NoStarts(ps: seq<TsPacket>, pid: nat)
    requires forall p :: p in ps ==> PidOf(p) != pid || ReadStart(p) == None
    ensures Starts(ps, pid) == []
  {
    hide ReadStart, PidOf;
    if ps != [] {
      assert ps[0] in ps;
      NoStarts(ps[1..], pid);
    }
  }

  // ---------------------------------------------------------------- one access unit

  // The first packet's fields, byte by byte.
  lemma FirstBytes(c: Config, f: Frame, cc: nat)
    requires Valid(c, f) && Supported(c, f) && cc < 16
    ensures var p: seq<int> := FirstPacket(c, f, cc);
            var n := PesLength(StreamSize(c, f));
            && p[1] == 0x41 && p[3] == 0x30 + cc && p[4] == 7 && p[5] == 0x10
            && p[12] == 0 && p[13] == 0 && p[14] == 1 && p[15] == (if f.stream == VIDEO then 0xe0 else 0xc0)
            && p[16] == n / 256 && p[17] == n % 256 && p[18] == 0x84 && p[19] == 0x80 && p[20] == 5
    ensures f.stream == VIDEO ==> FirstPacket(c, f, cc)[26..32] == [0, 0, 0, 1, 0x09, 0xf0]
  {
    FirstMarked(c, f, cc);
    PesBytes(f.stream, StreamSize(c, f), f.pts);
    FirstParts(c, f, cc);
    ClockFlags(f.pcr);
    hide *;
    HeaderIndex(FirstPacket(c, f, cc), TransportHeader(Pid(c, f.stream), cc), ClockField(0, f.pcr),
                PesHeader(f.stream, StreamSize(c, f), f.pts));
    HeaderIndex(FirstHeader(c, f, cc), TransportHeader(Pid(c, f.stream), cc), ClockField(0, f.pcr),
                PesHeader(f.stream, StreamSize(c, f), f.pts));
  }

  lemma FirstParts(c: Config, f: Frame, cc: nat)
    requires Valid(c, f) && Supported(c, f)
    ensures FirstPacket(c, f, cc)[..26] == FirstHeader(c, f, cc) == FirstHeader(c, f, cc)[..26]
    ensures FirstHeader(c, f, cc)
         == TransportHeader(Pid(c, f.stream), cc) + ClockField(0, f.pcr) + PesHeader(f.stream, StreamSize(c, f), f.pts)
    ensures f.stream == VIDEO ==> FirstPacket(c, f, cc)[26..32] == [0, 0, 0, 1, 0x09, 0xf0]
  {
    assert f.stream == VIDEO ==> |Lead(c, f)| >= 6 && Lead(c, f)[..6] == [0, 0, 0, 1, 0x09, 0xf0];
    hide TransportHeader, ClockField, PesHeader, Lead;
    assert FirstPacket(c, f, cc) == FirstHeader(c, f, cc) + (Lead(c, f) + Data(f)[..162 - |Lead(c, f)|]);
    if f.stream == VIDEO {
      assert FirstPacket(c, f, cc)[26..32] == Lead(c, f)[..6];
    }
  }

  lemma ClockFlags(pcr: nat)
    ensures ClockField(0, pcr)[0] == 7 && ClockField(0, pcr)[1] == 0x10
  {
    hide PcrBytes;
  }

  lemma HeaderIndex(p: seq<byte>, a: seq<byte>, b: seq<byte>, d: seq<byte>)
    requires |a| == 4 && |b| == 8 && |d| == 14 && |p| >= 26 && p[..26] == a + b + d
    ensures p[1] == a[1] && p[3] == a[3] && p[4] == b[0] && p[5] == b[1]
    ensures p[12] == d[0] && p[13] == d[1] && p[14] == d[2] && p[15] == d[3] && p[16] == d[4]
    ensures p[17] == d[5] && p[18] == d[6] && p[19] == d[7] && p[20] == d[8]
  {
    assert forall i :: 0 <= i < 26 ==> p[i] == (a + b + d)[i];
  }

  lemma PesBytes(stream: nat, size: nat, pts: int)
    ensures var d: seq<int>, n := PesHeader(stream, size, pts), PesLength(size);
            && n < 65535 && n / 256 < 256
            && d[0] == 0 && d[1] == 0 && d[2] == 1 && d[3] == (if stream == VIDEO then 0xe0 else 0xc0)
            && d[4] == n / 256 && d[5] == n % 256 && d[6] == 0x84 && d[7] == 0x80 && d[8] == 5
  {
    hide PtsBytes;
  }

  // What the start of a frame's access unit has to say: its stream, its time stamp at ninety ticks a
  // millisecond modulo 2^32, its clock if that fits, how many bytes of the unit follow the length
  // field, or 0 if that takes more than sixteen bits, and for video an access unit delimiter.
  predicate Tells(s: Start, c: Config, f: Frame) {
    var n := |f.data0| + |f.data1| + (if f.stream != VIDEO then 15 else if f.key then 14 + |c.videoCsd| else 14);
    && s.streamId == (if f.stream == VIDEO then 0xe0 else 0xc0)
    && s.stamp == f.pts * 90 % 0x1_0000_0000
    && (s.clock == f.pcr <==> f.pcr < 300 * 0x2_0000_0000)
    && s.length == (if n < 65535 then n else 0)
    && (f.stream == VIDEO ==> s.lead == [0, 0, 0, 1, 0x09, 0xf0])
  }

  lemma FirstTells(c: Config, f: Frame, cc: nat)
    requires Valid(c, f) && Supported(c, f) && cc < 16
    ensures var s := ReadStart(FirstPacket(c, f, cc)); s.Some? && Tells(s.value, c, f)
    ensures PidOf(FirstPacket(c, f, cc)) == 0x1e1 + f.stream
  {
    FirstMarked(c, f, cc);
    LeadLength(c, f);
    hide FirstPacket, Lead, Data, Supported, StreamSize;
    FirstBytes(c, f, cc);
    StampsReadBack(c, f, cc);
  }

  lemma LeadLength(c: Config, f: Frame)
    requires Valid(c, f)
    ensures |Lead(c, f)| == if f.stream != VIDEO then 7 else if f.key then 6 + |c.videoCsd| else 6
    ensures StreamSize(c, f) == |Lead(c, f)| + |f.data0| + |f.data1|
    ensures var n := if f.stream != VIDEO then 7 else if f.key then 6 + |c.videoCsd| else 6;
            Supported(c, f) <==> n <= 162 && n + |f.data0| + |f.data1| >= 162
  {
    hide AdtsBytes;
  }

  lemma {:induction false} RestHasNoStart(pid: nat, s: seq<byte>, cc: nat)
    requires cc < 16 && ElementaryPid(pid)
    ensures forall p :: p in Rest(pid, s, cc) ==> ReadStart(p) == None
  {
    hide MiddleHeader, LastHeader, ReadStart;
    if s != [] && |s| < 184 {
      LastHeaderIs(pid, cc, 184 - |s|);
      Continues(LastHeader(pid, cc, 184 - |s|) + s);
    } else if s != [] {
      MiddleHeaderIs(pid, cc);
      Continues(MiddleHeader(pid, cc) + s[..184]);
      RestHasNoStart(pid, s[184..], (cc + 1) % 16);
    }
  }

  lemma Continues(p: TsPacket)
    requires p[1] == 1
    ensures ReadStart(p) == None
  {
  }

  lemma UnitStarts(c: Config, f: Frame, cc: nat, pid: nat)
    requires Valid(c, f) && Supported(c, f) && cc < 16
    ensures var ss := Starts(AccessUnit(c, f, cc), pid);
            if pid == 0x1e1 + f.stream then |ss| == 1 && Tells(ss[0], c, f) else ss == []
  {
    hide *;
    FirstTells(c, f, cc);
    FirstMarked(c, f, cc);
    UnitOpens(c, f, cc);
    var first, rest := FirstPacket(c, f, cc), Rest(Pid(c, f.stream), UnitBack(c, f), (cc + 1) % 16);
    RestHasNoStart(Pid(c, f.stream), UnitBack(c, f), (cc + 1) % 16);
    StartsAppend([first], rest, pid);
    NoStarts(rest, pid);
    OneStart(first, pid);
  }

  // The coded data behind the first packet.
  function UnitBack(c: Config, f: Frame): seq<byte>
    requires Valid(c, f) && Supported(c, f)
  {
    Data(f)[162 - |Lead(c, f)|..]
  }

  lemma UnitOpens(c: Config, f: Frame, cc: nat)
    requires Valid(c, f) && Supported(c, f)
    ensures AccessUnit(c, f, cc) == [FirstPacket(c, f, cc)] + Rest(Pid(c, f.stream), UnitBack(c, f), (cc + 1) % 16)
  {
    hide FirstPacket, Rest, Lead;
  }

  lemma OneStart(p: TsPacket, pid: nat)
    ensures Starts([p], pid) == if PidOf(p) == pid && ReadStart(p).Some? then [ReadStart(p).value] else []
  {
    hide ReadStart, PidOf;
    assert [p][1..] == [] && Starts([], pid) == [];
  }

  // ---------------------------------------------------------------- runs

  // The frames of one stream, in order.
  function OfStream(fs: seq<Frame>, k: nat): (vs: seq<Frame>)
    ensures forall f :: f in vs ==> f in fs && f.stream == k
  {
    if fs == [] then []
    else
      var init, f := OfStream(fs[..|fs| - 1], k), fs[|fs| - 1];
      if f.stream == k then init + [f] else init
  }

  lemma TablesHaveNoStart(c: Config, f: Frame, k: Counters, pid: nat)
    requires InRange(k) && pid >= 0x1e1
    ensures Starts(TablePackets(c, f, k), pid) == []
  {
    TablesMarked(c, k);
    hide PatPacket, PmtPacket, ReadStart, PidOf, InRange;
    NoStarts(TablePackets(c, f, k), pid);
  }

  lemma FrameStarts(c: Config, f: Frame, k: Counters, pid: nat)
    requires InRange(k) && Valid(c, f) && Supported(c, f) && pid >= 0x1e1
    ensures var ss := Starts(FramePackets(c, f, k), pid);
            if pid == 0x1e1 + f.stream then |ss| == 1 && Tells(ss[0], c, f) else ss == []
  {
    assert k.av[f.stream] < 16;
    var unit := AccessUnit(c, f, k.av[f.stream]);
    assert FramePackets(c, f, k) == TablePackets(c, f, k) + unit;
    hide *;
    TablesHaveNoStart(c, f, k, pid);
    UnitStarts(c, f, k.av[f.stream], pid);
    StartsAppend(TablePackets(c, f, k), unit, pid);
    assert [] + Starts(unit, pid) == Starts(unit, pid);
  }

  predicate AllTell(ss: seq<Start>, c: Config, vs: seq<Frame>) {
    |ss| == |vs| && forall j :: 0 <= j < |ss| ==> Tells(ss[j], c, vs[j])
  }

  // Main result for the receiver: over every run it finds on the PID of each stream one start for
  // every frame, in order, and each says of its frame what it should.
  lemma {:induction false} RunStarts(c: Config, fs: seq<Frame>, k: nat)
    requires AllSupported(c, fs) && k < 2
    ensures AllTell(Starts(RunPackets(c, fs), 0x1e1 + k), c, OfStream(fs, k))
  {
    hide *;
    if fs == [] {
      NoFrames(c, fs, k);
    } else {
      var init, f := fs[..|fs| - 1], fs[|fs| - 1];
      RunOpens(c, fs, k);
      RunStarts(c, init, k);
      FrameStarts(c, f, RunCounters(c, init), 0x1e1 + k);
      StartsAppend(RunPackets(c, init), FramePackets(c, f, RunCounters(c, init)), 0x1e1 + k);
      TellsMore(c, Starts(RunPackets(c, init), 0x1e1 + k), OfStream(init, k),
                Starts(FramePackets(c, f, RunCounters(c, init)), 0x1e1 + k), if f.stream == k then [f] else []);
    }
  }

  lemma NoFrames(c: Config, fs: seq<Frame>, k: nat)
    requires fs == [] && AllSupported(c, fs)
    ensures AllTell(Starts(RunPackets(c, fs), 0x1e1 + k), c, OfStream(fs, k))
  {
  }

  lemma RunOpens(c: Config, fs: seq<Frame>, k: nat)
    requires AllSupported(c, fs) && fs != []
    ensures var init, f := fs[..|fs| - 1], fs[|fs| - 1];
            && AllSupported(c, init) && InRange(RunCounters(c, init)) && Valid(c, f) && Supported(c, f)
            && RunPackets(c, fs) == RunPackets(c, init) + FramePackets(c, f, RunCounters(c, init))
            && OfStream(fs, k) == OfStream(init, k) + (if f.stream == k then [f] else [])
  {
    hide FramePackets, Valid, Supported, Advance;
    assert OfStream(fs[..|fs| - 1], k) + [] == OfStream(fs[..|fs| - 1], k);
  }

  lemma TellsMore(c: Config, s0: seq<Start>, v0: seq<Frame>, s1: seq<Start>, v1: seq<Frame>)
    requires AllTell(s0, c, v0) && |s1| == |v1| <= 1 && (s1 != [] ==> Tells(s1[0], c, v1[0]))
    ensures AllTell(s0 + s1, c, v0 + v1)
  {
    hide Tells;
  }

  // ---------------------------------------------------------------- tracks

  // An ADTS header for the codec data, in front of a frame of n bytes, header included.
  predicate AdtsTells(h: seq<byte>, csd: seq<byte>, n: nat)
    requires |csd| >= 2
  {
    && |h| == 7 && h[0] == 0xff && h[1] / 16 == 0xf
    && h[2] / 64 == ((csd[0] as int) / 8 - 1) % 4
    && h[2] / 4 % 16 == csd[0] % 8 * 2 + csd[1] / 128
    && (n < 8192 ==> h[2] % 2 * 4 + h[3] / 64 == csd[1] / 8 % 16 % 8)
    && (((h[3] as int) % 4) * 2048 + (h[4] as int) * 8 + h[5] / 32 == n <==> n < 8192)
  }

  function PartLength(c: Config, f: Frame): nat {
    |f.data0| + |f.data1| + (if f.stream != VIDEO then 7 else if f.key then |c.videoCsd| else 0)
  }

  // What a frame contributes to its track: both blocks of coded data, behind the codec data for a key
  // frame of the video track, and behind an ADTS header for audio.
  predicate PartIs(b: seq<byte>, c: Config, f: Frame) {
    if f.stream == VIDEO then b == (if f.key then c.videoCsd else []) + f.data0 + f.data1
    else |b| >= 7 && b[7..] == f.data0 + f.data1 && |c.audioCsd| >= 2 && AdtsTells(b[..7], c.audioCsd, |b|)
  }

  predicate TrackIs(b: seq<byte>, c: Config, vs: seq<Frame>)
    decreases |vs|
  {
    if vs == [] then b == []
    else
      var n := PartLength(c, vs[|vs| - 1]);
      |b| >= n && TrackIs(b[..|b| - n], c, vs[..|vs| - 1]) && PartIs(b[|b| - n..], c, vs[|vs| - 1])
  }

  lemma PartOf(c: Config, f: Frame)
    requires Valid(c, f)
    ensures var b := TsDemux.FilePart(c, f); |b| == PartLength(c, f) && PartIs(b, c, f)
  {
    if f.stream == VIDEO {
      var csd := if f.key then c.videoCsd else [];
      assert csd + f.data0 + f.data1 == csd + (f.data0 + f.data1);
    } else {
      AdtsReadBack(c, f);
      hide Lead;
      assert TsDemux.FilePart(c, f)[..7] == Lead(c, f);
    }
  }

  // Main result for the tracks: what the checker's loop returns is every frame's part in order.
  lemma {:induction false} TrackOfRun(c: Config, fs: seq<Frame>, k: nat)
    requires AllSupported(c, fs) && k < 2
    ensures TrackIs(TsDemux.FileOf(c, fs, k), c, OfStream(fs, k))
  {
    if fs != [] {
      var init, f := fs[..|fs| - 1], fs[|fs| - 1];
      TsDemux.RunSteps(c, fs);
      RunOpens(c, fs, k);
      TrackOfRun(c, init, k);
      PartOf(c, f);
      hide *;
      if f.stream == k {
        TrackMore(TsDemux.FileOf(c, init, k), c, OfStream(init, k), TsDemux.FilePart(c, f), f);
      } else {
        assert OfStream(init, k) + [] == OfStream(init, k);
        assert TsDemux.FileOf(c, init, k) + [] == TsDemux.FileOf(c, init, k);
      }
    }
  }

  lemma TrackMore(b: seq<byte>, c: Config, vs: seq<Frame>, part: seq<byte>, f: Frame)
    requires TrackIs(b, c, vs) && |part| == PartLength(c, f) && PartIs(part, c, f)
    ensures TrackIs(b + part, c, vs + [f])
  {
    hide PartIs, PartLength;
    assert (vs + [f])[..|vs|] == vs && (b + part)[..|b|] == b && (b + part)[|b|..] == part;
  }

  // ---------------------------------------------------------------- tables

  // An association table with one program, and its map on PID 0x1e0.
  predicate PatTells(packet: TsPacket) {
    var p: seq<int> := packet;
    && p[0] == 0x47 && p[1] % 32 * 256 + p[2] == 0 && p[1] / 64 % 2 == 1 && p[4] == 0
    && p[5] == 0 && p[6] % 16 * 256 + p[7] == 13
    && p[13] * 256 + p[14] == 1 && p[15] % 32 * 256 + p[16] == 0x1e0
  }

  // A map with clock and video on 0x1e1 and audio on 0x1e2.
  predicate PmtTells(packet: TsPacket, c: Config) {
    var p: seq<int> := packet;
    && p[0] == 0x47 && p[1] % 32 * 256 + p[2] == 0x1e0 && p[1] / 64 % 2 == 1 && p[4] == 0
    && p[5] == 2 && p[6] % 16 * 256 + p[7] == (if c.audio then 23 else 18)
    && p[8] * 256 + p[9] == 1 && p[13] % 32 * 256 + p[14] == 0x1e1 && p[15] % 16 * 256 + p[16] == 0
    && p[17] == 0x1b && p[18] % 32 * 256 + p[19] == 0x1e1 && p[20] % 16 * 256 + p[21] == 0
    && (c.audio ==> p[22] == 0x0f && p[23] % 32 * 256 + p[24] == 0x1e2 && p[25] % 16 * 256 + p[26] == 0)
  }

  predicate StartsUnit(p: TsPacket, pid: nat) {
    PidOf(p) == pid && ReadStart(p).Some?
  }

  // The tables and the start of a video unit go together: association table, map, unit.
  predicate InGroup(ps: seq<TsPacket>, i: nat, c: Config)
    requires i < |ps|
  {
    && (StartsUnit(ps[i], 0x1e1) ==> i >= 2 && PatTells(ps[i - 2]) && PmtTells(ps[i - 1], c))
    && (PidOf(ps[i]) == 0 ==> i + 2 < |ps| && StartsUnit(ps[i + 2], 0x1e1))
    && (PidOf(ps[i]) == 0x1e0 ==> 0 < i < |ps| - 1 && StartsUnit(ps[i + 1], 0x1e1))
  }

  predicate TablesAhead(ps: seq<TsPacket>, c: Config) {
    forall i :: 0 <= i < |ps| ==> InGroup(ps, i, c)
  }

  lemma TablesAppend(a: seq<TsPacket>, b: seq<TsPacket>, c: Config)
    requires TablesAhead(a, c) && TablesAhead(b, c)
    ensures TablesAhead(a + b, c)
  {
    forall i | 0 <= i < |a + b|
      ensures InGroup(a + b, i, c)
    {
      hide StartsUnit, PidOf, PatTells, PmtTells;
      if i < |a| {
        assert InGroup(a, i, c);
      } else {
        assert InGroup(b, i - |a|, c);
      }
    }
  }

  lemma TablesOfFrame(c: Config, f: Frame, k: Counters)
    requires InRange(k) && Valid(c, f) && Supported(c, f)
    ensures TablesAhead(FramePackets(c, f, k), c)
  {
    hide *;
    CounterOf(c, f, k);
    var cc := k.av[f.stream];
    FrameInParts(c, f, k);
    var rest := Rest(Pid(c, f.stream), UnitBack(c, f), (cc + 1) % 16);
    FirstTells(c, f, cc);
    RestOnPid(c, f, (cc + 1) % 16);
    TablesRead(c, k);
    UnitStartsAt(FirstPacket(c, f, cc), 0x1e1 + f.stream);
    GroupOf(PatPacket(k.pat), PmtPacket(c, k.pmt), FirstPacket(c, f, cc), rest, c, 0x1e1 + f.stream);
  }

  lemma CounterOf(c: Config, f: Frame, k: Counters)
    requires InRange(k) && Valid(c, f)
    ensures f.stream < |k.av| && k.av[f.stream] < 16
    ensures (f.stream == VIDEO <==> 0x1e1 + f.stream == 0x1e1) && (f.stream != VIDEO <==> 0x1e1 + f.stream == 0x1e2)
  {
  }

  lemma UnitStartsAt(p: TsPacket, pid: nat)
    ensures StartsUnit(p, pid) <==> PidOf(p) == pid && ReadStart(p).Some?
  {
    hide PidOf, ReadStart;
  }

  lemma FrameInParts(c: Config, f: Frame, k: Counters)
    requires InRange(k) && Valid(c, f) && Supported(c, f)
    ensures var cc := k.av[f.stream];
            FramePackets(c, f, k)
            == (if f.stream == VIDEO then [PatPacket(k.pat)] + [PmtPacket(c, k.pmt)] else [])
               + ([FirstPacket(c, f, cc)] + Rest(Pid(c, f.stream), UnitBack(c, f), (cc + 1) % 16))
  {
    UnitOpens(c, f, k.av[f.stream]);
    hide FirstPacket, Rest, Lead, PatPacket, PmtPacket;
  }

  lemma TablesRead(c: Config, k: Counters)
    requires InRange(k)
    ensures PatTells(PatPacket(k.pat)) && PmtTells(PmtPacket(c, k.pmt), c)
    ensures PidOf(PatPacket(k.pat)) == 0 && PidOf(PmtPacket(c, k.pmt)) == 0x1e0
    ensures ReadStart(PatPacket(k.pat)).None? && ReadStart(PmtPacket(c, k.pmt)).None?
  {
    TablesMarked(c, k);
    PatRead(k.pat);
    PmtRead(c, k.pmt);
    hide PatPacket, PmtPacket;
  }

  lemma RestOnPid(c: Config, f: Frame, cc: nat)
    requires Valid(c, f) && Supported(c, f) && cc < 16
    ensures forall p :: p in Rest(Pid(c, f.stream), UnitBack(c, f), cc) ==> PidOf(p) == 0x1e1 + f.stream && ReadStart(p).None?
  {
    RestMarked(Pid(c, f.stream), UnitBack(c, f), cc);
    RestHasNoStart(Pid(c, f.stream), UnitBack(c, f), cc);
    hide Rest, UnitBack, PidOf, ReadStart;
  }

  lemma GroupOf(pat: TsPacket, pmt: TsPacket, first: TsPacket, rest: seq<TsPacket>, c: Config, pid: nat)
    requires PatTells(pat) && PmtTells(pmt, c) && PidOf(pat) == 0 && PidOf(pmt) == 0x1e0
    requires ReadStart(pat).None? && ReadStart(pmt).None?
    requires (pid == 0x1e1 || pid == 0x1e2) && StartsUnit(first, pid)
    requires forall p :: p in rest ==> PidOf(p) == pid && ReadStart(p).None?
    ensures TablesAhead((if pid == 0x1e1 then [pat] + [pmt] else []) + ([first] + rest), c)
  {
    hide PidOf, PatTells, PmtTells, ReadStart;
    var tables := if pid == 0x1e1 then [pat] + [pmt] else [];
    var ps := tables + ([first] + rest);
    forall i | 0 <= i < |ps|
      ensures InGroup(ps, i, c)
    {
      if i > |tables| {
        assert ps[i] == rest[i - |tables| - 1];
      }
    }
  }

  // Main result for the tables: in every run an association table and a map that read right stand in
  // front of each video unit, and nowhere else.
  lemma {:induction false} TablesInRun(c: Config, fs: seq<Frame>)
    requires AllSupported(c, fs)
    ensures TablesAhead(RunPackets(c, fs), c)
  {
    if fs != [] {
      hide *;
      RunOpens(c, fs, 0);
      var init, f := fs[..|fs| - 1], fs[|fs| - 1];
      TablesInRun(c, init);
      TablesOfFrame(c, f, RunCounters(c, init));
      TablesAppend(RunPackets(c, init), FramePackets(c, f, RunCounters(c, init)), c);
    }
  }
}
