/**
 The payload extraction loop of the repository's transport stream checker, and the round trip: what
 it gets out of the muxer's packets is what went in.
 */
module TsDemux {
  import opened Bytes
  import opened TsPackets
  import TsFields

  // The checker's read buffer.
  const BUF_SIZE: nat := 1000 * 1000

  datatype Extract = Nothing | Video(bytes: seq<byte>) | Audio(bytes: seq<byte>) | Stuck

  // fwrite(buf + from, 1, count): a negative count would run off the buffer.
  function Cut(buf: seq<byte>, from: int, count: int): Option<seq<byte>>
  {
    if 0 <= from && 0 <= count && from + count <= |buf| then Some(buf[from..from + count]) else None
  }

  function AsVideo(o: Option<seq<byte>>): Extract {
    if o.Some? then Video(o.value) else Stuck
  }

  function AsAudio(o: Option<seq<byte>>): Extract {
    if o.Some? then Audio(o.value) else Stuck
  }

  function Pid12(buf: seq<byte>): nat
    requires |buf| >= TS_PACKET
  {
    (buf[1] as int) % 16 * 256 + buf[2]
  }

  // A packet behind the first one of an access unit.
  function Continuation(buf: seq<byte>): Option<seq<byte>>
    requires |buf| >= TS_PACKET
  {
    if buf[3] / 16 == 1 then Cut(buf, 4, TS_PACKET - 4)
    else if buf[3] / 16 == 3 then
      var padding: int := (buf[4] as int) + 1;
      Cut(buf, 4 + padding, TS_PACKET - 4 - padding)
    else None
  }

  // One turn of the loop. Stuck is a failed assertion or a negative length.
  function ExtractFrom(buf: seq<byte>, videoPid: int, audioPid: int): Extract
    requires |buf| >= TS_PACKET
  {
    if buf[0] == 0x47 && Pid12(buf) == videoPid then
      if buf[1] == 0x41 then AsVideo(Cut(buf, 32, TS_PACKET - 32)) else AsVideo(Continuation(buf))
    else if buf[0] == 0x47 && Pid12(buf) == audioPid then
      if buf[1] == 0x41 then
        var pesLen: int := (buf[16] as int) * 256 + buf[17];
        if pesLen >= 170 then AsAudio(Cut(buf, 26, TS_PACKET - 26))
        else
          var padding: int := (buf[4] as int) - 7;
          AsAudio(Cut(buf, 26 + padding, pesLen - 8))
      else AsAudio(Continuation(buf))
    else Nothing
  }

  // The two output files, or nothing if the program got stuck.
  datatype Output = Aborted | Output(video: seq<byte>, audio: seq<byte>)

  function Before(e: Extract, o: Output): Output {
    if e.Stuck? || o.Aborted? then Aborted
    else if e.Video? then o.(video := e.bytes + o.video)
    else if e.Audio? then o.(audio := e.bytes + o.audio)
    else o
  }

  // The whole loop: a short last read leaves the tail of the buffer as it was.
  function Demux(file: seq<byte>, buf: seq<byte>, videoPid: int, audioPid: int): Output
    requires |buf| >= TS_PACKET
  {
    if file == [] then Output([], [])
    else
      var cnt := if |file| < TS_PACKET then |file| else TS_PACKET;
      var buf' := file[..cnt] + buf[cnt..];
      Before(ExtractFrom(buf', videoPid, audioPid), Demux(file[cnt..], buf', videoPid, audioPid))
  }

  function After(o: Output, e: Extract): Output {
    if e.Stuck? || o.Aborted? then Aborted
    else if e.Video? then o.(video := o.video + e.bytes)
    else if e.Audio? then o.(audio := o.audio + e.bytes)
    else o
  }

  function Joined(a: Output, b: Output): Output {
    if a.Aborted? || b.Aborted? then Aborted else Output(a.video + b.video, a.audio + b.audio)
  }

  // The loop itself.
  method ExtractPayload(file: seq<byte>, buf: array<byte>, videoPid: int, audioPid: int) returns (out: Output)
    requires buf.Length == BUF_SIZE
    modifies buf
    ensures out == Demux(file, old(buf[..]), videoPid, audioPid)
  {
    out := Output([], []);
    var pos := 0;
    while pos < |file|
      invariant 0 <= pos <= |file|
      invariant Demux(file, old(buf[..]), videoPid, audioPid) == Joined(out, Demux(file[pos..], buf[..], videoPid, audioPid))
    {
      hide ExtractFrom, Demux, Before, Joined, After;
      var cnt := if |file| - pos < TS_PACKET then |file| - pos else TS_PACKET;
      ghost var before := buf[..];
      ghost var rest := file[pos..];
      forall i | 0 <= i < cnt {
        buf[i] := file[pos + i];
      }
      assert buf[..] == rest[..cnt] + before[cnt..];
      assert rest[cnt..] == file[pos + cnt..];
      DemuxStep(rest, before, videoPid, audioPid);
      var e := ExtractFrom(buf[..], videoPid, audioPid);
      MoveOver(out, e, Demux(file[pos + cnt..], buf[..], videoPid, audioPid));
      out := After(out, e);
      pos := pos + cnt;
    }
    assert file[pos..] == [];
  }

  lemma DemuxStep(file: seq<byte>, buf: seq<byte>, videoPid: int, audioPid: int)
    requires |buf| >= TS_PACKET && file != []
    ensures var cnt := if |file| < TS_PACKET then |file| else TS_PACKET;
            var buf' := file[..cnt] + buf[cnt..];
            Demux(file, buf, videoPid, audioPid)
            == Before(ExtractFrom(buf', videoPid, audioPid), Demux(file[cnt..], buf', videoPid, audioPid))
  {
  }

  lemma MoveOver(a: Output, e: Extract, b: Output)
    ensures Joined(a, Before(e, b)) == Joined(After(a, e), b)
  {
  }

  // ---------------------------------------------------------------- whole packets

  // What the loop makes of a list of packets, each on its own.
  function DemuxAll(ps: seq<TsPacket>): Output {
    if ps == [] then Output([], []) else Before(ExtractFrom(ps[0], VIDEO_PID, AUDIO_PID), DemuxAll(ps[1..]))
  }

  lemma JoinedLaws(a: Output, b: Output, c: Output)
    ensures Joined(Joined(a, b), c) == Joined(a, Joined(b, c))
    ensures Joined(Output([], []), a) == a && Joined(a, Output([], [])) == a
  {
    if a.Output? && b.Output? && c.Output? {
      assert a.video + b.video + c.video == a.video + (b.video + c.video);
      assert a.audio + b.audio + c.audio == a.audio + (b.audio + c.audio);
    }
  }

  lemma BeforeJoined(e: Extract, a: Output, b: Output)
    ensures Before(e, Joined(a, b)) == Joined(Before(e, a), b)
  {
    if a.Output? && b.Output? {
      if e.Video? {
        assert e.bytes + (a.video + b.video) == e.bytes + a.video + b.video;
      } else if e.Audio? {
        assert e.bytes + (a.audio + b.audio) == e.bytes + a.audio + b.audio;
      }
    }
  }

  lemma {:induction false} DemuxAllAppend(a: seq<TsPacket>, b: seq<TsPacket>)
    ensures DemuxAll(a + b) == Joined(DemuxAll(a), DemuxAll(b))
  {
    hide ExtractFrom, Before, Joined;
    if a == [] {
      assert a + b == b;
      JoinedLaws(DemuxAll(b), Aborted, Aborted);
    } else {
      assert (a + b)[1..] == a[1..] + b;
      DemuxAllAppend(a[1..], b);
      BeforeJoined(ExtractFrom(a[0], VIDEO_PID, AUDIO_PID), DemuxAll(a[1..]), DemuxAll(b));
    }
  }

  // What lies behind the packet in the buffer does not matter, unless the packet makes the loop
  // reach for it.
  lemma ExtractLonger(p: TsPacket, tail: seq<byte>)
    requires !ExtractFrom(p, VIDEO_PID, AUDIO_PID).Stuck?
    ensures ExtractFrom(p + tail, VIDEO_PID, AUDIO_PID) == ExtractFrom(p, VIDEO_PID, AUDIO_PID)
  {
    var buf := p + tail;
    assert forall i :: 0 <= i < TS_PACKET ==> buf[i] == p[i];
    hide Cut;
    forall from: int, count: int | Cut(p, from, count).Some? ensures Cut(buf, from, count) == Cut(p, from, count) {
      CutLonger(p, tail, from, count);
    }
  }

  lemma CutLonger(p: seq<byte>, tail: seq<byte>, from: int, count: int)
    requires Cut(p, from, count).Some?
    ensures Cut(p + tail, from, count) == Cut(p, from, count)
  {
    assert (p + tail)[from..from + count] == p[from..from + count];
  }

  // A packet the loop can only get stuck on for its own sake.
  predicate Definite(p: TsPacket) {
    ExtractFrom(p, VIDEO_PID, AUDIO_PID).Stuck? ==>
      p[0] == 0x47 && Pid12(p) == AUDIO_PID && p[1] == 0x41 && (p[16] as int) * 256 + p[17] < 8
  }

  lemma DefiniteExtract(p: TsPacket, tail: seq<byte>)
    requires Definite(p)
    ensures ExtractFrom(p + tail, VIDEO_PID, AUDIO_PID) == ExtractFrom(p, VIDEO_PID, AUDIO_PID)
  {
    if ExtractFrom(p, VIDEO_PID, AUDIO_PID).Stuck? {
      var buf := p + tail;
      assert buf[0] == p[0] && buf[1] == p[1] && buf[2] == p[2] && buf[16] == p[16] && buf[17] == p[17];
    } else {
      ExtractLonger(p, tail);
    }
  }

  lemma {:induction false} DemuxPackets(ps: seq<TsPacket>, buf: seq<byte>)
    requires |buf| >= TS_PACKET && forall p :: p in ps ==> Definite(p)
    ensures Demux(Flatten(ps), buf, VIDEO_PID, AUDIO_PID) == DemuxAll(ps)
  {
    hide ExtractFrom, Definite;
    if ps != [] {
      var file := Flatten(ps);
      assert file[..TS_PACKET] == ps[0] && file[TS_PACKET..] == Flatten(ps[1..]);
      var buf' := ps[0] + buf[TS_PACKET..];
      DefiniteExtract(ps[0], buf[TS_PACKET..]);
      DemuxPackets(ps[1..], buf');
    }
  }

  lemma {:induction false} NotAborted(ps: seq<TsPacket>)
    requires !DemuxAll(ps).Aborted?
    ensures forall p :: p in ps ==> Definite(p)
  {
    if ps != [] {
      hide ExtractFrom;
      NotAborted(ps[1..]);
    }
  }

  // ---------------------------------------------------------------- one access unit

  function Wanted(stream: nat, bytes: seq<byte>): Output {
    if stream == VIDEO then Output(bytes, []) else Output([], bytes)
  }

  function Got(stream: nat, bytes: seq<byte>): Extract {
    if stream == VIDEO then Video(bytes) else Audio(bytes)
  }

  lemma WantedSnoc(stream: nat, a: seq<byte>, b: seq<byte>)
    ensures Before(Got(stream, a), Wanted(stream, b)) == Wanted(stream, a + b)
  {
    assert a + [] == a;
  }

  function PidOfStream(stream: nat): nat {
    if stream == VIDEO then VIDEO_PID else AUDIO_PID
  }

  lemma MiddleExtract(stream: nat, s: seq<byte>, cc: nat)
    requires |s| == 184 && cc < 16
    ensures ExtractFrom(MiddleHeader(PidOfStream(stream), cc) + s, VIDEO_PID, AUDIO_PID) == Got(stream, s)
  {
    hide MiddleHeader;
    MiddleHeaderIs(PidOfStream(stream), cc);
    var p := MiddleHeader(PidOfStream(stream), cc) + s;
    assert p[4..4 + 184] == s;
  }

  lemma LastExtract(stream: nat, s: seq<byte>, cc: nat)
    requires 0 < |s| < 184 && cc < 16
    ensures ExtractFrom(LastHeader(PidOfStream(stream), cc, 184 - |s|) + s, VIDEO_PID, AUDIO_PID) == Got(stream, s)
  {
    hide LastHeader, Fill;
    var pid, padding := PidOfStream(stream), 184 - |s|;
    LastHeaderIs(pid, cc, padding);
    var h := LastHeader(pid, cc, padding);
    var p := h + s;
    assert p[1] == h[1] && p[2] == h[2] && p[3] == h[3] && p[4] == h[4];
    assert p[4 + padding..4 + padding + |s|] == s;
  }

  lemma {:induction false} RestExtract(stream: nat, s: seq<byte>, cc: nat)
    requires cc < 16
    ensures DemuxAll(Rest(PidOfStream(stream), s, cc)) == Wanted(stream, s)
  {
    hide ExtractFrom, MiddleHeader, LastHeader, Before, Wanted, Got;
    NoneWanted(stream);
    if s != [] && |s| < 184 {
      LastExtract(stream, s, cc);
      WantedSnoc(stream, s, []);
      assert s + [] == s;
    } else if s != [] {
      MiddleExtract(stream, s[..184], cc);
      RestExtract(stream, s[184..], (cc + 1) % 16);
      WantedSnoc(stream, s[..184], s[184..]);
      assert s == s[..184] + s[184..];
    }
  }

  lemma NoneWanted(stream: nat)
    ensures Wanted(stream, []) == Output([], [])
  {
  }

  // What a frame leaves in the output file of its track: for video the codec data of key frames,
  // without the access unit delimiter, and for audio the ADTS header, in front of the coded data.
  function FilePart(c: Config, f: Frame): seq<byte>
    requires Valid(c, f)
  {
    (if f.stream == VIDEO then (if f.key then c.videoCsd else []) else Lead(c, f)) + Data(f)
  }

  // The PES length of an audio frame must fit its field, for the checker relies on it.
  predicate Readable(c: Config, f: Frame)
    requires Valid(c, f)
  {
    f.stream == AUDIO ==> |f.data0| + |f.data1| + 15 < 65535
  }

  // Long frames are real: the muxer writes an audio frame of 65520 bytes, and the checker aborts on it.
  lemma LongAudioAborts()
    ensures var c, f := Config(true, [], [0x12, 0x10]), Frame(AUDIO, false, Fill(65520, 0), [], 0, 0, 0, 0);
            Valid(c, f) && Supported(c, f) && !Readable(c, f) && DemuxAll(AccessUnit(c, f, 0)) == Aborted
  {
    hide Fill, AccessUnit, DemuxAll;
    AccessUnitExtract(Config(true, [], [0x12, 0x10]), Frame(AUDIO, false, Fill(65520, 0), [], 0, 0, 0, 0), 0);
  }

  lemma VideoFront(h: seq<byte>, rest: seq<byte>, p: TsPacket)
    requires p == h + rest && |h| == 26 && h[0] == 0x47 && h[1] == 0x41 && h[2] == VIDEO_PID - 256
    ensures ExtractFrom(p, VIDEO_PID, AUDIO_PID) == Video(rest[6..])
  {
    assert p[0] == h[0] && p[1] == h[1] && p[2] == h[2];
    assert p[32..188] == rest[6..];
  }

  lemma AudioFront(h: seq<byte>, rest: seq<byte>, p: TsPacket)
    requires p == h + rest && |h| == 26 && h[0] == 0x47 && h[1] == 0x41 && h[2] == AUDIO_PID - 256 && h[4] == 7
    ensures var pesLen := (h[16] as int) * 256 + h[17];
            && (pesLen >= 170 ==> ExtractFrom(p, VIDEO_PID, AUDIO_PID) == Audio(rest))
            && (pesLen < 8 ==> ExtractFrom(p, VIDEO_PID, AUDIO_PID) == Stuck)
  {
    assert p[0] == h[0] && p[1] == h[1] && p[2] == h[2] && p[16] == h[16] && p[17] == h[17] && p[4] == h[4];
    assert p[26..188] == rest;
  }

  // The first packet is the header, the lead and the front of the coded data.
  function Front(c: Config, f: Frame): seq<byte>
    requires Valid(c, f) && Supported(c, f)
  {
    Lead(c, f) + Data(f)[..162 - |Lead(c, f)|]
  }

  function Back(c: Config, f: Frame): seq<byte>
    requires Valid(c, f) && Supported(c, f)
  {
    Data(f)[162 - |Lead(c, f)|..]
  }

  lemma FirstIs(c: Config, f: Frame, cc: nat)
    requires Valid(c, f) && Supported(c, f)
    ensures FirstPacket(c, f, cc) == FirstHeader(c, f, cc) + Front(c, f)
  {
    hide FirstHeader, Lead, Data;
    var n := 162 - |Lead(c, f)|;
    assert FirstHeader(c, f, cc) + Lead(c, f) + Data(f)[..n] == FirstHeader(c, f, cc) + (Lead(c, f) + Data(f)[..n]);
  }

  lemma FirstExtractVideo(c: Config, f: Frame, cc: nat)
    requires Valid(c, f) && Supported(c, f) && cc < 16 && f.stream == VIDEO
    ensures |Front(c, f)| == 162 && ExtractFrom(FirstPacket(c, f, cc), VIDEO_PID, AUDIO_PID) == Video(Front(c, f)[6..])
  {
    FirstMarked(c, f, cc);
    FirstIs(c, f, cc);
    assert Pid(c, f.stream) == VIDEO_PID;
    hide *;
    VideoFront(FirstHeader(c, f, cc), Front(c, f), FirstPacket(c, f, cc));
  }

  lemma PesField(c: Config, f: Frame, cc: nat)
    requires Valid(c, f) && Supported(c, f) && f.stream == AUDIO
    ensures var h := FirstHeader(c, f, cc);
            (h[16] as int) * 256 + h[17] == PesLength(StreamSize(c, f)) && h[4] == 7
  {
    hide TsFields.PcrBytes, TsFields.PtsBytes, Lead, TsFields.Clock90, TransportHeader;
    var h, b, p := FirstHeader(c, f, cc), ClockField(0, f.pcr), PesHeader(f.stream, StreamSize(c, f), f.pts);
    assert h[4] == b[0] && h[16] == p[4] && h[17] == p[5];
  }

  lemma FirstExtractAudio(c: Config, f: Frame, cc: nat)
    requires Valid(c, f) && Supported(c, f) && cc < 16 && f.stream == AUDIO
    ensures Readable(c, f) ==> ExtractFrom(FirstPacket(c, f, cc), VIDEO_PID, AUDIO_PID) == Audio(Front(c, f))
    ensures !Readable(c, f) ==> ExtractFrom(FirstPacket(c, f, cc), VIDEO_PID, AUDIO_PID) == Stuck
  {
    FirstMarked(c, f, cc);
    FirstIs(c, f, cc);
    PesField(c, f, cc);
    assert Pid(c, f.stream) == AUDIO_PID;
    hide FirstHeader, Lead, Data, FirstPacket, ExtractFrom, Front, Valid, Pid;
    AudioFront(FirstHeader(c, f, cc), Front(c, f), FirstPacket(c, f, cc));
  }

  lemma FrameParts(c: Config, f: Frame, cc: nat)
    requires Valid(c, f) && Supported(c, f) && cc < 16
    ensures AccessUnit(c, f, cc) == [FirstPacket(c, f, cc)] + Rest(PidOfStream(f.stream), Back(c, f), (cc + 1) % 16)
    ensures FilePart(c, f) == (if f.stream == VIDEO then Front(c, f)[6..] else Front(c, f)) + Back(c, f)
    ensures f.stream != VIDEO ==> f.stream == AUDIO
    ensures f.stream == VIDEO ==> Readable(c, f)
  {
    FrameFacts(c, f);
    assert AccessUnit(c, f, cc) == [FirstPacket(c, f, cc)] + Rest(PidOfStream(f.stream), Back(c, f), (cc + 1) % 16);
    hide *;
    var n := 162 - |Lead(c, f)|;
    if f.stream == VIDEO {
      SplitBehind(Lead(c, f), Data(f), n, 6);
    } else {
      SplitBehind(Lead(c, f), Data(f), n, 0);
      assert Front(c, f)[0..] == Front(c, f) && Lead(c, f)[0..] == Lead(c, f);
    }
  }

  lemma FrameFacts(c: Config, f: Frame)
    requires Valid(c, f) && Supported(c, f)
    ensures Pid(c, f.stream) == PidOfStream(f.stream) && 162 - |Data(f)| <= |Lead(c, f)| <= 162
    ensures f.stream == VIDEO ==> |Lead(c, f)| >= 6 && FilePart(c, f) == Lead(c, f)[6..] + Data(f) && Readable(c, f)
    ensures f.stream != VIDEO ==> FilePart(c, f) == Lead(c, f) + Data(f) && f.stream == AUDIO
    ensures Front(c, f) == Lead(c, f) + Data(f)[..162 - |Lead(c, f)|] && Back(c, f) == Data(f)[162 - |Lead(c, f)|..]
  {
    hide Data, TsFields.AdtsBytes;
    if f.stream == VIDEO {
      assert Lead(c, f)[6..] == if f.key then c.videoCsd else [];
    }
  }

  lemma SplitBehind(lead: seq<byte>, s: seq<byte>, n: nat, k: nat)
    requires n <= |s| && k <= |lead|
    ensures (lead + s[..n])[k..] + s[n..] == lead[k..] + s
  {
    assert s == s[..n] + s[n..];
  }

  lemma DemuxCons(p: TsPacket, ps: seq<TsPacket>)
    ensures DemuxAll([p] + ps) == Before(ExtractFrom(p, VIDEO_PID, AUDIO_PID), DemuxAll(ps))
  {
    assert ([p] + ps)[1..] == ps;
    hide ExtractFrom, Before;
  }

  lemma StuckIs(o: Output)
    ensures Before(Stuck, o) == Aborted
  {
  }

  // Main result for one frame: whatever the split into two blocks, the checker's loop gets the
  // frame's bytes back, exactly when an audio frame's length fits the PES header.
  lemma AccessUnitExtract(c: Config, f: Frame, cc: nat)
    requires Valid(c, f) && Supported(c, f) && cc < 16
    ensures DemuxAll(AccessUnit(c, f, cc)) == if Readable(c, f) then Wanted(f.stream, FilePart(c, f)) else Aborted
  {
    FrameParts(c, f, cc);
    hide DemuxAll, ExtractFrom, Wanted, FilePart, AccessUnit, FirstPacket, Rest, Front, Back, Valid, Supported, Before, Readable;
    var first, rest := FirstPacket(c, f, cc), Rest(PidOfStream(f.stream), Back(c, f), (cc + 1) % 16);
    DemuxCons(first, rest);
    RestExtract(f.stream, Back(c, f), (cc + 1) % 16);
    StuckIs(Wanted(f.stream, Back(c, f)));
    if f.stream == VIDEO {
      FirstExtractVideo(c, f, cc);
      WantedSnoc(f.stream, Front(c, f)[6..], Back(c, f));
    } else {
      FirstExtractAudio(c, f, cc);
      WantedSnoc(f.stream, Front(c, f), Back(c, f));
    }
  }

  lemma DefiniteFront(h: seq<byte>, p: TsPacket)
    requires |h| == 26 && p[..26] == h && h[0] == 0x47 && h[1] == 0x41 && h[2] == AUDIO_PID - 256
    requires (h[16] as int) * 256 + h[17] < 8
    ensures Definite(p)
  {
    assert p[0] == h[0] && p[1] == h[1] && p[2] == h[2] && p[16] == h[16] && p[17] == h[17];
  }

  lemma DefiniteCons(p: TsPacket, ps: seq<TsPacket>)
    requires Definite(p) && forall q :: q in ps ==> Definite(q)
    ensures forall q :: q in [p] + ps ==> Definite(q)
  {
  }

  lemma AccessUnitDefinite(c: Config, f: Frame, cc: nat)
    requires Valid(c, f) && Supported(c, f) && cc < 16
    ensures forall p :: p in AccessUnit(c, f, cc) ==> Definite(p)
  {
    AccessUnitExtract(c, f, cc);
    if Readable(c, f) {
      hide DemuxAll, Definite;
      NotAborted(AccessUnit(c, f, cc));
    } else {
      FrameParts(c, f, cc);
      FirstIs(c, f, cc);
      FirstMarked(c, f, cc);
      PesField(c, f, cc);
      RestExtract(f.stream, Back(c, f), (cc + 1) % 16);
      hide DemuxAll, Definite, FirstHeader, FirstPacket, Rest, Front, Back, Lead, Data, ExtractFrom;
      DefiniteFront(FirstHeader(c, f, cc), FirstPacket(c, f, cc));
      NotAborted(Rest(PidOfStream(f.stream), Back(c, f), (cc + 1) % 16));
      DefiniteCons(FirstPacket(c, f, cc), Rest(PidOfStream(f.stream), Back(c, f), (cc + 1) % 16));
    }
  }

  lemma TablesIgnored(c: Config, f: Frame, k: Counters)
    requires InRange(k)
    ensures DemuxAll(TablePackets(c, f, k)) == Output([], [])
    ensures forall p :: p in TablePackets(c, f, k) ==> Definite(p)
  {
    TableIgnored(PatPacket(k.pat), 0x40, 0x00, k.pat);
    TableIgnored(PmtPacket(c, k.pmt), 0x41, 0xe0, k.pmt);
    hide ExtractFrom, PatPacket, PmtPacket;
    var pat, pmt := PatPacket(k.pat), PmtPacket(c, k.pmt);
    DemuxCons(pmt, []);
    DemuxCons(pat, [pmt]);
    assert [pmt] + [] == [pmt];
  }

  lemma TableIgnored(p: TsPacket, high: byte, low: byte, cc: nat)
    requires p[..5] == TableHeader(high, low, cc) && ((high == 0x40 && low == 0) || (high == 0x41 && low == 0xe0))
    ensures ExtractFrom(p, VIDEO_PID, AUDIO_PID) == Nothing
  {
    var h := p[..5];
    assert p[1] == h[1] && p[2] == h[2];
  }

  // ---------------------------------------------------------------- whole runs

  // Everything one track wrote.
  function FileOf(c: Config, fs: seq<Frame>, stream: nat): seq<byte>
    requires AllSupported(c, fs)
  {
    if fs == [] then []
    else
      var f := fs[|fs| - 1];
      FileOf(c, fs[..|fs| - 1], stream) + (if f.stream == stream then FilePart(c, f) else [])
  }

  predicate AllReadable(c: Config, fs: seq<Frame>)
    requires AllSupported(c, fs)
  {
    forall i :: 0 <= i < |fs| ==> Readable(c, fs[i])
  }

  lemma FrameExtract(c: Config, f: Frame, k: Counters)
    requires InRange(k) && Valid(c, f) && Supported(c, f)
    ensures DemuxAll(FramePackets(c, f, k)) == if Readable(c, f) then Wanted(f.stream, FilePart(c, f)) else Aborted
    ensures forall p :: p in FramePackets(c, f, k) ==> Definite(p)
  {
    var cc := k.av[f.stream];
    assert cc < 16 && FramePackets(c, f, k) == TablePackets(c, f, k) + AccessUnit(c, f, cc);
    hide *;
    TablesIgnored(c, f, k);
    AccessUnitExtract(c, f, cc);
    AccessUnitDefinite(c, f, cc);
    DemuxAllAppend(TablePackets(c, f, k), AccessUnit(c, f, cc));
    JoinedLaws(DemuxAll(AccessUnit(c, f, cc)), Aborted, Aborted);
  }

  lemma JoinWanted(video: seq<byte>, audio: seq<byte>, stream: nat, b: seq<byte>)
    requires stream <= AUDIO
    ensures Joined(Output(video, audio), Wanted(stream, b))
         == Output(video + (if stream == VIDEO then b else []), audio + (if stream == AUDIO then b else []))
    ensures Joined(Output(video, audio), Aborted) == Aborted && Joined(Aborted, Wanted(stream, b)) == Aborted
    ensures Joined(Aborted, Aborted) == Aborted
  {
    assert video + [] == video && audio + [] == audio;
  }

  lemma RunSteps(c: Config, fs: seq<Frame>)
    requires AllSupported(c, fs) && fs != []
    ensures var init, f := fs[..|fs| - 1], fs[|fs| - 1];
            && AllSupported(c, init) && Valid(c, f) && Supported(c, f) && f.stream <= AUDIO
            && RunPackets(c, fs) == RunPackets(c, init) + FramePackets(c, f, RunCounters(c, init))
            && (AllReadable(c, fs) <==> AllReadable(c, init) && Readable(c, f))
            && (forall k :: 0 <= k < 2 ==>
                  FileOf(c, fs, k) == FileOf(c, init, k) + (if f.stream == k then FilePart(c, f) else []))
  {
    var init, f := fs[..|fs| - 1], fs[|fs| - 1];
    hide FramePackets, Supported, Readable, FilePart;
    assert forall i :: 0 <= i < |init| ==> init[i] == fs[i];
    assert forall i :: 0 <= i < |fs| ==> fs[i] == if i < |init| then init[i] else f;
  }

  lemma NoFrames(c: Config)
    ensures AllSupported(c, []) && RunPackets(c, []) == [] && DemuxAll([]) == Output([], []) && AllReadable(c, [])
    ensures FileOf(c, [], VIDEO) == [] && FileOf(c, [], AUDIO) == []
  {
  }

  lemma TracksApart()
    ensures VIDEO != AUDIO && 0 <= VIDEO < 2 && 0 <= AUDIO < 2
  {
  }

  lemma {:induction false} RunExtract(c: Config, fs: seq<Frame>)
    requires AllSupported(c, fs)
    ensures DemuxAll(RunPackets(c, fs))
         == if AllReadable(c, fs) then Output(FileOf(c, fs, VIDEO), FileOf(c, fs, AUDIO)) else Aborted
    ensures forall p :: p in RunPackets(c, fs) ==> Definite(p)
  {
    hide *;
    NoFrames(c);
    TracksApart();
    if fs != [] {
      RunSteps(c, fs);
      var init, f := fs[..|fs| - 1], fs[|fs| - 1];
      RunExtract(c, init);
      FrameExtract(c, f, RunCounters(c, init));
      DemuxAllAppend(RunPackets(c, init), FramePackets(c, f, RunCounters(c, init)));
      JoinWanted(FileOf(c, init, VIDEO), FileOf(c, init, AUDIO), f.stream, FilePart(c, f));
    }
  }

  // Main result: for every run of frames the muxer can write, the checker's loop applied to the
  // muxer's output returns exactly the two tracks, or, if some audio frame is too long for the PES
  // length, runs into a negative length.
  lemma RunRoundTrip(c: Config, fs: seq<Frame>, buf: seq<byte>)
    requires AllSupported(c, fs) && |buf| == BUF_SIZE
    ensures Demux(Flatten(RunPackets(c, fs)), buf, VIDEO_PID, AUDIO_PID)
         == if AllReadable(c, fs) then Output(FileOf(c, fs, VIDEO), FileOf(c, fs, AUDIO)) else Aborted
  {
    RunExtract(c, fs);
    DemuxPackets(RunPackets(c, fs), buf);
  }
}
