/**
 The MP4 muxer as the source runs it: counters and table pointers updated packet by packet, sample
 bytes streamed through the cache, and a trailer that replays the tables into the index.
 Its contracts tie it to the functions of Mp4Packets, Mp4Boxes and Mp4File.
 */
module Mp4Muxer {
  import opened Bytes
  import opened FileCache
  import opened Boxes
  import opened Mp4Packets
  import opened Mp4Boxes
  import opened Mp4File
  import Mp4Describe
  import Mp4Headers
  import F = FlatTables
  import Mp4Timing

  // Regions of the flat buffer, by table and track.
  function Stco(k: nat): (r: nat)
    requires k < 2
    ensures r < F.REGIONS
  {
    F.Region(F.STCO_ID, k)
  }

  function Stsz(k: nat): (r: nat)
    requires k < 2
    ensures r < F.REGIONS
  {
    F.Region(F.STSZ_ID, k)
  }

  function Stsc(k: nat): (r: nat)
    requires k < 2
    ensures r < F.REGIONS
  {
    F.Region(F.STSC_ID, k)
  }

  const STTS_REGION: nat := 6

  // The values the regions and the key-frame table stand for.
  function TablesOf(c: seq<seq<uint32>>, ks: seq<uint32>, k: nat): Mp4Packets.Tables
    requires |c| == F.REGIONS && k < 2
  {
    if k == VIDEO then Mp4Packets.Tables(c[0], c[2], c[4], c[6], ks) else Mp4Packets.Tables(c[1], c[3], c[5], [], [])
  }

  // What a change of stream pushes.
  function ChunkPushed(c: seq<seq<uint32>>, i: nat, last: int, count: nat, size: nat): (r: seq<seq<uint32>>)
    requires |c| == F.REGIONS && i < 2 && -1 <= last < 2 && size + MDAT_START < TWO_32 && count < TWO_32
    ensures |r| == F.REGIONS
  {
    var off: uint32, n: uint32 := size + MDAT_START, count;
    var c1 := c[Stco(i) := c[Stco(i)] + [off]];
    if last >= 0 then c1[Stsc(last) := c1[Stsc(last)] + [n]] else c1
  }

  // A push to a region is an append to one table of one track.
  lemma OpenChunkOnTables(c: seq<seq<uint32>>, ks: seq<uint32>, i: nat, last: int, count: nat, size: nat)
    requires |c| == F.REGIONS && i < 2 && -1 <= last < 2 && i != last
    requires size + MDAT_START < TWO_32 && count < TWO_32
    ensures var c' := ChunkPushed(c, i, last, count, size);
            Mov([TablesOf(c', ks, 0), TablesOf(c', ks, 1)], last, 0, size)
            == Mp4Packets.OpenChunk(Mov([TablesOf(c, ks, 0), TablesOf(c, ks, 1)], last, count, size), i)
  {
  }

  lemma CountSampleOnTables(c: seq<seq<uint32>>, ks: seq<uint32>, i: nat, size: uint32)
    requires |c| == F.REGIONS && i < 2
    ensures var c1 := c[Stsz(i) := c[Stsz(i)] + [size]];
            [TablesOf(c1, ks, 0), TablesOf(c1, ks, 1)]
            == var ts := [TablesOf(c, ks, 0), TablesOf(c, ks, 1)]; ts[i := ts[i].(stsz := ts[i].stsz + [size])]
  {
  }

  class MovContext {
    const tables: F.Tables
    const keys: array<uint32>
    const info: MovieInfo

    var mdatPos: nat
    var mdatStartPos: nat
    var freePos: nat
    var mdatSize: nat
    var stscCnt: nat
    var lastStreamIdx: int
    var counts: seq<nat>      // the stco, stsz, stsc and stts sizes of the tracks, by region
    var keyFrameNum: nat

    ghost const Repr: set<object> := {this, tables, tables.mem, keys}

    ghost predicate Valid()
      reads this, tables, tables.mem, keys
    {
      && tables.Valid() && (keys as object) != tables.mem
      && |counts| == |tables.contents| == F.REGIONS
      && (forall r :: 0 <= r < F.REGIONS ==> counts[r] == |tables.contents[r]|)
      && keyFrameNum <= keys.Length
      && -1 <= lastStreamIdx < 2
      && MovieOk(info)
    }

    // The key-frame numbers recorded so far.
    ghost function KeyList(): seq<uint32>
      reads this`keyFrameNum, keys
      requires keyFrameNum <= keys.Length
    {
      keys[..keyFrameNum]
    }

    // The tables as values.
    ghost function Abs(): (m: Mov)
      reads this, tables, tables.mem, keys
      requires Valid()
      ensures Shape(m)
    {
      var c, ks := tables.contents, KeyList();
      Mov([TablesOf(c, ks, 0), TablesOf(c, ks, 1)], lastStreamIdx, stscCnt, mdatSize)
    }

    constructor (info: MovieInfo, stcoCap: nat, stszCap: nat, tinyPage: nat, keyCap: nat)
      requires MovieOk(info)
      ensures Valid() && Abs() == INIT && this.info == info && fresh(Repr)
      ensures tables.read == tables.start
      ensures tables.stcoCap == stcoCap && tables.stszCap == stszCap && keys.Length == keyCap
    {
      hide MovieOk, Run;
      this.info := info;
      tables := new F.Tables.Open(stcoCap, stszCap, tinyPage);
      keys := new uint32[keyCap](_ => 0);
      mdatPos, mdatStartPos, freePos, mdatSize, stscCnt := 0, 0, 0, 0, 0;
      lastStreamIdx := -1;
      counts := [0, 0, 0, 0, 0, 0, 0];
      keyFrameNum := 0;
    }

    // *write_ptr++ = v, and the table's size goes up.
    method Push(r: nat, v: nat)
      requires Valid() && r < F.REGIONS && counts[r] < tables.Cap(r) && v < TWO_32
      modifies this`counts, tables`write, tables`contents, tables.mem
      ensures Valid()
      ensures tables.contents == old(tables.contents)[r := old(tables.contents[r]) + [v]]
      ensures KeyList() == old(KeyList())
      ensures counts == old(counts)[r := old(counts[r]) + 1]
    {
      tables.Push(r, v);
      counts := counts[r := counts[r] + 1];
    }

    // The check behind a push: past the end pointer, wrap to the start.
    method Wrap(r: nat)
      requires Valid() && r < F.REGIONS
      modifies tables`write
      ensures Valid() && KeyList() == old(KeyList())
    {
      tables.Wrap(r);
    }

    // The pushes a change of stream makes: the new chunk's offset, the old chunk's count.
    method PushChunk(i: nat)
      requires Valid() && i < 2 && i != lastStreamIdx && mdatStartPos == MDAT_START
      requires mdatSize + mdatStartPos < TWO_32 && stscCnt < TWO_32
      requires counts[Stco(i)] < tables.Cap(Stco(i))
      requires lastStreamIdx >= 0 ==> counts[Stsc(lastStreamIdx)] < tables.Cap(Stsc(lastStreamIdx))
      modifies this`counts, tables`write, tables`contents, tables.mem
      ensures Valid() && KeyList() == old(KeyList())
      ensures tables.contents == ChunkPushed(old(tables.contents), i, lastStreamIdx, stscCnt, mdatSize)
      ensures counts[Stsz(0)] == old(counts[Stsz(0)]) && counts[Stsz(1)] == old(counts[Stsz(1)])
      ensures counts[STTS_REGION] == old(counts[STTS_REGION])
    {
      hide F.Tables.Valid, F.Carving, F.Capacity, MovieOk, KeyList;
      Push(Stco(i), mdatSize + mdatStartPos);
      if lastStreamIdx >= 0 {
        CloseChunk();
        Wrap(Stsc(lastStreamIdx));
      }
      Wrap(Stco(i));
    }

    // The stream changed: a chunk opens for track i, the open chunk of the other track closes.
    method OpenChunk(i: nat)
      requires Valid() && i < 2 && i != lastStreamIdx && mdatStartPos == MDAT_START
      requires mdatSize + mdatStartPos < TWO_32 && stscCnt < TWO_32
      requires counts[Stco(i)] < tables.Cap(Stco(i))
      requires lastStreamIdx >= 0 ==> counts[Stsc(lastStreamIdx)] < tables.Cap(Stsc(lastStreamIdx))
      modifies this`counts, this`stscCnt, tables`write, tables`contents, tables.mem
      ensures Valid() && Abs() == Mp4Packets.OpenChunk(old(Abs()), i)
      ensures counts[Stsz(0)] == old(counts[Stsz(0)]) && counts[Stsz(1)] == old(counts[Stsz(1)])
      ensures counts[STTS_REGION] == old(counts[STTS_REGION])
    {
      OpenChunkOnTables(tables.contents, KeyList(), i, lastStreamIdx, stscCnt, mdatSize);
      hide F.Tables.Valid, F.Carving, F.Capacity, TablesOf, Mp4Packets.OpenChunk, MovieOk, KeyList, ChunkPushed;
      PushChunk(i);
      stscCnt := 0;
    }

    method CountSample(i: nat, size: nat)
      requires Valid() && i < 2 && size < TWO_32 && counts[Stsz(i)] < tables.Cap(Stsz(i))
      modifies this`counts, this`stscCnt, this`lastStreamIdx, tables`write, tables`contents, tables.mem
      ensures Valid() && Abs() == Mp4Packets.CountSample(old(Abs()), i, size)
      ensures counts[STTS_REGION] == old(counts[STTS_REGION])
    {
      assert |counts| == F.REGIONS && |tables.contents| == F.REGIONS;
      CountSampleOnTables(tables.contents, KeyList(), i, size);
      hide TablesOf, MovieOk, KeyList, F.Tables.Valid;
      lastStreamIdx := i;
      Push(Stsz(i), size);
      stscCnt := stscCnt + 1;
      Wrap(Stsz(i));
    }

    // The sample count of the open chunk goes into its track's stsc table.
    method CloseChunk()
      requires Valid() && lastStreamIdx >= 0 && stscCnt < TWO_32
      requires counts[Stsc(lastStreamIdx)] < tables.Cap(Stsc(lastStreamIdx))
      modifies this`counts, tables`write, tables`contents, tables.mem
      ensures Valid() && KeyList() == old(KeyList())
      ensures counts == old(counts)[Stsc(lastStreamIdx) := old(counts[Stsc(lastStreamIdx)]) + 1]
      ensures tables.contents == old(tables.contents)[Stsc(lastStreamIdx) := old(tables.contents[Stsc(lastStreamIdx)]) + [stscCnt]]
    {
      Push(Stsc(lastStreamIdx), stscCnt);
    }

    // The duration, and the key-frame entry if the packet is one.
    method NoteVideo(p: Packet) returns (ret: int)
      requires Valid() && Mp4Packets.Valid(p) && p.stream == VIDEO
      requires counts[STTS_REGION] < tables.Cap(STTS_REGION) && counts[STTS_REGION] + 1 < TWO_32 && keyFrameNum < keys.Length
      modifies this`counts, this`keyFrameNum, tables`write, tables`contents, tables.mem, keys
      ensures Valid()
      ensures Abs() == var m := old(Abs());
                       m.(tracks := m.tracks[VIDEO := Mp4Packets.NoteVideo(m.tracks[VIDEO], p, info.tracks[0].codec == H264)])
      ensures ret == if info.tracks[0].codec == H264 then 0 else -1
    {
      hide InfoOk, F.Carving, F.Capacity;
      ghost var c0, k0 := tables.contents, KeyList();
      Push(STTS_REGION, p.duration);
      Wrap(STTS_REGION);
      var tmpStrmByte: byte := 0;
      if |p.data0| >= 5 {
        tmpStrmByte := p.data0[4];
      } else if |p.data0| > 0 {
        tmpStrmByte := p.data1[4 - |p.data0|];
      }
      assert tables.contents == c0[STTS_REGION := c0[STTS_REGION] + [p.duration]];
      if info.tracks[0].codec != H264 {
        assert KeyList() == k0;
        return -1;
      }
      if tmpStrmByte % 32 == 5 {
        keys[keyFrameNum] := counts[STTS_REGION];
        keyFrameNum := keyFrameNum + 1;
        assert KeyList() == k0 + [|c0[STTS_REGION]| + 1];
      } else {
        assert KeyList() == k0;
      }
      return 0;
    }
  }

  // What one more packet needs: room in every table it touches, and 31-bit media data.
  ghost predicate HasRoom(mov: MovContext, p: Packet)
    reads mov, mov.tables
    requires |mov.counts| == F.REGIONS && -1 <= mov.lastStreamIdx < 2 && p.stream < 2
  {
    var t, i, last := mov.tables, p.stream, mov.lastStreamIdx;
    && MDAT_START + mov.mdatSize + Size(p) < 0x8000_0000
    && mov.counts[Stsz(i)] < t.Cap(Stsz(i))
    && (i == VIDEO ==> mov.counts[STTS_REGION] < t.Cap(STTS_REGION))
    && (i != last ==> mov.counts[Stco(i)] < t.Cap(Stco(i)))
    && (i != last && last >= 0 ==> mov.counts[Stsc(last)] < t.Cap(Stsc(last)))
  }

  // Everything mov_write_packet does to the context.
  method UpdateTables(mov: MovContext, p: Packet) returns (ret: int)
    requires mov.Valid() && Mp4Packets.Valid(p) && HasRoom(mov, p)
    requires mov.mdatStartPos == MDAT_START && mov.stscCnt < TWO_32 && mov.tables.stszCap < TWO_32
    requires p.stream == VIDEO ==> mov.keyFrameNum < mov.keys.Length
    modifies mov`counts, mov`stscCnt, mov`lastStreamIdx, mov`keyFrameNum, mov`mdatSize,
             mov.tables`write, mov.tables`contents, mov.tables.mem, mov.keys
    ensures mov.Valid()
    ensures var h264 := mov.info.tracks[0].codec == H264;
            mov.Abs() == Step(old(mov.Abs()), p, h264) && ret == if Refused(p, h264) then -1 else 0
  {
    hide MovieOk, F.Tables.Valid, F.Carving, TablesOf, Mp4Packets.OpenChunk, Mp4Packets.NoteVideo, Mp4Packets.Valid;
    if p.stream != mov.lastStreamIdx {
      mov.OpenChunk(p.stream);
    }
    mov.CountSample(p.stream, Size(p));
    if p.stream == VIDEO {
      ret := mov.NoteVideo(p);
      if ret != 0 {
        return -1;
      }
    }
    mov.mdatSize := mov.mdatSize + Size(p);
    return 0;
  }

  // The two writes that put a packet into the media data.
  method WriteData(pb: SimpleCache, p: Packet)
    requires pb.Valid() && Mp4Packets.Valid(p)
    modifies pb.Repr
    ensures pb.Valid() && pb.Logical() == WriteAt(old(pb.Logical()), Stored(p))
  {
    hide WriteAt, BE32;
    ghost var f, first, second: seq<byte> := pb.Logical(), [], [];
    var special := p.stream == VIDEO && Size(p) != 0;
    var skip := false;
    EmptyWrite(f);
    if |p.data0| > 0 {
      if !special {
        var _ := pb.Write(p.data0);
        first := p.data0;
      } else {
        var _ := pb.Write(BE32(Size(p) - 4));
        first := BE32(Size(p) - 4);
        if |p.data0| <= 4 {
          skip := true;
        } else {
          var _ := pb.Write(p.data0[4..]);
          WriteConcat(f, first, p.data0[4..]);
          first := first + p.data0[4..];
        }
      }
    }
    assert pb.Logical() == WriteAt(f, first);
    if |p.data1| > 0 {
      var nSkip := if skip then 4 - |p.data0| else 0;
      var _ := pb.Write(p.data1[nSkip..]);
      second := p.data1[nSkip..];
    } else {
      EmptyWrite(pb.Logical());
    }
    WriteConcat(f, first, second);
    assert Stored(p) == first + second;
  }

  // The header's three writes and its seek leave HEADER_BYTES.
  lemma HeaderFile()
    ensures var f := WriteAt(WriteAt(File([], 0), FTYP_BYTES), BE32(RESERVE - 28) + BE32(FREE));
            WriteAt(f.(pos := RESERVE), BE32(0) + BE32(MDAT)) == File(HEADER_BYTES, |HEADER_BYTES|)
  {
    hide BE32;
    var free := BE32(RESERVE - 28) + BE32(FREE);
    WriteAtEnd(File([], 0), FTYP_BYTES);
    assert [] + FTYP_BYTES == FTYP_BYTES;
    WriteAtEnd(File(FTYP_BYTES, 28), free);
    var g := File(FTYP_BYTES + free, RESERVE);
    var h := WriteAt(g, BE32(0) + BE32(MDAT));
    assert h.bytes == FTYP_BYTES + free + Fill(RESERVE - 36, 0) + (BE32(0) + BE32(MDAT));
    assert HEADER_BYTES == FTYP_BYTES + free + Fill(RESERVE - 36, 0) + (BE32(0) + BE32(MDAT));
  }

  // The state between packets: the run so far, and the file it has produced.
  ghost predicate Streaming(mov: MovContext, pb: SimpleCache, ps: seq<Packet>)
    reads mov, mov.tables, mov.tables.mem, mov.keys, pb.Repr
  {
    && mov.Valid() && pb.Valid() && mov.Repr !! pb.Repr
    && AllValid(ps) && mov.Abs() == Run(ps)
    && mov.mdatPos == RESERVE && mov.mdatStartPos == MDAT_START && mov.freePos == 28
    && mov.tables.read == mov.tables.start
    && mov.tables.stszCap <= mov.keys.Length && mov.tables.stszCap < TWO_32
    && pb.Logical() == File(HEADER_BYTES + Payload(ps), |HEADER_BYTES + Payload(ps)|)
  }

  method WriteHeaderBoxes(pb: SimpleCache)
    requires pb.Valid() && pb.Logical() == File([], 0)
    modifies pb.Repr
    ensures pb.Valid() && pb.Logical() == File(HEADER_BYTES, |HEADER_BYTES|)
  {
    hide WriteAt, BE32;
    HeaderFile();
    var _ := pb.Write(FTYP_BYTES);
    var _ := pb.Write(BE32(RESERVE - 28) + BE32(FREE));
    var _ := pb.Seek(RESERVE, Set);
    var _ := pb.Write(BE32(0) + BE32(MDAT));
  }

  method WriteHeader(mov: MovContext, pb: SimpleCache)
    requires mov.Valid() && pb.Valid() && mov.Repr !! pb.Repr
    requires mov.Abs() == INIT && pb.Logical() == File([], 0)
    requires mov.tables.read == mov.tables.start
    requires mov.tables.stszCap <= mov.keys.Length && mov.tables.stszCap < TWO_32
    modifies mov, pb.Repr
    ensures Streaming(mov, pb, [])
  {
    hide WriteAt, MovieOk, HEADER_BYTES;
    WriteHeaderBoxes(pb);
    mov.mdatPos := RESERVE;
    mov.mdatStartPos := mov.mdatPos + 8;
    mov.freePos := 28;
    assert HEADER_BYTES + [] == HEADER_BYTES;
  }

  // In every run the open chunk and the key-frame table are no larger than the sample tables.
  lemma RunCounts(ps: seq<Packet>)
    requires AllValid(ps)
    ensures var m := Run(ps);
            && |m.tracks[VIDEO].keys| <= |m.tracks[VIDEO].stts|
            && -1 <= m.last < 2 && (m.last >= 0 ==> m.count <= |m.tracks[m.last].stsz|)
            && (m.last < 0 ==> m.count == 0)
  {
    RunIndexRight(ps, 0);
    RunIndexRight(ps, 1);
    Mp4Timing.RunTimesAndKeys(ps);
    var v := Run(ps).tracks[VIDEO];
    Mp4Timing.KeysFit(v.keys, |v.stts|);
  }

  // One more packet: the tables and the file both follow, or, for a video codec other than H.264,
  // the call fails after the tables were touched and nothing is written.
  method WritePacket(mov: MovContext, pb: SimpleCache, p: Packet, ghost ps: seq<Packet>) returns (ret: int)
    requires Streaming(mov, pb, ps) && Mp4Packets.Valid(p) && HasRoom(mov, p)
    modifies mov, mov.tables, mov.tables.mem, mov.keys, pb.Repr
    ensures !Refused(p, mov.info.tracks[0].codec == H264) ==> ret == 0 && Streaming(mov, pb, ps + [p])
    ensures ret == if p.stream == 0 && mov.info.tracks[0].codec != H264 then -1 else 0
    ensures Refused(p, mov.info.tracks[0].codec == H264) ==>
              && ret == -1 && mov.Valid() && mov.Abs() == Step(Run(ps), p, false)
              && pb.Valid() && pb.Logical() == old(pb.Logical())
  {
    hide MovieOk, F.Tables.Valid, F.Carving, TablesOf, Step, Run, Mp4Packets.Valid, HEADER_BYTES, WriteAt, Stored;
    hide Payload, AllValid;
    RoomForOne(mov, p, ps);
    ret := UpdateTables(mov, p);
    if ret != 0 {
      return;
    }
    WriteData(pb, p);
    StepAsRun(ps, p);
    StoredAtEnd(ps, p);
  }

  lemma StoredAtEnd(ps: seq<Packet>, p: Packet)
    requires AllValid(ps) && AllValid(ps + [p]) && Mp4Packets.Valid(p)
    ensures var was, now := HEADER_BYTES + Payload(ps), HEADER_BYTES + Payload(ps + [p]);
            WriteAt(File(was, |was|), Stored(p)) == File(now, |now|)
  {
    hide WriteAt, Stored, HEADER_BYTES, AllValid, Mp4Packets.Valid;
    assert (ps + [p])[..|ps|] == ps;
    WriteAtEnd(File(HEADER_BYTES + Payload(ps), |HEADER_BYTES + Payload(ps)|), Stored(p));
    assert HEADER_BYTES + Payload(ps) + Stored(p) == HEADER_BYTES + Payload(ps + [p]);
  }

  lemma StepAsRun(ps: seq<Packet>, p: Packet)
    requires AllValid(ps) && Mp4Packets.Valid(p)
    ensures AllValid(ps + [p]) && Run(ps + [p]) == Step(Run(ps), p, true)
    ensures p.stream != VIDEO ==> Step(Run(ps), p, false) == Step(Run(ps), p, true)
  {
    assert (ps + [p])[..|ps|] == ps;
  }

  lemma RoomForOne(mov: MovContext, p: Packet, ps: seq<Packet>)
    requires mov.Valid() && AllValid(ps) && mov.Abs() == Run(ps) && Mp4Packets.Valid(p) && HasRoom(mov, p)
    requires mov.tables.stszCap <= mov.keys.Length && mov.tables.stszCap < TWO_32
    ensures mov.stscCnt < TWO_32
    ensures p.stream == VIDEO ==> mov.keyFrameNum < mov.keys.Length
  {
    RunCounts(ps);
    hide Run, MovieOk, F.Tables.Valid, F.Carving, Mp4Packets.Valid;
    var m := mov.Abs();
    assert mov.keyFrameNum == |m.tracks[VIDEO].keys| && |m.tracks[VIDEO].stts| == mov.counts[STTS_REGION];
    assert m.tracks[0].stsz == mov.tables.contents[2] && m.tracks[1].stsz == mov.tables.contents[3];
  }

  // ---------------------------------------------------------------- the trailer: replaying the tables

  // A box writer may be called: the parts are apart, and the tables stand for m.
  ghost predicate Ready(mov: MovContext, pb: SimpleCache, m: Mov, info: MovieInfo)
    reads mov, mov.tables, mov.tables.mem, mov.keys, pb.Repr
  {
    mov.Valid() && pb.Valid() && mov.Repr !! pb.Repr && mov.Abs() == m && mov.info == info
  }

  ghost predicate AtStart(t: F.Tables, r: nat)
    reads t
    requires r < F.REGIONS
  {
    |t.read| == |t.start| == F.REGIONS && t.read[r] == t.start[r]
  }

  // One loop of a table writer: n words straight from the read pointer.
  method ReplayWords(t: F.Tables, pb: SimpleCache, r: nat, n: nat)
    requires t.Valid() && pb.Valid() && {t, t.mem} !! pb.Repr && r < F.REGIONS && AtStart(t, r)
    requires n == |t.contents[r]|
    modifies t`read, pb.Repr
    ensures t.Valid() && pb.Valid()
    ensures pb.Logical() == WriteAt(old(pb.Logical()), Words(t.contents[r]))
    ensures t.read == old(t.read)[r := t.read[r]]
  {
    hide WriteAt, BE32, F.Carving;
    ghost var f, c := pb.Logical(), t.contents[r];
    EmptyWrite(f);
    var i := 0;
    while i < n
      invariant 0 <= i <= n == |c| && c == t.contents[r]
      invariant t.Valid() && pb.Valid()
      invariant t.read == old(t.read)[r := t.start[r] + i]
      invariant pb.Logical() == WriteAt(f, Words(c[..i]))
    {
      var v := t.Next(r);
      var _ := pb.Write(BE32(v));
      WordsSnoc(c[..i], v);
      assert c[..i + 1] == c[..i] + [v];
      WriteConcat(f, Words(c[..i]), BE32(v));
      i := i + 1;
    }
    assert c[..n] == c;
  }

  lemma WordsSnoc(ws: seq<int>, w: int)
    ensures Words(ws + [w]) == Words(ws) + BE32(w)
  {
    WordsAppend(ws, [w]);
    assert Words([w]) == BE32(w) + Words([w][1..]);
  }

  // The stsc loop: chunk number, samples in it, description 1.
  method ReplayStsc(t: F.Tables, pb: SimpleCache, r: nat, n: nat)
    requires t.Valid() && pb.Valid() && {t, t.mem} !! pb.Repr && r < F.REGIONS && AtStart(t, r)
    requires n == |t.contents[r]|
    modifies t`read, pb.Repr
    ensures t.Valid() && pb.Valid()
    ensures pb.Logical() == WriteAt(old(pb.Logical()), Words(StscWords(t.contents[r])))
    ensures t.read == old(t.read)[r := t.read[r]]
  {
    hide WriteAt, BE32, F.Carving, StscWords, Words;
    ghost var f, c: seq<nat> := pb.Logical(), t.contents[r];
    EmptyWrite(f);
    NoWords();
    var i := 0;
    while i < n
      invariant 0 <= i <= n == |c| && c == t.contents[r]
      invariant t.Valid() && pb.Valid()
      invariant t.read == old(t.read)[r := t.start[r] + i]
      invariant pb.Logical() == WriteAt(f, Words(StscWords(c[..i])))
    {
      var v := t.Next(r);
      var _ := pb.Write(BE32(i + 1) + BE32(v) + BE32(1));
      StscWordsSnoc(c[..i], v);
      assert c[..i + 1] == c[..i] + [v];
      WriteConcat(f, Words(StscWords(c[..i])), BE32(i + 1) + BE32(v) + BE32(1));
      i := i + 1;
    }
    assert c[..n] == c;
  }

  lemma NoWords()
    ensures Words([]) == [] && StscWords([]) == [] && SttsWords([]) == []
  {
  }

  lemma WordsSnoc3(ws: seq<int>, a: int, b: int, c: int)
    ensures Words(ws + [a, b, c]) == Words(ws) + (BE32(a) + BE32(b) + BE32(c))
  {
    hide BE32;
    WordsAppend(ws, [a, b, c]);
    WordsAppend([a, b], [c]);
    WordsSnoc([], a);
    WordsSnoc([a], b);
    WordsSnoc([], c);
    assert [a, b] + [c] == [a, b, c] && [a] + [b] == [a, b] && [] + [a] == [a] && [] + [c] == [c];
  }

  lemma StscWordsSnoc(counts: seq<nat>, v: nat)
    ensures Words(StscWords(counts + [v])) == Words(StscWords(counts)) + (BE32(|counts| + 1) + BE32(v) + BE32(1))
  {
    assert (counts + [v])[..|counts|] == counts;
    WordsSnoc3(StscWords(counts), |counts| + 1, v, 1);
  }

  // The video stts loop: the first entry is skipped.
  method ReplayStts(t: F.Tables, pb: SimpleCache, n: nat)
    requires t.Valid() && pb.Valid() && {t, t.mem} !! pb.Repr && AtStart(t, STTS_REGION)
    requires n == |t.contents[STTS_REGION]|
    modifies t`read, pb.Repr
    ensures t.Valid() && pb.Valid()
    ensures var c := t.contents[STTS_REGION];
            pb.Logical() == WriteAt(old(pb.Logical()), Words(SttsWords(if c == [] then [] else c[1..])))
    ensures t.read == old(t.read)[STTS_REGION := t.read[STTS_REGION]]
  {
    hide WriteAt, BE32, F.Carving, SttsWords, Words;
    ghost var f, c := pb.Logical(), t.contents[STTS_REGION];
    EmptyWrite(f);
    NoWords();
    var skipFirstFrame := true;
    var i := 0;
    while i < n
      invariant 0 <= i <= n == |c| && c == t.contents[STTS_REGION]
      invariant t.Valid() && pb.Valid() && skipFirstFrame == (i == 0)
      invariant t.read == old(t.read)[STTS_REGION := t.start[STTS_REGION] + i]
      invariant pb.Logical() == WriteAt(f, Words(SttsWords(if i == 0 then [] else c[1..i])))
    {
      var v := t.Next(STTS_REGION);
      i := i + 1;
      if skipFirstFrame {
        skipFirstFrame := false;
        assert c[1..1] == [];
        continue;
      }
      var _ := pb.Write(BE32(1) + BE32(v));
      SttsWordsSnoc(c[1..i - 1], v);
      assert c[1..i] == c[1..i - 1] + [v];
      WriteConcat(f, Words(SttsWords(c[1..i - 1])), BE32(1) + BE32(v));
    }
    assert n > 0 ==> c[1..n] == c[1..];
  }

  lemma SttsWordsSnoc(ds: seq<int>, v: int)
    ensures Words(SttsWords(ds + [v])) == Words(SttsWords(ds)) + (BE32(1) + BE32(v))
  {
    var ws := SttsWords(ds);
    assert (ds + [v])[..|ds|] == ds;
    WordsSnoc(ws, 1);
    WordsSnoc(ws + [1], v);
    assert ws + [1, v] == ws + [1] + [v];
  }

  // The stss loop reads the key-frame table by index.
  method ReplayKeys(mov: MovContext, pb: SimpleCache)
    requires mov.keyFrameNum <= mov.keys.Length && pb.Valid() && (mov.keys as object) !in pb.Repr && (mov as object) !in pb.Repr
    modifies pb.Repr
    ensures pb.Valid() && pb.Logical() == WriteAt(old(pb.Logical()), Words(mov.KeyList()))
  {
    hide WriteAt, BE32;
    ghost var f, c := pb.Logical(), mov.KeyList();
    EmptyWrite(f);
    var i := 0;
    while i < mov.keyFrameNum
      invariant 0 <= i <= mov.keyFrameNum == |c| && mov.KeyList() == c && mov.keyFrameNum <= mov.keys.Length
      invariant pb.Valid() && pb.Logical() == WriteAt(f, Words(c[..i]))
    {
      var v := mov.keys[i];
      assert v == c[i];
      var _ := pb.Write(BE32(v));
      WordsSnoc(c[..i], v);
      assert c[..i + 1] == c[..i] + [v];
      WriteConcat(f, Words(c[..i]), BE32(v));
      i := i + 1;
    }
    assert c[..i] == c;
  }

  // ---------------------------------------------------------------- the trailer: the boxes

  ghost predicate ChunksAtStart(t: F.Tables, k: nat)
    reads t
    requires k < 2
  {
    AtStart(t, Stco(k)) && AtStart(t, Stsz(k)) && AtStart(t, Stsc(k))
  }

  ghost predicate TrackAtStart(t: F.Tables, k: nat)
    reads t
    requires k < 2
  {
    ChunksAtStart(t, k) && (k == VIDEO ==> AtStart(t, STTS_REGION))
  }

  // Only read pointers of track k moved.
  ghost predicate OtherTrackKept(before: seq<nat>, after: seq<nat>, k: nat) {
    |before| == |after| == F.REGIONS && forall r :: 0 <= r < F.REGIONS && r % 2 != k ==> after[r] == before[r]
  }

  lemma TimesMoved(t: F.Tables, before: seq<nat>, k: nat)
    requires k < 2 && |before| == |t.start| == |t.read| == F.REGIONS
    requires t.read == (if k == VIDEO then before[STTS_REGION := t.read[STTS_REGION]] else before)
    requires before[Stco(k)] == t.start[Stco(k)] && before[Stsz(k)] == t.start[Stsz(k)] && before[Stsc(k)] == t.start[Stsc(k)]
    ensures ChunksAtStart(t, k) && OtherTrackKept(before, t.read, k)
  {
  }

  lemma TrackAtStartMeans(t: F.Tables, k: nat)
    requires k < 2 && TrackAtStart(t, k)
    ensures STTS_REGION < |t.read| == |t.start| == F.REGIONS && (k == VIDEO ==> AtStart(t, STTS_REGION))
    ensures t.read[Stco(k)] == t.start[Stco(k)] && t.read[Stsz(k)] == t.start[Stsz(k)] && t.read[Stsc(k)] == t.start[Stsc(k)]
  {
  }

  lemma TimesOutIs(i: TrackInfo, t: Mp4Packets.Tables)
    ensures var stts := WithHeader(SttsSize(i.video, CountsOf(t)), STTS, SttsFields(i.video, i.frameSize, t));
            TimesOut(i, t) == if i.video then stts + WithHeader(StssSize(|t.keys|), STSS, StssFields(t)) else stts
  {
  }

  lemma KeptTwice(a: seq<nat>, b: seq<nat>, c: seq<nat>, k: nat)
    requires OtherTrackKept(a, b, k) && OtherTrackKept(b, c, k)
    ensures OtherTrackKept(a, c, k)
  {
  }

  // What the counters say about track k, as the size family reads it.
  function TrackCounts(mov: MovContext, k: nat): Counts
    reads mov
    requires |mov.counts| == F.REGIONS && k < 2
  {
    var c := mov.counts;
    if k == VIDEO then Counts(c[0], c[2], c[4], c[6], mov.keyFrameNum) else Counts(c[1], c[3], c[5], 0, 0)
  }

  lemma ReadyCounts(mov: MovContext, pb: SimpleCache, m: Mov, info: MovieInfo)
    requires Shape(m) && Ready(mov, pb, m, info)
    ensures pb.Valid() && |mov.counts| == F.REGIONS && |m.tracks| == 2
    ensures TrackCounts(mov, 0) == CountsOf(m.tracks[0]) && TrackCounts(mov, 1) == CountsOf(m.tracks[1])
    ensures (mov.tables as object) !in pb.Repr && (mov as object) !in pb.Repr
    ensures MovieOk(info) ==> |info.tracks| == 2 && InfoOk(info.tracks[0]) && InfoOk(info.tracks[1])
  {
  }

  method WriteStts(mov: MovContext, pb: SimpleCache, k: nat, ghost m: Mov, info: MovieInfo)
    requires Shape(m) && MovieOk(info) && k < 2 && Ready(mov, pb, m, info) && (k == VIDEO ==> AtStart(mov.tables, STTS_REGION))
    modifies mov.tables`read, pb.Repr
    ensures Ready(mov, pb, m, info)
    ensures var i, t := info.tracks[k], m.tracks[k];
            pb.Logical() == WriteAt(old(pb.Logical()), WithHeader(SttsSize(i.video, CountsOf(t)), STTS, SttsFields(i.video, i.frameSize, t)))
    ensures k == VIDEO ==> mov.tables.read == old(mov.tables.read)[STTS_REGION := mov.tables.read[STTS_REGION]]
    ensures k != VIDEO ==> mov.tables.read == old(mov.tables.read)
  {
    hide WriteAt, BE32, Words, SttsWords, F.Tables.Valid, InfoOk;
    ghost var f, t := pb.Logical(), m.tracks[k];
    if k == VIDEO {
      var n := mov.counts[STTS_REGION];
      ghost var c := mov.tables.contents[STTS_REGION];
      ghost var ws := Words(SttsWords(if c == [] then [] else c[1..]));
      ghost var head := BE32(16 + n * 8) + BE32(STTS) + (BE32(0) + BE32(n));
      var _ := pb.Write(BE32(16 + n * 8) + BE32(STTS) + (BE32(0) + BE32(n)));
      ReplayStts(mov.tables, pb, n);
      WriteConcat(f, head, ws);
      var _ := pb.Write(BE32(1) + BE32(0));
      WriteConcat(f, head + ws, BE32(1) + BE32(0));
      assert head + ws + (BE32(1) + BE32(0))
          == WithHeader(SttsSize(true, CountsOf(t)), STTS, SttsFields(true, info.tracks[0].frameSize, t));
    } else {
      var n := mov.counts[Stsz(k)];
      var i := info.tracks[k];
      var _ := pb.Write(WithHeader(16 + 1 * 8, STTS, BE32(0) + BE32(1) + Words([n, i.frameSize])));
    }
  }

  method WriteStss(mov: MovContext, pb: SimpleCache, ghost m: Mov, ghost info: MovieInfo)
    requires Shape(m) && Ready(mov, pb, m, info)
    modifies pb.Repr
    ensures Ready(mov, pb, m, info)
    ensures var t := m.tracks[VIDEO];
            pb.Logical() == WriteAt(old(pb.Logical()), WithHeader(StssSize(|t.keys|), STSS, StssFields(t)))
  {
    hide WriteAt, BE32, Words, F.Tables.Valid, MovieOk;
    var n := mov.keyFrameNum;
    ghost var f, head := pb.Logical(), BE32(StssSize(n)) + BE32(STSS) + (BE32(0) + BE32(n));
    var _ := pb.Write(BE32(StssSize(n)) + BE32(STSS) + (BE32(0) + BE32(n)));
    ReplayKeys(mov, pb);
    WriteConcat(f, head, Words(mov.KeyList()));
    assert head + Words(mov.KeyList()) == WithHeader(StssSize(n), STSS, StssFields(m.tracks[VIDEO]));
  }

  method WriteStsc(mov: MovContext, pb: SimpleCache, k: nat, ghost m: Mov, info: MovieInfo)
    requires Shape(m) && MovieOk(info) && k < 2 && Ready(mov, pb, m, info) && AtStart(mov.tables, Stsc(k))
    modifies mov.tables`read, pb.Repr
    ensures Ready(mov, pb, m, info)
    ensures var t := m.tracks[k];
            pb.Logical() == WriteAt(old(pb.Logical()), WithHeader(StscSize(|t.stsc|), STSC, StscFields(t)))
    ensures mov.tables.read == old(mov.tables.read)[Stsc(k) := mov.tables.read[Stsc(k)]]
  {
    hide WriteAt, BE32, Words, StscWords, F.Tables.Valid, MovieOk;
    var n := mov.counts[Stsc(k)];
    ghost var f, head := pb.Logical(), BE32(StscSize(n)) + BE32(STSC) + (BE32(0) + BE32(n));
    ghost var c := mov.tables.contents[Stsc(k)];
    var _ := pb.Write(BE32(StscSize(n)) + BE32(STSC) + (BE32(0) + BE32(n)));
    ReplayStsc(mov.tables, pb, Stsc(k), n);
    WriteConcat(f, head, Words(StscWords(c)));
    assert head + Words(StscWords(c)) == WithHeader(StscSize(n), STSC, StscFields(m.tracks[k]));
  }

  method WriteStsz(mov: MovContext, pb: SimpleCache, k: nat, ghost m: Mov, info: MovieInfo)
    requires Shape(m) && MovieOk(info) && k < 2 && Ready(mov, pb, m, info) && AtStart(mov.tables, Stsz(k))
    modifies mov.tables`read, pb.Repr
    ensures Ready(mov, pb, m, info)
    ensures var t := m.tracks[k];
            pb.Logical() == WriteAt(old(pb.Logical()), WithHeader(StszSize(|t.stsz|), STSZ, StszFields(t)))
    ensures mov.tables.read == old(mov.tables.read)[Stsz(k) := mov.tables.read[Stsz(k)]]
  {
    hide WriteAt, BE32, Words, F.Tables.Valid, MovieOk;
    var n := mov.counts[Stsz(k)];
    ghost var f, head := pb.Logical(), BE32(StszSize(n)) + BE32(STSZ) + (BE32(0) + BE32(0) + BE32(n));
    ghost var c := mov.tables.contents[Stsz(k)];
    var _ := pb.Write(BE32(StszSize(n)) + BE32(STSZ) + (BE32(0) + BE32(0) + BE32(n)));
    ReplayWords(mov.tables, pb, Stsz(k), n);
    WriteConcat(f, head, Words(c));
    assert head + Words(c) == WithHeader(StszSize(n), STSZ, StszFields(m.tracks[k]));
  }

  method WriteStco(mov: MovContext, pb: SimpleCache, k: nat, ghost m: Mov, info: MovieInfo)
    requires Shape(m) && MovieOk(info) && k < 2 && Ready(mov, pb, m, info) && AtStart(mov.tables, Stco(k))
    modifies mov.tables`read, pb.Repr
    ensures Ready(mov, pb, m, info)
    ensures var t := m.tracks[k];
            pb.Logical() == WriteAt(old(pb.Logical()), WithHeader(StcoSize(|t.stco|), STCO, StcoFields(t)))
    ensures mov.tables.read == old(mov.tables.read)[Stco(k) := mov.tables.read[Stco(k)]]
  {
    hide WriteAt, BE32, Words, F.Tables.Valid, MovieOk;
    var n := mov.counts[Stco(k)];
    ghost var f, head := pb.Logical(), BE32(StcoSize(n)) + BE32(STCO) + (BE32(0) + BE32(n));
    ghost var c := mov.tables.contents[Stco(k)];
    var _ := pb.Write(BE32(StcoSize(n)) + BE32(STCO) + (BE32(0) + BE32(n)));
    ReplayWords(mov.tables, pb, Stco(k), n);
    WriteConcat(f, head, Words(c));
    assert head + Words(c) == WithHeader(StcoSize(n), STCO, StcoFields(m.tracks[k]));
  }

  method WriteTimes(mov: MovContext, pb: SimpleCache, k: nat, ghost m: Mov, info: MovieInfo)
    requires Shape(m) && MovieOk(info) && k < 2 && Ready(mov, pb, m, info) && TrackAtStart(mov.tables, k)
    modifies mov.tables`read, pb.Repr
    ensures Ready(mov, pb, m, info)
    ensures ChunksAtStart(mov.tables, k) && OtherTrackKept(old(mov.tables.read), mov.tables.read, k)
    ensures pb.Logical() == WriteAt(old(pb.Logical()), TimesOut(info.tracks[k], m.tracks[k]))
  {
    hide *;
    ReadyCounts(mov, pb, m, info);
    VideoFirst(info);
    TrackAtStartMeans(mov.tables, k);
    ghost var f, i, t, before := pb.Logical(), info.tracks[k], m.tracks[k], mov.tables.read;
    TimesOutIs(i, t);
    ghost var stts := WithHeader(SttsSize(i.video, CountsOf(t)), STTS, SttsFields(i.video, i.frameSize, t));
    WriteStts(mov, pb, k, m, info);
    if k == VIDEO {
      WriteStss(mov, pb, m, info);
      WriteConcat(f, stts, WithHeader(StssSize(|t.keys|), STSS, StssFields(t)));
    }
    TimesMoved(mov.tables, before, k);
  }

  method WriteChunks(mov: MovContext, pb: SimpleCache, k: nat, ghost m: Mov, info: MovieInfo)
    requires Shape(m) && MovieOk(info) && k < 2 && Ready(mov, pb, m, info) && ChunksAtStart(mov.tables, k)
    modifies mov.tables`read, pb.Repr
    ensures Ready(mov, pb, m, info) && OtherTrackKept(old(mov.tables.read), mov.tables.read, k)
    ensures pb.Logical() == WriteAt(old(pb.Logical()), ChunksOut(m.tracks[k]))
  {
    hide *;
    ReadyCounts(mov, pb, m, info);
    ghost var f, t := pb.Logical(), m.tracks[k];
    ChunksOutIs(t);
    ChunksAtStartMeans(mov.tables, k);
    ghost var before := mov.tables.read;
    ghost var stsc := WithHeader(StscSize(|t.stsc|), STSC, StscFields(t));
    ghost var stsz := WithHeader(StszSize(|t.stsz|), STSZ, StszFields(t));
    ghost var stco := WithHeader(StcoSize(|t.stco|), STCO, StcoFields(t));
    WriteConcat(f, stsc, stsz);
    WriteConcat(f, stsc + stsz, stco);
    WriteStsc(mov, pb, k, m, info);
    ChunksMoved(mov.tables, before, k);
    WriteStsz(mov, pb, k, m, info);
    ChunksMoved(mov.tables, before, k);
    WriteStco(mov, pb, k, m, info);
    ChunksMoved(mov.tables, before, k);
  }

  lemma ChunksOutIs(t: Mp4Packets.Tables)
    ensures ChunksOut(t) == WithHeader(StscSize(|t.stsc|), STSC, StscFields(t))
                            + WithHeader(StszSize(|t.stsz|), STSZ, StszFields(t))
                            + WithHeader(StcoSize(|t.stco|), STCO, StcoFields(t))
  {
  }

  lemma ChunksAtStartMeans(t: F.Tables, k: nat)
    requires k < 2 && ChunksAtStart(t, k)
    ensures AtStart(t, Stsc(k)) && AtStart(t, Stsz(k)) && AtStart(t, Stco(k)) && |t.read| == |t.start| == F.REGIONS
    ensures t.read[Stco(k)] == t.start[Stco(k)] && t.read[Stsz(k)] == t.start[Stsz(k)] && t.read[Stsc(k)] == t.start[Stsc(k)]
  {
  }

  // The chunk tables are replayed in the order stsc, stsz, stco.
  lemma ChunksMoved(t: F.Tables, before: seq<nat>, k: nat)
    requires k < 2 && |before| == |t.start| == |t.read| == F.REGIONS
    requires t.read == before[Stsc(k) := t.read[Stsc(k)]]
          || t.read == before[Stsc(k) := t.read[Stsc(k)]][Stsz(k) := t.read[Stsz(k)]]
          || t.read == before[Stsc(k) := t.read[Stsc(k)]][Stsz(k) := t.read[Stsz(k)]][Stco(k) := t.read[Stco(k)]]
    ensures OtherTrackKept(before, t.read, k)
    ensures t.read[Stsz(k)] == before[Stsz(k)] == t.start[Stsz(k)] ==> AtStart(t, Stsz(k))
    ensures t.read[Stco(k)] == before[Stco(k)] == t.start[Stco(k)] ==> AtStart(t, Stco(k))
    ensures Stco(k) != Stsc(k) && Stsz(k) != Stsc(k) && Stco(k) != Stsz(k)
  {
  }

  // A write through the cache leaves the context alone.
  method Put(mov: MovContext, pb: SimpleCache, b: seq<byte>, ghost m: Mov, ghost info: MovieInfo)
    requires Shape(m) && Ready(mov, pb, m, info)
    modifies pb.Repr
    ensures Ready(mov, pb, m, info) && pb.Logical() == WriteAt(old(pb.Logical()), b)
  {
    hide WriteAt, F.Tables.Valid, MovieOk, TablesOf;
    var _ := pb.Write(b);
  }

  // The sample description goes out behind the context's back.
  method WriteStsd(mov: MovContext, pb: SimpleCache, k: nat, ghost m: Mov, info: MovieInfo)
    requires Shape(m) && MovieOk(info) && k < 2 && Ready(mov, pb, m, info) && CsdOk(info.tracks[k])
    modifies pb.Repr
    ensures Ready(mov, pb, m, info)
    ensures pb.Logical() == WriteAt(old(pb.Logical()), StsdOut(info.tracks[k], k + 1))
  {
    hide WriteAt, F.Tables.Valid, InfoOk, CsdOk, TablesOf, StsdOut;
    Mp4Describe.WriteStsd(pb, info.tracks[k], k + 1);
  }

  // stsd, then the tables.
  method WriteStbl(mov: MovContext, pb: SimpleCache, k: nat, ghost m: Mov, info: MovieInfo)
    requires Shape(m) && MovieOk(info) && k < 2 && Ready(mov, pb, m, info) && TrackAtStart(mov.tables, k)
    requires CsdOk(info.tracks[k])
    modifies mov.tables`read, pb.Repr
    ensures Ready(mov, pb, m, info) && OtherTrackKept(old(mov.tables.read), mov.tables.read, k)
    ensures pb.Logical() == WriteAt(old(pb.Logical()), StblOut(info.tracks[k], k + 1, m.tracks[k]))
  {
    hide *;
    ReadyCounts(mov, pb, m, info);
    ghost var f, t := pb.Logical(), m.tracks[k];
    var i, head := info.tracks[k], BE32(StblSize(info.tracks[k], TrackCounts(mov, k))) + BE32(STBL);
    ghost var stsd := StsdOut(i, k + 1);
    OutInParts(i, k + 1, t, 0, []);
    WriteConcat(f, head, stsd);
    WriteConcat(f, head + stsd, TimesOut(i, t));
    WriteConcat(f, head + stsd + TimesOut(i, t), ChunksOut(t));
    ghost var r0 := mov.tables.read;
    Put(mov, pb, head, m, info);
    WriteStsd(mov, pb, k, m, info);
    WriteTimes(mov, pb, k, m, info);
    ghost var r1 := mov.tables.read;
    WriteChunks(mov, pb, k, m, info);
    KeptTwice(r0, r1, mov.tables.read, k);
  }

  // stbl's ancestors: each writes its own header and the straight-line boxes, then the next one.
  method WriteMinf(mov: MovContext, pb: SimpleCache, k: nat, ghost m: Mov, info: MovieInfo)
    requires Shape(m) && MovieOk(info) && k < 2 && Ready(mov, pb, m, info) && TrackAtStart(mov.tables, k)
    requires CsdOk(info.tracks[k])
    modifies mov.tables`read, pb.Repr
    ensures Ready(mov, pb, m, info) && OtherTrackKept(old(mov.tables.read), mov.tables.read, k)
    ensures pb.Logical() == WriteAt(old(pb.Logical()), MinfOut(info.tracks[k], k + 1, m.tracks[k]))
  {
    hide *;
    ReadyCounts(mov, pb, m, info);
    ghost var f, t := pb.Logical(), m.tracks[k];
    var i, head := info.tracks[k], MinfOpen(info.tracks[k], TrackCounts(mov, k));
    OutInParts(i, k + 1, t, 0, []);
    WriteConcat(f, head, StblOut(i, k + 1, t));
    Put(mov, pb, head, m, info);
    WriteStbl(mov, pb, k, m, info);
  }

  method WriteMdia(mov: MovContext, pb: SimpleCache, k: nat, ghost m: Mov, info: MovieInfo)
    requires Shape(m) && MovieOk(info) && k < 2 && Ready(mov, pb, m, info) && TrackAtStart(mov.tables, k)
    requires CsdOk(info.tracks[k])
    modifies mov.tables`read, pb.Repr
    ensures Ready(mov, pb, m, info) && OtherTrackKept(old(mov.tables.read), mov.tables.read, k)
    ensures pb.Logical() == WriteAt(old(pb.Logical()),
              MdiaOut(info.tracks[k], k + 1, m.tracks[k], info.createTime, info.title))
  {
    hide *;
    ReadyCounts(mov, pb, m, info);
    ghost var f, t := pb.Logical(), m.tracks[k];
    var i := info.tracks[k];
    var head := MdiaOpen(i, TrackCounts(mov, k), info.createTime, info.title);
    OutInParts(i, k + 1, t, info.createTime, info.title);
    WriteConcat(f, head, MinfOut(i, k + 1, t));
    Put(mov, pb, head, m, info);
    WriteMinf(mov, pb, k, m, info);
  }

  method WriteTrak(mov: MovContext, pb: SimpleCache, k: nat, ghost m: Mov, info: MovieInfo)
    requires Shape(m) && MovieOk(info) && k < 2 && Ready(mov, pb, m, info) && TrackAtStart(mov.tables, k)
    requires CsdOk(info.tracks[k])
    modifies mov.tables`read, pb.Repr
    ensures Ready(mov, pb, m, info) && OtherTrackKept(old(mov.tables.read), mov.tables.read, k)
    ensures pb.Logical() == WriteAt(old(pb.Logical()),
              TrakOut(info.tracks[k], k + 1, m.tracks[k], info.createTime, info.title))
  {
    hide *;
    ReadyCounts(mov, pb, m, info);
    ghost var f, t := pb.Logical(), m.tracks[k];
    var i := info.tracks[k];
    var head := TrakOpen(i, k + 1, TrackCounts(mov, k), info.createTime, info.title);
    OutInParts(i, k + 1, t, info.createTime, info.title);
    WriteConcat(f, head, MdiaOut(i, k + 1, t, info.createTime, info.title));
    Put(mov, pb, head, m, info);
    WriteMdia(mov, pb, k, m, info);
  }

  // ---------------------------------------------------------------- moov and the trailer

  function MoovOpen(info: MovieInfo, size: nat): seq<byte>
    requires |info.tracks| == 2
  {
    BE32(size) + BE32(MOOV) + MoovHead(info)
  }

  lemma MoovInParts(info: MovieInfo, m: Mov)
    requires MovieOk(info) && TablesOk(m)
    ensures MoovBytes(info, m) == MoovOpen(info, MoovSize(info, m)) + TrakBytes(info, m, 0) + TrakBytes(info, m, 1)
    ensures forall k :: 0 <= k < 2 ==>
              TrakBytes(info, m, k) == if |m.tracks[k].stsz| > 0
                                       then TrakOut(info.tracks[k], k + 1, m.tracks[k], info.createTime, info.title) else []
  {
    hide BE32, InfoOk, MoovHead, TrakOut;
  }

  // What writing moov puts behind it when it stays in the reserve.
  function FreeHeader(size: nat): seq<byte> {
    if Fits(size) then BE32(RESERVE - size - 28) + BE32(FREE) else []
  }

  // Where the trailer starts to write.
  function MoovPlace(f: File, size: nat): File {
    if Fits(size) then f.(pos := 28) else f
  }

  lemma OtherTrackAtStart(t: F.Tables, before: seq<nat>)
    requires OtherTrackKept(before, t.read, 0) && |t.start| == F.REGIONS
    requires before[Stco(1)] == t.start[Stco(1)] && before[Stsz(1)] == t.start[Stsz(1)] && before[Stsc(1)] == t.start[Stsc(1)]
    ensures TrackAtStart(t, 1)
  {
  }

  lemma MoovFacts(mov: MovContext, pb: SimpleCache, m: Mov, info: MovieInfo)
    requires Shape(m) && Ready(mov, pb, m, info) && MovieOk(info) && TablesOk(m)
    ensures MoovTagSize(info, [TrackCounts(mov, 0), TrackCounts(mov, 1)]) == MoovSize(info, m)
    ensures mov.counts[Stsz(0)] == |m.tracks[0].stsz| && mov.counts[Stsz(1)] == |m.tracks[1].stsz|
    ensures forall f: File :: MoovPlace(f, MoovSize(info, m)) == if Fits(MoovSize(info, m)) then f.(pos := 28) else f
    ensures !Fits(MoovSize(info, m)) ==> FreeHeader(MoovSize(info, m)) == []
    ensures MoovBytes(info, m) == MoovOpen(info, MoovSize(info, m)) + TrakBytes(info, m, 0) + TrakBytes(info, m, 1)
    ensures forall k :: 0 <= k < 2 ==>
              TrakBytes(info, m, k) == if |m.tracks[k].stsz| > 0
                                       then TrakOut(info.tracks[k], k + 1, m.tracks[k], info.createTime, info.title) else []
  {
    MoovInParts(info, m);
    hide MoovOpen, TrakBytes, MoovBytes, TrakOut, MoovSize, Fits, FreeHeader;
  }

  // Seeking leaves the context alone.
  method SeekTo(mov: MovContext, pb: SimpleCache, pos: nat, ghost m: Mov, ghost info: MovieInfo)
    requires Shape(m) && Ready(mov, pb, m, info)
    modifies pb.Repr
    ensures Ready(mov, pb, m, info) && pb.Logical() == old(pb.Logical()).(pos := pos)
  {
    hide WriteAt, F.Tables.Valid, MovieOk, TablesOf;
    var _ := pb.Seek(pos, Set);
  }

  method WriteMoov(mov: MovContext, pb: SimpleCache, ghost m: Mov, info: MovieInfo)
    requires Shape(m) && MovieOk(info) && TablesOk(m) && Ready(mov, pb, m, info)
    requires TrackAtStart(mov.tables, 0) && TrackAtStart(mov.tables, 1) && mov.freePos == 28
    requires CsdOk(info.tracks[0]) && CsdOk(info.tracks[1])
    modifies mov.tables`read, pb.Repr
    ensures Ready(mov, pb, m, info)
    ensures pb.Logical() == WriteAt(MoovPlace(old(pb.Logical()), MoovSize(info, m)),
                                    MoovBytes(info, m) + FreeHeader(MoovSize(info, m)))
  {
    hide *;
    ReadyCounts(mov, pb, m, info);
    MoovFacts(mov, pb, m, info);
    TrackAtStartMeans(mov.tables, 1);
    var size := MoovTagSize(info, [TrackCounts(mov, 0), TrackCounts(mov, 1)]);
    var open, free := MoovOpen(info, size), FreeHeader(size);
    ghost var f, b0, b1 := MoovPlace(pb.Logical(), size), TrakBytes(info, m, 0), TrakBytes(info, m, 1);
    ghost var before := mov.tables.read;
    if Fits(size) {
      SeekTo(mov, pb, mov.freePos, m, info);
    }
    Put(mov, pb, open, m, info);
    if mov.counts[Stsz(0)] > 0 {
      WriteTrak(mov, pb, 0, m, info);
      OtherTrackAtStart(mov.tables, before);
      WriteConcat(f, open, b0);
    }
    ReadyCounts(mov, pb, m, info);
    assert pb.Logical() == WriteAt(f, open + b0) by { assert open + [] == open; }
    if mov.counts[Stsz(1)] > 0 {
      WriteTrak(mov, pb, 1, m, info);
      WriteConcat(f, open + b0, b1);
    }
    ReadyCounts(mov, pb, m, info);
    assert pb.Logical() == WriteAt(f, open + b0 + b1) by { assert open + b0 + [] == open + b0; }
    if Fits(size) {
      Put(mov, pb, free, m, info);
      WriteConcat(f, open + b0 + b1, free);
    } else {
      assert open + b0 + b1 + [] == open + b0 + b1;
    }
  }

  // ---- the file the trailer leaves

  const RESERVE_BOX: seq<byte> := WithHeader(RESERVE - 28, FREE, Fill(RESERVE - 36, 0))
  const OPEN_MDAT: seq<byte> := WithHeader(0, MDAT, [])

  lemma HeaderInParts()
    ensures HEADER_BYTES == FTYP_BYTES + RESERVE_BOX + OPEN_MDAT
    ensures |FTYP_BYTES| == 28 && |RESERVE_BOX| == RESERVE - 28 && OPEN_MDAT == BE32(0) + BE32(MDAT)
  {
    hide BE32;
    assert BE32(0) + BE32(MDAT) + [] == BE32(0) + BE32(MDAT);
  }

  // moov overwrites the front of the reserve; the rest of the reserve is still zeros, and nothing
  // behind the reserve is touched.
  lemma ReserveFilled(size: nat, moov: seq<byte>, tail: seq<byte>)
    requires Fits(size) && |moov| == size >= 8
    ensures WriteAt(File(FTYP_BYTES + RESERVE_BOX + tail, 28), moov + FreeHeader(size)).bytes
         == FTYP_BYTES + moov + WithHeader(RESERVE - size - 28, FREE, Fill(RESERVE - size - 36, 0)) + tail
  {
    HeaderInParts();
    var b := moov + FreeHeader(size);
    assert |b| == size + 8;
    var rest := Fill(RESERVE - size - 36, 0);
    assert RESERVE_BOX[size + 8..] == rest;
    hide BE32, FTYP_FIELDS;
    var f := FTYP_BYTES + RESERVE_BOX + tail;
    assert f == FTYP_BYTES + RESERVE_BOX[..size + 8] + (rest + tail);
    WriteInside(File(f, 28), b, FTYP_BYTES, RESERVE_BOX[..size + 8], rest + tail);
    assert FTYP_BYTES + b + (rest + tail)
        == FTYP_BYTES + moov + WithHeader(RESERVE - size - 28, FREE, rest) + tail;
  }

  // The size patch replaces the open mdat header's four zero bytes and nothing else.
  lemma MdatClosed(front: seq<byte>, payload: seq<byte>, back: seq<byte>, total: nat, pos: nat)
    requires |front| == RESERVE == pos
    ensures WriteAt(File(front + OPEN_MDAT + payload + back, pos), BE32(total + 8)).bytes
         == front + WithHeader(total + 8, MDAT, payload) + back
  {
    HeaderInParts();
    hide BE32;
    var post := BE32(MDAT) + payload + back;
    assert front + OPEN_MDAT + payload + back == front + BE32(0) + post;
    WriteInside(File(front + BE32(0) + post, pos), BE32(total + 8), front, BE32(0), post);
    assert front + BE32(total + 8) + post == front + WithHeader(total + 8, MDAT, payload) + back;
  }

  // The bytes after the trailer's writes, starting from a streamed run.
  function AfterTrailer(info: MovieInfo, ps: seq<Packet>): File
    requires MovieOk(info) && AllValid(ps) && ps != []
  {
    var m := Final(ps);
    var f := File(HEADER_BYTES + Payload(ps), |HEADER_BYTES + Payload(ps)|);
    var g := WriteAt(MoovPlace(f, MoovSize(info, m)), MoovBytes(info, m) + FreeHeader(MoovSize(info, m)));
    WriteAt(g.(pos := RESERVE), BE32(TotalSize(ps) + 8))
  }

  lemma TrailerInReserve(size: nat, moov: seq<byte>, payload: seq<byte>, total: nat)
    requires Fits(size) && |moov| == size >= 8
    ensures var g := WriteAt(File(HEADER_BYTES + payload, 28), moov + FreeHeader(size));
            WriteAt(g.(pos := RESERVE), BE32(total + 8)).bytes
            == FTYP_BYTES + moov + WithHeader(RESERVE - size - 28, FREE, Fill(RESERVE - size - 36, 0))
               + WithHeader(total + 8, MDAT, payload)
  {
    HeaderInParts();
    var free := WithHeader(RESERVE - size - 28, FREE, Fill(RESERVE - size - 36, 0));
    var front := FTYP_BYTES + moov + free;
    assert |front| == RESERVE;
    hide *;
    assert HEADER_BYTES + payload == FTYP_BYTES + RESERVE_BOX + (OPEN_MDAT + payload);
    ReserveFilled(size, moov, OPEN_MDAT + payload);
    assert front + (OPEN_MDAT + payload) == front + OPEN_MDAT + payload + [];
    MdatClosed(front, payload, [], total, RESERVE);
    assert front + WithHeader(total + 8, MDAT, payload) + [] == front + WithHeader(total + 8, MDAT, payload);
  }

  lemma TrailerBehind(moov: seq<byte>, payload: seq<byte>, total: nat)
    ensures var g := WriteAt(File(HEADER_BYTES + payload, |HEADER_BYTES + payload|), moov);
            WriteAt(g.(pos := RESERVE), BE32(total + 8)).bytes
            == FTYP_BYTES + RESERVE_BOX + WithHeader(total + 8, MDAT, payload) + moov
  {
    HeaderInParts();
    var front := FTYP_BYTES + RESERVE_BOX;
    assert |front| == RESERVE;
    hide *;
    WriteAtEnd(File(HEADER_BYTES + payload, |HEADER_BYTES + payload|), moov);
    assert HEADER_BYTES + payload + moov == front + OPEN_MDAT + payload + moov;
    MdatClosed(front, payload, moov, total, RESERVE);
  }

  lemma MoovLength(info: MovieInfo, ps: seq<Packet>)
    requires Legal(info, ps)
    ensures MovieOk(info) && AllValid(ps) && ps != []
    ensures |MoovBytes(info, Final(ps))| == MoovSize(info, Final(ps)) >= 8
  {
    MoovAgrees(info, Final(ps));
  }

  // The two places unfolded.
  lemma AfterTrailerCases(info: MovieInfo, ps: seq<Packet>)
    requires MovieOk(info) && AllValid(ps) && ps != []
    ensures var size, moov, payload := MoovSize(info, Final(ps)), MoovBytes(info, Final(ps)), Payload(ps);
            var total, pos := TotalSize(ps), if Fits(size) then 28 else |HEADER_BYTES + payload|;
            var g := WriteAt(File(HEADER_BYTES + payload, pos), if Fits(size) then moov + FreeHeader(size) else moov);
            && AfterTrailer(info, ps) == WriteAt(g.(pos := RESERVE), BE32(total + 8))
            && FileBytes(info, ps) ==
               if Fits(size) then
                 FTYP_BYTES + moov + WithHeader(RESERVE - size - 28, FREE, Fill(RESERVE - size - 36, 0))
                 + WithHeader(total + 8, MDAT, payload)
               else FTYP_BYTES + RESERVE_BOX + WithHeader(total + 8, MDAT, payload) + moov
  {
    hide BE32, WithHeader, MoovBytes, Payload, TotalSize, MovieOk, Final, MoovSize, WriteAt, FTYP_FIELDS, TablesOk;
    var moov := MoovBytes(info, Final(ps));
    assert moov + [] == moov;
  }

  lemma TrailerFile(info: MovieInfo, ps: seq<Packet>)
    requires Legal(info, ps)
    ensures MovieOk(info) && AllValid(ps) && ps != []
    ensures AfterTrailer(info, ps).bytes == FileBytes(info, ps)
  {
    hide *;
    MoovLength(info, ps);
    var size, moov := MoovSize(info, Final(ps)), MoovBytes(info, Final(ps));
    AfterTrailerCases(info, ps);
    if Fits(size) {
      TrailerInReserve(size, moov, Payload(ps), TotalSize(ps));
    } else {
      TrailerBehind(moov, Payload(ps), TotalSize(ps));
    }
  }

  // ---- the trailer itself

  lemma FinishOnTables(c: seq<seq<uint32>>, ks: seq<uint32>, last: int, count: uint32, size: nat)
    requires |c| == F.REGIONS && 0 <= last < 2
    ensures var c' := c[Stsc(last) := c[Stsc(last)] + [count]];
            Mov([TablesOf(c', ks, 0), TablesOf(c', ks, 1)], last, count, size)
            == Finish(Mov([TablesOf(c, ks, 0), TablesOf(c, ks, 1)], last, count, size))
  {
  }

  // The pseudo packet of the trailer: the chunk still open gets its stsc entry.
  method CloseLastChunk(mov: MovContext)
    requires mov.Valid() && mov.lastStreamIdx >= 0 && mov.stscCnt < TWO_32
    requires mov.counts[Stsc(mov.lastStreamIdx)] < mov.tables.Cap(Stsc(mov.lastStreamIdx))
    modifies mov`counts, mov.tables`write, mov.tables`contents, mov.tables.mem
    ensures mov.Valid() && mov.Abs() == Finish(old(mov.Abs()))
  {
    FinishOnTables(mov.tables.contents, mov.KeyList(), mov.lastStreamIdx, mov.stscCnt, mov.mdatSize);
    hide F.Tables.Valid, F.Carving, F.Capacity, TablesOf, Finish, MovieOk, MovContext.KeyList;
    mov.CloseChunk();
  }

  // Flush, go to the end, and report the length.
  method CloseFile(pb: SimpleCache) returns (filesize: int)
    requires pb.Valid()
    modifies pb.Repr
    ensures pb.Valid() && pb.stream.file.bytes == old(pb.Logical()).bytes
    ensures filesize == |pb.stream.file.bytes|
  {
    hide WriteAt;
    var _ := pb.Flush();
    var _ := pb.Seek(0, End);
    filesize := pb.Tell();
    var _ := pb.Flush();
  }

  lemma StreamingParts(mov: MovContext, pb: SimpleCache, ps: seq<Packet>)
    requires Streaming(mov, pb, ps) && ps != []
    ensures mov.Valid() && pb.Valid() && mov.Repr !! pb.Repr && AllValid(ps)
    ensures mov.Abs() == Run(ps) && mov.mdatPos == RESERVE && mov.freePos == 28 && mov.mdatSize == TotalSize(ps)
    ensures mov.tables.read == mov.tables.start && |mov.tables.start| == F.REGIONS
    ensures 0 <= mov.lastStreamIdx < 2 && mov.stscCnt < TWO_32
    ensures pb.Logical() == File(HEADER_BYTES + Payload(ps), |HEADER_BYTES + Payload(ps)|)
  {
    RunCounts(ps);
    RunIndexRight(ps, 0);
    hide Run, HEADER_BYTES, MovieOk;
    var m := mov.Abs();
    assert m.tracks[0].stsz == mov.tables.contents[2] && m.tracks[1].stsz == mov.tables.contents[3];
    assert Mp4Packets.Valid(ps[|ps| - 1]);
  }

  lemma ReplayedFromStart(t: F.Tables)
    requires t.read == t.start && |t.start| == F.REGIONS
    ensures TrackAtStart(t, 0) && TrackAtStart(t, 1)
  {
  }

  lemma FinalIs(ps: seq<Packet>)
    requires AllValid(ps) && ps != []
    ensures Shape(Run(ps)) && Run(ps).last >= 0 && Finish(Run(ps)) == Final(ps) && Shape(Final(ps)) && TablesOk(Final(ps))
    ensures Final(ps).mdatSize == TotalSize(ps)
  {
    RunIndexRight(ps, 0);
    assert Final(ps) == Finish(Run(ps));
  }

  lemma ReadyAgain(mov: MovContext, pb: SimpleCache, m: Mov)
    requires mov.Valid() && pb.Valid() && mov.Repr !! pb.Repr && mov.Abs() == m
    ensures Ready(mov, pb, m, mov.info)
  {
  }

  lemma AfterTrailerIs(info: MovieInfo, ps: seq<Packet>)
    requires MovieOk(info) && AllValid(ps) && ps != []
    ensures var size, f := MoovSize(info, Final(ps)), File(HEADER_BYTES + Payload(ps), |HEADER_BYTES + Payload(ps)|);
            AfterTrailer(info, ps)
            == WriteAt(WriteAt(MoovPlace(f, size), MoovBytes(info, Final(ps)) + FreeHeader(size)).(pos := RESERVE),
                       BE32(TotalSize(ps) + 8))
  {
    hide BE32, MoovBytes, Payload, TotalSize, MovieOk, Final, MoovSize, WriteAt, MoovPlace, FreeHeader, TablesOk;
  }

  // The tables are closed and everything the box writers need holds; the file is untouched.
  method CloseTables(mov: MovContext, pb: SimpleCache, ghost ps: seq<Packet>)
    requires Streaming(mov, pb, ps) && ps != []
    requires mov.lastStreamIdx >= 0 ==> mov.counts[Stsc(mov.lastStreamIdx)] < mov.tables.Cap(Stsc(mov.lastStreamIdx))
    modifies mov`counts, mov.tables`write, mov.tables`contents, mov.tables.mem
    ensures AllValid(ps) && Shape(Final(ps)) && Ready(mov, pb, Final(ps), mov.info)
    ensures TrackAtStart(mov.tables, 0) && TrackAtStart(mov.tables, 1)
    ensures pb.Logical() == File(HEADER_BYTES + Payload(ps), |HEADER_BYTES + Payload(ps)|)
  {
    hide HEADER_BYTES, Payload, WriteAt, Run, Finish, MovieOk, TablesOf, F.Tables.Valid, F.Carving;
    StreamingParts(mov, pb, ps);
    FinalIs(ps);
    CloseLastChunk(mov);
    ReplayedFromStart(mov.tables);
    ReadyAgain(mov, pb, Final(ps));
  }

  // Main result for the trailer: the stream ends up holding exactly FileBytes, the bytes that
  // FileIsTiled and ReadBack are about.
  method WriteTrailer(mov: MovContext, pb: SimpleCache, ghost ps: seq<Packet>) returns (filesize: int)
    requires Streaming(mov, pb, ps) && Legal(mov.info, ps)
    requires mov.lastStreamIdx >= 0 ==> mov.counts[Stsc(mov.lastStreamIdx)] < mov.tables.Cap(Stsc(mov.lastStreamIdx))
    modifies mov, mov.tables, mov.tables.mem, pb.Repr
    ensures MovieOk(mov.info) && AllValid(ps) && ps != []
    ensures pb.stream.file.bytes == FileBytes(mov.info, ps) && filesize == |FileBytes(mov.info, ps)|
  {
    hide *;
    FinalParts(mov.info, ps);
    TrailerFile(mov.info, ps);
    StreamingParts(mov, pb, ps);
    FinalIs(ps);
    ghost var m, info := Final(ps), mov.info;
    CloseTables(mov, pb, ps);
    ReadyCounts(mov, pb, m, info);
    WriteMoov(mov, pb, m, mov.info);
    ReadyCounts(mov, pb, m, info);
    SeekTo(mov, pb, mov.mdatPos, m, info);
    ReadyCounts(mov, pb, m, info);
    Put(mov, pb, BE32(mov.mdatSize + 8), m, info);
    ReadyCounts(mov, pb, m, info);
    AfterTrailerIs(info, ps);
    filesize := CloseFile(pb);
  }

  // ---------------------------------------------------------------- a whole run

  predicate Larger(a: Mov, b: Mov)
    requires Shape(a) && Shape(b)
  {
    forall k :: 0 <= k < 2 ==>
      && |a.tracks[k].stco| <= |b.tracks[k].stco| && |a.tracks[k].stsz| <= |b.tracks[k].stsz|
      && |a.tracks[k].stsc| <= |b.tracks[k].stsc| && |a.tracks[k].stts| <= |b.tracks[k].stts|
  }

  lemma StepGrows(m: Mov, p: Packet)
    requires Shape(m) && Mp4Packets.Valid(p)
    ensures Larger(m, Step(m, p, true))
  {
  }

  lemma LargerTwice(a: Mov, b: Mov, c: Mov)
    requires Shape(a) && Shape(b) && Shape(c) && Larger(a, b) && Larger(b, c)
    ensures Larger(a, c)
  {
  }

  lemma {:induction false} RunGrows(ps: seq<Packet>, n: nat)
    requires AllValid(ps) && n <= |ps|
    ensures Larger(Run(ps[..n]), Run(ps))
  {
    hide Larger, Step;
    if n == |ps| {
      assert ps[..n] == ps;
      assert Larger(Run(ps), Run(ps)) by { LargerSelf(Run(ps)); }
    } else {
      var init := ps[..|ps| - 1];
      RunGrows(init, n);
      assert init[..n] == ps[..n];
      StepGrows(Run(init), ps[|ps| - 1]);
      LargerTwice(Run(ps[..n]), Run(init), Run(ps));
    }
  }

  lemma LargerSelf(m: Mov)
    requires Shape(m)
    ensures Larger(m, m)
  {
  }

  // The finished tables fit the regions they were given.
  predicate TablesFit(m: Mov, stcoCap: nat, stszCap: nat)
    requires Shape(m)
  {
    forall k :: 0 <= k < 2 ==>
      && |m.tracks[k].stco| <= stcoCap && |m.tracks[k].stsc| <= stcoCap
      && |m.tracks[k].stsz| <= stszCap && |m.tracks[k].stts| <= stszCap
  }

  lemma {:induction false} TotalOfPrefix(ps: seq<Packet>, n: nat)
    requires n <= |ps|
    ensures TotalSize(ps[..n]) <= TotalSize(ps)
  {
    if n == |ps| {
      assert ps[..n] == ps;
    } else {
      TotalOfPrefix(ps[..|ps| - 1], n);
      assert ps[..|ps| - 1][..n] == ps[..n];
    }
  }

  // If the finished tables fit, so does every packet on the way.
  lemma RoomOnTheWay(ps: seq<Packet>, n: nat, stcoCap: nat, stszCap: nat)
    requires AllValid(ps) && n < |ps| && TablesFit(Final(ps), stcoCap, stszCap)
    ensures AllValid(ps[..n])
    ensures var m, p := Run(ps[..n]), ps[n];
            && p.stream < 2 && m.mdatSize + Size(p) <= TotalSize(ps)
            && |m.tracks[p.stream].stsz| < stszCap
            && (p.stream == VIDEO ==> |m.tracks[VIDEO].stts| < stszCap)
            && (p.stream != m.last ==> |m.tracks[p.stream].stco| < stcoCap)
            && (p.stream != m.last && m.last >= 0 ==> |m.tracks[m.last].stsc| < stcoCap)
  {
    hide Run, Step, Final, TotalSize, IndexRight, Finish;
    var a, b, c, p := Run(ps[..n]), Run(ps[..n + 1]), Run(ps), ps[n];
    assert Mp4Packets.Valid(p);
    FinalIs(ps);
    RunGrows(ps, n + 1);
    TotalOfPrefix(ps, n + 1);
    RunIndexRight(ps[..n + 1], 0);
    assert ps[..n + 1] == ps[..n] + [p];
    StepAsRun(ps[..n], p);
    StepLengths(a, p);
    FinishGrows(c);
    LargerTwice(b, c, Final(ps));
  }

  lemma RoomInRun(mov: MovContext, ps: seq<Packet>, n: nat)
    requires AllValid(ps) && n < |ps| && mov.Valid() && mov.Abs() == Run(ps[..n])
    requires TablesFit(Final(ps), mov.tables.stcoCap, mov.tables.stszCap) && MDAT_START + TotalSize(ps) < 0x8000_0000
    ensures |mov.counts| == F.REGIONS && -1 <= mov.lastStreamIdx < 2 && ps[n].stream < 2 && HasRoom(mov, ps[n])
  {
    RoomOnTheWay(ps, n, mov.tables.stcoCap, mov.tables.stszCap);
    hide *;
    RoomFromCounts(mov, Run(ps[..n]), ps[n]);
  }

  lemma RoomFromCounts(mov: MovContext, m: Mov, p: Packet)
    requires Shape(m) && mov.Valid() && mov.Abs() == m && p.stream < 2
    requires MDAT_START + m.mdatSize + Size(p) < 0x8000_0000
    requires |m.tracks[p.stream].stsz| < mov.tables.stszCap
    requires p.stream == VIDEO ==> |m.tracks[VIDEO].stts| < mov.tables.stszCap
    requires p.stream != m.last ==> |m.tracks[p.stream].stco| < mov.tables.stcoCap
    requires p.stream != m.last && m.last >= 0 ==> |m.tracks[m.last].stsc| < mov.tables.stcoCap
    ensures |mov.counts| == F.REGIONS && -1 <= mov.lastStreamIdx < 2 && HasRoom(mov, p)
  {
    CountsAre(mov, m);
    hide MovieOk, MovContext.Valid, MovContext.Abs, F.Tables.Cap, Size, Stco, Stsc, Stsz;
  }

  lemma StepLengths(m: Mov, p: Packet)
    requires Shape(m) && Mp4Packets.Valid(p)
    ensures var r, i := Step(m, p, true), p.stream;
            && r.mdatSize == m.mdatSize + Size(p)
            && |r.tracks[i].stsz| == |m.tracks[i].stsz| + 1
            && (i == VIDEO ==> |r.tracks[i].stts| == |m.tracks[i].stts| + 1)
            && (i != m.last ==> |r.tracks[i].stco| == |m.tracks[i].stco| + 1)
            && (i != m.last && m.last >= 0 ==> |r.tracks[m.last].stsc| == |m.tracks[m.last].stsc| + 1)
  {
  }

  lemma FinishGrows(m: Mov)
    requires Shape(m) && m.last >= 0
    ensures Larger(m, Finish(m)) && |Finish(m).tracks[m.last].stsc| == |m.tracks[m.last].stsc| + 1
  {
  }

  lemma CountsAre(mov: MovContext, m: Mov)
    requires Shape(m) && mov.Valid() && mov.Abs() == m
    ensures mov.lastStreamIdx == m.last && mov.mdatSize == m.mdatSize && |mov.counts| == F.REGIONS
    ensures forall k: nat :: k < 2 ==>
              && mov.counts[Stco(k)] == |m.tracks[k].stco| && mov.counts[Stsz(k)] == |m.tracks[k].stsz|
              && mov.counts[Stsc(k)] == |m.tracks[k].stsc|
              && mov.tables.Cap(Stco(k)) == mov.tables.Cap(Stsc(k)) == mov.tables.stcoCap
              && mov.tables.Cap(Stsz(k)) == mov.tables.Cap(STTS_REGION) == mov.tables.stszCap
    ensures mov.counts[STTS_REGION] == |m.tracks[VIDEO].stts|
  {
  }

  lemma RoomToClose(mov: MovContext, ps: seq<Packet>)
    requires AllValid(ps) && ps != [] && mov.Valid() && mov.Abs() == Run(ps)
    requires TablesFit(Final(ps), mov.tables.stcoCap, mov.tables.stszCap)
    ensures |mov.counts| == F.REGIONS && 0 <= mov.lastStreamIdx < 2
    ensures mov.counts[Stsc(mov.lastStreamIdx)] < mov.tables.Cap(Stsc(mov.lastStreamIdx))
  {
    CountsAre(mov, Run(ps));
    FinalIs(ps);
    FinishGrows(Run(ps));
    hide Run, Final, Finish, MovieOk, MovContext.Valid, MovContext.Abs, F.Tables.Cap;
  }

  lemma StreamingRun(mov: MovContext, pb: SimpleCache, ps: seq<Packet>)
    requires Streaming(mov, pb, ps)
    ensures AllValid(ps) && mov.Valid() && mov.Abs() == Run(ps)
  {
  }

  lemma EachValid(ps: seq<Packet>, n: nat)
    requires AllValid(ps) && n < |ps|
    ensures Mp4Packets.Valid(ps[n])
  {
  }

  // Every packet of a run, one call each.
  method WritePackets(mov: MovContext, pb: SimpleCache, ps: seq<Packet>)
    requires Streaming(mov, pb, []) && AllValid(ps) && ps != [] && MovieOk(mov.info)
    requires forall i :: 0 <= i < |ps| && ps[i].stream == 0 ==> mov.info.tracks[0].codec == H264
    requires TablesFit(Final(ps), mov.tables.stcoCap, mov.tables.stszCap) && MDAT_START + TotalSize(ps) < 0x8000_0000
    modifies mov, mov.tables, mov.tables.mem, mov.keys, pb.Repr
    ensures Streaming(mov, pb, ps)
  {
    hide *;
    var n := 0;
    assert ps[..0] == [];
    while n < |ps|
      invariant 0 <= n <= |ps| && Streaming(mov, pb, ps[..n])
    {
      StreamingRun(mov, pb, ps[..n]);
      RoomInRun(mov, ps, n);
      EachValid(ps, n);
      var ret := WritePacket(mov, pb, ps[n], ps[..n]);
      assert ps[..n] + [ps[n]] == ps[..n + 1];
      n := n + 1;
    }
    assert ps[..n] == ps;
  }

  // Main result for the muxer: header, packets and trailer through a cache of any size leave a
  // file from which a reader gets every stored sample back, with its decode time and the key frames,
  // and the headers of the movie and of its tracks with every value in its place, whenever the
  // finished tables fit.
  method MuxRun(info: MovieInfo, ps: seq<Packet>, cacheSize: nat, stcoCap: nat, stszCap: nat, tinyPage: nat, keyCap: nat)
    returns (stream: Stream, filesize: int)
    requires Legal(info, ps) && cacheSize > 0
    requires forall i :: 0 <= i < |ps| && ps[i].stream == 0 ==> info.tracks[0].codec == H264
    requires TablesFit(Final(ps), stcoCap, stszCap) && stszCap <= keyCap && stszCap < TWO_32
    ensures MovieOk(info) && AllValid(ps) && ps != []
    ensures stream.file.bytes == FileBytes(info, ps) && filesize == |stream.file.bytes|
    ensures Mp4Headers.HeadersRight(stream.file.bytes, info, ps)
    ensures forall k: nat :: k < 2 && Mp4Timing.Of(ps, k) != [] ==>
              && ReadSamples(stream.file.bytes, k + 1) == Samples(TrackSamples(ps, k))
              && var x := ReadIndex(stream.file.bytes, k + 1);
                 x.Some? && Describes(x.value, info, ps, k)
  {
    hide Mp4Headers.HeadersRight;
    hide ReadSamples, ReadIndex, Describes, HEADER_BYTES, FileBytes, Final, Run, TotalSize, Payload, MoovSize, TablesFit, F.Tables.Valid, TablesOf, INIT;
    LegalParts(info, ps);
    stream := new Stream();
    var pb := new SimpleCache(stream, cacheSize);
    var mov := new MovContext(info, stcoCap, stszCap, tinyPage, keyCap);
    WriteHeader(mov, pb);
    WritePackets(mov, pb, ps);
    RoomToClose(mov, ps);
    filesize := WriteTrailer(mov, pb, ps);
    Mp4Headers.HeadersOfFile(info, ps);
    forall k: nat | k < 2 && Mp4Timing.Of(ps, k) != []
      ensures ReadSamples(stream.file.bytes, k + 1) == Samples(TrackSamples(ps, k))
      ensures var x := ReadIndex(stream.file.bytes, k + 1);
              x.Some? && Describes(x.value, info, ps, k)
    {
      ReadBack(info, ps, k);
      IndexDescribes(info, ps, k);
    }
  }
}
