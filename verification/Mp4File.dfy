/**
 The finished MP4 file: the bytes the header, the packets and the trailer leave behind, the box
 list that tiles them, and a reader that gets every sample back.
 */
module Mp4File {
  import opened Bytes
  import opened Boxes
  import opened SampleTables
  import opened Mp4Packets
  import opened Mp4Boxes
  import Mp4Timing

  // ---------------------------------------------------------------- the bytes

  // The tables once the trailer has closed the last chunk.
  function Final(ps: seq<Packet>): (m: Mov)
    requires AllValid(ps) && ps != []
    ensures Shape(m) && TablesOk(m)
    ensures forall k :: 0 <= k < 2 ==> m.tracks[k].stsz == Run(ps).tracks[k].stsz
  {
    assert Run(ps).last >= 0 by { RunIndexRight(ps, 0); }
    assert |Run(ps).tracks[0].stts| == |Run(ps).tracks[0].stsz| by { Mp4Timing.RunTimesAndKeys(ps); }
    Finish(Run(ps))
  }

  const FTYP_FIELDS: seq<byte> := BE32(0x69736f6d) + BE32(0x200) + BE32(0x69736f6d) + BE32(0x69736f32) + BE32(0x6d703431)
  const FTYP_BYTES: seq<byte> := WithHeader(28, FTYP, FTYP_FIELDS)

  // What the header call leaves: ftyp, a free box over the reserve, and an open mdat.
  const HEADER_BYTES: seq<byte> :=
    FTYP_BYTES + WithHeader(RESERVE - 28, FREE, Fill(RESERVE - 36, 0)) + WithHeader(0, MDAT, [])

  // Whether the trailer finds room for moov and an 8-byte free box in the reserve.
  predicate Fits(moovSize: nat) {
    moovSize + 28 + 8 <= RESERVE
  }

  function MdatBytes(ps: seq<Packet>): seq<byte>
    requires AllValid(ps)
  {
    WithHeader(TotalSize(ps) + 8, MDAT, Payload(ps))
  }

  function MoovBytes(info: MovieInfo, m: Mov): seq<byte>
    requires MovieOk(info) && TablesOk(m)
  {
    WithHeader(MoovSize(info, m), MOOV, MoovFields(info, m))
  }

  function FileBytes(info: MovieInfo, ps: seq<Packet>): seq<byte>
    requires MovieOk(info) && AllValid(ps) && ps != []
  {
    var m := Final(ps);
    var size := MoovSize(info, m);
    if Fits(size) then
      FTYP_BYTES + MoovBytes(info, m)
      + WithHeader(RESERVE - size - 28, FREE, Fill(RESERVE - size - 36, 0)) + MdatBytes(ps)
    else
      FTYP_BYTES + WithHeader(RESERVE - 28, FREE, Fill(RESERVE - 36, 0)) + MdatBytes(ps) + MoovBytes(info, m)
  }

  // ---------------------------------------------------------------- the boxes

  function FileBoxes(info: MovieInfo, ps: seq<Packet>): seq<Box>
    requires MovieOk(info) && AllValid(ps) && ps != []
  {
    var m := Final(ps);
    var size := MoovSize(info, m);
    if Fits(size) then
      [Box(FTYP, FTYP_FIELDS, [])] + [MoovBox(info, m)] + [Box(FREE, Fill(RESERVE - size - 36, 0), [])]
      + [Box(MDAT, Payload(ps), [])]
    else
      [Box(FTYP, FTYP_FIELDS, [])] + [Box(FREE, Fill(RESERVE - 36, 0), [])] + [Box(MDAT, Payload(ps), [])]
      + [MoovBox(info, m)]
  }

  // A run on which the code is defined and whose file the format can describe: codec data its loops
  // can take, 31-bit media data, 32-bit moov.
  predicate Legal(info: MovieInfo, ps: seq<Packet>) {
    && MovieOk(info) && AllValid(ps) && ps != []
    && (forall k :: 0 <= k < 2 ==> CsdOk(info.tracks[k]))
    && MDAT_START + TotalSize(ps) < 0x8000_0000
    && MoovSize(info, Final(ps)) < TWO_32
  }

  lemma FtypAgrees()
    ensures Agrees(28, FTYP, FTYP_FIELDS, Box(FTYP, FTYP_FIELDS, []))
  {
    AgreesLeaf(28, FTYP, FTYP_FIELDS);
  }

  // Main result: the finished file is exactly its top-level boxes laid end to end, every size
  // field right at every depth.
  lemma FileIsTiled(info: MovieInfo, ps: seq<Packet>)
    requires Legal(info, ps)
    ensures AgreesAll(FileBytes(info, ps), FileBoxes(info, ps))
    ensures Parse(FileBytes(info, ps)) == Some(FileBoxes(info, ps))
  {
    hide AgreesAll, Agrees, MovieOk, TablesOk, Payload, MoovSize, MoovFields, MoovBox, Final, Fill;
    var m := Final(ps);
    var size := MoovSize(info, m);
    FtypAgrees();
    AgreesOne(28, FTYP, FTYP_FIELDS, Box(FTYP, FTYP_FIELDS, []));
    MoovAgrees(info, m);
    PayloadLength(ps);
    var mdat := Box(MDAT, Payload(ps), []);
    AgreesLeaf(TotalSize(ps) + 8, MDAT, Payload(ps));
    var bytes, bs := FTYP_BYTES, [Box(FTYP, FTYP_FIELDS, [])];
    if Fits(size) {
      var rest := Fill(RESERVE - size - 36, 0);
      AgreesLeaf(RESERVE - size - 28, FREE, rest);
      AgreesSnoc(bytes, bs, size, MOOV, MoovFields(info, m), MoovBox(info, m));
      bytes, bs := bytes + MoovBytes(info, m), bs + [MoovBox(info, m)];
      AgreesSnoc(bytes, bs, RESERVE - size - 28, FREE, rest, Box(FREE, rest, []));
      bytes, bs := bytes + WithHeader(RESERVE - size - 28, FREE, rest), bs + [Box(FREE, rest, [])];
      AgreesSnoc(bytes, bs, TotalSize(ps) + 8, MDAT, Payload(ps), mdat);
    } else {
      var rest := Fill(RESERVE - 36, 0);
      AgreesLeaf(RESERVE - 28, FREE, rest);
      AgreesSnoc(bytes, bs, RESERVE - 28, FREE, rest, Box(FREE, rest, []));
      bytes, bs := bytes + WithHeader(RESERVE - 28, FREE, rest), bs + [Box(FREE, rest, [])];
      AgreesSnoc(bytes, bs, TotalSize(ps) + 8, MDAT, Payload(ps), mdat);
      bytes, bs := bytes + MdatBytes(ps), bs + [mdat];
      AgreesSnoc(bytes, bs, size, MOOV, MoovFields(info, m), MoovBox(info, m));
    }
    AgreesParses(FileBytes(info, ps), FileBoxes(info, ps));
  }

  lemma AgreesParses(bytes: seq<byte>, bs: seq<Box>)
    requires AgreesAll(bytes, bs)
    ensures Parse(bytes) == Some(bs)
  {
    ParseSerialize(bs);
  }

  // Both layouts: what is written in front of the media data ends at the reserve.
  lemma FileInParts(info: MovieInfo, ps: seq<Packet>) returns (front: seq<byte>, back: seq<byte>)
    requires Legal(info, ps)
    ensures MovieOk(info) && AllValid(ps) && ps != []
    ensures |front| == RESERVE == 0x10_0000 && FTYP_BYTES <= front && |Payload(ps)| + 8 < TWO_32
    ensures FileBytes(info, ps) == front + (BE32(|Payload(ps)| + 8) + BE32(MDAT)) + Payload(ps) + back
    ensures var size := MoovSize(info, Final(ps));
            if size + 36 <= RESERVE then back == [] && front[28..36] == BE32(size) + BE32(MOOV)
            else |back| == size && front[28..36] == BE32(RESERVE - 28) + BE32(FREE)
  {
    hide AgreesAll, MovieOk, TablesOk, Payload, MoovSize, MoovFields, MoovBox, Final, BE32, Fill;
    var m := Final(ps);
    var size := MoovSize(info, m);
    MoovAgrees(info, m);
    PayloadLength(ps);
    front := if Fits(size)
      then FTYP_BYTES + MoovBytes(info, m) + WithHeader(RESERVE - size - 28, FREE, Fill(RESERVE - size - 36, 0))
      else FTYP_BYTES + WithHeader(RESERVE - 28, FREE, Fill(RESERVE - 36, 0));
    back := if Fits(size) then [] else MoovBytes(info, m);
    var head := BE32(|Payload(ps)| + 8) + BE32(MDAT);
    assert |front| == RESERVE;
    assert FileBytes(info, ps) == front + head + Payload(ps) + back;
    assert |FTYP_BYTES| == 28;
  }

  // The media data lies where the run assumed it, whichever way the trailer went.
  lemma MediaDataInPlace(info: MovieInfo, ps: seq<Packet>)
    requires Legal(info, ps)
    ensures |FileBytes(info, ps)| >= MDAT_START + |Payload(ps)|
    ensures FileBytes(info, ps)[MDAT_START..MDAT_START + |Payload(ps)|] == Payload(ps)
  {
    var _, _ := FileInParts(info, ps);
    hide FileBytes, Payload, BE32;
  }

  // ---------------------------------------------------------------- a reader

  // The words of a table of version 0 that has its entry count at the given place, and nothing behind
  // its last entry.
  function TableWords(h: seq<byte>, at: nat, width: nat): Option<seq<uint32>> {
    if |h| < at + 4 || U32At(h, 0) != 0 || |h| != at + 4 + U32At(h, at) * width * 4 then None
    else Some(ReadWords(h[at + 4..]))
  }

  // first chunk, samples per chunk and the index of the one description, for every entry
  function StscEntries(ws: seq<int>): seq<StscEntry> {
    if |ws| < 3 || ws[2] != 1 then [] else [StscEntry(ws[0], ws[1])] + StscEntries(ws[3..])
  }

  // No size for all samples: the table has one for each.
  function SizeWords(h: seq<byte>): Option<seq<uint32>> {
    if |h| < 12 || U32At(h, 4) != 0 then None else TableWords(h, 8, 1)
  }

  // count and duration, for every entry
  function SttsEntries(ws: seq<uint32>): seq<SttsEntry> {
    if |ws| < 2 then [] else [SttsEntry(ws[0], ws[1])] + SttsEntries(ws[2..])
  }

  // What the index says of a track: in which unit its times are and how long it is, where its samples
  // lie, how long they last, and which of them are key frames; without that table every sample is one.
  datatype TrackIndex = TrackIndex(
    timescale: uint32, duration: uint32,
    extents: seq<Extent>, times: seq<SttsEntry>, keys: Option<seq<int>>)

  function ReadExtents(stbl: Box): Option<seq<Extent>> {
    match (Find(stbl.children, STCO), Find(stbl.children, STSC), Find(stbl.children, STSZ))
    case (Some(stco), Some(stsc), Some(stsz)) =>
      (match (TableWords(stco.header, 4, 1), TableWords(stsc.header, 4, 3), SizeWords(stsz.header))
       case (Some(offsets), Some(entries), Some(sizes)) => Some(Expand(offsets, StscEntries(entries), sizes, 0))
       case _ => None)
    case _ => None
  }

  function ReadTimes(stbl: Box): Option<seq<SttsEntry>> {
    match Find(stbl.children, STTS)
    case None => None
    case Some(stts) =>
      match TableWords(stts.header, 4, 2)
      case None => None
      case Some(words) => Some(SttsEntries(words))
  }

  function ReadKeys(stbl: Box): Option<seq<int>> {
    match Find(stbl.children, STSS)
    case None => None
    case Some(stss) => TableWords(stss.header, 4, 1)
  }

  function ReadStbl(stbl: Box, timescale: uint32, duration: uint32): Option<TrackIndex> {
    match (ReadExtents(stbl), ReadTimes(stbl))
    case (Some(es), Some(ts)) => Some(TrackIndex(timescale, duration, es, ts, ReadKeys(stbl)))
    case _ => None
  }

  function Descend(b: Option<Box>, kind: uint32): Option<Box> {
    if b.None? then None else Find(b.value.children, kind)
  }

  function ReadTrak(trak: Box): Option<TrackIndex> {
    match Find(trak.children, MDIA)
    case None => None
    case Some(mdia) =>
      match (Find(mdia.children, MDHD), Descend(Find(mdia.children, MINF), STBL))
      case (Some(mdhd), Some(stbl)) =>
        if |mdhd.header| < 20 then None else ReadStbl(stbl, U32At(mdhd.header, 12), U32At(mdhd.header, 16))
      case _ => None
  }

  function TrackId(trak: Box): Option<uint32> {
    match Find(trak.children, TKHD)
    case None => None
    case Some(tkhd) => if |tkhd.header| < 16 then None else Some(U32At(tkhd.header, 12))
  }

  function FindTrack(bs: seq<Box>, id: uint32): Option<Box> {
    if bs == [] then None
    else if bs[0].kind == TRAK && TrackId(bs[0]) == Some(id) then Some(bs[0])
    else FindTrack(bs[1..], id)
  }

  function ReadMoov(file: seq<byte>): Option<Box> {
    match Parse(file)
    case None => None
    case Some(top) => Find(top, MOOV)
  }

  function ReadTrackBox(file: seq<byte>, id: uint32): Option<Box> {
    match ReadMoov(file)
    case None => None
    case Some(moov) => FindTrack(moov.children, id)
  }

  // The index of a track, starting from nothing but the bytes of the file.
  function ReadIndex(file: seq<byte>, id: uint32): Option<TrackIndex> {
    match ReadTrackBox(file, id)
    case None => None
    case Some(trak) => ReadTrak(trak)
  }

  function ReadSamples(file: seq<byte>, id: uint32): Boxed {
    match ReadIndex(file, id)
    case None => Broken
    case Some(x) => Cut(file, x.extents)
  }

  // ---------------------------------------------------------------- reading back

  lemma {:induction false} EntriesOfWords(counts: seq<nat>)
    ensures StscEntries(StscWords(counts)) == EntryPerChunk(counts) && |EntryPerChunk(counts)| == |counts|
  {
    if counts == [] {
      assert EntryPerChunk([]) == [];
    } else {
      var n := |counts| - 1;
      EntriesOfWords(counts[..n]);
      EntriesSnoc(StscWords(counts[..n]), n + 1, counts[n]);
      assert EntryPerChunk(counts) == EntryPerChunk(counts[..n]) + [StscEntry(n + 1, counts[n])];
    }
  }

  lemma {:induction false} EntriesSnoc(ws: seq<int>, first: int, samples: int)
    requires |ws| == 3 * |StscEntries(ws)|
    ensures StscEntries(ws + [first, samples, 1]) == StscEntries(ws) + [StscEntry(first, samples)]
  {
    if ws == [] {
      var one := [first, samples, 1];
      assert ws + one == one && StscEntries(one[3..]) == [];
    } else {
      assert (ws + [first, samples, 1])[3..] == ws[3..] + [first, samples, 1];
      EntriesSnoc(ws[3..], first, samples);
    }
  }

  predicate IsU32(ws: seq<int>) {
    forall i :: 0 <= i < |ws| ==> 0 <= ws[i] < TWO_32
  }

  lemma CountFront(n: nat)
    requires n < TWO_32
    ensures var h := BE32(0) + BE32(n); |h| == 8 && U32At(h, 0) == 0 && U32At(h, 4) == n
  {
    hide BE32, U32At;
    WordAt([], 0, BE32(n));
    WordAt(BE32(0), n, []);
    assert [] + BE32(0) + BE32(n) == BE32(0) + BE32(n) && BE32(0) + BE32(n) + [] == BE32(0) + BE32(n);
  }

  lemma TableWordsOf(prefix: seq<byte>, ws: seq<int>, at: nat, width: nat)
    requires |prefix| == at + 4 && IsU32(ws)
    requires U32At(prefix, 0) == 0 && U32At(prefix, at) * width == |ws|
    ensures TableWords(prefix + Words(ws), at, width) == Some(ws)
  {
    var h := prefix + Words(ws);
    assert h[at + 4..] == Words(ws);
    ReadWordsInverse(ws);
    FrontWord(prefix, Words(ws), 0);
    FrontWord(prefix, Words(ws), at);
    hide Words, ReadWords, U32At;
  }

  lemma FrontWord(pre: seq<byte>, post: seq<byte>, i: nat)
    requires i + 4 <= |pre|
    ensures U32At(pre + post, i) == U32At(pre, i)
  {
  }

  lemma SizeWordsOf(ws: seq<int>)
    requires IsU32(ws) && |ws| < TWO_32
    ensures SizeWords(BE32(0) + BE32(0) + BE32(|ws|) + Words(ws)) == Some(ws)
  {
    hide *;
    var pre := BE32(0) + BE32(0) + BE32(|ws|);
    CountFront(0);
    FrontWord(BE32(0) + BE32(0), BE32(|ws|), 0);
    FrontWord(BE32(0) + BE32(0), BE32(|ws|), 4);
    WordAt(BE32(0) + BE32(0), |ws|, []);
    assert pre + [] == pre;
    WordIsSmall(|ws|);
    FrontWord(pre, Words(ws), 4);
    TableWordsOf(pre, ws, 8, 1);
    SizesFold(pre + Words(ws));
  }

  lemma WordIsSmall(n: nat)
    requires n < TWO_32
    ensures ToU32(n) == n
  {
  }

  lemma SizesFold(h: seq<byte>)
    requires |h| >= 12 && U32At(h, 4) == 0
    ensures SizeWords(h) == TableWords(h, 8, 1)
  {
  }

  predicate TablesU32(t: Tables) {
    && IsU32(t.stco) && IsU32(t.stsz) && IsU32(StscWords(t.stsc)) && |t.stsz| < TWO_32
    && IsU32(t.stts) && IsU32(t.keys)
    && |t.stco| < TWO_32 && |t.stsc| < TWO_32 && |t.stts| < TWO_32 && |t.keys| < TWO_32
  }

  // What a reader is meant to find in the tables of a track.
  function IndexOf(i: TrackInfo, t: Tables): TrackIndex
    requires i.video ==> t.stts != []
  {
    TrackIndex(
      ToU32(i.timescale), ToU32(i.duration),
      Expand(t.stco, EntryPerChunk(t.stsc), t.stsz, 0),
      if i.video then Mp4Timing.UnitEntries(Mp4Timing.VideoDeltas(t.stts))
      else [SttsEntry(|t.stsz|, ToU32(i.frameSize))],
      if i.video then Some(t.keys) else None)
  }

  lemma {:induction false} EntriesOfUnits(ds: seq<uint32>)
    ensures IsU32(SttsWords(ds)) && SttsEntries(SttsWords(ds)) == Mp4Timing.UnitEntries(ds)
  {
    if ds == [] {
      assert Mp4Timing.UnitEntries(ds) == [];
    } else {
      var n := |ds| - 1;
      EntriesOfUnits(ds[..n]);
      SttsSnoc(SttsWords(ds[..n]), ds[n]);
      assert Mp4Timing.UnitEntries(ds) == Mp4Timing.UnitEntries(ds[..n]) + [SttsEntry(1, ds[n])];
    }
  }

  lemma {:induction false} SttsSnoc(ws: seq<uint32>, d: uint32)
    requires |ws| % 2 == 0
    ensures SttsEntries(ws + [1, d]) == SttsEntries(ws) + [SttsEntry(1, d)]
  {
    if ws == [] {
      var one: seq<uint32> := [1, d];
      assert ws + one == one && SttsEntries(one[2..]) == [];
    } else {
      assert (ws + [1, d])[2..] == ws[2..] + [1, d];
      SttsSnoc(ws[2..], d);
    }
  }

  // The bytes of the video stts box, the added entry included, are the table of its deltas.
  lemma VideoSttsFields(frameSize: int, t: Tables)
    requires t.stts != []
    ensures SttsFields(true, frameSize, t)
         == BE32(0) + BE32(|t.stts|) + Words(SttsWords(Mp4Timing.VideoDeltas(t.stts)))
  {
    var ds := Mp4Timing.VideoDeltas(t.stts);
    assert ds[..|ds| - 1] == t.stts[1..];
    WordsAppend(SttsWords(t.stts[1..]), [1, 0]);
    assert Words([1, 0]) == BE32(1) + Words([0]) && Words([0]) == BE32(0) + Words([]) by {
      assert [1, 0][1..] == [0] && [0][1..] == [];
    }
    hide BE32;
    assert BE32(0) + [] == BE32(0);
  }

  lemma ReadVideoTimes(frameSize: int, t: Tables)
    requires t.stts != [] && IsU32(t.stts) && |t.stts| < TWO_32
    ensures var ws := TableWords(SttsFields(true, frameSize, t), 4, 2);
            ws.Some? && SttsEntries(ws.value) == Mp4Timing.UnitEntries(Mp4Timing.VideoDeltas(t.stts))
  {
    var ds := Mp4Timing.VideoDeltas(t.stts);
    VideoSttsFields(frameSize, t);
    EntriesOfUnits(ds);
    CountFront(|t.stts|);
    hide SttsFields, BE32, SttsWords, U32At;
    TableWordsOf(BE32(0) + BE32(|t.stts|), SttsWords(ds), 4, 2);
  }

  // Reading stored numbers back, whether or not they are words.
  lemma {:induction false} ReadStoredWord(n: int, rest: seq<byte>)
    ensures ReadWords(BE32(n) + rest) == [ToU32(n)] + ReadWords(rest)
  {
    BE32RoundTrip(n);
    var s := BE32(n) + rest;
    assert U32At(s, 0) == U32At(BE32(n), 0);
    hide BE32, U32At;
    assert s[4..] == rest;
  }

  lemma WordsOpen(w: int, ws: seq<int>)
    ensures Words([w] + ws) == BE32(w) + Words(ws)
  {
    hide BE32;
    assert ([w] + ws)[1..] == ws;
  }

  lemma ReadAudioTimes(frameSize: int, t: Tables)
    requires |t.stsz| < TWO_32
    ensures var ws := TableWords(SttsFields(false, frameSize, t), 4, 2);
            ws.Some? && SttsEntries(ws.value) == [SttsEntry(|t.stsz|, ToU32(frameSize))]
  {
    var n, f := |t.stsz|, frameSize;
    WordsOpen(n, [f]);
    WordsOpen(f, []);
    ReadStoredWord(n, Words([f]));
    ReadStoredWord(f, []);
    CountFront(1);
    hide BE32, Words, ReadWords, U32At;
    assert Words([]) == [] && ReadWords([]) == [];
    assert [n, f] == [n] + [f] && [f] == [f] + [] && BE32(f) + [] == BE32(f);
    var h, ws := SttsFields(false, frameSize, t), [ToU32(n), ToU32(f)];
    assert h[8..] == Words([n, f]);
    FrontWord(BE32(0) + BE32(1), Words([n, f]), 0);
    FrontWord(BE32(0) + BE32(1), Words([n, f]), 4);
    assert ReadWords(h[8..]) == ws;
    assert ws[2..] == [] && SttsEntries([]) == [];
  }

  lemma ReadStblBox(i: TrackInfo, id: int, t: Tables)
    requires InfoOk(i) && TablesU32(t) && (i.video ==> t.stts != [])
    ensures ReadStbl(StblBox(i, id, t), ToU32(i.timescale), ToU32(i.duration)) == Some(IndexOf(i, t))
  {
    ReadExtentsBack(i, id, t);
    ReadTimesBack(i, id, t);
    hide InfoOk, TablesU32, Expand, StblBox, ReadExtents, ReadTimes, ReadKeys;
  }

  lemma ReadExtentsBack(i: TrackInfo, id: int, t: Tables)
    requires InfoOk(i) && TablesU32(t)
    ensures ReadExtents(StblBox(i, id, t)) == Some(Expand(t.stco, EntryPerChunk(t.stsc), t.stsz, 0))
  {
    FindInStbl(i, id, t);
    CountFront(|t.stco|);
    CountFront(|t.stsc|);
    hide StblBoxes, Expand, InfoOk, U32At, BE32, TableWords, SizeWords, StscWords, StscEntries, EntryPerChunk;
    TableWordsOf(BE32(0) + BE32(|t.stco|), t.stco, 4, 1);
    TableWordsOf(BE32(0) + BE32(|t.stsc|), StscWords(t.stsc), 4, 3);
    SizeWordsOf(t.stsz);
    EntriesOfWords(t.stsc);
  }

  lemma ReadTimesBack(i: TrackInfo, id: int, t: Tables)
    requires InfoOk(i) && TablesU32(t) && (i.video ==> t.stts != [])
    ensures ReadTimes(StblBox(i, id, t)) == Some(IndexOf(i, t).times) && ReadKeys(StblBox(i, id, t)) == IndexOf(i, t).keys
  {
    FindTimesInStbl(i, id, t);
    CountFront(|t.keys|);
    TableWordsOf(BE32(0) + BE32(|t.keys|), t.keys, 4, 1);
    if i.video {
      ReadVideoTimes(i.frameSize, t);
    } else {
      ReadAudioTimes(i.frameSize, t);
    }
    hide StblBoxes, Expand, InfoOk, SttsFields, SttsEntries, Find, TableWords, BE32, Words;
  }

  lemma FindInStbl(i: TrackInfo, id: int, t: Tables)
    requires InfoOk(i)
    ensures Find(StblBoxes(i, id, t), STCO) == Some(Box(STCO, StcoFields(t), []))
    ensures Find(StblBoxes(i, id, t), STSC) == Some(Box(STSC, StscFields(t), []))
    ensures Find(StblBoxes(i, id, t), STSZ) == Some(Box(STSZ, StszFields(t), []))
  {
    hide InfoOk, StcoFields, StscFields, StszFields, StssFields, SttsFields, StsdBox;
    var front := [StsdBox(i, id)] + [Box(STTS, SttsFields(i.video, i.frameSize, t), [])]
                 + (if i.video then [Box(STSS, StssFields(t), [])] else []);
    var stsc, stsz, stco := Box(STSC, StscFields(t), []), Box(STSZ, StszFields(t), []), Box(STCO, StcoFields(t), []);
    assert StsdBox(i, id).kind == STSD by { StsdKind(i, id); }
    assert StblBoxes(i, id, t) == front + ([stsc] + [stsz] + [stco]);
    assert StblBoxes(i, id, t) == (front + [stsc]) + ([stsz] + [stco]);
    assert StblBoxes(i, id, t) == (front + [stsc] + [stsz]) + [stco];
    FindPast(front, [stsc] + [stsz] + [stco], STSC);
    FindPast(front + [stsc], [stsz] + [stco], STSZ);
    FindPast(front + [stsc] + [stsz], [stco], STCO);
  }

  lemma FindTimesInStbl(i: TrackInfo, id: int, t: Tables)
    requires InfoOk(i)
    ensures Find(StblBoxes(i, id, t), STTS) == Some(Box(STTS, SttsFields(i.video, i.frameSize, t), []))
    ensures Find(StblBoxes(i, id, t), STSS) == if i.video then Some(Box(STSS, StssFields(t), [])) else None
  {
    StsdKind(i, id);
    hide InfoOk, StcoFields, StscFields, StszFields, StssFields, SttsFields, StsdBox, Find;
    var stts, stss := Box(STTS, SttsFields(i.video, i.frameSize, t), []), if i.video then [Box(STSS, StssFields(t), [])] else [];
    assert StblBoxes(i, id, t) == [StsdBox(i, id)] + [stts] + stss + ChunkBoxes(t);
    FindTimes(StsdBox(i, id), stts, stss, ChunkBoxes(t));
  }

  lemma FindTimes(stsd: Box, stts: Box, stss: seq<Box>, rest: seq<Box>)
    requires stsd.kind == STSD && stts.kind == STTS && |stss| <= 1 && (forall b :: b in stss ==> b.kind == STSS)
    requires forall b :: b in rest ==> b.kind == STSC || b.kind == STSZ || b.kind == STCO
    ensures Find([stsd] + [stts] + stss + rest, STTS) == Some(stts)
    ensures Find([stsd] + [stts] + stss + rest, STSS) == if stss == [] then None else Some(stss[0])
  {
    var bs := [stsd] + [stts] + stss + rest;
    assert bs == [stsd] + ([stts] + stss + rest) && bs == ([stsd] + [stts]) + (stss + rest);
    FindPast([stsd], [stts] + stss + rest, STTS);
    FindPast([stsd] + [stts], stss + rest, STSS);
    if stss == [] {
      FindPast(rest, [], STSS);
      assert stss + rest == rest == rest + [];
    }
  }

  lemma StsdKind(i: TrackInfo, id: int)
    requires InfoOk(i)
    ensures StsdBox(i, id).kind == STSD
  {
  }

  lemma {:induction false} FindPast(front: seq<Box>, back: seq<Box>, kind: uint32)
    requires forall b :: b in front ==> b.kind != kind
    ensures Find(front + back, kind) == Find(back, kind)
  {
    if front == [] {
      assert front + back == back;
    } else {
      assert (front + back)[1..] == front[1..] + back;
      FindPast(front[1..], back, kind);
    }
  }

  lemma WordAt(pre: seq<byte>, n: int, post: seq<byte>)
    ensures U32At(pre + BE32(n) + post, |pre|) == ToU32(n)
  {
    BE32RoundTrip(n);
    var s := pre + BE32(n) + post;
    assert U32At(s, |pre|) == U32At(BE32(n), 0);
  }

  // Section 8.4.2 of ISO/IEC 14496-12: the time scale at 12, the duration at 16.
  lemma MdhdRead(i: TrackInfo, time: int)
    ensures var h := MdhdFields(i, time);
            |h| == 24 && U32At(h, 12) == ToU32(i.timescale) && U32At(h, 16) == ToU32(i.duration)
  {
    WordsOpen(time, [time, i.timescale, i.duration]);
    WordsOpen(time, [i.timescale, i.duration]);
    WordsOpen(i.timescale, [i.duration]);
    WordsOpen(i.duration, []);
    assert [time, time, i.timescale, i.duration] == [time] + ([time] + ([i.timescale] + ([i.duration] + [])));
    hide Words, BE32, BE24, BE16;
    assert Words([]) == [];
    var pre, post := [0] + BE24(0) + BE32(time) + BE32(time), BE16(0) + BE16(0);
    assert MdhdFields(i, time) == pre + BE32(i.timescale) + (BE32(i.duration) + post);
    assert MdhdFields(i, time) == (pre + BE32(i.timescale)) + BE32(i.duration) + post;
    WordAt(pre, i.timescale, BE32(i.duration) + post);
    WordAt(pre + BE32(i.timescale), i.duration, post);
  }

  lemma FirstTwo(a: Box, b: Box)
    requires a.kind == TKHD && b.kind == MDIA
    ensures Find([a] + [b], TKHD) == Some(a) && Find([a] + [b], MDIA) == Some(b)
  {
    FindPast([a], [b], MDIA);
  }

  lemma FirstThree(a: Box, b: Box, c: Box)
    requires a.kind == MDHD && b.kind == HDLR && c.kind == MINF
    ensures var bs := [a] + [b] + [c];
            Find(bs, MDHD) == Some(a) && Find(bs, HDLR) == Some(b) && Find(bs, MINF) == Some(c)
  {
    assert [a] + [b] + [c] == [a] + ([b] + [c]);
    FindPast([a], [b] + [c], HDLR);
    FindPast([a] + [b], [c], MINF);
  }

  lemma FindLast(front: seq<Box>, b: Box, kind: uint32)
    requires (forall x :: x in front ==> x.kind != kind) && b.kind == kind
    ensures Find(front + [b], kind) == Some(b)
  {
    FindPast(front, [b], kind);
  }

  // The boxes of a track on the way to its tables.
  lemma TrakParts(i: TrackInfo, id: int, t: Tables, time: int, title: seq<byte>)
    requires InfoOk(i)
    ensures i.timescale > 0
    ensures var tkhd, mdia := Box(TKHD, TkhdFields(i, id, time), []), MdiaBox(i, id, t, time, title);
            TrakBox(i, id, t, time, title).children == [tkhd] + [mdia] && tkhd.kind == TKHD && mdia.kind == MDIA
    ensures var mdhd, hdlr := Box(MDHD, MdhdFields(i, time), []), Box(HDLR, HdlrFields(i.video, title), []);
            && MdiaBox(i, id, t, time, title).children == [mdhd] + [hdlr] + [MinfBox(i, id, t)]
            && mdhd.kind == MDHD && hdlr.kind == HDLR && MinfBox(i, id, t).kind == MINF
    ensures var head := [if i.video then Box(VMHD, VMHD_FIELDS, []) else Box(SMHD, SMHD_FIELDS, [])] + [DINF_BOX];
            && MinfBox(i, id, t).children == head + [StblBox(i, id, t)] && StblBox(i, id, t).kind == STBL
            && forall b :: b in head ==> b.kind != STBL
  {
    hide TkhdFields, MdhdFields, HdlrFields, VMHD_FIELDS, SMHD_FIELDS;
  }

  lemma TrakFolds(trak: Box, mdia: Box, mdhd: Box, minf: Box, stbl: Box)
    requires Find(trak.children, MDIA) == Some(mdia) && |mdhd.header| >= 20
    requires Find(mdia.children, MDHD) == Some(mdhd) && Find(mdia.children, MINF) == Some(minf)
    requires Find(minf.children, STBL) == Some(stbl)
    ensures ReadTrak(trak) == ReadStbl(stbl, U32At(mdhd.header, 12), U32At(mdhd.header, 16))
  {
  }

  lemma ReadTrakBox(i: TrackInfo, id: uint32, t: Tables, time: int, title: seq<byte>)
    requires InfoOk(i) && TablesU32(t) && (i.video ==> t.stts != [])
    ensures ReadTrak(TrakBox(i, id, t, time, title)) == Some(IndexOf(i, t))
  {
    hide *;
    TrakParts(i, id, t, time, title);
    var tkhd, mdia := Box(TKHD, TkhdFields(i, id, time), []), MdiaBox(i, id, t, time, title);
    var mdhd, hdlr := Box(MDHD, MdhdFields(i, time), []), Box(HDLR, HdlrFields(i.video, title), []);
    var minf, stbl := MinfBox(i, id, t), StblBox(i, id, t);
    FirstTwo(tkhd, mdia);
    FirstThree(mdhd, hdlr, minf);
    FindLast([if i.video then Box(VMHD, VMHD_FIELDS, []) else Box(SMHD, SMHD_FIELDS, [])] + [DINF_BOX], stbl, STBL);
    MdhdRead(i, time);
    ReadStblBox(i, id, t);
    TrakFolds(TrakBox(i, id, t, time, title), mdia, mdhd, minf, stbl);
  }

  lemma TkhdId(i: TrackInfo, id: uint32, time: int)
    requires i.timescale > 0
    ensures |TkhdFields(i, id, time)| >= 16 && U32At(TkhdFields(i, id, time), 12) == id
  {
    TkhdLength(i, id, time);
    hide TkhdFields;
    BE32RoundTrip(id);
    var h := TkhdFields(i, id, time);
    assert U32At(h, 12) == U32At(h[12..16], 0);
  }

  lemma TrackIdOfBox(i: TrackInfo, id: uint32, t: Tables, time: int, title: seq<byte>)
    requires InfoOk(i)
    ensures TrackId(TrakBox(i, id, t, time, title)) == Some(id) && TrakBox(i, id, t, time, title).kind == TRAK
  {
    TkhdId(i, id, time);
    hide TkhdFields, MdiaBox, InfoOk, U32At;
    assert TrakBox(i, id, t, time, title).children[0] == Box(TKHD, TkhdFields(i, id, time), []);
  }

  lemma {:induction false} FindTrackPast(front: seq<Box>, back: seq<Box>, id: uint32)
    requires forall b :: b in front ==> b.kind != TRAK || TrackId(b) != Some(id)
    ensures FindTrack(front + back, id) == FindTrack(back, id)
  {
    if front == [] {
      assert front + back == back;
    } else {
      assert (front + back)[1..] == front[1..] + back;
      FindTrackPast(front[1..], back, id);
    }
  }

  lemma FindTrackInMoov(info: MovieInfo, m: Mov, k: nat)
    requires MovieOk(info) && TablesOk(m) && k < 2 && |m.tracks[k].stsz| > 0
    ensures FindTrack(MoovBox(info, m).children, k + 1)
         == Some(TrakBox(info.tracks[k], k + 1, m.tracks[k], info.createTime, info.title))
  {
    hide TrakBox, TrackId, InfoOk, XyzFields, MvhdFields;
    var head, t0, t1 := MoovHeadBoxes(info), TrakBoxes(info, m, 0), TrakBoxes(info, m, 1);
    TrackIdOfBox(info.tracks[0], 1, m.tracks[0], info.createTime, info.title);
    TrackIdOfBox(info.tracks[1], 2, m.tracks[1], info.createTime, info.title);
    assert forall b :: b in head ==> b.kind != TRAK;
    if k == 0 {
      assert head + t0 + t1 == head + (t0 + t1);
      FindTrackPast(head, t0 + t1, 1);
    } else {
      FindTrackPast(head + t0, t1, 2);
    }
  }

  // What the index of track k has to say of a run: its time scale and duration, where each sample
  // lies, when it is decoded, and, for video, which samples are key frames, as far as the code
  // notices them.
  predicate Describes(x: TrackIndex, info: MovieInfo, ps: seq<Packet>, k: nat)
    requires |info.tracks| == 2 && k < 2
  {
    var vs := Mp4Timing.Of(ps, k);
    && x.timescale == info.tracks[k].timescale % 0x1_0000_0000
    && x.duration == info.tracks[k].duration % 0x1_0000_0000
    && x.extents == TrackExtents(Layout(ps), k)
    && SttsSampleCount(x.times) == |vs|
    && (forall j: nat :: j < |vs| ==>
          DecodeTime(x.times, j) == if k == VIDEO then Mp4Timing.SumInts(Mp4Timing.Durations(vs)[1..j + 1])
                                    else j * ToU32(info.tracks[k].frameSize))
    && (k == VIDEO ==>
          && x.keys.Some? && Mp4Timing.Lists(x.keys.value, Mp4Timing.NoticedMarks(vs))
          && (Mp4Timing.Lists(x.keys.value, Mp4Timing.KeyMarks(vs)) <==> Mp4Timing.KeysInFirstBlock(ps)))
    && (k != VIDEO ==> x.keys == None)
  }

  // Main result for the tables: for every run, a reader that only sees the finished file finds in
  // each track's index where its samples lie, when they are decoded and which are key frames.
  lemma IndexDescribes(info: MovieInfo, ps: seq<Packet>, k: nat)
    requires Legal(info, ps) && k < 2 && Mp4Timing.Of(ps, k) != []
    ensures var x := ReadIndex(FileBytes(info, ps), k + 1);
            |info.tracks| == 2 && x.Some? && Describes(x.value, info, ps, k)
  {
    hide *;
    FinalParts(info, ps);
    VideoFirst(info);
    ReadIndexBack(info, ps, k);
    IndexOfRun(info, ps, k);
  }

  lemma IndexOfRun(info: MovieInfo, ps: seq<Packet>, k: nat)
    requires MovieOk(info) && AllValid(ps) && ps != [] && k < 2 && Mp4Timing.Of(ps, k) != []
    ensures info.tracks[k].video ==> Final(ps).tracks[k].stts != []
    ensures Describes(IndexOf(info.tracks[k], Final(ps).tracks[k]), info, ps, k)
  {
    var vs, t := Mp4Timing.Of(ps, k), Final(ps).tracks[k];
    Mp4Timing.RunTimesAndKeys(ps);
    Mp4Timing.KeyTableExact(ps);
    SampleCount(ps, k);
    IndexOfFinishedRun(ps, k);
    RunIndexRight(ps, k);
    FinishKeeps(Run(ps), k);
    hide Run, Finish, Expand, TrackExtents, Layout, Mp4Timing.Of, Mp4Timing.Lists, Mp4Timing.KeysInFirstBlock, AllValid;
    hide Mp4Timing.UnitEntries, Mp4Timing.SumInts, DecodeTime, SttsSampleCount;
    if k == VIDEO {
      assert t.stts == Mp4Timing.Durations(vs);
      forall j: nat | j < |vs|
        ensures SttsSampleCount(Mp4Timing.UnitEntries(Mp4Timing.VideoDeltas(t.stts))) == |vs|
        ensures DecodeTime(Mp4Timing.UnitEntries(Mp4Timing.VideoDeltas(t.stts)), j)
             == Mp4Timing.SumInts(Mp4Timing.Durations(vs)[1..j + 1])
      {
        Mp4Timing.VideoDecodeTime(t.stts, j);
      }
      assert |vs| > 0;
      Mp4Timing.VideoDecodeTime(t.stts, 0);
    } else {
      OneEntry(|vs|, ToU32(info.tracks[k].frameSize));
    }
  }

  lemma OneEntry(n: nat, delta: int)
    ensures SttsSampleCount([SttsEntry(n, delta)]) == n
    ensures forall j: nat :: j < n ==> DecodeTime([SttsEntry(n, delta)], j) == j * delta
  {
    assert [SttsEntry(n, delta)][1..] == [];
  }

  // Main result: for every run of packets, a reader that only sees the finished file gets back,
  // per track, exactly the stored bytes of that track's packets in order.
  lemma ReadBack(info: MovieInfo, ps: seq<Packet>, k: nat)
    requires Legal(info, ps) && k < 2 && Mp4Timing.Of(ps, k) != []
    ensures ReadSamples(FileBytes(info, ps), k + 1) == Samples(TrackSamples(ps, k))
  {
    hide Legal, ReadIndex, FileBytes, Cut, TrackExtents, Layout, Payload, SttsSampleCount, DecodeTime, Mp4Timing.Lists;
    LegalParts(info, ps);
    IndexDescribes(info, ps, k);
    MediaDataInPlace(info, ps);
    CutLayout(FileBytes(info, ps), ps, k);
  }

  lemma LegalParts(info: MovieInfo, ps: seq<Packet>)
    requires Legal(info, ps)
    ensures MovieOk(info) && AllValid(ps) && ps != []
  {
  }

  lemma ReadTrackIs(file: seq<byte>, id: uint32, top: seq<Box>, moov: Box, trak: Box)
    requires Parse(file) == Some(top) && Find(top, MOOV) == Some(moov) && FindTrack(moov.children, id) == Some(trak)
    ensures ReadMoov(file) == Some(moov) && ReadTrackBox(file, id) == Some(trak)
  {
  }

  // A reader finds moov and, in it, the box of each track that has samples.
  lemma ReadTrackBack(info: MovieInfo, ps: seq<Packet>, k: nat)
    requires Legal(info, ps) && k < 2 && Mp4Timing.Of(ps, k) != []
    ensures MovieOk(info) && AllValid(ps) && ps != []
    ensures ReadMoov(FileBytes(info, ps)) == Some(MoovBox(info, Final(ps)))
    ensures ReadTrackBox(FileBytes(info, ps), k + 1)
         == Some(TrakBox(info.tracks[k], k + 1, Final(ps).tracks[k], info.createTime, info.title))
  {
    hide *;
    FinalParts(info, ps);
    VideoFirst(info);
    SomeSamples(ps, k);
    var m := Final(ps);
    FileIsTiled(info, ps);
    FindMoov(info, ps);
    FindTrackInMoov(info, m, k);
    ReadTrackIs(FileBytes(info, ps), k + 1, FileBoxes(info, ps), MoovBox(info, m),
                TrakBox(info.tracks[k], k + 1, m.tracks[k], info.createTime, info.title));
  }

  lemma ReadMoovBack(info: MovieInfo, ps: seq<Packet>)
    requires Legal(info, ps)
    ensures MovieOk(info) && AllValid(ps) && ps != []
    ensures ReadMoov(FileBytes(info, ps)) == Some(MoovBox(info, Final(ps)))
  {
    hide *;
    FinalParts(info, ps);
    FileIsTiled(info, ps);
    FindMoov(info, ps);
    ReadMoovIs(FileBytes(info, ps), FileBoxes(info, ps), MoovBox(info, Final(ps)));
  }

  lemma ReadMoovIs(file: seq<byte>, top: seq<Box>, moov: Box)
    requires Parse(file) == Some(top) && Find(top, MOOV) == Some(moov)
    ensures ReadMoov(file) == Some(moov)
  {
  }

  lemma SomeSamples(ps: seq<Packet>, k: nat)
    requires AllValid(ps) && ps != [] && k < 2 && Mp4Timing.Of(ps, k) != []
    ensures |Final(ps).tracks[k].stsz| > 0
  {
    SampleCount(ps, k);
    hide Run, Finish, Mp4Timing.Of;
  }

  lemma ReadIndexBack(info: MovieInfo, ps: seq<Packet>, k: nat)
    requires Legal(info, ps) && k < 2 && Mp4Timing.Of(ps, k) != []
    ensures MovieOk(info) && AllValid(ps) && ps != []
    ensures info.tracks[k].video ==> Final(ps).tracks[k].stts != []
    ensures ReadIndex(FileBytes(info, ps), k + 1) == Some(IndexOf(info.tracks[k], Final(ps).tracks[k]))
  {
    ReadTrackBack(info, ps, k);
    ReadTrakOfRun(info, ps, k);
    hide FileBytes, Final, TrakBox, ReadTrak, ReadTrackBox, IndexOf, Legal, MoovBox, ReadMoov, Mp4Timing.Of;
  }

  lemma ReadTrakOfRun(info: MovieInfo, ps: seq<Packet>, k: nat)
    requires Legal(info, ps) && k < 2 && Mp4Timing.Of(ps, k) != []
    ensures var m, i := Final(ps), info.tracks[k];
            && |m.tracks[k].stsz| > 0 && (i.video ==> m.tracks[k].stts != [])
            && ReadTrak(TrakBox(i, k + 1, m.tracks[k], info.createTime, info.title)) == Some(IndexOf(i, m.tracks[k]))
  {
    var m := Final(ps);
    SampleCount(ps, k);
    TablesInRange(info, ps, k);
    hide TrakBox, ReadTrak, Run, Finish, TablesU32, IndexOf, MoovSize;
    ReadTrakBox(info.tracks[k], k + 1, m.tracks[k], info.createTime, info.title);
  }

  lemma FindSecond(a: Box, b: Box, c: Box, d: Box, kind: uint32)
    requires a.kind != kind && b.kind == kind
    ensures Find([a] + [b] + [c] + [d], kind) == Some(b)
  {
    assert [a] + [b] + [c] + [d] == [a] + ([b] + [c] + [d]);
    FindPast([a], [b] + [c] + [d], kind);
  }

  lemma FindFourth(a: Box, b: Box, c: Box, d: Box, kind: uint32)
    requires a.kind != kind && b.kind != kind && c.kind != kind && d.kind == kind
    ensures Find([a] + [b] + [c] + [d], kind) == Some(d)
  {
    FindPast([a] + [b] + [c], [d], kind);
  }

  lemma FindMoov(info: MovieInfo, ps: seq<Packet>)
    requires MovieOk(info) && AllValid(ps) && ps != []
    ensures Find(FileBoxes(info, ps), MOOV) == Some(MoovBox(info, Final(ps)))
  {
    var moov := MoovBox(info, Final(ps));
    var size := MoovSize(info, Final(ps));
    assert moov.kind == MOOV;
    hide MoovBox, MovieOk, Final, Find;
    var ftyp, mdat := Box(FTYP, FTYP_FIELDS, []), Box(MDAT, Payload(ps), []);
    if Fits(size) {
      FindSecond(ftyp, moov, Box(FREE, Fill(RESERVE - size - 36, 0), []), mdat, MOOV);
    } else {
      FindFourth(ftyp, Box(FREE, Fill(RESERVE - 36, 0), []), mdat, moov, MOOV);
    }
  }

  lemma {:induction false} SampleCount(ps: seq<Packet>, k: nat)
    requires AllValid(ps) && k < 2
    ensures |Run(ps).tracks[k].stsz| == |Mp4Timing.Of(ps, k)|
  {
    if ps != [] {
      hide Step;
      SampleCount(ps[..|ps| - 1], k);
      StepOnTrack(Run(ps[..|ps| - 1]), ps[|ps| - 1], k);
    }
  }

  // ---------------------------------------------------------------- ranges

  predicate Bounded(ws: seq<int>, limit: int) {
    forall i :: 0 <= i < |ws| ==> 0 <= ws[i] <= limit
  }

  lemma BoundedEmpty(limit: int)
    ensures Bounded([], limit)
  {
  }

  lemma BoundedSnoc(ws: seq<int>, limit: int, w: int, limit': int)
    requires Bounded(ws, limit) && limit <= limit' && 0 <= w <= limit'
    ensures Bounded(ws, limit') && Bounded(ws + [w], limit')
  {
  }

  // Offsets and sizes never exceed the end of the media data.
  lemma {:induction false} RunBounded(ps: seq<Packet>, k: nat)
    requires AllValid(ps) && k < 2
    ensures Run(ps).mdatSize == TotalSize(ps)
    ensures Bounded(Run(ps).tracks[k].stco, MDAT_START + TotalSize(ps))
    ensures Bounded(Run(ps).tracks[k].stsz, TotalSize(ps))
  {
    hide Step, Bounded, Size;
    if ps != [] {
      var init, p := ps[..|ps| - 1], ps[|ps| - 1];
      RunBounded(init, k);
      StepBounded(Run(init), p, k, TotalSize(init));
    } else {
      BoundedEmpty(MDAT_START);
      BoundedEmpty(0);
    }
  }

  lemma StepBounded(m: Mov, p: Packet, k: nat, n: nat)
    requires Shape(m) && Valid(p) && k < 2 && m.mdatSize == n
    requires Bounded(m.tracks[k].stco, MDAT_START + n) && Bounded(m.tracks[k].stsz, n)
    ensures var r := Step(m, p, true);
            && r.mdatSize == n + Size(p)
            && Bounded(r.tracks[k].stco, MDAT_START + n + Size(p)) && Bounded(r.tracks[k].stsz, n + Size(p))
  {
    hide Step, Bounded;
    StepOnTrack(m, p, k);
    BoundedSnoc(m.tracks[k].stco, MDAT_START + n, MDAT_START + n, MDAT_START + n + Size(p));
    BoundedSnoc(m.tracks[k].stsz, n, Size(p), n + Size(p));
  }

  lemma {:induction false} TermsBoundedBySum(s: seq<nat>)
    ensures Bounded(s, Sum(s))
  {
    if s != [] {
      TermsBoundedBySum(s[1..]);
    }
  }

  lemma {:induction false} StscWordsBounded(counts: seq<nat>, limit: nat)
    requires Bounded(counts, limit) && |counts| <= limit && 1 <= limit
    ensures Bounded(StscWords(counts), limit)
  {
    if counts != [] {
      StscWordsBounded(counts[..|counts| - 1], limit);
    }
  }

  lemma TableBounds(t: Tables, total: nat)
    requires Bounded(t.stco, MDAT_START + total) && Bounded(t.stsz, total) && MDAT_START + total < TWO_32
    requires Bounded(StscWords(t.stsc), TWO_32 - 1) && |t.stsz| < TWO_32 && IsU32(t.stts) && IsU32(t.keys)
    requires |t.stco| < TWO_32 && |t.stsc| < TWO_32 && |t.stts| < TWO_32 && |t.keys| < TWO_32
    ensures TablesU32(t)
  {
  }

  // Durations are stored as words, and key-frame numbers do not exceed the number of samples.
  lemma TimesInRange(ps: seq<Packet>, k: nat)
    requires AllValid(ps) && k < 2 && |Run(ps).tracks[k].stsz| < TWO_32
    ensures IsU32(Run(ps).tracks[k].stts) && IsU32(Run(ps).tracks[k].keys)
    ensures |Run(ps).tracks[k].stts| < TWO_32 && (k != VIDEO ==> Run(ps).tracks[k].keys == [])
  {
    if k == VIDEO {
      Mp4Timing.RunTimesAndKeys(ps);
      hide Run;
      RightInRange(Run(ps).tracks[VIDEO], Mp4Timing.Of(ps, VIDEO));
    } else {
      AudioHasNoTimes(ps);
    }
  }

  lemma RightInRange(v: Tables, vs: seq<Packet>)
    requires Mp4Timing.VideoRight(v, vs) && |v.stsz| < TWO_32
    ensures IsU32(v.stts) && IsU32(v.keys)
  {
    forall i | 0 <= i < |v.stts|
      ensures 0 <= v.stts[i] < TWO_32
    {
      assert v.stts[i] == vs[i].duration;
    }
  }

  lemma {:induction false} AudioHasNoTimes(ps: seq<Packet>)
    requires AllValid(ps)
    ensures Run(ps).tracks[AUDIO].stts == [] && Run(ps).tracks[AUDIO].keys == []
  {
    if ps != [] {
      AudioHasNoTimes(ps[..|ps| - 1]);
    }
  }

  lemma StscInRange(counts: seq<nat>, samples: nat)
    requires Sum(counts) == samples && StszSize(samples) < TWO_32 && StscSize(|counts|) < TWO_32
    ensures Bounded(StscWords(counts), TWO_32 - 1)
  {
    TermsBoundedBySum(counts);
    hide Sum, StscWords;
    StscWordsBounded(counts, TWO_32 - 1);
  }

  lemma FinalParts(info: MovieInfo, ps: seq<Packet>)
    requires Legal(info, ps)
    ensures MovieOk(info) && AllValid(ps) && ps != [] && Shape(Run(ps)) && Run(ps).last >= 0
    ensures Final(ps) == Finish(Run(ps)) && MDAT_START + TotalSize(ps) < TWO_32
    ensures Shape(Final(ps)) && TablesOk(Final(ps)) && MoovSize(info, Final(ps)) < TWO_32
    ensures CsdOk(info.tracks[0]) && CsdOk(info.tracks[1])
  {
    assert Final(ps) == Finish(Run(ps));
    RunIndexRight(ps, 0);
  }

  // Every table entry of a legal run is a 32-bit word.
  lemma TablesInRange(info: MovieInfo, ps: seq<Packet>, k: nat)
    requires Legal(info, ps) && k < 2 && |Final(ps).tracks[k].stsz| > 0
    ensures TablesU32(Final(ps).tracks[k])
  {
    hide *;
    FinalParts(info, ps);
    var m := Final(ps);
    ShapeTwo(m);
    var t := m.tracks[k];
    TrakFitsMoov(info, m, k);
    IndexOfFinishedRun(ps, k);
    FinishKeeps(Run(ps), k);
    RunBounded(ps, k);
    StscInRange(t.stsc, |t.stsz|);
    TimesInRange(ps, k);
    TableBounds(t, TotalSize(ps));
  }

  lemma ShapeTwo(m: Mov)
    requires Shape(m)
    ensures |m.tracks| == 2
  {
  }

  lemma FinishKeeps(m: Mov, k: nat)
    requires Shape(m) && m.last >= 0 && k < 2
    ensures Finish(m).tracks[k].stco == m.tracks[k].stco && Finish(m).tracks[k].stsz == m.tracks[k].stsz
    ensures Finish(m).tracks[k].stts == m.tracks[k].stts && Finish(m).tracks[k].keys == m.tracks[k].keys
  {
  }

  lemma TrakFitsMoov(info: MovieInfo, m: Mov, k: nat)
    requires MovieOk(info) && TablesOk(m) && k < 2 && MoovSize(info, m) < TWO_32 && |m.tracks[k].stsz| > 0
    ensures StscSize(|m.tracks[k].stsc|) < TWO_32 && StszSize(|m.tracks[k].stsz|) < TWO_32
    ensures |m.tracks[k].stsz| < TWO_32 && |m.tracks[k].stsc| < TWO_32 && |m.tracks[k].stco| < TWO_32
    ensures k == VIDEO ==> |m.tracks[k].keys| < TWO_32
  {
    assert TrakTotal(info, AllCounts(m), k) <= MoovSize(info, m);
  }
}
