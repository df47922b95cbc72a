/**
 What `mov_write_packet` does to the sample tables and to the media data, as a function of the
 packets written so far, and what a reader of those tables gets back for every run.
 */
module Mp4Packets {
  import opened Bytes
  import opened SampleTables

  const VIDEO: nat := 0
  const AUDIO: nat := 1

  // Reserved room for ftyp, moov and free in front of the media data.
  const RESERVE: nat := 1024 * 1024
  const MDAT_START: nat := RESERVE + 8

  datatype Packet = Packet(stream: nat, data0: seq<byte>, data1: seq<byte>, duration: uint32)

  function Size(p: Packet): nat {
    |p.data0| + |p.data1|
  }

  // What the code reads without checking: one of the two tracks, and the fifth byte of every
  // video packet whose first block is not empty.
  predicate Valid(p: Packet) {
    && p.stream <= AUDIO
    && (p.stream == VIDEO && |p.data0| > 0 ==> Size(p) >= 5)
  }

  predicate AllValid(ps: seq<Packet>) {
    forall i :: 0 <= i < |ps| ==> Valid(ps[i])
  }

  // ---------------------------------------------------------------- stored sample bytes

  // The bytes the two writes at the end of mov_write_packet put into the media data.
  function Stored(p: Packet): seq<byte>
    requires Valid(p)
  {
    var special := p.stream == VIDEO && Size(p) != 0;
    var skip := special && 0 < |p.data0| <= 4;
    var first :=
      if |p.data0| == 0 then []
      else if !special then p.data0
      else BE32(Size(p) - 4) + (if |p.data0| <= 4 then [] else p.data0[4..]);
    var second :=
      if |p.data1| == 0 then []
      else if skip then p.data1[4 - |p.data0|..] else p.data1;
    first + second
  }

  // The tables count every sample at exactly its stored length.
  lemma StoredLength(p: Packet)
    requires Valid(p)
    ensures |Stored(p)| == Size(p)
  {
  }

  // A video sample is its length-prefixed payload, wherever the two blocks were split, exactly
  // when the first block is not empty (or the caller had already put that prefix in place).
  lemma StoredVideo(p: Packet)
    requires Valid(p) && p.stream == VIDEO && Size(p) >= 5
    ensures var whole := p.data0 + p.data1;
            Stored(p) == BE32(Size(p) - 4) + whole[4..]
            <==> (|p.data0| > 0 || p.data1[..4] == BE32(Size(p) - 4))
    ensures |p.data0| == 0 ==> Stored(p) == p.data1
  {
    var whole := p.data0 + p.data1;
    if |p.data0| == 0 {
      assert whole == p.data1 == p.data1[..4] + p.data1[4..] && Stored(p) == p.data1;
      assert (BE32(Size(p) - 4) + whole[4..])[..4] == BE32(Size(p) - 4);
    } else if |p.data0| <= 4 {
      assert whole[4..] == p.data1[4 - |p.data0|..];
    } else {
      assert whole[4..] == p.data0[4..] + p.data1;
    }
  }

  // The failing family is real: a packet handed over wholly in the second block.
  lemma EmptyFirstBlockLosesPrefix()
    ensures var p := Packet(VIDEO, [], [0, 0, 0, 1, 0x65, 0x88], 0);
            Valid(p) && Stored(p) != BE32(Size(p) - 4) + (p.data0 + p.data1)[4..]
  {
    var p := Packet(VIDEO, [], [0, 0, 0, 1, 0x65, 0x88], 0);
    assert Stored(p)[3] == 1 && (BE32(Size(p) - 4) + (p.data0 + p.data1)[4..])[3] == 2;
  }

  lemma StoredAudio(p: Packet)
    requires Valid(p) && p.stream == AUDIO
    ensures Stored(p) == p.data0 + p.data1
  {
  }

  // ---------------------------------------------------------------- the tables

  datatype Tables = Tables(stco: seq<int>, stsz: seq<nat>, stsc: seq<nat>, stts: seq<int>, keys: seq<int>)

  datatype Mov = Mov(tracks: seq<Tables>, last: int, count: nat, mdatSize: nat)

  const EMPTY := Tables([], [], [], [], [])

  const INIT := Mov([EMPTY, EMPTY], -1, 0, 0)

  predicate Shape(m: Mov) {
    |m.tracks| == 2 && -1 <= m.last <= 1
  }

  // Byte four of the packet: what the code looks at to recognise a key frame.
  function Fifth(p: Packet): byte
    requires Valid(p)
  {
    if |p.data0| >= 5 then p.data0[4]
    else if |p.data0| > 0 && p.stream == VIDEO then p.data1[4 - |p.data0|]
    else 0
  }

  // The stream changed: a chunk of the new track opens, the open chunk of the other closes.
  function OpenChunk(m: Mov, i: nat): (r: Mov)
    requires Shape(m) && i < 2
    ensures Shape(r)
  {
    var ts := m.tracks[i := m.tracks[i].(stco := m.tracks[i].stco + [m.mdatSize + MDAT_START])];
    var ts' := if m.last >= 0 then ts[m.last := ts[m.last].(stsc := ts[m.last].stsc + [m.count])] else ts;
    m.(tracks := ts', count := 0)
  }

  function CountSample(m: Mov, i: nat, size: nat): (r: Mov)
    requires Shape(m) && i < 2
    ensures Shape(r)
  {
    m.(tracks := m.tracks[i := m.tracks[i].(stsz := m.tracks[i].stsz + [size])], last := i, count := m.count + 1)
  }

  function NoteVideo(t: Tables, p: Packet, h264: bool): Tables
    requires Valid(p)
  {
    var t' := t.(stts := t.stts + [p.duration]);
    if h264 && Fifth(p) % 32 == 5 then t'.(keys := t'.keys + [|t'.stts|]) else t'
  }

  // A video packet of any codec but H.264 is refused after the tables were touched.
  predicate Refused(p: Packet, h264: bool) {
    p.stream == VIDEO && !h264
  }

  function Step(m: Mov, p: Packet, h264: bool): (r: Mov)
    requires Shape(m) && Valid(p)
    ensures Shape(r)
  {
    var i := p.stream;
    var m1 := if i != m.last then OpenChunk(m, i) else m;
    var m2 := CountSample(m1, i, Size(p));
    var m3 := if i == VIDEO then m2.(tracks := m2.tracks[VIDEO := NoteVideo(m2.tracks[VIDEO], p, h264)]) else m2;
    if Refused(p, h264) then m3 else m3.(mdatSize := m3.mdatSize + Size(p))
  }

  // The trailer's pseudo packet closes the chunk still open.
  function Finish(m: Mov): (r: Mov)
    requires Shape(m) && m.last >= 0
    ensures Shape(r)
  {
    m.(tracks := m.tracks[m.last := m.tracks[m.last].(stsc := m.tracks[m.last].stsc + [m.count])])
  }

  function Run(ps: seq<Packet>): (m: Mov)
    requires AllValid(ps)
    ensures Shape(m)
  {
    if ps == [] then INIT else Step(Run(ps[..|ps| - 1]), ps[|ps| - 1], true)
  }

  // ---------------------------------------------------------------- where the samples really are

  function TotalSize(ps: seq<Packet>): nat {
    if ps == [] then 0 else TotalSize(ps[..|ps| - 1]) + Size(ps[|ps| - 1])
  }

  // The media data the run produced.
  function Payload(ps: seq<Packet>): (s: seq<byte>)
    requires AllValid(ps)
  {
    if ps == [] then [] else Payload(ps[..|ps| - 1]) + Stored(ps[|ps| - 1])
  }

  lemma {:induction false} PayloadLength(ps: seq<Packet>)
    requires AllValid(ps)
    ensures |Payload(ps)| == TotalSize(ps)
  {
    if ps != [] {
      StoredLength(ps[|ps| - 1]);
      PayloadLength(ps[..|ps| - 1]);
    }
  }

  datatype Placed = Placed(stream: nat, extent: Extent)

  // Every sample of the file in the order written: back to back from the start of the media data.
  function Layout(ps: seq<Packet>): (ls: seq<Placed>)
    ensures |ls| == |ps|
  {
    if ps == [] then []
    else
      var init, p := ps[..|ps| - 1], ps[|ps| - 1];
      Layout(init) + [Placed(p.stream, Extent(MDAT_START + TotalSize(init), Size(p)))]
  }

  // The samples tile the media data: no gap, no overlap, nothing left over.
  lemma {:induction false} LayoutTiles(ps: seq<Packet>)
    ensures var ls := Layout(ps);
            && (|ps| > 0 ==> ls[0].extent.offset == MDAT_START)
            && (forall i :: 0 < i < |ls| ==>
                  ls[i].extent.offset == ls[i - 1].extent.offset + ls[i - 1].extent.length)
            && (|ps| > 0 ==> ls[|ls| - 1].extent.offset + ls[|ls| - 1].extent.length
                             == MDAT_START + TotalSize(ps))
  {
    if ps != [] {
      LayoutTiles(ps[..|ps| - 1]);
      assert ps[..0] == [];
    }
  }

  // The extents of one track, in order.
  function TrackExtents(ls: seq<Placed>, t: nat): seq<Extent> {
    if ls == [] then []
    else
      var init, l := TrackExtents(ls[..|ls| - 1], t), ls[|ls| - 1];
      if l.stream == t then init + [l.extent] else init
  }

  // The stored samples of one track, in order.
  function TrackSamples(ps: seq<Packet>, t: nat): seq<seq<byte>>
    requires AllValid(ps)
  {
    if ps == [] then []
    else
      var init, p := TrackSamples(ps[..|ps| - 1], t), ps[|ps| - 1];
      if p.stream == t then init + [Stored(p)] else init
  }

  // A reader's view: cut the extents out of the file.
  function Cut(file: seq<byte>, es: seq<Extent>): Boxed {
    if es == [] then Samples([])
    else
      var e := es[|es| - 1];
      match Cut(file, es[..|es| - 1])
      case Broken => Broken
      case Samples(init) =>
        if 0 <= e.offset && 0 <= e.length && e.offset + e.length <= |file|
        then Samples(init + [file[e.offset..e.offset + e.length]])
        else Broken
  }

  datatype Boxed = Broken | Samples(samples: seq<seq<byte>>)

  // In any file that holds the media data at its place, the extents of a track are its samples.
  lemma {:induction false} CutLayout(file: seq<byte>, ps: seq<Packet>, t: nat)
    requires AllValid(ps)
    requires |file| >= MDAT_START + |Payload(ps)|
    requires file[MDAT_START..MDAT_START + |Payload(ps)|] == Payload(ps)
    ensures Cut(file, TrackExtents(Layout(ps), t)) == Samples(TrackSamples(ps, t))
  {
    if ps != [] {
      var init, p := ps[..|ps| - 1], ps[|ps| - 1];
      LayoutMore(ps, t);
      PayloadSlices(file, ps);
      hide Layout, TrackExtents, TrackSamples, Payload, Stored, AllValid, Cut, Size, TotalSize;
      CutLayout(file, init, t);
      if p.stream == t {
        CutMore(file, TrackExtents(Layout(init), t), Extent(MDAT_START + |Payload(init)|, |Stored(p)|), TrackSamples(init, t));
      }
    }
  }

  lemma LayoutMore(ps: seq<Packet>, t: nat)
    requires AllValid(ps) && ps != []
    ensures var init, p := ps[..|ps| - 1], ps[|ps| - 1];
            && AllValid(init) && Valid(p)
            && TrackExtents(Layout(ps), t) == TrackExtents(Layout(init), t)
               + (if p.stream == t then [Extent(MDAT_START + |Payload(init)|, |Stored(p)|)] else [])
            && TrackSamples(ps, t) == TrackSamples(init, t) + (if p.stream == t then [Stored(p)] else [])
  {
    var init, p := ps[..|ps| - 1], ps[|ps| - 1];
    PayloadLength(init);
    StoredLength(p);
    hide Payload, Stored, Valid;
    var ls := Layout(ps);
    assert ls[..|ls| - 1] == Layout(init);
    assert TrackExtents(Layout(init), t) + [] == TrackExtents(Layout(init), t) && TrackSamples(init, t) + [] == TrackSamples(init, t);
  }

  lemma PayloadSlices(file: seq<byte>, ps: seq<Packet>)
    requires AllValid(ps) && ps != [] && |file| >= MDAT_START + |Payload(ps)|
    requires file[MDAT_START..MDAT_START + |Payload(ps)|] == Payload(ps)
    ensures var init, p := ps[..|ps| - 1], ps[|ps| - 1];
            var a, b := MDAT_START + |Payload(init)|, MDAT_START + |Payload(ps)|;
            b == a + |Stored(p)| && file[MDAT_START..a] == Payload(init) && file[a..b] == Stored(p)
  {
    var init, p := ps[..|ps| - 1], ps[|ps| - 1];
    assert Payload(ps) == Payload(init) + Stored(p);
    hide Payload, Stored, AllValid;
    var a, b := |Payload(init)|, |Payload(ps)|;
    assert file[MDAT_START..MDAT_START + a] == file[MDAT_START..MDAT_START + b][..a];
    assert file[MDAT_START + a..MDAT_START + b] == file[MDAT_START..MDAT_START + b][a..];
  }

  lemma CutMore(file: seq<byte>, es: seq<Extent>, e: Extent, init: seq<seq<byte>>)
    requires Cut(file, es) == Samples(init) && 0 <= e.offset && 0 <= e.length && e.offset + e.length <= |file|
    ensures Cut(file, es + [e]) == Samples(init + [file[e.offset..e.offset + e.length]])
  {
    assert (es + [e])[..|es|] == es;
  }

  // ---------------------------------------------------------------- the index is right

  // The per-chunk counts with the open chunk of track t counted in.
  function Counts(m: Mov, t: nat): seq<nat>
    requires Shape(m) && t < 2
  {
    if m.last == t then m.tracks[t].stsc + [m.count] else m.tracks[t].stsc
  }

  ghost predicate IndexRight(m: Mov, ps: seq<Packet>, t: nat)
    requires Shape(m) && t < 2
  {
    var tt, counts := m.tracks[t], Counts(m, t);
    && |tt.stco| == |counts| && Sum(counts) == |tt.stsz|
    && ExpandCounts(tt.stco, counts, tt.stsz) == TrackExtents(Layout(ps), t)
    && (m.last == t ==>
          && 0 < m.count <= |tt.stsz|
          && tt.stco[|tt.stco| - 1] + Sum(tt.stsz[|tt.stsz| - m.count..]) == MDAT_START + m.mdatSize)
  }

  lemma LastChunkGrowsParts(
    stco0: seq<int>, off: int, stsc: seq<nat>, stsz0: seq<nat>, sizes: seq<nat>, size: nat)
    requires |stco0| == |stsc| && Sum(stsc) == |stsz0|
    ensures Sum(stsc + [|sizes|]) == |stsz0 + sizes|
    ensures Sum(stsc + [|sizes| + 1]) == |stsz0 + (sizes + [size])|
    ensures ExpandCounts(stco0 + [off], stsc + [|sizes| + 1], stsz0 + (sizes + [size]))
         == ExpandCounts(stco0 + [off], stsc + [|sizes|], stsz0 + sizes) + [Extent(off + Sum(sizes), size)]
  {
    hide Sum, ExpandCounts, ChunkExtents;
    ExpandCountsSnoc(stco0, stsc, stsz0, off, sizes);
    ExpandCountsSnoc(stco0, stsc, stsz0, off, sizes + [size]);
    ChunkExtentsSnoc(off, sizes, size);
  }

  lemma SumOne(n: nat)
    ensures Sum([n]) == n
  {
  }

  lemma SampleExtendsChunk(m: Mov, ps: seq<Packet>, t: nat, size: nat)
    requires Shape(m) && t < 2 && m.last == t && IndexRight(m, ps, t)
    ensures var tt, stsz' := m.tracks[t], m.tracks[t].stsz + [size];
            var counts' := tt.stsc + [m.count + 1];
            && Sum(counts') == |stsz'|
            && ExpandCounts(tt.stco, counts', stsz')
               == TrackExtents(Layout(ps), t) + [Extent(MDAT_START + m.mdatSize, size)]
            && tt.stco[|tt.stco| - 1] + Sum(stsz'[|stsz'| - (m.count + 1)..]) == MDAT_START + m.mdatSize + size
  {
    hide Sum, ExpandCounts, TrackExtents, Layout;
    var tt := m.tracks[t];
    var stco0, off := tt.stco[..|tt.stco| - 1], tt.stco[|tt.stco| - 1];
    var stsz0, sizes := tt.stsz[..|tt.stsz| - m.count], tt.stsz[|tt.stsz| - m.count..];
    SumAppend(tt.stsc, [m.count]);
    SumOne(m.count);
    LastChunkGrowsParts(stco0, off, tt.stsc, stsz0, sizes, size);
    SumAppend(sizes, [size]);
    SumOne(size);
    assert tt.stco == stco0 + [off] && tt.stsz == stsz0 + sizes;
    assert tt.stsz + [size] == stsz0 + (sizes + [size]);
    assert (tt.stsz + [size])[|stsz0|..] == sizes + [size];
  }

  lemma SampleOpensChunk(m: Mov, ps: seq<Packet>, t: nat, size: nat)
    requires Shape(m) && t < 2 && m.last != t && IndexRight(m, ps, t)
    ensures var tt := m.tracks[t];
            var stco', counts', stsz' := tt.stco + [m.mdatSize + MDAT_START], tt.stsc + [1], tt.stsz + [size];
            && Sum(counts') == |stsz'|
            && ExpandCounts(stco', counts', stsz')
               == TrackExtents(Layout(ps), t) + [Extent(MDAT_START + m.mdatSize, size)]
            && Sum(stsz'[|stsz'| - 1..]) == size
  {
    var tt := m.tracks[t];
    ExpandCountsSnoc(tt.stco, tt.stsc, tt.stsz, m.mdatSize + MDAT_START, [size]);
    assert ChunkExtents(m.mdatSize + MDAT_START, [size]) == [Extent(m.mdatSize + MDAT_START, size)];
    assert (tt.stsz + [size])[|tt.stsz|..] == [size];
  }

  // What one packet does to the tables of track t.
  lemma StepOnTrack(m: Mov, p: Packet, t: nat)
    requires Shape(m) && t < 2 && Valid(p)
    ensures var r, tt := Step(m, p, true), m.tracks[t];
            && r.mdatSize == m.mdatSize + Size(p) && r.last == p.stream
            && (p.stream != t ==>
                  r.tracks[t].stco == tt.stco && r.tracks[t].stsz == tt.stsz && r.tracks[t].stsc == Counts(m, t))
            && (p.stream == t ==>
                  && r.tracks[t].stsz == tt.stsz + [Size(p)] && r.tracks[t].stsc == tt.stsc
                  && r.tracks[t].stco == (if m.last == t then tt.stco else tt.stco + [m.mdatSize + MDAT_START])
                  && r.count == (if m.last == t then m.count + 1 else 1))
  {
  }

  lemma TrackExtentsSnoc(ps: seq<Packet>, p: Packet, t: nat)
    ensures TrackExtents(Layout(ps + [p]), t)
         == TrackExtents(Layout(ps), t)
            + (if p.stream == t then [Extent(MDAT_START + TotalSize(ps), Size(p))] else [])
  {
    assert (ps + [p])[..|ps|] == ps;
    assert Layout(ps + [p])[..|ps|] == Layout(ps);
  }

  lemma StepKeepsIndex(m: Mov, ps: seq<Packet>, p: Packet, t: nat)
    requires Shape(m) && t < 2 && Valid(p) && m.mdatSize == TotalSize(ps) && IndexRight(m, ps, t)
    ensures IndexRight(Step(m, p, true), ps + [p], t)
  {
    hide Step, Sum, ExpandCounts, TrackExtents, Layout, TotalSize, Size;
    StepOnTrack(m, p, t);
    TrackExtentsSnoc(ps, p, t);
    if p.stream == t {
      if m.last == t {
        SampleExtendsChunk(m, ps, t, Size(p));
      } else {
        SampleOpensChunk(m, ps, t, Size(p));
      }
    }
  }

  lemma InitIndexRight(t: nat)
    requires t < 2
    ensures Shape(INIT) && IndexRight(INIT, [], t)
  {
  }

  // The invariant of every run, for both tracks.
  lemma {:induction false} RunIndexRight(ps: seq<Packet>, t: nat)
    requires AllValid(ps) && t < 2
    ensures Run(ps).mdatSize == TotalSize(ps)
    ensures IndexRight(Run(ps), ps, t)
    ensures Run(ps).last == if ps == [] then -1 else ps[|ps| - 1].stream
  {
    hide Step, IndexRight, Shape;
    if ps == [] {
      assert IndexRight(INIT, [], t) by { InitIndexRight(t); }
    } else {
      var init := ps[..|ps| - 1];
      RunIndexRight(init, t);
      StepOnTrack(Run(init), ps[|ps| - 1], t);
      StepKeepsIndex(Run(init), init, ps[|ps| - 1], t);
      assert ps == init + [ps[|ps| - 1]];
    }
  }

  // Main result: after the trailer, expanding a track's stco, stsc and stsz tables as the format
  // says gives exactly the offset and length of each of that track's packets, in order.
  lemma IndexOfFinishedRun(ps: seq<Packet>, t: nat)
    requires AllValid(ps) && ps != [] && t < 2
    ensures var tt := Finish(Run(ps)).tracks[t];
            && |tt.stco| == |tt.stsc| && Sum(tt.stsc) == |tt.stsz|
            && Expand(tt.stco, EntryPerChunk(tt.stsc), tt.stsz, 0) == TrackExtents(Layout(ps), t)
  {
    RunIndexRight(ps, t);
    var tt := Finish(Run(ps)).tracks[t];
    assert tt.stsc == Counts(Run(ps), t);
    assert tt.stco[0..] == tt.stco && tt.stsc[0..] == tt.stsc;
    ExpandIsExpandCounts(tt.stco, tt.stsc, tt.stsz, 0);
  }
}
