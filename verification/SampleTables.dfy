/**
 A reader of the sample tables of ISO/IEC 14496-12: sections 8.7.3 (stsz), 8.7.4 (stsc),
 8.7.5 (stco) and 8.6.1.2 (stts). It knows nothing about how the tables were built.
 */
module SampleTables {
  import opened Bytes

  // Where one sample lies in the file.
  datatype Extent = Extent(offset: int, length: int)

  // One stsc entry: from chunk `first` (1-based) on, every chunk holds `samples` samples.
  datatype StscEntry = StscEntry(first: int, samples: int)

  // The samples of a chunk lie back to back from its offset.
  function ChunkExtents(offset: int, sizes: seq<nat>): (es: seq<Extent>)
    ensures |es| == |sizes|
    decreases |sizes|
  {
    if sizes == [] then []
    else [Extent(offset, sizes[0])] + ChunkExtents(offset + sizes[0], sizes[1..])
  }

  lemma {:induction false} ChunkExtentsSnoc(offset: int, sizes: seq<nat>, size: nat)
    ensures ChunkExtents(offset, sizes + [size])
         == ChunkExtents(offset, sizes) + [Extent(offset + Sum(sizes), size)]
    decreases |sizes|
  {
    if sizes == [] {
    } else {
      assert (sizes + [size])[1..] == sizes[1..] + [size];
      ChunkExtentsSnoc(offset + sizes[0], sizes[1..], size);
    }
  }

  // The entry that governs a chunk is the last one whose first chunk is not beyond it.
  function SamplesPerChunk(stsc: seq<StscEntry>, chunk: int): int {
    if stsc == [] then 0
    else if stsc[|stsc| - 1].first <= chunk then stsc[|stsc| - 1].samples
    else SamplesPerChunk(stsc[..|stsc| - 1], chunk)
  }

  // Every sample of the track, in order.
  function Expand(stco: seq<int>, stsc: seq<StscEntry>, stsz: seq<nat>, chunk: nat): seq<Extent>
    decreases |stco| - chunk
  {
    if |stco| <= chunk then []
    else
      var n := SamplesPerChunk(stsc, chunk + 1);
      var k := if n < 0 then 0 else if n <= |stsz| then n else |stsz|;
      ChunkExtents(stco[chunk], stsz[..k]) + Expand(stco, stsc, stsz[k..], chunk + 1)
  }

  // The same expansion when every chunk has its own sample count.
  function ExpandCounts(stco: seq<int>, counts: seq<nat>, stsz: seq<nat>): seq<Extent>
    requires |stco| == |counts| && Sum(counts) == |stsz|
  {
    if stco == [] then []
    else ChunkExtents(stco[0], stsz[..counts[0]]) + ExpandCounts(stco[1..], counts[1..], stsz[counts[0]..])
  }

  // One entry per chunk, numbered from 1: the shape the muxer writes.
  function EntryPerChunk(counts: seq<nat>): (es: seq<StscEntry>)
    ensures |es| == |counts|
    ensures forall i :: 0 <= i < |counts| ==> es[i] == StscEntry(i + 1, counts[i])
  {
    seq(|counts|, i requires 0 <= i < |counts| => StscEntry(i + 1, counts[i]))
  }

  lemma {:induction false} EntryPerChunkLookup(counts: seq<nat>, chunk: nat)
    requires chunk < |counts|
    ensures SamplesPerChunk(EntryPerChunk(counts), chunk + 1) == counts[chunk]
  {
    var n := |counts|;
    if chunk < n - 1 {
      EntryPerChunkLookup(counts[..n - 1], chunk);
      assert EntryPerChunk(counts)[..n - 1] == EntryPerChunk(counts[..n - 1]);
    }
  }

  lemma {:induction false} ExpandIsExpandCounts(stco: seq<int>, counts: seq<nat>, stsz: seq<nat>, chunk: nat)
    requires |stco| == |counts| && chunk <= |stco| && Sum(counts[chunk..]) == |stsz|
    ensures Expand(stco, EntryPerChunk(counts), stsz, chunk) == ExpandCounts(stco[chunk..], counts[chunk..], stsz)
    decreases |stco| - chunk
  {
    if chunk < |stco| {
      EntryPerChunkLookup(counts, chunk);
      assert stco[chunk..][1..] == stco[chunk + 1..] && counts[chunk..][1..] == counts[chunk + 1..];
      ExpandIsExpandCounts(stco, counts, stsz[counts[chunk]..], chunk + 1);
    }
  }

  lemma {:induction false} ExpandCountsSnoc(
    stco: seq<int>, counts: seq<nat>, stsz: seq<nat>, offset: int, sizes: seq<nat>)
    requires |stco| == |counts| && Sum(counts) == |stsz|
    ensures Sum(counts + [|sizes|]) == |stsz + sizes|
    ensures ExpandCounts(stco + [offset], counts + [|sizes|], stsz + sizes)
         == ExpandCounts(stco, counts, stsz) + ChunkExtents(offset, sizes)
  {
    SumAppend(counts, [|sizes|]);
    if stco == [] {
      assert stsz + sizes == sizes && sizes[..|sizes|] == sizes;
      assert ExpandCounts([], [], sizes[|sizes|..]) == [];
    } else {
      var c := counts[0];
      assert (stco + [offset])[1..] == stco[1..] + [offset];
      assert (counts + [|sizes|])[1..] == counts[1..] + [|sizes|];
      assert (stsz + sizes)[..c] == stsz[..c] && (stsz + sizes)[c..] == stsz[c..] + sizes;
      ExpandCountsSnoc(stco[1..], counts[1..], stsz[c..], offset, sizes);
    }
  }

  // One stts entry: `count` samples in a row, each lasting `delta`.
  datatype SttsEntry = SttsEntry(count: nat, delta: int)

  function SttsSampleCount(es: seq<SttsEntry>): nat {
    if es == [] then 0 else es[0].count + SttsSampleCount(es[1..])
  }

  // Decode time of sample k (0-based): the deltas of all samples before it.
  function DecodeTime(es: seq<SttsEntry>, k: nat): int {
    if es == [] then 0
    else if k <= es[0].count then k * es[0].delta
    else es[0].count * es[0].delta + DecodeTime(es[1..], k - es[0].count)
  }
}
