/**
 The flat metadata buffer: seven sample tables and a spare page carved out of one allocation,
 each with a write and a read pointer. `contents` is what has been pushed into each table.
 */
module FlatTables {
  import opened Bytes

  // Table identifiers, and the region a table of a track occupies.
  const STCO_ID: nat := 0
  const STSZ_ID: nat := 1
  const STSC_ID: nat := 2
  const STTS_ID: nat := 3

  const REGIONS: nat := 7

  function Region(id: nat, track: nat): (r: nat)
    requires id <= STTS_ID && track < 2 && !(id == STTS_ID && track == 1)
    ensures r < REGIONS
    ensures r / 2 == id && r % 2 == track
  {
    2 * id + track
  }

  // The sizes the driver compiles in.
  const STCO_CACHE_SIZE: nat := 8 * 1024
  const STSZ_CACHE_SIZE: nat := 8 * 1024 * 4
  const MOV_CACHE_TINY_PAGE_SIZE: nat := 1024 * 2
  const KEYFRAME_CACHE_SIZE: nat := 8 * 1024 * 16
  const TOTAL_CACHE_SIZE: nat :=
    STCO_CACHE_SIZE * 2 + STSZ_CACHE_SIZE * 2 + STCO_CACHE_SIZE * 2 + STSZ_CACHE_SIZE + MOV_CACHE_TINY_PAGE_SIZE

  // stsc is as large as stco, stts as large as stsz.
  function Capacity(r: nat, stcoCap: nat, stszCap: nat): nat
    requires r < REGIONS
  {
    var id := r / 2;
    if id == STCO_ID || id == STSC_ID then stcoCap else stszCap
  }

  // The regions are pairwise disjoint and end where the spare page begins.
  ghost predicate Carving(start: seq<nat>, end: seq<int>, tinyPage: nat, stcoCap: nat, stszCap: nat) {
    && |start| == |end| == REGIONS
    && (forall r :: 0 <= r < REGIONS ==> start[r] + Capacity(r, stcoCap, stszCap) <= tinyPage)
    && (forall r, q :: 0 <= r < q < REGIONS ==> start[r] + Capacity(r, stcoCap, stszCap) <= start[q])
    && (forall r :: 0 <= r < REGIONS ==> end[r] == start[r] + Capacity(r, stcoCap, stszCap) - 1)
  }

  lemma CarvingIsDisjoint(start: seq<nat>, end: seq<int>, a: nat, b: nat)
    requires start == [0, a, a + a, a + a + b, a + a + b + b, a + a + b + b + a, a + a + b + b + a + a]
    requires end == [start[0] + (a - 1), start[1] + (a - 1), start[2] + (b - 1), start[3] + (b - 1),
                     start[4] + (a - 1), start[5] + (a - 1), start[6] + (b - 1)]
    ensures Carving(start, end, start[6] + b, a, b)
  {
    var caps := [a, a, b, b, a, a, b];
    assert forall r :: 0 <= r < REGIONS ==> Capacity(r, a, b) == caps[r];
  }

  class Tables {
    const mem: array<uint32>
    const stcoCap: nat
    const stszCap: nat
    const start: seq<nat>
    const end: seq<int>
    const tinyPage: nat
    var write: seq<nat>
    var read: seq<nat>
    ghost var contents: seq<seq<uint32>>

    ghost const Repr: set<object> := {this, mem}

    function Cap(r: nat): nat
      requires r < REGIONS
    {
      Capacity(r, stcoCap, stszCap)
    }

    ghost predicate Valid()
      reads this, mem
    {
      && Carving(start, end, tinyPage, stcoCap, stszCap) && tinyPage <= mem.Length
      && |write| == |read| == |contents| == REGIONS
      && (forall r :: 0 <= r < REGIONS ==>
            && |contents[r]| <= Cap(r)
            && (write[r] == start[r] + |contents[r]| || (write[r] == start[r] && |contents[r]| == Cap(r)))
            && start[r] <= read[r] <= start[r] + |contents[r]|)
      && (forall r, k :: 0 <= r < REGIONS && 0 <= k < |contents[r]| ==> mem[start[r] + k] == contents[r][k])
    }

    // The part of the driver's open call that assigns the pointers, in its order.
    constructor Open(stcoCap: nat, stszCap: nat, tinyPageSize: nat)
      ensures Valid() && fresh(mem)
      ensures this.stcoCap == stcoCap && this.stszCap == stszCap
      ensures mem.Length == stcoCap * 2 + stszCap * 2 + stcoCap * 2 + stszCap + tinyPageSize
      ensures tinyPage + tinyPageSize == mem.Length
      ensures contents == [[], [], [], [], [], [], []] && read == start
    {
      hide Capacity, Carving;
      this.stcoCap := stcoCap;
      this.stszCap := stszCap;
      mem := new uint32[stcoCap * 2 + stszCap * 2 + stcoCap * 2 + stszCap + tinyPageSize](_ => 0);
      var stcoVideo := 0;
      var stcoAudio := stcoVideo + stcoCap;
      var stszVideo := stcoAudio + stcoCap;
      var stszAudio := stszVideo + stszCap;
      var stscVideo := stszAudio + stszCap;
      var stscAudio := stscVideo + stcoCap;
      var sttsVideo := stscAudio + stcoCap;
      tinyPage := sttsVideo + stszCap;
      var starts: seq<nat> := [stcoVideo, stcoAudio, stszVideo, stszAudio, stscVideo, stscAudio, sttsVideo];
      start, write, read := starts, starts, starts;
      end := [stcoVideo + (stcoCap - 1), stcoAudio + (stcoCap - 1), stszVideo + (stszCap - 1),
              stszAudio + (stszCap - 1), stscVideo + (stcoCap - 1), stscAudio + (stcoCap - 1),
              sttsVideo + (stszCap - 1)];
      contents := [[], [], [], [], [], [], []];
      new;
      CarvingIsDisjoint(start, end, stcoCap, stszCap);
    }

    // *write_ptr++ = v. A push changes one table only, and appends to it.
    method Push(r: nat, v: int)
      requires Valid() && r < REGIONS && |contents[r]| < Cap(r)
      modifies this`write, this`contents, mem
      ensures Valid()
      ensures contents == old(contents)[r := old(contents[r]) + [ToU32(v)]]
    {
      mem[write[r]] := ToU32(v);
      write := write[r := write[r] + 1];
      contents := contents[r := contents[r] + [ToU32(v)]];
    }

    // The check made after a push: past the end pointer, the write pointer wraps to the start.
    method Wrap(r: nat)
      requires Valid() && r < REGIONS
      modifies this`write
      ensures Valid()
      ensures |contents[r]| < Cap(r) ==> write == old(write)
    {
      if write[r] > end[r] {
        write := write[r := start[r]];
      }
    }

    // *read_ptr++: the trailer replays the pushed values in order.
    method Next(r: nat) returns (v: uint32)
      requires Valid() && r < REGIONS && read[r] < start[r] + |contents[r]|
      modifies this`read
      ensures Valid()
      ensures v == contents[r][old(read[r]) - start[r]]
      ensures read == old(read)[r := old(read[r]) + 1]
    {
      v := mem[read[r]];
      read := read[r := read[r] + 1];
    }
  }

  // The compiled-in sizes make the carving fill the buffer exactly, and give the key-frame table
  // one entry for every stts entry.
  method OpenWithDriverSizes() returns (t: Tables)
    ensures fresh(t) && t.Valid() && t.mem.Length == TOTAL_CACHE_SIZE
    ensures KEYFRAME_CACHE_SIZE / 4 == t.Cap(Region(STTS_ID, 0))
  {
    t := new Tables.Open(STCO_CACHE_SIZE, STSZ_CACHE_SIZE, MOV_CACHE_TINY_PAGE_SIZE);
  }
}
