/**
 The time and key-frame tables of the video track, and the fact that nothing in the tables or in
 the stored bytes depends on where a packet was split into its two blocks.
 */
module Mp4Timing {
  import opened Bytes
  import opened SampleTables
  import opened Mp4Packets

  // The packets of one track, in order.
  function Of(ps: seq<Packet>, t: nat): (r: seq<Packet>)
    ensures forall p :: p in r ==> p in ps && p.stream == t
  {
    if ps == [] then []
    else
      var init, p := Of(ps[..|ps| - 1], t), ps[|ps| - 1];
      if p.stream == t then init + [p] else init
  }

  function Durations(ps: seq<Packet>): (r: seq<int>)
    ensures |r| == |ps|
  {
    seq(|ps|, i requires 0 <= i < |ps| => ps[i].duration)
  }

  // A key frame: the NAL type of the fifth byte of the whole packet is 5.
  predicate IsKey(p: Packet) {
    Size(p) > 4 && (p.data0 + p.data1)[4] % 32 == 5
  }

  // What the code takes for one: it does not look at a packet whose first block is empty.
  predicate Noticed(p: Packet) {
    |p.data0| > 0 && IsKey(p)
  }

  function KeyMarks(vs: seq<Packet>): seq<bool> {
    seq(|vs|, i requires 0 <= i < |vs| => IsKey(vs[i]))
  }

  function NoticedMarks(vs: seq<Packet>): seq<bool> {
    seq(|vs|, i requires 0 <= i < |vs| => Noticed(vs[i]))
  }

  // The strictly increasing list of the 1-based positions that are marked.
  predicate Lists(keys: seq<int>, marks: seq<bool>) {
    && (forall i, j :: 0 <= i < j < |keys| ==> keys[i] < keys[j])
    && (forall i :: 0 <= i < |keys| ==> 1 <= keys[i] <= |marks| && marks[keys[i] - 1])
    && (forall k :: 0 <= k < |marks| && marks[k] ==> k + 1 in keys)
  }

  lemma StepOnVideo(m: Mov, p: Packet)
    requires Shape(m) && Valid(p)
    ensures var r, tt := Step(m, p, true).tracks[VIDEO], m.tracks[VIDEO];
            if p.stream == VIDEO then
              && r.stts == tt.stts + [p.duration] && |r.stsz| == |tt.stsz| + 1
              && r.keys == (if Noticed(p) then tt.keys + [|tt.stts| + 1] else tt.keys)
            else r.stts == tt.stts && r.stsz == tt.stsz && r.keys == tt.keys
  {
  }

  lemma ListsSnoc(keys: seq<int>, marks: seq<bool>, mark: bool)
    requires Lists(keys, marks)
    ensures Lists(if mark then keys + [|marks| + 1] else keys, marks + [mark])
  {
    var marks', keys' := marks + [mark], if mark then keys + [|marks| + 1] else keys;
    forall i | 0 <= i < |keys'|
      ensures 1 <= keys'[i] <= |marks'| && marks'[keys'[i] - 1]
    {
      if i < |keys| {
        assert marks'[keys[i] - 1] == marks[keys[i] - 1];
      }
    }
    forall k | 0 <= k < |marks'| && marks'[k]
      ensures k + 1 in keys'
    {
      if k == |marks| {
        assert keys'[|keys|] == k + 1;
      } else {
        assert marks[k] && k + 1 in keys;
      }
    }
  }

  predicate VideoRight(v: Tables, vs: seq<Packet>) {
    && AllValid(vs) && (forall p :: p in vs ==> p.stream == VIDEO)
    && v.stts == Durations(vs) && |v.stts| == |v.stsz|
    && Lists(v.keys, NoticedMarks(vs))
  }

  lemma StepVideoRight(m: Mov, vs: seq<Packet>, p: Packet)
    requires Shape(m) && Valid(p) && VideoRight(m.tracks[VIDEO], vs)
    ensures VideoRight(Step(m, p, true).tracks[VIDEO], if p.stream == VIDEO then vs + [p] else vs)
  {
    hide Step, Lists, Noticed;
    StepOnVideo(m, p);
    if p.stream == VIDEO {
      ListsSnoc(m.tracks[VIDEO].keys, NoticedMarks(vs), Noticed(p));
      assert Durations(vs + [p]) == Durations(vs) + [p.duration];
      assert NoticedMarks(vs + [p]) == NoticedMarks(vs) + [Noticed(p)];
    }
  }

  // In every run the video durations are those of the video packets, in order; there are as many
  // as samples; and the key table lists exactly the key frames the code notices.
  lemma {:induction false} RunTimesAndKeys(ps: seq<Packet>)
    requires AllValid(ps)
    ensures VideoRight(Run(ps).tracks[VIDEO], Of(ps, VIDEO))
  {
    if ps != [] {
      hide Step, VideoRight, Of;
      var init, p := ps[..|ps| - 1], ps[|ps| - 1];
      RunTimesAndKeys(init);
      StepVideoRight(Run(init), Of(init, VIDEO), p);
      OfSnoc(ps, VIDEO);
    }
  }

  lemma OfSnoc(ps: seq<Packet>, t: nat)
    requires ps != []
    ensures var init, p := ps[..|ps| - 1], ps[|ps| - 1];
            Of(ps, t) == if p.stream == t then Of(init, t) + [p] else Of(init, t)
  {
  }

  // Whether every key frame of a run has something in its first block.
  predicate KeysInFirstBlock(ps: seq<Packet>) {
    forall p :: p in Of(ps, VIDEO) && IsKey(p) ==> |p.data0| > 0
  }

  // In every run the key table lists exactly the key frames if and only if none of them was handed
  // over with an empty first block.
  lemma KeyTableExact(ps: seq<Packet>)
    requires AllValid(ps)
    ensures Lists(Run(ps).tracks[VIDEO].keys, KeyMarks(Of(ps, VIDEO))) <==> KeysInFirstBlock(ps)
  {
    RunTimesAndKeys(ps);
    MarksMeet(Run(ps).tracks[VIDEO].keys, Of(ps, VIDEO));
  }

  lemma MarksMeet(keys: seq<int>, vs: seq<Packet>)
    requires Lists(keys, NoticedMarks(vs))
    ensures Lists(keys, KeyMarks(vs)) <==> forall p :: p in vs && IsKey(p) ==> |p.data0| > 0
  {
    hide IsKey;
    var noticed, marks := NoticedMarks(vs), KeyMarks(vs);
    if forall p :: p in vs && IsKey(p) ==> |p.data0| > 0 {
      assert noticed == marks;
    } else {
      var p :| p in vs && IsKey(p) && |p.data0| == 0;
      var k :| 0 <= k < |vs| && vs[k] == p;
      assert marks[k] && !noticed[k];
      assert forall i :: 0 <= i < |keys| ==> noticed[keys[i] - 1] && keys[i] != k + 1;
    }
  }

  // The failing family is real: a key frame handed over wholly in the second block is missed.
  lemma EmptyFirstBlockMissesKey()
    ensures var p := Packet(VIDEO, [], [0, 0, 0, 1, 0x65, 0x88], 0);
            AllValid([p]) && IsKey(p) && Run([p]).tracks[VIDEO].keys == []
  {
    var p := Packet(VIDEO, [], [0, 0, 0, 1, 0x65, 0x88], 0);
    assert (p.data0 + p.data1)[4] == 0x65;
    assert Run([p]) == Step(Run([p][..0]), p, true);
    StepOnVideo(INIT, p);
  }

  // Key frames never outnumber samples, so the key table needs no capacity check of its own.
  lemma {:induction false} KeysFit(keys: seq<int>, n: nat)
    requires forall i, j :: 0 <= i < j < |keys| ==> keys[i] < keys[j]
    requires forall i :: 0 <= i < |keys| ==> 1 <= keys[i] <= n
    ensures |keys| <= n
  {
    if |keys| > 0 {
      KeysFit(keys[..|keys| - 1], keys[|keys| - 1] - 1);
    }
  }

  // ---------------------------------------------------------------- stts

  // One entry for every duration.
  function UnitEntries(ds: seq<int>): seq<SttsEntry> {
    seq(|ds|, i requires 0 <= i < |ds| => SttsEntry(1, ds[i]))
  }

  // What the video writer emits: the first duration is skipped and a zero is added.
  function VideoDeltas(stts: seq<int>): seq<int>
    requires stts != []
  {
    stts[1..] + [0]
  }

  function SumInts(s: seq<int>): int {
    if s == [] then 0 else s[0] + SumInts(s[1..])
  }

  lemma {:induction false} UnitCounts(es: seq<SttsEntry>)
    requires forall i :: 0 <= i < |es| ==> es[i].count == 1
    ensures SttsSampleCount(es) == |es|
  {
    if es != [] {
      UnitCounts(es[1..]);
    }
  }

  // The counts sum to the number of samples; sample k (0-based) is decoded at the sum of the
  // durations of packets 1 to k (0-based).
  lemma VideoDecodeTime(stts: seq<int>, k: nat)
    requires k < |stts|
    ensures SttsSampleCount(UnitEntries(VideoDeltas(stts))) == |stts|
    ensures DecodeTime(UnitEntries(VideoDeltas(stts)), k) == SumInts(stts[1..k + 1])
  {
    var es := UnitEntries(VideoDeltas(stts));
    UnitCounts(es);
    UnitDecodeTime(es, stts[1..], k);
    assert stts[1..][..k] == stts[1..k + 1];
  }

  lemma {:induction false} UnitDecodeTime(es: seq<SttsEntry>, ds: seq<int>, k: nat)
    requires k <= |ds| && |ds| < |es|
    requires forall i :: 0 <= i < |es| ==> es[i].count == 1
    requires forall i :: 0 <= i < |ds| ==> es[i].delta == ds[i]
    ensures DecodeTime(es, k) == SumInts(ds[..k])
  {
    if k == 1 {
      assert ds[..1][1..] == [];
    } else if k > 1 {
      UnitDecodeTime(es[1..], ds[1..], k - 1);
      assert ds[..k][1..] == ds[1..][..k - 1];
    }
  }

  // ---------------------------------------------------------------- splitting

  // Two hand-overs of the same packet, split differently.
  predicate SamePacket(p: Packet, q: Packet) {
    && p.stream == q.stream && p.duration == q.duration
    && p.data0 + p.data1 == q.data0 + q.data1
    && |p.data0| > 0 && |q.data0| > 0
  }

  lemma SplitIndependent(p: Packet, q: Packet)
    requires Valid(p) && Valid(q) && SamePacket(p, q)
    ensures Stored(p) == Stored(q)
    ensures Size(p) == Size(q) && (p.stream == VIDEO ==> IsKey(p) == IsKey(q))
  {
    assert Size(p) == |p.data0 + p.data1| == |q.data0 + q.data1| == Size(q);
    if p.stream == VIDEO {
      StoredVideo(p);
      StoredVideo(q);
    } else {
      StoredAudio(p);
      StoredAudio(q);
    }
  }

  lemma SplitIndependentStep(m: Mov, p: Packet, q: Packet, h264: bool)
    requires Shape(m) && Valid(p) && Valid(q) && SamePacket(p, q)
    ensures Step(m, p, h264) == Step(m, q, h264)
  {
    SplitIndependent(p, q);
    if p.stream == VIDEO {
      assert Fifth(p) == (p.data0 + p.data1)[4] == (q.data0 + q.data1)[4] == Fifth(q);
      assert NoteVideo(EMPTY, p, h264) == NoteVideo(EMPTY, q, h264);
    }
  }

  // Whole runs that differ only in where packets were split produce the same tables and data.
  lemma {:induction false} SplitIndependentRun(ps: seq<Packet>, qs: seq<Packet>)
    requires AllValid(ps) && AllValid(qs) && |ps| == |qs|
    requires forall i :: 0 <= i < |ps| ==> SamePacket(ps[i], qs[i])
    ensures Run(ps) == Run(qs) && Payload(ps) == Payload(qs)
  {
    if ps != [] {
      var n := |ps| - 1;
      SplitIndependentRun(ps[..n], qs[..n]);
      SplitIndependent(ps[n], qs[n]);
      SplitIndependentStep(Run(ps[..n]), ps[n], qs[n], true);
    }
  }
}
