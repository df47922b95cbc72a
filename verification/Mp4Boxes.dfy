/**
 The index of the MP4 file. Two families are transcribed from the muxer, one that computes the size
 of every box ahead of time and one that emits it; a third, `...Box`, says which box is meant.
 `Agrees` ties them: what is emitted is the serialization of the intended box, so every size
 field written ahead of time counts exactly the bytes that follow.
 */
module Mp4Boxes {
  import opened Bytes
  import opened Boxes
  import opened Descriptors
  import opened Mp4Packets
  import AnnexB
  import Mp4Timing

  datatype Codec = H264 | H265 | MPEG4 | MJPEG | PCM | AAC | ADPCM

  datatype TrackInfo = TrackInfo(
    video: bool, codec: Codec, csd: seq<byte>, csdBase: nat,
    width: int, height: int, rotate: int,
    channels: int, bitsPerSample: int, sampleRate: int, frameSize: int,
    timescale: int, duration: nat)

  datatype Geo = Geo(latitude: seq<byte>, longitude: seq<byte>)

  datatype MovieInfo = MovieInfo(tracks: seq<TrackInfo>, createTime: int, title: seq<byte>, geo: Option<Geo>)

  // The value CODEC_ID has for each codec.
  function CodecId(c: Codec): byte {
    match c
    case H264 => 0 case H265 => 1 case MPEG4 => 3 case MJPEG => 4
    case PCM => 5 case ADPCM => 6 case AAC => 0x40
  }

  // mov_find_codec_tag; a codec without a case keeps the tag zero of a cleared context.
  function CodecTag(c: Codec): uint32 {
    match c
    case H264 => AVC1 case MPEG4 => MP4V case AAC => MP4A
    case PCM => SOWT case ADPCM => MS11 case MJPEG => MJPA
    case H265 => 0
  }

  // A size, a four-character code and the fields: how every emitter starts.
  function WithHeader(size: int, kind: uint32, fields: seq<byte>): seq<byte> {
    BE32(size) + BE32(kind) + fields
  }

  // The emitted bytes are the box, and the size computed ahead of time is their length.
  ghost predicate Agrees(size: nat, kind: uint32, fields: seq<byte>, b: Box) {
    WithHeader(size, kind, fields) == Serialize(b) && WellFormed(b) && size == 8 + |fields|
  }

  ghost predicate AgreesAll(bytes: seq<byte>, bs: seq<Box>) {
    bytes == SerializeAll(bs) && AllWellFormed(bs)
  }

  lemma AgreesOne(size: nat, kind: uint32, fields: seq<byte>, b: Box)
    requires Agrees(size, kind, fields, b)
    ensures AgreesAll(WithHeader(size, kind, fields), [b])
  {
    assert SerializeAll([b][1..]) == [] && AllWellFormed([b][1..]);
    assert Serialize(b) + [] == Serialize(b);
  }

  lemma AgreesBoth(x: seq<byte>, bs: seq<Box>, y: seq<byte>, cs: seq<Box>)
    requires AgreesAll(x, bs) && AgreesAll(y, cs)
    ensures AgreesAll(x + y, bs + cs)
  {
    SerializeAppend(bs, cs);
    WellFormedAppend(bs, cs);
  }

  // One more sibling behind others.
  lemma AgreesSnoc(x: seq<byte>, bs: seq<Box>, size: nat, kind: uint32, fields: seq<byte>, b: Box)
    requires AgreesAll(x, bs) && Agrees(size, kind, fields, b)
    ensures AgreesAll(x + WithHeader(size, kind, fields), bs + [b])
  {
    AgreesOne(size, kind, fields, b);
    AgreesBoth(x, bs, WithHeader(size, kind, fields), [b]);
  }

  lemma AgreesLeaf(size: nat, kind: uint32, fields: seq<byte>)
    requires HeaderLength(kind) == None && size == 8 + |fields| < TWO_32
    ensures Agrees(size, kind, fields, Box(kind, fields, []))
  {
    assert Body(Box(kind, fields, [])) == fields + [] == fields;
  }

  lemma AgreesContainer(size: nat, kind: uint32, header: seq<byte>, bytes: seq<byte>, bs: seq<Box>)
    requires HeaderLength(kind) == Some(|header|) && AgreesAll(bytes, bs)
    requires size == 8 + |header| + |bytes| < TWO_32
    ensures Agrees(size, kind, header + bytes, Box(kind, header, bs))
  {
  }

  lemma NoBoxes()
    ensures AgreesAll([], [])
  {
  }

  // ---------------------------------------------------------------- the five sample tables

  // The entry counts of a track, all that the size family looks at.
  datatype Counts = Counts(stco: nat, stsz: nat, stsc: nat, stts: nat, keys: nat)

  function CountsOf(t: Tables): Counts {
    Counts(|t.stco|, |t.stsz|, |t.stsc|, |t.stts|, |t.keys|)
  }

  function StcoSize(n: nat): nat { (n + 4) * 4 }
  function StszSize(n: nat): nat { (n + 5) * 4 }
  function StscSize(n: nat): nat { (n * 3 + 4) * 4 }
  function StssSize(n: nat): nat { (n + 4) * 4 }
  function SttsSize(video: bool, c: Counts): nat { if video then 16 + c.stts * 8 else 16 + 1 * 8 }

  function StcoFields(t: Tables): seq<byte> { BE32(0) + BE32(|t.stco|) + Words(t.stco) }
  function StszFields(t: Tables): seq<byte> { BE32(0) + BE32(0) + BE32(|t.stsz|) + Words(t.stsz) }
  function StscFields(t: Tables): seq<byte> { BE32(0) + BE32(|t.stsc|) + Words(StscWords(t.stsc)) }
  function StssFields(t: Tables): seq<byte> { BE32(0) + BE32(|t.keys|) + Words(t.keys) }

  // first chunk, samples per chunk, sample description index
  function StscWords(counts: seq<nat>): (ws: seq<int>)
    ensures |ws| == 3 * |counts|
  {
    if counts == [] then []
    else StscWords(counts[..|counts| - 1]) + [|counts|, counts[|counts| - 1], 1]
  }

  // count and duration of every entry
  function SttsWords(ds: seq<int>): (ws: seq<int>)
    ensures |ws| == 2 * |ds|
  {
    if ds == [] then [] else SttsWords(ds[..|ds| - 1]) + [1, ds[|ds| - 1]]
  }

  // Video: the first duration is skipped and a final entry of duration zero is added.
  function SttsFields(video: bool, frameSize: int, t: Tables): seq<byte> {
    if video then
      BE32(0) + BE32(|t.stts|) + (Words(SttsWords(if t.stts == [] then [] else t.stts[1..])) + (BE32(1) + BE32(0)))
    else BE32(0) + BE32(1) + Words([|t.stsz|, frameSize])
  }

  lemma TablesAgree(t: Tables)
    requires StcoSize(|t.stco|) < TWO_32 && StszSize(|t.stsz|) < TWO_32
    requires StscSize(|t.stsc|) < TWO_32
    ensures Agrees(StcoSize(|t.stco|), STCO, StcoFields(t), Box(STCO, StcoFields(t), []))
    ensures Agrees(StszSize(|t.stsz|), STSZ, StszFields(t), Box(STSZ, StszFields(t), []))
    ensures Agrees(StscSize(|t.stsc|), STSC, StscFields(t), Box(STSC, StscFields(t), []))
  {
    hide Agrees;
    AgreesLeaf(StcoSize(|t.stco|), STCO, StcoFields(t));
    AgreesLeaf(StszSize(|t.stsz|), STSZ, StszFields(t));
    AgreesLeaf(StscSize(|t.stsc|), STSC, StscFields(t));
  }

  lemma StssAgrees(t: Tables)
    requires StssSize(|t.keys|) < TWO_32
    ensures Agrees(StssSize(|t.keys|), STSS, StssFields(t), Box(STSS, StssFields(t), []))
  {
    AgreesLeaf(StssSize(|t.keys|), STSS, StssFields(t));
  }

  // The video stts writer skips one entry and adds one, so its size is right exactly when the
  // table is not empty.
  lemma SttsSizeRight(video: bool, frameSize: int, t: Tables)
    ensures SttsSize(video, CountsOf(t)) == 8 + |SttsFields(video, frameSize, t)| <==> (video ==> t.stts != [])
  {
  }

  // ---------------------------------------------------------------- sample descriptions

  function SpecificInfoSize(i: TrackInfo): nat {
    if |i.csd| > 0 then DescrLength(|i.csd|) else 0
  }

  // The payload of the outermost of the nested descriptors.
  function EsLength(i: TrackInfo): nat {
    3 + DescrLength(13 + SpecificInfoSize(i)) + DescrLength(1)
  }

  function EsdsSize(i: TrackInfo): nat {
    12 + DescrLength(EsLength(i))
  }

  // Object type, stream type and the empty buffer and rate fields.
  function DecoderFields(i: TrackInfo): seq<byte> {
    [CodecId(i.codec)] + [if i.video then 0x11 else 0x15] + [0] + BE16(0) + BE32(0) + BE32(0)
  }

  function EsdsFields(i: TrackInfo, trackId: int): seq<byte> {
    BE32(0)
    + DescrHeader(3, EsLength(i)) + BE16(trackId) + [0x00]
    + DescrHeader(4, 13 + SpecificInfoSize(i)) + [CodecId(i.codec)] + [if i.video then 0x11 else 0x15]
    + [0] + BE16(0) + BE32(0) + BE32(0)
    + (if |i.csd| > 0 then DescrHeader(5, |i.csd|) + i.csd else [])
    + DescrHeader(6, 1) + [0x02]
  }

  lemma EsdsAgrees(i: TrackInfo, trackId: int)
    requires EsdsSize(i) < TWO_32
    ensures Agrees(EsdsSize(i), ESDS, EsdsFields(i, trackId), Box(ESDS, EsdsFields(i, trackId), []))
  {
    var config := 13 + SpecificInfoSize(i);
    var es := 3 + DescrLength(config) + DescrLength(1);
    assert |DescrHeader(3, es)| == DescrLength(es) - es by { HeaderRoundTrip(3, es, []); }
    assert |DescrHeader(4, config)| == DescrLength(config) - config by { HeaderRoundTrip(4, config, []); }
    assert |DescrHeader(5, |i.csd|)| == DescrLength(|i.csd|) - |i.csd| by { HeaderRoundTrip(5, |i.csd|, []); }
    assert |DescrHeader(6, 1)| == DescrLength(1) - 1 by { HeaderRoundTrip(6, 1, []); }
    hide DescrLength, DescrHeader, Agrees;
    AgreesLeaf(EsdsSize(i), ESDS, EsdsFields(i, trackId));
  }

  // The last SPS and the last PPS among length-prefixed units.
  function ParameterSets(s: seq<byte>, sps: seq<byte>, pps: seq<byte>): (seq<byte>, seq<byte>)
    decreases |s|
  {
    if |s| < 5 then (sps, pps)
    else
      var size := U32At(s, 0);
      var nalType := s[4] % 32;
      if |s| < 4 + size then (sps, pps)
      else if nalType == 7 then ParameterSets(s[4 + size..], s[4..4 + size], pps)
      else if nalType == 8 then ParameterSets(s[4 + size..], sps, s[4..4 + size])
      else ParameterSets(s[4 + size..], sps, pps)
  }

  predicate StartsWithCode(csd: seq<byte>) {
    |csd| > 6 && csd[..4] == [0, 0, 0, 1]
  }

  function CsdSets(i: TrackInfo): (seq<byte>, seq<byte>) {
    ParameterSets(AnnexB.Prefixed(AnnexB.Converted(i.csd, i.csdBase)), [], [])
  }

  // The writer reads bytes 1 to 3 of the SPS it found, so the code demands one of its callers.
  predicate AvccReadable(i: TrackInfo) {
    StartsWithCode(i.csd) ==> |CsdSets(i).0| >= 4
  }

  // Where avcC searches converted units: a conversion that stays in the buffer allocated for it, and
  // a type byte in its last unit, which the search reads.
  predicate Convertible(i: TrackInfo) {
    var ns := AnnexB.Converted(i.csd, i.csdBase);
    |i.csd| < 0x8000_0000 && |AnnexB.Prefixed(ns)| <= |i.csd| + 256 && ns != [] && ns[|ns| - 1] != []
  }

  // Codec data on which the loops over it are defined: descriptor lengths of four groups, convertible
  // units with an SPS to read.
  predicate CsdOk(i: TrackInfo) {
    && (CodecTag(i.codec) == MP4V || CodecTag(i.codec) == MP4A ==> EsLength(i) < 0x1000_0000)
    && (CodecTag(i.codec) == AVC1 && StartsWithCode(i.csd) ==> Convertible(i) && AvccReadable(i))
  }

  function AvccConfigSize(i: TrackInfo): nat {
    if |i.csd| <= 6 then 0
    else if StartsWithCode(i.csd) then
      var (sps, pps) := CsdSets(i);
      6 + 2 + |sps| + 1 + 2 + |pps|
    else |i.csd|
  }

  function AvccSize(i: TrackInfo): nat { 8 + AvccConfigSize(i) }

  function ByteAt(s: seq<byte>, k: nat): byte {
    if k < |s| then s[k] else 0
  }

  function AvccFields(i: TrackInfo): seq<byte> {
    if |i.csd| <= 6 then []
    else if StartsWithCode(i.csd) then
      var (sps, pps) := CsdSets(i);
      [1, ByteAt(sps, 1), ByteAt(sps, 2), ByteAt(sps, 3), 0xff, 0xe1] + BE16(|sps|) + sps + [1] + BE16(|pps|) + pps
    else i.csd
  }

  lemma AvccAgrees(i: TrackInfo)
    requires AvccSize(i) < TWO_32
    ensures Agrees(AvccSize(i), AVCC, AvccFields(i), Box(AVCC, AvccFields(i), []))
  {
    hide Agrees, CsdSets;
    AgreesLeaf(AvccSize(i), AVCC, AvccFields(i));
  }

  predicate InfoOk(i: TrackInfo) {
    && i.timescale > 0
    && (i.video ==> i.codec in {H264, H265, MPEG4, MJPEG})
    && (!i.video ==> i.codec in {PCM, AAC, ADPCM})
  }

  function VideoSize(i: TrackInfo): nat {
    16 + 4 + 12 + 18 + 32 + 4
    + (if CodecTag(i.codec) == AVC1 then AvccSize(i) else if CodecTag(i.codec) == MP4V then EsdsSize(i) else 0)
  }

  function VideoFixed(i: TrackInfo): (s: seq<byte>)
    ensures |s| == 78
  {
    BE32(0) + BE16(0) + BE16(1)
    + BE16(0) + BE16(0) + Fill(12, 0)
    + BE16(i.width) + BE16(i.height) + BE32(0x0048_0000) + BE32(0x0048_0000) + BE32(0) + BE16(1)
    + [0] + Fill(31, 0) + BE16(0x18) + BE16(0xffff)
  }

  function VideoExtra(i: TrackInfo, trackId: int): seq<byte>
    requires InfoOk(i) && i.video
  {
    if CodecTag(i.codec) == AVC1 then WithHeader(AvccSize(i), AVCC, AvccFields(i))
    else if CodecTag(i.codec) == MP4V then WithHeader(EsdsSize(i), ESDS, EsdsFields(i, trackId))
    else []
  }

  function VideoBox(i: TrackInfo, trackId: int): Box
    requires InfoOk(i) && i.video
  {
    if CodecTag(i.codec) == AVC1 then Box(AVC1, VideoFixed(i), [Box(AVCC, AvccFields(i), [])])
    else if CodecTag(i.codec) == MP4V then Box(MP4V, VideoFixed(i), [Box(ESDS, EsdsFields(i, trackId), [])])
    else Box(CodecTag(i.codec), VideoFixed(i), [])
  }

  lemma VideoAgrees(i: TrackInfo, trackId: int)
    requires InfoOk(i) && i.video && VideoSize(i) < TWO_32
    ensures Agrees(VideoSize(i), CodecTag(i.codec), VideoFixed(i) + VideoExtra(i, trackId), VideoBox(i, trackId))
  {
    hide AvccFields, EsdsFields, AvccSize, EsdsSize, VideoFixed, AgreesAll, Serialize, WellFormed;
    var extra := VideoExtra(i, trackId);
    if CodecTag(i.codec) == AVC1 {
      AvccAgrees(i);
      AgreesOne(AvccSize(i), AVCC, AvccFields(i), Box(AVCC, AvccFields(i), []));
      AgreesContainer(VideoSize(i), AVC1, VideoFixed(i), extra, [Box(AVCC, AvccFields(i), [])]);
    } else if CodecTag(i.codec) == MP4V {
      EsdsAgrees(i, trackId);
      AgreesOne(EsdsSize(i), ESDS, EsdsFields(i, trackId), Box(ESDS, EsdsFields(i, trackId), []));
      AgreesContainer(VideoSize(i), MP4V, VideoFixed(i), extra, [Box(ESDS, EsdsFields(i, trackId), [])]);
    } else {
      assert VideoFixed(i) + [] == VideoFixed(i);
      if i.codec == MJPEG {
        NoBoxes();
        AgreesContainer(VideoSize(i), MJPA, VideoFixed(i), [], []);
      } else {
        AgreesLeaf(VideoSize(i), 0, VideoFixed(i));
      }
    }
  }

  function AudioSize(i: TrackInfo): nat {
    16 + 8 + 12 + (if CodecTag(i.codec) == MP4A then EsdsSize(i) else 0)
  }

  function AudioFixed(i: TrackInfo): (s: seq<byte>)
    ensures |s| == 28
  {
    BE32(0) + BE16(0) + BE16(1)
    + BE16(0) + BE16(0) + BE32(0)
    + BE16(i.channels) + BE16(i.bitsPerSample) + BE16(0)
    + BE16(0) + BE16(i.sampleRate) + BE16(0)
  }

  function AudioExtra(i: TrackInfo, trackId: int): seq<byte> {
    if CodecTag(i.codec) == MP4A then WithHeader(EsdsSize(i), ESDS, EsdsFields(i, trackId)) else []
  }

  function AudioBox(i: TrackInfo, trackId: int): Box {
    if CodecTag(i.codec) == MP4A then Box(MP4A, AudioFixed(i), [Box(ESDS, EsdsFields(i, trackId), [])])
    else Box(CodecTag(i.codec), AudioFixed(i), [])
  }

  lemma AudioAgrees(i: TrackInfo, trackId: int)
    requires InfoOk(i) && !i.video && AudioSize(i) < TWO_32
    ensures Agrees(AudioSize(i), CodecTag(i.codec), AudioFixed(i) + AudioExtra(i, trackId), AudioBox(i, trackId))
  {
    hide EsdsFields, EsdsSize, AudioFixed, AgreesAll, Serialize, WellFormed;
    var extra := AudioExtra(i, trackId);
    if CodecTag(i.codec) == MP4A {
      EsdsAgrees(i, trackId);
      AgreesOne(EsdsSize(i), ESDS, EsdsFields(i, trackId), Box(ESDS, EsdsFields(i, trackId), []));
      AgreesContainer(AudioSize(i), MP4A, AudioFixed(i), extra, [Box(ESDS, EsdsFields(i, trackId), [])]);
    } else {
      NoBoxes();
      AgreesContainer(AudioSize(i), CodecTag(i.codec), AudioFixed(i), [], []);
    }
  }

  function StsdSize(i: TrackInfo): nat { 16 + (if i.video then VideoSize(i) else AudioSize(i)) }

  function StsdFields(i: TrackInfo, trackId: int): seq<byte>
    requires InfoOk(i)
  {
    (BE32(0) + BE32(1))
    + (if i.video then WithHeader(VideoSize(i), CodecTag(i.codec), VideoFixed(i) + VideoExtra(i, trackId))
       else WithHeader(AudioSize(i), CodecTag(i.codec), AudioFixed(i) + AudioExtra(i, trackId)))
  }

  function StsdBox(i: TrackInfo, trackId: int): Box
    requires InfoOk(i)
  {
    Box(STSD, BE32(0) + BE32(1), [if i.video then VideoBox(i, trackId) else AudioBox(i, trackId)])
  }

  lemma StsdAgrees(i: TrackInfo, trackId: int)
    requires InfoOk(i) && StsdSize(i) < TWO_32
    ensures Agrees(StsdSize(i), STSD, StsdFields(i, trackId), StsdBox(i, trackId))
  {
    hide VideoSize, AudioSize, VideoFixed, AudioFixed, VideoExtra, AudioExtra, VideoBox, AudioBox, AgreesAll, Serialize, WellFormed, BE32;
    if i.video {
      VideoAgrees(i, trackId);
      AgreesOne(VideoSize(i), CodecTag(i.codec), VideoFixed(i) + VideoExtra(i, trackId), VideoBox(i, trackId));
    } else {
      AudioAgrees(i, trackId);
      AgreesOne(AudioSize(i), CodecTag(i.codec), AudioFixed(i) + AudioExtra(i, trackId), AudioBox(i, trackId));
    }
    var entry := StsdFields(i, trackId)[8..];
    assert StsdFields(i, trackId) == (BE32(0) + BE32(1)) + entry;
    AgreesContainer(StsdSize(i), STSD, BE32(0) + BE32(1), entry, StsdBox(i, trackId).children);
  }

  // ---------------------------------------------------------------- stbl

  function StblSize(i: TrackInfo, c: Counts): nat {
    8 + StsdSize(i) + SttsSize(i.video, c) + (if i.video then StssSize(c.keys) else 0)
    + StscSize(c.stsc) + StszSize(c.stsz) + StcoSize(c.stco)
  }

  function StblFields(i: TrackInfo, trackId: int, t: Tables): seq<byte>
    requires InfoOk(i)
  {
    WithHeader(StsdSize(i), STSD, StsdFields(i, trackId)) + TablesOut(i, t)
  }

  function TimesOut(i: TrackInfo, t: Tables): seq<byte> {
    WithHeader(SttsSize(i.video, CountsOf(t)), STTS, SttsFields(i.video, i.frameSize, t))
    + (if i.video then WithHeader(StssSize(|t.keys|), STSS, StssFields(t)) else [])
  }

  function ChunksOut(t: Tables): seq<byte> {
    WithHeader(StscSize(|t.stsc|), STSC, StscFields(t))
    + WithHeader(StszSize(|t.stsz|), STSZ, StszFields(t))
    + WithHeader(StcoSize(|t.stco|), STCO, StcoFields(t))
  }

  function TablesOut(i: TrackInfo, t: Tables): seq<byte> {
    TimesOut(i, t) + ChunksOut(t)
  }

  function TimeBoxes(i: TrackInfo, t: Tables): seq<Box> {
    [Box(STTS, SttsFields(i.video, i.frameSize, t), [])]
    + (if i.video then [Box(STSS, StssFields(t), [])] else [])
  }

  function ChunkBoxes(t: Tables): seq<Box> {
    [Box(STSC, StscFields(t), [])] + [Box(STSZ, StszFields(t), [])] + [Box(STCO, StcoFields(t), [])]
  }

  function TableBoxes(i: TrackInfo, t: Tables): seq<Box> {
    TimeBoxes(i, t) + ChunkBoxes(t)
  }

  function StblBoxes(i: TrackInfo, trackId: int, t: Tables): seq<Box>
    requires InfoOk(i)
  {
    [StsdBox(i, trackId)] + TableBoxes(i, t)
  }

  function StblBox(i: TrackInfo, trackId: int, t: Tables): Box
    requires InfoOk(i)
  {
    Box(STBL, [], StblBoxes(i, trackId, t))
  }

  lemma StblAgrees(i: TrackInfo, trackId: int, t: Tables)
    requires InfoOk(i) && StblSize(i, CountsOf(t)) < TWO_32 && (i.video ==> t.stts != [])
    ensures Agrees(StblSize(i, CountsOf(t)), STBL, StblFields(i, trackId, t), StblBox(i, trackId, t))
  {
    hide StsdSize, StsdFields, StsdBox, TablesOut, TableBoxes, AgreesAll, Serialize, WellFormed, BE32;
    StsdAgrees(i, trackId);
    TablesOutAgree(i, t);
    AgreesOne(StsdSize(i), STSD, StsdFields(i, trackId), StsdBox(i, trackId));
    AgreesBoth(WithHeader(StsdSize(i), STSD, StsdFields(i, trackId)), [StsdBox(i, trackId)], TablesOut(i, t), TableBoxes(i, t));
    assert [] + StblFields(i, trackId, t) == StblFields(i, trackId, t);
    AgreesContainer(StblSize(i, CountsOf(t)), STBL, [], StblFields(i, trackId, t), StblBoxes(i, trackId, t));
  }

  lemma TablesOutAgree(i: TrackInfo, t: Tables)
    requires StblSize(i, CountsOf(t)) < TWO_32 && (i.video ==> t.stts != [])
    ensures AgreesAll(TablesOut(i, t), TableBoxes(i, t))
    ensures 8 + StsdSize(i) + |TablesOut(i, t)| == StblSize(i, CountsOf(t))
  {
    SttsSizeRight(i.video, i.frameSize, t);
    hide StsdSize, SttsFields, StssFields, StscFields, StszFields, StcoFields, AgreesAll, Serialize, WellFormed, BE32;
    var c := CountsOf(t);
    var stts := Box(STTS, SttsFields(i.video, i.frameSize, t), []);
    AgreesLeaf(SttsSize(i.video, c), STTS, SttsFields(i.video, i.frameSize, t));
    var bytes, bs := WithHeader(SttsSize(i.video, c), STTS, SttsFields(i.video, i.frameSize, t)), [stts];
    AgreesOne(SttsSize(i.video, c), STTS, SttsFields(i.video, i.frameSize, t), stts);
    if i.video {
      StssAgrees(t);
      AgreesSnoc(bytes, bs, StssSize(|t.keys|), STSS, StssFields(t), Box(STSS, StssFields(t), []));
    } else {
      assert bytes == bytes + [] && bs == bs + [];
    }
    ChunksAgree(t);
    AgreesBoth(TimesOut(i, t), TimeBoxes(i, t), ChunksOut(t), ChunkBoxes(t));
  }

  lemma ChunksAgree(t: Tables)
    requires StcoSize(|t.stco|) < TWO_32 && StszSize(|t.stsz|) < TWO_32 && StscSize(|t.stsc|) < TWO_32
    ensures AgreesAll(ChunksOut(t), ChunkBoxes(t))
    ensures |ChunksOut(t)| == StscSize(|t.stsc|) + StszSize(|t.stsz|) + StcoSize(|t.stco|)
  {
    hide StscFields, StszFields, StcoFields, AgreesAll, Serialize, WellFormed, BE32;
    TablesAgree(t);
    AgreesOne(StscSize(|t.stsc|), STSC, StscFields(t), Box(STSC, StscFields(t), []));
    var bytes, bs := WithHeader(StscSize(|t.stsc|), STSC, StscFields(t)), [Box(STSC, StscFields(t), [])];
    AgreesSnoc(bytes, bs, StszSize(|t.stsz|), STSZ, StszFields(t), Box(STSZ, StszFields(t), []));
    AgreesSnoc(bytes + WithHeader(StszSize(|t.stsz|), STSZ, StszFields(t)), bs + [Box(STSZ, StszFields(t), [])],
               StcoSize(|t.stco|), STCO, StcoFields(t), Box(STCO, StcoFields(t), []));
  }

  // ---------------------------------------------------------------- minf, mdia, trak

  const VMHD_SIZE: nat := 0x14
  const SMHD_SIZE: nat := 16
  const DREF_SIZE: nat := 28
  const DINF_SIZE: nat := 8 + DREF_SIZE
  const MDHD_SIZE: nat := 0x20
  const TKHD_SIZE: nat := 0x5c
  const MVHD_SIZE: nat := 108
  const UDTA_SIZE: nat := 4 + 4 + 4 + 4 + 4 + 8 + 9 + 1

  const VMHD_FIELDS: seq<byte> := BE32(1) + BE32(0) + BE32(0)
  const SMHD_FIELDS: seq<byte> := BE32(0) + BE16(0) + BE16(0)
  const URL_FIELDS: seq<byte> := BE32(1)
  const DREF_FIELDS: seq<byte> := (BE32(0) + BE32(1)) + WithHeader(0xc, URL, URL_FIELDS)
  const DINF_FIELDS: seq<byte> := WithHeader(DREF_SIZE, DREF, DREF_FIELDS)

  const DINF_BOX: Box := Box(DINF, [], [Box(DREF, BE32(0) + BE32(1), [Box(URL, URL_FIELDS, [])])])

  lemma DinfAgrees()
    ensures Agrees(DINF_SIZE, DINF, DINF_FIELDS, DINF_BOX)
  {
    hide AgreesAll, Serialize, WellFormed, BE32;
    AgreesLeaf(0xc, URL, URL_FIELDS);
    AgreesOne(0xc, URL, URL_FIELDS, Box(URL, URL_FIELDS, []));
    var dref := Box(DREF, BE32(0) + BE32(1), [Box(URL, URL_FIELDS, [])]);
    AgreesContainer(DREF_SIZE, DREF, BE32(0) + BE32(1), WithHeader(0xc, URL, URL_FIELDS), dref.children);
    AgreesOne(DREF_SIZE, DREF, DREF_FIELDS, dref);
    assert [] + DINF_FIELDS == DINF_FIELDS;
    AgreesContainer(DINF_SIZE, DINF, [], DINF_FIELDS, [dref]);
  }

  function HdlrSize(title: seq<byte>): nat { 32 + 1 + |title| }

  function HdlrFields(video: bool, title: seq<byte>): seq<byte> {
    BE32(0) + Fill(4, 0) + BE32(if video then 0x76696465 else 0x736f756e) + Fill(12, 0) + title + [0]
  }

  function MinfSize(i: TrackInfo, c: Counts): nat {
    8 + (if i.video then VMHD_SIZE else SMHD_SIZE) + DINF_SIZE + StblSize(i, c)
  }

  function MinfHead(i: TrackInfo): seq<byte> {
    (if i.video then WithHeader(VMHD_SIZE, VMHD, VMHD_FIELDS) else WithHeader(SMHD_SIZE, SMHD, SMHD_FIELDS))
    + WithHeader(DINF_SIZE, DINF, DINF_FIELDS)
  }

  function MinfFields(i: TrackInfo, trackId: int, t: Tables): seq<byte>
    requires InfoOk(i)
  {
    MinfHead(i) + WithHeader(StblSize(i, CountsOf(t)), STBL, StblFields(i, trackId, t))
  }

  function MinfBox(i: TrackInfo, trackId: int, t: Tables): Box
    requires InfoOk(i)
  {
    Box(MINF, [], [if i.video then Box(VMHD, VMHD_FIELDS, []) else Box(SMHD, SMHD_FIELDS, [])] + [DINF_BOX]
                  + [StblBox(i, trackId, t)])
  }

  lemma MinfHeadAgrees(i: TrackInfo)
    ensures AgreesAll(MinfHead(i), [if i.video then Box(VMHD, VMHD_FIELDS, []) else Box(SMHD, SMHD_FIELDS, [])] + [DINF_BOX])
    ensures |MinfHead(i)| == (if i.video then VMHD_SIZE else SMHD_SIZE) + DINF_SIZE
  {
    hide AgreesAll, Serialize, WellFormed, BE32, BE16;
    DinfAgrees();
    var size, kind, fields := if i.video then VMHD_SIZE else SMHD_SIZE, if i.video then VMHD else SMHD,
                              if i.video then VMHD_FIELDS else SMHD_FIELDS;
    AgreesLeaf(size, kind, fields);
    AgreesOne(size, kind, fields, Box(kind, fields, []));
    AgreesSnoc(WithHeader(size, kind, fields), [Box(kind, fields, [])], DINF_SIZE, DINF, DINF_FIELDS, DINF_BOX);
  }

  lemma MinfAgrees(i: TrackInfo, trackId: int, t: Tables)
    requires InfoOk(i) && MinfSize(i, CountsOf(t)) < TWO_32 && (i.video ==> t.stts != [])
    ensures Agrees(MinfSize(i, CountsOf(t)), MINF, MinfFields(i, trackId, t), MinfBox(i, trackId, t))
  {
    hide StblSize, StblFields, StblBox, MinfHead, AgreesAll, Serialize, WellFormed, BE32;
    MinfHeadAgrees(i);
    StblAgrees(i, trackId, t);
    AgreesSnoc(MinfHead(i), [if i.video then Box(VMHD, VMHD_FIELDS, []) else Box(SMHD, SMHD_FIELDS, [])] + [DINF_BOX],
               StblSize(i, CountsOf(t)), STBL, StblFields(i, trackId, t), StblBox(i, trackId, t));
    assert [] + MinfFields(i, trackId, t) == MinfFields(i, trackId, t);
    AgreesContainer(MinfSize(i, CountsOf(t)), MINF, [], MinfFields(i, trackId, t), MinfBox(i, trackId, t).children);
  }

  function MdhdFields(i: TrackInfo, time: int): seq<byte> {
    [0] + BE24(0) + Words([time, time, i.timescale, i.duration]) + BE16(0) + BE16(0)
  }

  function MdiaSize(i: TrackInfo, c: Counts, title: seq<byte>): nat {
    8 + MDHD_SIZE + HdlrSize(title) + MinfSize(i, c)
  }

  function MdiaHead(i: TrackInfo, time: int, title: seq<byte>): seq<byte> {
    WithHeader(MDHD_SIZE, MDHD, MdhdFields(i, time)) + WithHeader(HdlrSize(title), HDLR, HdlrFields(i.video, title))
  }

  function MdiaFields(i: TrackInfo, trackId: int, t: Tables, time: int, title: seq<byte>): seq<byte>
    requires InfoOk(i)
  {
    MdiaHead(i, time, title) + WithHeader(MinfSize(i, CountsOf(t)), MINF, MinfFields(i, trackId, t))
  }

  function MdiaBox(i: TrackInfo, trackId: int, t: Tables, time: int, title: seq<byte>): Box
    requires InfoOk(i)
  {
    Box(MDIA, [], [Box(MDHD, MdhdFields(i, time), [])] + [Box(HDLR, HdlrFields(i.video, title), [])]
                  + [MinfBox(i, trackId, t)])
  }

  lemma MdiaHeadAgrees(i: TrackInfo, time: int, title: seq<byte>)
    requires HdlrSize(title) < TWO_32
    ensures AgreesAll(MdiaHead(i, time, title),
                      [Box(MDHD, MdhdFields(i, time), [])] + [Box(HDLR, HdlrFields(i.video, title), [])])
    ensures |MdiaHead(i, time, title)| == MDHD_SIZE + HdlrSize(title)
  {
    hide AgreesAll, Serialize, WellFormed, BE32, BE16, BE24;
    AgreesLeaf(MDHD_SIZE, MDHD, MdhdFields(i, time));
    AgreesOne(MDHD_SIZE, MDHD, MdhdFields(i, time), Box(MDHD, MdhdFields(i, time), []));
    AgreesLeaf(HdlrSize(title), HDLR, HdlrFields(i.video, title));
    AgreesSnoc(WithHeader(MDHD_SIZE, MDHD, MdhdFields(i, time)), [Box(MDHD, MdhdFields(i, time), [])],
               HdlrSize(title), HDLR, HdlrFields(i.video, title), Box(HDLR, HdlrFields(i.video, title), []));
  }

  lemma MdiaAgrees(i: TrackInfo, trackId: int, t: Tables, time: int, title: seq<byte>)
    requires InfoOk(i) && MdiaSize(i, CountsOf(t), title) < TWO_32 && (i.video ==> t.stts != [])
    ensures Agrees(MdiaSize(i, CountsOf(t), title), MDIA, MdiaFields(i, trackId, t, time, title), MdiaBox(i, trackId, t, time, title))
  {
    hide MinfSize, MinfFields, MinfBox, MdiaHead, AgreesAll, Serialize, WellFormed, BE32;
    MdiaHeadAgrees(i, time, title);
    MinfAgrees(i, trackId, t);
    AgreesSnoc(MdiaHead(i, time, title), [Box(MDHD, MdhdFields(i, time), [])] + [Box(HDLR, HdlrFields(i.video, title), [])],
               MinfSize(i, CountsOf(t)), MINF, MinfFields(i, trackId, t), MinfBox(i, trackId, t));
    assert [] + MdiaFields(i, trackId, t, time, title) == MdiaFields(i, trackId, t, time, title);
    AgreesContainer(MdiaSize(i, CountsOf(t), title), MDIA, [], MdiaFields(i, trackId, t, time, title),
                    MdiaBox(i, trackId, t, time, title).children);
  }

  // The four corner entries of the transformation matrix for a rotation in degrees.
  function Matrix(degrees: int): (int, int, int, int) {
    if degrees == 90 then (0, 0x0001_0000, 0xFFFF_0000, 0)
    else if degrees == 180 then (0xFFFF_0000, 0, 0, 0xFFFF_0000)
    else if degrees == 270 then (0, 0xFFFF_0000, 0x0001_0000, 0)
    else (0x0001_0000, 0, 0, 0x0001_0000)
  }

  function TkhdFields(i: TrackInfo, trackId: int, time: int): seq<byte>
    requires i.timescale > 0
  {
    var duration := (i.duration * 1000 + i.timescale - 1) / i.timescale;
    var (a, b, c, d) := Matrix(i.rotate);
    [0] + BE24(0xf) + Words([time, time]) + BE32(trackId) + Words([0, duration, 0, 0, 0])
    + BE16(if i.video then 0 else 0x0100) + BE16(0)
    + Words([a, b, 0, c, d, 0, 0, 0, 0x4000_0000])
    + Words(if i.video then [i.width * 0x1_0000, i.height * 0x1_0000] else [0, 0])
  }

  function TrakSize(i: TrackInfo, c: Counts, title: seq<byte>): nat {
    8 + TKHD_SIZE + MdiaSize(i, c, title)
  }

  function TrakFields(i: TrackInfo, trackId: int, t: Tables, time: int, title: seq<byte>): seq<byte>
    requires InfoOk(i)
  {
    WithHeader(TKHD_SIZE, TKHD, TkhdFields(i, trackId, time))
    + WithHeader(MdiaSize(i, CountsOf(t), title), MDIA, MdiaFields(i, trackId, t, time, title))
  }

  function TrakBox(i: TrackInfo, trackId: int, t: Tables, time: int, title: seq<byte>): Box
    requires InfoOk(i)
  {
    Box(TRAK, [], [Box(TKHD, TkhdFields(i, trackId, time), [])] + [MdiaBox(i, trackId, t, time, title)])
  }

  lemma TrakAgrees(i: TrackInfo, trackId: int, t: Tables, time: int, title: seq<byte>)
    requires InfoOk(i) && TrakSize(i, CountsOf(t), title) < TWO_32 && (i.video ==> t.stts != [])
    ensures Agrees(TrakSize(i, CountsOf(t), title), TRAK, TrakFields(i, trackId, t, time, title), TrakBox(i, trackId, t, time, title))
  {
    hide MdiaSize, MdiaFields, MdiaBox, TkhdFields, AgreesAll, Serialize, WellFormed, BE32;
    MdiaAgrees(i, trackId, t, time, title);
    TkhdLength(i, trackId, time);
    AgreesLeaf(TKHD_SIZE, TKHD, TkhdFields(i, trackId, time));
    AgreesOne(TKHD_SIZE, TKHD, TkhdFields(i, trackId, time), Box(TKHD, TkhdFields(i, trackId, time), []));
    AgreesSnoc(WithHeader(TKHD_SIZE, TKHD, TkhdFields(i, trackId, time)), [Box(TKHD, TkhdFields(i, trackId, time), [])],
               MdiaSize(i, CountsOf(t), title), MDIA, MdiaFields(i, trackId, t, time, title), MdiaBox(i, trackId, t, time, title));
    assert [] + TrakFields(i, trackId, t, time, title) == TrakFields(i, trackId, t, time, title);
    AgreesContainer(TrakSize(i, CountsOf(t), title), TRAK, [], TrakFields(i, trackId, t, time, title),
                    TrakBox(i, trackId, t, time, title).children);
  }

  lemma TkhdLength(i: TrackInfo, trackId: int, time: int)
    requires i.timescale > 0
    ensures |TkhdFields(i, trackId, time)| == TKHD_SIZE - 8
    ensures TkhdFields(i, trackId, time)[12..16] == BE32(trackId)
  {
  }

  // What each container writes before its last child, and the whole of it.
  function StsdOut(i: TrackInfo, trackId: int): seq<byte>
    requires InfoOk(i)
  {
    WithHeader(StsdSize(i), STSD, StsdFields(i, trackId))
  }

  function StblOut(i: TrackInfo, trackId: int, t: Tables): seq<byte>
    requires InfoOk(i)
  {
    WithHeader(StblSize(i, CountsOf(t)), STBL, StblFields(i, trackId, t))
  }

  function MinfOpen(i: TrackInfo, c: Counts): seq<byte> {
    BE32(MinfSize(i, c)) + BE32(MINF) + MinfHead(i)
  }

  function MinfOut(i: TrackInfo, trackId: int, t: Tables): seq<byte>
    requires InfoOk(i)
  {
    WithHeader(MinfSize(i, CountsOf(t)), MINF, MinfFields(i, trackId, t))
  }

  function MdiaOpen(i: TrackInfo, c: Counts, time: int, title: seq<byte>): seq<byte> {
    BE32(MdiaSize(i, c, title)) + BE32(MDIA) + MdiaHead(i, time, title)
  }

  function MdiaOut(i: TrackInfo, trackId: int, t: Tables, time: int, title: seq<byte>): seq<byte>
    requires InfoOk(i)
  {
    WithHeader(MdiaSize(i, CountsOf(t), title), MDIA, MdiaFields(i, trackId, t, time, title))
  }

  function TrakOpen(i: TrackInfo, trackId: int, c: Counts, time: int, title: seq<byte>): seq<byte>
    requires InfoOk(i)
  {
    BE32(TrakSize(i, c, title)) + BE32(TRAK) + WithHeader(TKHD_SIZE, TKHD, TkhdFields(i, trackId, time))
  }

  function TrakOut(i: TrackInfo, trackId: int, t: Tables, time: int, title: seq<byte>): seq<byte>
    requires InfoOk(i)
  {
    WithHeader(TrakSize(i, CountsOf(t), title), TRAK, TrakFields(i, trackId, t, time, title))
  }

  lemma OutInParts(i: TrackInfo, trackId: int, t: Tables, time: int, title: seq<byte>)
    requires InfoOk(i)
    ensures StblOut(i, trackId, t) == BE32(StblSize(i, CountsOf(t))) + BE32(STBL) + StsdOut(i, trackId) + TimesOut(i, t) + ChunksOut(t)
    ensures MinfOut(i, trackId, t) == MinfOpen(i, CountsOf(t)) + StblOut(i, trackId, t)
    ensures MdiaOut(i, trackId, t, time, title) == MdiaOpen(i, CountsOf(t), time, title) + MinfOut(i, trackId, t)
    ensures TrakOut(i, trackId, t, time, title)
         == TrakOpen(i, trackId, CountsOf(t), time, title) + MdiaOut(i, trackId, t, time, title)
  {
    hide BE32, InfoOk, TimesOut, ChunksOut, StsdFields, MinfHead, MdiaHead, TkhdFields, StblSize, MinfSize, MdiaSize, TrakSize, StsdSize, CountsOf;
  }

  // ---------------------------------------------------------------- moov

  predicate MovieOk(info: MovieInfo) {
    && |info.tracks| == 2
    && info.tracks[0].video && !info.tracks[1].video
    && InfoOk(info.tracks[0]) && InfoOk(info.tracks[1])
    && (info.geo.Some? ==> |info.geo.value.latitude| == 8 && |info.geo.value.longitude| == 9)
  }

  // A table set as the writer leaves it: durations for every sample of the video track.
  lemma VideoFirst(info: MovieInfo)
    requires MovieOk(info)
    ensures |info.tracks| == 2 && forall k: nat :: k < 2 ==> (info.tracks[k].video <==> k == VIDEO)
  {
  }

  predicate TablesOk(m: Mov) {
    |m.tracks| == 2 && |m.tracks[0].stts| == |m.tracks[0].stsz|
  }

  function XyzFields(g: Geo): seq<byte> {
    BE32(0x001215c7) + g.latitude + g.longitude + [0x2F]
  }

  function UdtaFields(g: Geo): seq<byte> {
    WithHeader(UDTA_SIZE - 8, XYZ, XyzFields(g))
  }

  function MvhdFields(info: MovieInfo): seq<byte>
    requires |info.tracks| == 2
  {
    [0] + BE24(0)
    + Words([info.createTime, info.createTime, 1000, info.tracks[0].duration, 0x0001_0000])
    + BE16(0x0100) + BE16(0)
    + Words([0, 0,
             0x0001_0000, 0, 0, 0, 0x0001_0000, 0, 0, 0, 0x4000_0000,
             0, 0, 0, 0, 0, 0,
             |info.tracks| + 1])
  }

  function TrakTotal(info: MovieInfo, cs: seq<Counts>, k: nat): nat
    requires |info.tracks| == 2 && |cs| == 2 && k < 2
  {
    if cs[k].stsz > 0 then TrakSize(info.tracks[k], cs[k], info.title) else 0
  }

  function MoovTagSize(info: MovieInfo, cs: seq<Counts>): nat
    requires |info.tracks| == 2 && |cs| == 2
  {
    8 + (if info.geo.Some? then UDTA_SIZE else 0) + MVHD_SIZE + TrakTotal(info, cs, 0) + TrakTotal(info, cs, 1)
  }

  function AllCounts(m: Mov): (cs: seq<Counts>)
    requires |m.tracks| == 2
    ensures |cs| == 2
  {
    [CountsOf(m.tracks[0]), CountsOf(m.tracks[1])]
  }

  function MoovSize(info: MovieInfo, m: Mov): nat
    requires MovieOk(info) && TablesOk(m)
  {
    MoovTagSize(info, AllCounts(m))
  }

  function TrakBytes(info: MovieInfo, m: Mov, k: nat): seq<byte>
    requires MovieOk(info) && TablesOk(m) && k < 2
  {
    if |m.tracks[k].stsz| > 0 then
      TrakOut(info.tracks[k], k + 1, m.tracks[k], info.createTime, info.title)
    else []
  }

  function TrakBoxes(info: MovieInfo, m: Mov, k: nat): seq<Box>
    requires MovieOk(info) && TablesOk(m) && k < 2
  {
    if |m.tracks[k].stsz| > 0 then [TrakBox(info.tracks[k], k + 1, m.tracks[k], info.createTime, info.title)] else []
  }

  function MoovHead(info: MovieInfo): seq<byte>
    requires |info.tracks| == 2
  {
    (if info.geo.Some? then WithHeader(UDTA_SIZE, UDTA, UdtaFields(info.geo.value)) else [])
    + WithHeader(MVHD_SIZE, MVHD, MvhdFields(info))
  }

  function MoovHeadBoxes(info: MovieInfo): seq<Box>
    requires |info.tracks| == 2
  {
    (if info.geo.Some? then [Box(UDTA, [], [Box(XYZ, XyzFields(info.geo.value), [])])] else [])
    + [Box(MVHD, MvhdFields(info), [])]
  }

  function MoovFields(info: MovieInfo, m: Mov): seq<byte>
    requires MovieOk(info) && TablesOk(m)
  {
    MoovHead(info) + TrakBytes(info, m, 0) + TrakBytes(info, m, 1)
  }

  function MoovBox(info: MovieInfo, m: Mov): Box
    requires MovieOk(info) && TablesOk(m)
  {
    Box(MOOV, [], MoovHeadBoxes(info) + TrakBoxes(info, m, 0) + TrakBoxes(info, m, 1))
  }

  lemma MoovHeadAgrees(info: MovieInfo)
    requires MovieOk(info)
    ensures AgreesAll(MoovHead(info), MoovHeadBoxes(info))
    ensures |MoovHead(info)| == (if info.geo.Some? then UDTA_SIZE else 0) + MVHD_SIZE
  {
    hide AgreesAll, Serialize, WellFormed, BE32, BE16, BE24, InfoOk;
    AgreesLeaf(MVHD_SIZE, MVHD, MvhdFields(info));
    if info.geo.Some? {
      var g := info.geo.value;
      var xyz := Box(XYZ, XyzFields(g), []);
      AgreesLeaf(UDTA_SIZE - 8, XYZ, XyzFields(g));
      AgreesOne(UDTA_SIZE - 8, XYZ, XyzFields(g), xyz);
      assert [] + UdtaFields(g) == UdtaFields(g);
      AgreesContainer(UDTA_SIZE, UDTA, [], UdtaFields(g), [xyz]);
      AgreesOne(UDTA_SIZE, UDTA, UdtaFields(g), Box(UDTA, [], [xyz]));
      AgreesSnoc(WithHeader(UDTA_SIZE, UDTA, UdtaFields(g)), [Box(UDTA, [], [xyz])],
                 MVHD_SIZE, MVHD, MvhdFields(info), Box(MVHD, MvhdFields(info), []));
    } else {
      NoBoxes();
      AgreesSnoc([], [], MVHD_SIZE, MVHD, MvhdFields(info), Box(MVHD, MvhdFields(info), []));
    }
  }

  lemma TrakBytesAgree(info: MovieInfo, m: Mov, k: nat)
    requires MovieOk(info) && TablesOk(m) && k < 2 && TrakTotal(info, AllCounts(m), k) < TWO_32
    ensures AgreesAll(TrakBytes(info, m, k), TrakBoxes(info, m, k))
    ensures |TrakBytes(info, m, k)| == TrakTotal(info, AllCounts(m), k)
  {
    hide AgreesAll, Serialize, WellFormed, TrakSize, TrakFields, TrakBox, InfoOk;
    if |m.tracks[k].stsz| > 0 {
      TrakAgrees(info.tracks[k], k + 1, m.tracks[k], info.createTime, info.title);
      AgreesOne(TrakSize(info.tracks[k], CountsOf(m.tracks[k]), info.title), TRAK,
                TrakFields(info.tracks[k], k + 1, m.tracks[k], info.createTime, info.title),
                TrakBox(info.tracks[k], k + 1, m.tracks[k], info.createTime, info.title));
    } else {
      NoBoxes();
    }
  }

  // Main result: the whole moov box, as the size and emit families produce it, is the
  // serialization of the box tree they were meant to describe.
  lemma MoovAgrees(info: MovieInfo, m: Mov)
    requires MovieOk(info) && TablesOk(m) && MoovSize(info, m) < TWO_32
    ensures Agrees(MoovSize(info, m), MOOV, MoovFields(info, m), MoovBox(info, m))
  {
    hide AgreesAll, Serialize, WellFormed, TrakTotal, TrakBytes, TrakBoxes, MoovHead, MoovHeadBoxes, InfoOk;
    MoovHeadAgrees(info);
    TrakBytesAgree(info, m, 0);
    TrakBytesAgree(info, m, 1);
    AgreesBoth(MoovHead(info), MoovHeadBoxes(info), TrakBytes(info, m, 0), TrakBoxes(info, m, 0));
    AgreesBoth(MoovHead(info) + TrakBytes(info, m, 0), MoovHeadBoxes(info) + TrakBoxes(info, m, 0),
               TrakBytes(info, m, 1), TrakBoxes(info, m, 1));
    assert [] + MoovFields(info, m) == MoovFields(info, m);
    AgreesContainer(MoovSize(info, m), MOOV, [], MoovFields(info, m), MoovBox(info, m).children);
  }
}
