/**
 A reader of the headers of the finished MP4 file: the movie header, and for each track its header, its
 media header, its handler and its sample entry with the codec data. Offsets are those of
 ISO/IEC 14496-12 (and 14496-1 and 14496-15 for the codec data); every law is stated on the bytes.
 */
module Mp4Headers {
  import opened Bytes
  import opened Boxes
  import opened Descriptors
  import opened AnnexB
  import opened Mp4Packets
  import opened Mp4Boxes
  import opened Mp4Avcc
  import opened Mp4File
  import Mp4Timing

  // Four characters as a big-endian word.
  function Tag(a: char, b: char, c: char, d: char): int {
    a as int * 0x100_0000 + b as int * 0x1_0000 + c as int * 0x100 + d as int
  }

  // The box kinds are their names.
  lemma KindNames()
    ensures FTYP == Tag('f', 't', 'y', 'p') && MOOV == Tag('m', 'o', 'o', 'v') && FREE == Tag('f', 'r', 'e', 'e')
    ensures MDAT == Tag('m', 'd', 'a', 't') && UDTA == Tag('u', 'd', 't', 'a') && MVHD == Tag('m', 'v', 'h', 'd')
    ensures TRAK == Tag('t', 'r', 'a', 'k') && TKHD == Tag('t', 'k', 'h', 'd') && MDIA == Tag('m', 'd', 'i', 'a')
    ensures MDHD == Tag('m', 'd', 'h', 'd') && HDLR == Tag('h', 'd', 'l', 'r') && MINF == Tag('m', 'i', 'n', 'f')
    ensures VMHD == Tag('v', 'm', 'h', 'd')
  {
  }

  lemma MediaKindNames()
    ensures SMHD == Tag('s', 'm', 'h', 'd') && DINF == Tag('d', 'i', 'n', 'f') && DREF == Tag('d', 'r', 'e', 'f')
    ensures URL == Tag('u', 'r', 'l', ' ') && STBL == Tag('s', 't', 'b', 'l') && STSD == Tag('s', 't', 's', 'd')
    ensures AVCC == Tag('a', 'v', 'c', 'C') && ESDS == Tag('e', 's', 'd', 's') && STTS == Tag('s', 't', 't', 's')
    ensures STSS == Tag('s', 't', 's', 's') && STSC == Tag('s', 't', 's', 'c') && STSZ == Tag('s', 't', 's', 'z')
    ensures STCO == Tag('s', 't', 'c', 'o')
  {
  }

  // ---------------------------------------------------------------- reading numbers

  function U16At(s: seq<byte>, i: nat): nat
    requires i + 2 <= |s|
  {
    var b0: int, b1: int := s[i], s[i + 1];
    b0 * 256 + b1
  }

  lemma ShortAt(pre: seq<byte>, n: int, post: seq<byte>)
    ensures U16At(pre + BE16(n) + post, |pre|) == n % 0x1_0000
  {
    BE16Back(n);
    var s := pre + BE16(n) + post;
    assert s[|pre|] == BE16(n)[0] && s[|pre| + 1] == BE16(n)[1];
  }

  lemma ShortIn(s: seq<byte>, at: nat, n: int)
    requires at + 2 <= |s| && s[at..at + 2] == BE16(n)
    ensures U16At(s, at) == n % 0x1_0000
  {
    assert s == s[..at] + BE16(n) + s[at + 2..];
    ShortAt(s[..at], n, s[at + 2..]);
  }

  lemma WordIn(s: seq<byte>, at: nat, n: int)
    requires at + 4 <= |s| && s[at..at + 4] == BE32(n)
    ensures U32At(s, at) == n % 0x1_0000_0000
  {
    hide BE32, U32At;
    assert s == s[..at] + BE32(n) + s[at + 4..];
    WordAt(s[..at], n, s[at + 4..]);
  }

  // Stored words, as a reader gets them.
  function Stored32(ws: seq<int>): (r: seq<uint32>)
    ensures |r| == |ws|
  {
    seq(|ws|, i requires 0 <= i < |ws| => ws[i] % 0x1_0000_0000)
  }

  lemma {:induction false} ReadStoredWords(ws: seq<int>)
    ensures ReadWords(Words(ws)) == Stored32(ws)
  {
    hide BE32;
    if ws == [] {
      assert ReadWords([]) == [];
    } else {
      ReadStoredWord(ws[0], Words(ws[1..]));
      ReadStoredWords(ws[1..]);
    }
  }

  // ---------------------------------------------------------------- the plain headers

  // Section 8.2.2: one thousand ticks a second, the length of the video track, rate and volume one,
  // the unit matrix, and the number the next track would get.
  predicate MvhdRight(h: seq<byte>, info: MovieInfo)
    requires |info.tracks| == 2
  {
    && |h| == 100 && U32At(h, 0) == 0
    && ReadWords(h[4..24]) == Stored32([info.createTime, info.createTime, 1000, info.tracks[0].duration, 0x0001_0000])
    && U16At(h, 24) == 0x0100
    && ReadWords(h[28..100]) == [0, 0, 0x0001_0000, 0, 0, 0, 0x0001_0000, 0, 0, 0, 0x4000_0000, 0, 0, 0, 0, 0, 0, 3]
  }

  const MVHD_REST: seq<uint32> := [0, 0, 0x0001_0000, 0, 0, 0, 0x0001_0000, 0, 0, 0, 0x4000_0000, 0, 0, 0, 0, 0, 0, 3]

  lemma MvhdIsRight(info: MovieInfo)
    requires |info.tracks| == 2
    ensures MvhdRight(MvhdFields(info), info)
  {
    var first := [info.createTime, info.createTime, 1000, info.tracks[0].duration, 0x0001_0000];
    MvhdParts(info, first);
    ReadStoredWords(first);
    ReadWordsInverse(MVHD_REST);
    hide Words, ReadWords, BE16, BE24, Stored32, MvhdFields, U32At, U16At;
    var h := MvhdFields(info);
    ShortIn(h, 24, 0x0100);
    VersionZero(h);
  }

  lemma MvhdParts(info: MovieInfo, first: seq<int>)
    requires |info.tracks| == 2
    requires first == [info.createTime, info.createTime, 1000, info.tracks[0].duration, 0x0001_0000]
    ensures var h := MvhdFields(info);
            && |h| == 100 && h[..4] == [0] + BE24(0) && h[4..24] == Words(first)
            && h[24..26] == BE16(0x0100) && h[28..100] == Words(MVHD_REST)
  {
    hide Words, BE16, BE24;
    assert MvhdFields(info) == [0] + BE24(0) + Words(first) + BE16(0x0100) + BE16(0) + Words(MVHD_REST);
  }

  lemma VersionZero(h: seq<byte>)
    requires |h| >= 4 && h[..4] == [0] + BE24(0)
    ensures U32At(h, 0) == 0
  {
    assert h[0] == h[..4][0] && h[1] == h[..4][1] && h[2] == h[..4][2] && h[3] == h[..4][3];
  }

  // The four corner entries of the matrix for each rotation the recorder knows.
  predicate Rotated(m: seq<uint32>, degrees: int)
    requires |m| == 9
  {
    && m[2] == 0 && m[5] == 0 && m[6] == 0 && m[7] == 0 && m[8] == 0x4000_0000
    && (degrees == 90 ==> m[0] == 0 && m[1] == 0x0001_0000 && m[3] == 0xFFFF_0000 && m[4] == 0)
    && (degrees == 180 ==> m[0] == 0xFFFF_0000 && m[1] == 0 && m[3] == 0 && m[4] == 0xFFFF_0000)
    && (degrees == 270 ==> m[0] == 0 && m[1] == 0xFFFF_0000 && m[3] == 0x0001_0000 && m[4] == 0)
    && (degrees != 90 && degrees != 180 && degrees != 270 ==>
          m[0] == 0x0001_0000 && m[1] == 0 && m[3] == 0 && m[4] == 0x0001_0000)
  }

  // Section 8.3.2: enabled, its number, its length in the movie's thousand ticks rounded up, full
  // volume for sound, the rotation, and the picture size in sixteenths of bits.
  predicate TkhdRight(h: seq<byte>, i: TrackInfo, id: int, time: int)
    requires i.timescale > 0
  {
    && |h| == 84 && U32At(h, 0) == 0xf
    && ReadWords(h[4..12]) == Stored32([time, time]) && U32At(h, 12) == id % 0x1_0000_0000
    && ReadWords(h[16..36]) == Stored32([0, (i.duration * 1000 + i.timescale - 1) / i.timescale, 0, 0, 0])
    && U16At(h, 36) == (if i.video then 0 else 0x0100)
    && Rotated(ReadWords(h[40..76]), i.rotate)
    && ReadWords(h[76..84]) == Stored32(if i.video then [i.width * 0x1_0000, i.height * 0x1_0000] else [0, 0])
  }

  function MatrixWords(degrees: int): (m: seq<uint32>)
    ensures |m| == 9 && Rotated(m, degrees)
  {
    var (a, b, c, d) := Matrix(degrees);
    [a, b, 0, c, d, 0, 0, 0, 0x4000_0000]
  }

  lemma TkhdIsRight(i: TrackInfo, id: int, time: int)
    requires i.timescale > 0
    ensures TkhdRight(TkhdFields(i, id, time), i, id, time)
  {
    hide *;
    var d := (i.duration * 1000 + i.timescale - 1) / i.timescale;
    var size := if i.video then [i.width * 0x1_0000, i.height * 0x1_0000] else [0, 0];
    var volume := if i.video then 0 else 0x0100;
    var h := TkhdFields(i, id, time);
    TkhdParts(i, id, time, volume, size);
    ReadStoredWords([time, time]);
    ReadStoredWords([0, d, 0, 0, 0]);
    ReadWordsInverse(MatrixWords(i.rotate));
    ReadStoredWords(size);
    WordIn(h, 12, id);
    ShortIn(h, 36, volume);
    EnabledFlags(h);
    TkhdFolds(h, i, id, time);
  }

  lemma TkhdFolds(h: seq<byte>, i: TrackInfo, id: int, time: int)
    requires i.timescale > 0 && |h| == 84 && U32At(h, 0) == 0xf
    requires ReadWords(h[4..12]) == Stored32([time, time]) && U32At(h, 12) == id % 0x1_0000_0000
    requires ReadWords(h[16..36]) == Stored32([0, (i.duration * 1000 + i.timescale - 1) / i.timescale, 0, 0, 0])
    requires U16At(h, 36) == (if i.video then 0 else 0x0100) % 0x1_0000
    requires ReadWords(h[40..76]) == MatrixWords(i.rotate)
    requires ReadWords(h[76..84]) == Stored32(if i.video then [i.width * 0x1_0000, i.height * 0x1_0000] else [0, 0])
    ensures TkhdRight(h, i, id, time)
  {
    hide ReadWords, Stored32, U32At, U16At, MatrixWords, Rotated;
  }

  lemma TkhdParts(i: TrackInfo, id: int, time: int, volume: int, size: seq<int>)
    requires i.timescale > 0 && |size| == 2
    requires volume == (if i.video then 0 else 0x0100)
    requires size == if i.video then [i.width * 0x1_0000, i.height * 0x1_0000] else [0, 0]
    ensures var h := TkhdFields(i, id, time);
            && |h| == 84 && h[..4] == [0] + BE24(0xf) && h[4..12] == Words([time, time]) && h[12..16] == BE32(id)
            && h[16..36] == Words([0, (i.duration * 1000 + i.timescale - 1) / i.timescale, 0, 0, 0])
            && h[36..38] == BE16(volume) && h[40..76] == Words(MatrixWords(i.rotate)) && h[76..84] == Words(size)
  {
    hide Words, BE16, BE24, BE32;
    var d := (i.duration * 1000 + i.timescale - 1) / i.timescale;
    var m := MatrixWords(i.rotate);
    assert TkhdFields(i, id, time)
        == [0] + BE24(0xf) + Words([time, time]) + BE32(id) + Words([0, d, 0, 0, 0]) + BE16(volume) + BE16(0)
           + Words(m) + Words(size);
  }

  lemma EnabledFlags(h: seq<byte>)
    requires |h| >= 4 && h[..4] == [0] + BE24(0xf)
    ensures U32At(h, 0) == 0xf
  {
    assert h[0] == h[..4][0] && h[1] == h[..4][1] && h[2] == h[..4][2] && h[3] == h[..4][3];
  }

  // Section 8.4.2.
  predicate MdhdRight(h: seq<byte>, i: TrackInfo, time: int) {
    |h| == 24 && U32At(h, 0) == 0 && ReadWords(h[4..20]) == Stored32([time, time, i.timescale, i.duration]) && U32At(h, 20) == 0
  }

  lemma MdhdIsRight(i: TrackInfo, time: int)
    ensures MdhdRight(MdhdFields(i, time), i, time)
  {
    ReadStoredWords([time, time, i.timescale, i.duration]);
    var h := MdhdFields(i, time);
    assert BE16(0) + BE16(0) == BE32(0);
    hide Words, ReadWords, BE16, BE24, BE32, Stored32;
    assert h == [0] + BE24(0) + Words([time, time, i.timescale, i.duration]) + (BE16(0) + BE16(0));
    assert h[4..20] == Words([time, time, i.timescale, i.duration]) && h[20..24] == BE32(0);
    WordIn(h, 20, 0);
    VersionZero(h);
  }

  // Section 8.4.3: the handler type, and the title as a string that ends with a zero.
  predicate HdlrRight(h: seq<byte>, video: bool, title: seq<byte>) {
    && |h| == 25 + |title| && U32At(h, 0) == 0 && U32At(h, 4) == 0
    && U32At(h, 8) == (if video then Tag('v', 'i', 'd', 'e') else Tag('s', 'o', 'u', 'n'))
    && h[24..24 + |title|] == title && h[24 + |title|] == 0
  }

  lemma HdlrIsRight(video: bool, title: seq<byte>)
    ensures HdlrRight(HdlrFields(video, title), video, title)
  {
    var kind := if video then 0x76696465 else 0x736f756e;
    assert BE32(0) == Fill(4, 0);
    var h := HdlrFields(video, title);
    assert |Fill(12, 0)| == 12;
    hide BE32, Fill;
    assert h == BE32(0) + Fill(4, 0) + BE32(kind) + Fill(12, 0) + title + [0];
    assert h[..4] == h[0..4] == BE32(0) && h[4..8] == BE32(0) && h[8..12] == BE32(kind);
    WordIn(h, 0, 0);
    WordIn(h, 4, 0);
    WordIn(h, 8, kind);
  }

  // ---------------------------------------------------------------- sample entries

  // Section 12.1.3: the picture size, 72 dots an inch, one frame a sample, no name, 24 bits.
  predicate VideoEntryRight(h: seq<byte>, i: TrackInfo) {
    && |h| == 78 && U16At(h, 6) == 1
    && U16At(h, 24) == i.width % 0x1_0000 && U16At(h, 26) == i.height % 0x1_0000
    && U32At(h, 28) == 0x0048_0000 && U32At(h, 32) == 0x0048_0000 && U16At(h, 40) == 1
    && h[42] == 0 && U16At(h, 74) == 0x18 && U16At(h, 76) == 0xffff
  }

  lemma VideoEntryIsRight(i: TrackInfo)
    ensures VideoEntryRight(VideoFixed(i), i)
  {
    hide BE16, BE32, Fill;
    var h := VideoFixed(i);
    VideoParts(i);
    ShortIn(h, 6, 1);
    ShortIn(h, 24, i.width);
    ShortIn(h, 26, i.height);
    WordIn(h, 28, 0x0048_0000);
    WordIn(h, 32, 0x0048_0000);
    ShortIn(h, 40, 1);
    ShortIn(h, 74, 0x18);
    ShortIn(h, 76, 0xffff);
    assert h[42] == h[42..43][0];
  }

  lemma VideoParts(i: TrackInfo)
    ensures var h := VideoFixed(i);
            && h[6..8] == BE16(1) && h[24..26] == BE16(i.width) && h[26..28] == BE16(i.height)
            && h[28..32] == BE32(0x0048_0000) && h[32..36] == BE32(0x0048_0000) && h[40..42] == BE16(1)
            && h[42..43] == [0] && h[74..76] == BE16(0x18) && h[76..78] == BE16(0xffff)
  {
    hide BE16, BE32, Fill;
  }

  // Section 12.2.3.
  predicate AudioEntryRight(h: seq<byte>, i: TrackInfo) {
    && |h| == 28 && U16At(h, 6) == 1 && U16At(h, 8) == 0
    && U16At(h, 16) == i.channels % 0x1_0000 && U16At(h, 18) == i.bitsPerSample % 0x1_0000
    && U16At(h, 24) == i.sampleRate % 0x1_0000 && U16At(h, 26) == 0
  }

  lemma AudioEntryIsRight(i: TrackInfo)
    ensures AudioEntryRight(AudioFixed(i), i)
  {
    hide BE16, BE32;
    var h := AudioFixed(i);
    assert h[6..8] == BE16(1) && h[8..10] == BE16(0) && h[16..18] == BE16(i.channels);
    assert h[18..20] == BE16(i.bitsPerSample) && h[24..26] == BE16(i.sampleRate) && h[26..28] == BE16(0);
    ShortIn(h, 6, 1);
    ShortIn(h, 8, 0);
    ShortIn(h, 16, i.channels);
    ShortIn(h, 18, i.bitsPerSample);
    ShortIn(h, 24, i.sampleRate);
    ShortIn(h, 26, 0);
  }

  // Which sample entry a codec gets.
  predicate EntryKindRight(kind: int, codec: Codec) {
    && (codec == H264 ==> kind == Tag('a', 'v', 'c', '1'))
    && (codec == MPEG4 ==> kind == Tag('m', 'p', '4', 'v'))
    && (codec == MJPEG ==> kind == Tag('m', 'j', 'p', 'a'))
    && (codec == AAC ==> kind == Tag('m', 'p', '4', 'a'))
    && (codec == PCM ==> kind == Tag('s', 'o', 'w', 't'))
    && (codec == ADPCM ==> kind == Tag('m', 's', '\0', '\U{11}'))
    && (codec == H265 ==> kind == 0)
  }

  lemma EntryKindIsRight(codec: Codec)
    ensures EntryKindRight(CodecTag(codec), codec)
  {
  }

  // ---------------------------------------------------------------- esds

  datatype Descr = Descr(tag: byte, payload: seq<byte>)

  // Descriptors end to end (section 8.3.3 of ISO/IEC 14496-1): a tag, a length and a payload.
  function ReadDescrs(s: seq<byte>): Option<seq<Descr>>
    decreases |s|
  {
    if s == [] then Some([])
    else
      match ReadLength(s[1..], 0)
      case CutOff => None
      case Length(n, k) =>
        if |s| < 1 + k + n then None
        else
          match ReadDescrs(s[1 + k + n..])
          case None => None
          case Some(rest) => Some([Descr(s[0], s[1 + k..1 + k + n])] + rest)
  }

  datatype Esds = Esds(id: nat, objectType: nat, streamType: nat, specific: seq<byte>, sync: seq<byte>)

  // The elementary stream descriptor with its decoder and synchronisation descriptors.
  function ReadEsds(h: seq<byte>): Option<Esds> {
    if |h| < 4 || U32At(h, 0) != 0 then None
    else
      match ReadDescrs(h[4..])
      case None => None
      case Some(es) =>
        if |es| != 1 || es[0].tag != 3 || |es[0].payload| < 3 then None
        else
          match ReadDescrs(es[0].payload[3..])
          case None => None
          case Some(ds) =>
            if |ds| != 2 || ds[0].tag != 4 || |ds[0].payload| < 13 || ds[1].tag != 6 then None
            else
              match ReadDescrs(ds[0].payload[13..])
              case None => None
              case Some(info) =>
                if info == [] then
                  Some(Esds(U16At(es[0].payload, 0), ds[0].payload[0], ds[0].payload[1], [], ds[1].payload))
                else if |info| == 1 && info[0].tag == 5 then
                  Some(Esds(U16At(es[0].payload, 0), ds[0].payload[0], ds[0].payload[1], info[0].payload, ds[1].payload))
                else None
  }

  lemma DescrBack(tag: byte, payload: seq<byte>, rest: seq<byte>)
    requires ReadDescrs(rest).Some?
    ensures ReadDescrs(DescrHeader(tag, |payload|) + payload + rest) == Some([Descr(tag, payload)] + ReadDescrs(rest).value)
  {
    var n := |payload|;
    var head := DescrHeader(tag, n);
    HeaderRoundTrip(tag, n, payload + rest);
    assert head[0] == tag;
    hide DescrHeader, ReadLength, DescrLength;
    var s := head + payload + rest;
    assert s == head + (payload + rest);
    var k := |head| - 1;
    assert s[0] == tag && s[1 + k..1 + k + n] == payload && s[1 + k + n..] == rest;
  }

  // The object type of each codec with an esds box; AAC and MPEG-4 video have the numbers the
  // recorder's codec enumeration gives them.
  predicate EsdsRight(h: seq<byte>, i: TrackInfo, id: int) {
    var e := ReadEsds(h);
    && e.Some? && e.value.id == id % 0x1_0000 && e.value.specific == i.csd && e.value.sync == [2]
    && (i.codec == AAC ==> e.value.objectType == 0x40) && (i.codec == MPEG4 ==> e.value.objectType == 3)
    && e.value.streamType == if i.video then 0x11 else 0x15
  }

  // The codec data in a descriptor of its own, behind the decoder fields.
  function SpecificPart(i: TrackInfo): seq<byte> {
    if |i.csd| > 0 then DescrHeader(5, |i.csd|) + i.csd else []
  }

  lemma SpecificBack(i: TrackInfo)
    ensures |SpecificPart(i)| == SpecificInfoSize(i)
    ensures ReadDescrs(SpecificPart(i)) == Some(if i.csd == [] then [] else [Descr(5, i.csd)])
  {
    if i.csd != [] {
      HeaderRoundTrip(5, |i.csd|, []);
      DescrBack(5, i.csd, []);
      hide DescrHeader, ReadDescrs, DescrLength;
      assert DescrHeader(5, |i.csd|) + i.csd + [] == DescrHeader(5, |i.csd|) + i.csd;
      assert [Descr(5, i.csd)] + [] == [Descr(5, i.csd)];
    }
  }

  lemma DecoderIs(i: TrackInfo)
    ensures var d := DecoderFields(i);
            |d| == 13 && d[0] == CodecId(i.codec) && d[1] == if i.video then 0x11 else 0x15
    ensures (i.codec == AAC ==> CodecId(i.codec) == 0x40) && (i.codec == MPEG4 ==> CodecId(i.codec) == 3)
  {
    hide BE16, BE32;
  }

  function InnerDescrs(config: seq<byte>): seq<byte> {
    DescrHeader(4, |config|) + config + (DescrHeader(6, 1) + [0x02])
  }

  lemma InnerBack(config: seq<byte>)
    ensures ReadDescrs(InnerDescrs(config)) == Some([Descr(4, config)] + [Descr(6, [0x02])])
    ensures |InnerDescrs(config)| == DescrLength(|config|) + DescrLength(1)
  {
    HeaderRoundTrip(4, |config|, []);
    HeaderRoundTrip(6, 1, []);
    assert ReadDescrs([]) == Some([]);
    DescrBack(6, [0x02], []);
    hide DescrHeader, ReadDescrs, DescrLength, ReadLength;
    assert DescrHeader(6, 1) + [0x02] + [] == DescrHeader(6, 1) + [0x02];
    assert [Descr(6, [0x02])] + [] == [Descr(6, [0x02])];
    DescrBack(4, config, DescrHeader(6, 1) + [0x02]);
  }

  lemma EsdsIsRight(i: TrackInfo, id: int)
    ensures EsdsRight(EsdsFields(i, id), i, id)
  {
    hide *;
    NoDescrs();
    SpecificBack(i);
    DecoderIs(i);
    var spec := SpecificPart(i);
    var config := DecoderFields(i) + spec;
    var inner := InnerDescrs(config);
    InnerBack(config);
    var es := BE16(id) + [0x00] + inner;
    EsLengthIs(i, |config|, |inner|);
    DescrBack(3, es, []);
    EsdsInDescrs(i, id, spec, config, inner, es);
    EsdsParses(EsdsFields(i, id), es, id, inner, config, spec, i.csd);
    EsdsFolds(EsdsFields(i, id), i, id);
  }

  lemma NoDescrs()
    ensures ReadDescrs([]) == Some([])
  {
  }

  lemma EsLengthIs(i: TrackInfo, config: nat, inner: nat)
    requires config == 13 + SpecificInfoSize(i) && inner == DescrLength(config) + DescrLength(1)
    ensures EsLength(i) == 3 + inner
  {
    hide DescrLength, SpecificInfoSize;
  }

  lemma EsdsFolds(h: seq<byte>, i: TrackInfo, id: int)
    requires ReadEsds(h) == Some(Esds(id % 0x1_0000, CodecId(i.codec), if i.video then 0x11 else 0x15, i.csd, [0x02]))
    requires (i.codec == AAC ==> CodecId(i.codec) == 0x40) && (i.codec == MPEG4 ==> CodecId(i.codec) == 3)
    ensures EsdsRight(h, i, id)
  {
    hide ReadEsds, CodecId;
  }

  lemma EsdsInDescrs(i: TrackInfo, id: int, spec: seq<byte>, config: seq<byte>, inner: seq<byte>, es: seq<byte>)
    requires spec == SpecificPart(i) && config == DecoderFields(i) + spec && |config| == 13 + SpecificInfoSize(i)
    requires inner == InnerDescrs(config)
    requires es == BE16(id) + [0x00] + inner && |es| == EsLength(i)
    ensures EsdsFields(i, id) == BE32(0) + (DescrHeader(3, |es|) + es)
  {
    hide DescrHeader, BE16, BE32, EsLength, SpecificInfoSize;
  }

  lemma EsdsParses(h: seq<byte>, es: seq<byte>, id: int, inner: seq<byte>, config: seq<byte>, spec: seq<byte>, csd: seq<byte>)
    requires h == BE32(0) + (DescrHeader(3, |es|) + es) && es == BE16(id) + [0x00] + inner
    requires ReadDescrs(DescrHeader(3, |es|) + es + []) == Some([Descr(3, es)] + [])
    requires ReadDescrs(inner) == Some([Descr(4, config)] + [Descr(6, [0x02])])
    requires |config| >= 13 && config[13..] == spec
    requires ReadDescrs(spec) == Some(if csd == [] then [] else [Descr(5, csd)])
    ensures ReadEsds(h) == Some(Esds(id % 0x1_0000, config[0], config[1], csd, [0x02]))
  {
    hide ReadDescrs, DescrHeader, BE16, BE32;
    assert DescrHeader(3, |es|) + es + [] == DescrHeader(3, |es|) + es;
    assert h[0..4] == BE32(0) && h[4..] == DescrHeader(3, |es|) + es;
    WordIn(h, 0, 0);
    assert es[0..2] == BE16(id) && es[3..] == inner;
    ShortIn(es, 0, id);
  }

  // ---------------------------------------------------------------- avcC

  datatype Avcc = Avcc(
    version: byte, profile: byte, compatibility: byte, level: byte, lengthSize: nat, sps: seq<byte>, pps: seq<byte>)

  // Section 5.3.3.1 of ISO/IEC 14496-15, with one parameter set of each kind.
  function ReadAvcc(h: seq<byte>): Option<Avcc> {
    if |h| < 8 || h[5] % 32 != 1 then None
    else
      var n := U16At(h, 6);
      if |h| < 11 + n || h[8 + n] != 1 || |h| != 11 + n + U16At(h, 9 + n) then None
      else Some(Avcc(h[0], h[1], h[2], h[3], h[4] % 4 + 1, h[8..8 + n], h[11 + n..]))
  }

  // NAL units as an encoder hands them over: not empty, no zero at the end, lengths of sixteen bits.
  predicate CodecUnits(us: seq<seq<byte>>) {
    NalStream(us) && forall k :: 0 <= k < |us| ==> 0 < |us[k]| < 0xffff && us[k][|us[k]| - 1] != 0
  }

  // u is the last unit of type t.
  predicate LastIs(us: seq<seq<byte>>, t: nat, u: seq<byte>) {
    exists j :: 0 <= j < |us| && us[j] == u && IsType(us[j], t) && forall l :: j < l < |us| ==> !IsType(us[l], t)
  }

  predicate IsType(u: seq<byte>, t: nat) {
    u != [] && u[0] % 32 == t
  }

  lemma {:induction false} LastOfTypeIs(us: seq<seq<byte>>, t: nat, before: seq<byte>)
    ensures var u := LastOfType(us, t, before);
            LastIs(us, t, u) || (u == before && forall l :: 0 <= l < |us| ==> !IsType(us[l], t))
  {
    if us != [] {
      var hit := us[0] != [] && us[0][0] % 32 == t;
      var before', rest := if hit then us[0] else before, us[1..];
      LastOfTypeIs(rest, t, before');
      var u := LastOfType(rest, t, before');
      if LastIs(rest, t, u) {
        var j :| 0 <= j < |rest| && rest[j] == u && IsType(rest[j], t) && forall l :: j < l < |rest| ==> !IsType(rest[l], t);
        assert us[j + 1] == u && forall l :: j + 1 < l < |us| ==> us[l] == rest[l - 1];
      } else {
        assert forall l :: 0 < l < |us| ==> us[l] == rest[l - 1];
        assert us[0] == us[0];
      }
    }
  }

  // What avcC holds: nothing for codec data of at most six bytes, the codec data as it is if it does
  // not start with a four-byte start code, and otherwise, read back, the last SPS with its profile,
  // compatibility and level bytes, and the last PPS, each up to one trailing zero.
  ghost predicate AvccRight(b: seq<byte>, csd: seq<byte>) {
    && (|csd| <= 6 ==> b == [])
    && (|csd| > 6 && csd[..4] != [0, 0, 0, 1] ==> b == csd)
    && (forall us :: |csd| > 6 && csd == Joined(us) && CodecUnits(us) ==> HoldsSets(b, us))
  }

  predicate HoldsSets(b: seq<byte>, us: seq<seq<byte>>) {
    match ReadAvcc(b)
    case None => false
    case Some(a) =>
      && a.version == 1 && a.lengthSize == 4 && |a.sps| >= 4
      && a.profile == a.sps[1] && a.compatibility == a.sps[2] && a.level == a.sps[3]
      && LastIs(us, 7, StripZero(a.sps))
      && (LastIs(us, 8, StripZero(a.pps)) || (StripZero(a.pps) == [] && forall l :: 0 <= l < |us| ==> !IsType(us[l], 8)))
  }

  lemma AvccIsRight(i: TrackInfo)
    requires CodecTag(i.codec) == AVC1 && CsdOk(i)
    ensures AvccRight(AvccFields(i), i.csd)
  {
    hide CsdSets, Convertible, HoldsSets;
    forall us | |i.csd| > 6 && i.csd == Joined(us) && CodecUnits(us)
      ensures HoldsSets(AvccFields(i), us)
    {
      SetsHeld(i, us);
    }
  }

  lemma CodeInFront(csd: seq<byte>, us: seq<seq<byte>>)
    requires |csd| > 6 && csd == Joined(us) && CodecUnits(us)
    ensures StartsWithCode(csd) && NalStream(us) && forall u :: u in us ==> u != [] && u == StripZero(u)
  {
    assert csd == [0, 0, 0, 1] + (us[0] + Joined(us[1..]));
  }

  lemma ConvertibleIsShort(i: TrackInfo)
    requires CodecTag(i.codec) == AVC1 && CsdOk(i) && StartsWithCode(i.csd)
    ensures |i.csd| < TWO_32 && AvccReadable(i) && |CsdSets(i).0| >= 4
  {
    hide CsdSets;
  }

  lemma SetsHeld(i: TrackInfo, us: seq<seq<byte>>)
    requires CodecTag(i.codec) == AVC1 && CsdOk(i)
    requires |i.csd| > 6 && i.csd == Joined(us) && CodecUnits(us)
    ensures HoldsSets(AvccFields(i), us)
  {
    hide *;
    CodeInFront(i.csd, us);
    ConvertibleIsShort(i);
    SetsOfCodecData(i, us);
    AvccReadsBack(i);
    LastOfTypeIs(us, 7, []);
    LastOfTypeIs(us, 8, []);
    SevenAndEight();
    var sps, pps := CsdSets(i).0, CsdSets(i).1;
    StripIsShort(sps);
    StripIsShort(pps);
    LastIsShort(us, 7, StripZero(sps));
    LastIsShort(us, 8, StripZero(pps));
    BoxHolds(AvccFields(i), sps, pps, us);
  }

  lemma SevenAndEight()
    ensures SPS == 7 && PPS == 8
  {
  }

  lemma StripIsShort(s: seq<byte>)
    ensures |s| <= |StripZero(s)| + 1
  {
  }

  lemma BoxHolds(f: seq<byte>, sps: seq<byte>, pps: seq<byte>, us: seq<seq<byte>>)
    requires 4 <= |sps| < 0x1_0000 && |pps| < 0x1_0000 && |f| == 11 + |sps| + |pps|
    requires f[0] == 1 && f[4] == 0xff && f[5] == 0xe1 && f[8 + |sps|] == 1
    requires f[1] == sps[1] && f[2] == sps[2] && f[3] == sps[3]
    requires (f[6] as int) * 256 + f[7] == |sps| && (f[9 + |sps|] as int) * 256 + f[10 + |sps|] == |pps|
    requires f[8..8 + |sps|] == sps && f[11 + |sps|..] == pps
    requires LastIs(us, 7, StripZero(sps))
    requires LastIs(us, 8, StripZero(pps)) || (StripZero(pps) == [] && forall l :: 0 <= l < |us| ==> !IsType(us[l], 8))
    ensures HoldsSets(f, us)
  {
    hide LastIs, IsType, StripZero;
    assert U16At(f, 6) == |sps| && U16At(f, 9 + |sps|) == |pps|;
  }

  lemma LastIsShort(us: seq<seq<byte>>, t: nat, u: seq<byte>)
    requires CodecUnits(us)
    ensures LastIs(us, t, u) ==> |u| < 0xffff
  {
  }

  // ---------------------------------------------------------------- reading the file

  // What a reader finds in the box of a track.
  datatype Head = Head(tkhd: seq<byte>, mdhd: seq<byte>, hdlr: seq<byte>, minf: Box, entry: Box)

  function ReadEntry(minf: Box): Option<Box> {
    match Descend(Find(minf.children, STBL), STSD)
    case None => None
    case Some(stsd) =>
      if |stsd.children| != 1 || stsd.header != [0, 0, 0, 0, 0, 0, 0, 1] then None else Some(stsd.children[0])
  }

  function ReadHead(trak: Box): Option<Head> {
    match (Find(trak.children, TKHD), Find(trak.children, MDIA))
    case (Some(tkhd), Some(mdia)) =>
      (match (Find(mdia.children, MDHD), Find(mdia.children, HDLR), Find(mdia.children, MINF))
       case (Some(mdhd), Some(hdlr), Some(minf)) =>
         (match ReadEntry(minf)
          case Some(entry) => Some(Head(tkhd.header, mdhd.header, hdlr.header, minf, entry))
          case None => None)
       case _ => None)
    case _ => None
  }

  // The media header fits the medium, and the data lies in this file.
  predicate MinfRight(minf: Box, video: bool) {
    && Find(minf.children, VMHD) == (if video then Some(Box(VMHD, [0, 0, 0, 1, 0, 0, 0, 0, 0, 0, 0, 0], [])) else None)
    && Find(minf.children, SMHD) == (if video then None else Some(Box(SMHD, [0, 0, 0, 0, 0, 0, 0, 0], [])))
    && match Descend(Find(minf.children, DINF), DREF)
       case None => false
       case Some(dref) =>
         dref.header == [0, 0, 0, 0, 0, 0, 0, 1] && Find(dref.children, URL) == Some(Box(URL, [0, 0, 0, 1], []))
  }

  ghost predicate EntryRight(entry: Box, i: TrackInfo, id: int) {
    && EntryKindRight(entry.kind, i.codec)
    && (i.video ==> VideoEntryRight(entry.header, i)) && (!i.video ==> AudioEntryRight(entry.header, i))
    && (i.codec == H264 ==>
          match Find(entry.children, AVCC) case None => false case Some(b) => AvccRight(b.header, i.csd))
    && (i.codec == AAC || i.codec == MPEG4 ==>
          match Find(entry.children, ESDS) case None => false case Some(b) => EsdsRight(b.header, i, id))
  }

  ghost predicate HeadRight(h: Head, i: TrackInfo, id: int, time: int, title: seq<byte>)
    requires i.timescale > 0
  {
    && TkhdRight(h.tkhd, i, id, time) && MdhdRight(h.mdhd, i, time) && HdlrRight(h.hdlr, i.video, title)
    && MinfRight(h.minf, i.video) && EntryRight(h.entry, i, id)
  }

  lemma EntryIsRight(i: TrackInfo, id: int)
    requires InfoOk(i) && CsdOk(i)
    ensures EntryRight(if i.video then VideoBox(i, id) else AudioBox(i, id), i, id)
  {
    hide *;
    EntryKindIsRight(i.codec);
    if i.codec == H264 {
      CodecOfTag(i.codec);
      AvccIsRight(i);
    }
    EsdsIsRight(i, id);
    VideoEntryIsRight(i);
    AudioEntryIsRight(i);
    EntryParts(i, id);
    EntryFoldsUp(if i.video then VideoBox(i, id) else AudioBox(i, id), i, id);
  }

  lemma CodecOfTag(codec: Codec)
    ensures CodecTag(codec) == AVC1 <==> codec == H264
  {
  }

  lemma EntryParts(i: TrackInfo, id: int)
    requires InfoOk(i)
    ensures var entry := if i.video then VideoBox(i, id) else AudioBox(i, id);
            && entry.kind == CodecTag(i.codec) && entry.header == (if i.video then VideoFixed(i) else AudioFixed(i))
            && (i.codec == H264 ==> Find(entry.children, AVCC) == Some(Box(AVCC, AvccFields(i), [])))
            && (i.codec == AAC || i.codec == MPEG4 ==> Find(entry.children, ESDS) == Some(Box(ESDS, EsdsFields(i, id), [])))
  {
    hide AvccFields, EsdsFields, VideoFixed, AudioFixed;
  }

  lemma EntryFoldsUp(entry: Box, i: TrackInfo, id: int)
    requires entry.kind == CodecTag(i.codec) && entry.header == (if i.video then VideoFixed(i) else AudioFixed(i))
    requires EntryKindRight(CodecTag(i.codec), i.codec) && VideoEntryRight(VideoFixed(i), i) && AudioEntryRight(AudioFixed(i), i)
    requires i.codec == H264 ==> Find(entry.children, AVCC) == Some(Box(AVCC, AvccFields(i), []))
    requires i.codec == H264 ==> AvccRight(AvccFields(i), i.csd)
    requires i.codec == AAC || i.codec == MPEG4 ==> Find(entry.children, ESDS) == Some(Box(ESDS, EsdsFields(i, id), []))
    requires EsdsRight(EsdsFields(i, id), i, id)
    ensures EntryRight(entry, i, id)
  {
    hide Find, CodecTag, EntryKindRight, AvccRight, EsdsRight, VideoEntryRight, AudioEntryRight, AvccFields, EsdsFields;
    hide VideoFixed, AudioFixed;
  }

  lemma ReadHeadBox(i: TrackInfo, id: int, t: Tables, time: int, title: seq<byte>)
    requires InfoOk(i)
    ensures ReadHead(TrakBox(i, id, t, time, title))
         == Some(Head(TkhdFields(i, id, time), MdhdFields(i, time), HdlrFields(i.video, title), MinfBox(i, id, t),
                      if i.video then VideoBox(i, id) else AudioBox(i, id)))
  {
    var tkhd, mdhd := Box(TKHD, TkhdFields(i, id, time), []), Box(MDHD, MdhdFields(i, time), []);
    var hdlr := Box(HDLR, HdlrFields(i.video, title), []);
    var mdia, minf, stbl := MdiaBox(i, id, t, time, title), MinfBox(i, id, t), StblBox(i, id, t);
    assert mdia.children == [mdhd] + [hdlr] + [minf] && TrakBox(i, id, t, time, title).children == [tkhd] + [mdia];
    assert mdia.kind == MDIA && minf.kind == MINF;
    EntryInMinf(i, id, t);
    hide *;
    FirstTwo(tkhd, mdia);
    FirstThree(mdhd, hdlr, minf);
    HeadFolds(TrakBox(i, id, t, time, title), tkhd, mdia, mdhd, hdlr, minf, if i.video then VideoBox(i, id) else AudioBox(i, id));
  }

  lemma HeadFolds(trak: Box, tkhd: Box, mdia: Box, mdhd: Box, hdlr: Box, minf: Box, entry: Box)
    requires Find(trak.children, TKHD) == Some(tkhd) && Find(trak.children, MDIA) == Some(mdia)
    requires Find(mdia.children, MDHD) == Some(mdhd) && Find(mdia.children, HDLR) == Some(hdlr)
    requires Find(mdia.children, MINF) == Some(minf)
    requires ReadEntry(minf) == Some(entry)
    ensures ReadHead(trak) == Some(Head(tkhd.header, mdhd.header, hdlr.header, minf, entry))
  {
  }

  lemma EntryInMinf(i: TrackInfo, id: int, t: Tables)
    requires InfoOk(i)
    ensures ReadEntry(MinfBox(i, id, t)) == Some(if i.video then VideoBox(i, id) else AudioBox(i, id))
  {
    hide *;
    TrakParts(i, id, t, 0, []);
    StsdParts(i, id, t);
    FindLast([if i.video then Box(VMHD, VMHD_FIELDS, []) else Box(SMHD, SMHD_FIELDS, [])] + [DINF_BOX], StblBox(i, id, t), STBL);
    EntryFolds(MinfBox(i, id, t), StblBox(i, id, t), StsdBox(i, id));
  }

  lemma StsdParts(i: TrackInfo, id: int, t: Tables)
    requires InfoOk(i)
    ensures Find(StblBox(i, id, t).children, STSD) == Some(StsdBox(i, id))
    ensures StsdBox(i, id).children == [if i.video then VideoBox(i, id) else AudioBox(i, id)]
    ensures StsdBox(i, id).header == [0, 0, 0, 0, 0, 0, 0, 1]
  {
    assert BE32(0) == [0, 0, 0, 0] && BE32(1) == [0, 0, 0, 1];
    hide TableBoxes, VideoBox, AudioBox, BE32;
    assert StblBox(i, id, t).children == [StsdBox(i, id)] + TableBoxes(i, t);
  }

  lemma EntryFolds(minf: Box, stbl: Box, stsd: Box)
    requires Find(minf.children, STBL) == Some(stbl) && Find(stbl.children, STSD) == Some(stsd)
    requires |stsd.children| == 1 && stsd.header == [0, 0, 0, 0, 0, 0, 0, 1]
    ensures ReadEntry(minf) == Some(stsd.children[0])
  {
  }

  lemma MinfIsRight(i: TrackInfo, id: int, t: Tables)
    requires InfoOk(i)
    ensures MinfRight(MinfBox(i, id, t), i.video)
  {
    hide *;
    TrakParts(i, id, t, 0, []);
    var media := if i.video then Box(VMHD, VMHD_FIELDS, []) else Box(SMHD, SMHD_FIELDS, []);
    MediaHeaders(media, StblBox(i, id, t), i.video);
    DinfIs();
    MinfFolds(MinfBox(i, id, t), i.video);
  }

  lemma MediaHeaders(media: Box, stbl: Box, video: bool)
    requires media == (if video then Box(VMHD, VMHD_FIELDS, []) else Box(SMHD, SMHD_FIELDS, [])) && stbl.kind == STBL
    ensures var bs := [media] + [DINF_BOX] + [stbl];
            && Find(bs, VMHD) == (if video then Some(Box(VMHD, [0, 0, 0, 1, 0, 0, 0, 0, 0, 0, 0, 0], [])) else None)
            && Find(bs, SMHD) == (if video then None else Some(Box(SMHD, [0, 0, 0, 0, 0, 0, 0, 0], [])))
            && Find(bs, DINF) == Some(DINF_BOX)
  {
    assert VMHD_FIELDS == [0, 0, 0, 1, 0, 0, 0, 0, 0, 0, 0, 0] && SMHD_FIELDS == [0, 0, 0, 0, 0, 0, 0, 0];
    var bs := [media] + [DINF_BOX] + [stbl];
    assert bs == [media] + ([DINF_BOX] + [stbl]) && bs + [] == bs;
    hide BE32, BE16, VMHD_FIELDS, SMHD_FIELDS;
    FindPast([media], [DINF_BOX] + [stbl], DINF);
    FindPast(bs, [], if video then SMHD else VMHD);
  }

  lemma DinfIs()
    ensures Find(DINF_BOX.children, DREF) == Some(Box(DREF, [0, 0, 0, 0, 0, 0, 0, 1], [Box(URL, [0, 0, 0, 1], [])]))
  {
    assert URL_FIELDS == [0, 0, 0, 1] && BE32(0) + BE32(1) == [0, 0, 0, 0, 0, 0, 0, 1];
  }

  lemma MinfFolds(minf: Box, video: bool)
    requires Find(minf.children, VMHD) == (if video then Some(Box(VMHD, [0, 0, 0, 1, 0, 0, 0, 0, 0, 0, 0, 0], [])) else None)
    requires Find(minf.children, SMHD) == (if video then None else Some(Box(SMHD, [0, 0, 0, 0, 0, 0, 0, 0], [])))
    requires Find(minf.children, DINF) == Some(DINF_BOX)
    requires Find(DINF_BOX.children, DREF) == Some(Box(DREF, [0, 0, 0, 0, 0, 0, 0, 1], [Box(URL, [0, 0, 0, 1], [])]))
    ensures MinfRight(minf, video)
  {
    var url := Box(URL, [0, 0, 0, 1], []);
    assert Find([url], URL) == Some(url);
  }

  function ReadTrackHead(file: seq<byte>, id: uint32): Option<Head> {
    match ReadTrackBox(file, id)
    case None => None
    case Some(trak) => ReadHead(trak)
  }

  function ReadMovieHead(file: seq<byte>): Option<seq<byte>> {
    match Descend(ReadMoov(file), MVHD)
    case None => None
    case Some(b) => Some(b.header)
  }

  // The place the movie was made at: language English, latitude, longitude and a slash.
  function ReadPlace(file: seq<byte>): Option<seq<byte>> {
    match Descend(Descend(ReadMoov(file), UDTA), XYZ)
    case None => None
    case Some(b) => Some(b.header)
  }

  // How the file is laid out: an ftyp box of 28 bytes for the brands isom, iso2 and mp41; behind it
  // moov if it and a free box fit in front of the first mebibyte, which is otherwise free; and there
  // the media data with its length, with moov behind it if it did not fit.
  predicate FileOpensRight(file: seq<byte>, ps: seq<Packet>)
    requires AllValid(ps)
  {
    && |file| >= 0x10_0008 + |Payload(ps)|
    && ReadWords(file[..28]) == [28, Tag('f', 't', 'y', 'p'), Tag('i', 's', 'o', 'm'), 0x200,
                                 Tag('i', 's', 'o', 'm'), Tag('i', 's', 'o', '2'), Tag('m', 'p', '4', '1')]
    && (if U32At(file, 32) == Tag('m', 'o', 'o', 'v')
        then U32At(file, 28) + 36 <= 0x10_0000 && |file| == 0x10_0008 + |Payload(ps)|
        else U32At(file, 32) == Tag('f', 'r', 'e', 'e') && U32At(file, 28) == 0x10_0000 - 28
             && |file| - (0x10_0008 + |Payload(ps)|) + 36 > 0x10_0000)
    && U32At(file, 0x10_0000) == |Payload(ps)| + 8 && U32At(file, 0x10_0004) == Tag('m', 'd', 'a', 't')
    && file[0x10_0008..0x10_0008 + |Payload(ps)|] == Payload(ps)
  }

  const FTYP_WORDS: seq<uint32> := [28, FTYP, 0x69736f6d, 0x200, 0x69736f6d, 0x69736f32, 0x6d703431]

  lemma FtypWords()
    ensures FTYP_BYTES == Words(FTYP_WORDS) && |FTYP_BYTES| == 28
    ensures ReadWords(FTYP_BYTES) == [28, Tag('f', 't', 'y', 'p'), Tag('i', 's', 'o', 'm'), 0x200,
                                      Tag('i', 's', 'o', 'm'), Tag('i', 's', 'o', '2'), Tag('m', 'p', '4', '1')]
  {
    hide BE32, ReadWords;
    var ws := FTYP_WORDS;
    WordsAppend(ws[..4], ws[4..]);
    assert ws[..4] + ws[4..] == ws;
    ThreeWords(ws[4], ws[5], ws[6]);
    ThreeWords(ws[1], ws[2], ws[3]);
    WordsOpen(ws[0], ws[1..4]);
    assert ws[4..] == [ws[4], ws[5], ws[6]] && ws[1..4] == [ws[1], ws[2], ws[3]] && ws[..4] == [ws[0]] + ws[1..4];
    assert FTYP_BYTES == BE32(28) + (BE32(FTYP) + BE32(0x69736f6d) + BE32(0x200))
                         + (BE32(0x69736f6d) + BE32(0x69736f32) + BE32(0x6d703431));
    ReadWordsInverse(ws);
  }

  lemma ThreeWords(a: int, b: int, c: int)
    ensures Words([a, b, c]) == BE32(a) + BE32(b) + BE32(c)
  {
    hide BE32;
    WordsOpen(a, [b, c]);
    WordsOpen(b, [c]);
    WordsOpen(c, []);
    assert [a, b, c] == [a] + [b, c] && [b, c] == [b] + [c] && [c] == [c] + [] && BE32(c) + [] == BE32(c);
  }

  lemma FileOpens(info: MovieInfo, ps: seq<Packet>)
    requires Legal(info, ps)
    ensures MovieOk(info) && AllValid(ps) && ps != []
    ensures FileOpensRight(FileBytes(info, ps), ps)
  {
    hide *;
    LegalParts(info, ps);
    FtypWords();
    var front, back := FileInParts(info, ps);
    SizeInRange(info, ps);
    OpensSo(FileBytes(info, ps), front, back, ps, MoovSize(info, Final(ps)));
  }

  lemma SizeInRange(info: MovieInfo, ps: seq<Packet>)
    requires Legal(info, ps)
    ensures MovieOk(info) && AllValid(ps) && ps != [] && MoovSize(info, Final(ps)) < TWO_32 && RESERVE == 0x10_0000
  {
  }

  lemma OpensSo(file: seq<byte>, front: seq<byte>, back: seq<byte>, ps: seq<Packet>, size: nat)
    requires size < TWO_32
    requires |front| == 0x10_0000
    requires if size + 36 <= 0x10_0000 then back == [] && front[28..36] == BE32(size) + BE32(MOOV)
             else |back| == size && front[28..36] == BE32(0x10_0000 - 28) + BE32(FREE)
    requires AllValid(ps) && |Payload(ps)| + 8 < TWO_32 && |front| == 0x10_0000 && |FTYP_BYTES| == 28 && FTYP_BYTES <= front
    requires file == front + (BE32(|Payload(ps)| + 8) + BE32(MDAT)) + Payload(ps) + back
    requires ReadWords(FTYP_BYTES) == [28, Tag('f', 't', 'y', 'p'), Tag('i', 's', 'o', 'm'), 0x200,
                                       Tag('i', 's', 'o', 'm'), Tag('i', 's', 'o', '2'), Tag('m', 'p', '4', '1')]
    ensures FileOpensRight(file, ps)
  {
    hide BE32, ReadWords, Payload, AllValid, U32At, FTYP_BYTES;
    assert file[..28] == FTYP_BYTES;
    var second := if size + 36 <= 0x10_0000 then BE32(size) else BE32(0x10_0000 - 28);
    var kind := if size + 36 <= 0x10_0000 then MOOV else FREE;
    assert file[28..32] == front[28..36][..4] == second && file[32..36] == front[28..36][4..] == BE32(kind);
    WordIn(file, 28, if size + 36 <= 0x10_0000 then size else 0x10_0000 - 28);
    WordIn(file, 32, kind);
    assert file[0x10_0000..0x10_0004] == BE32(|Payload(ps)| + 8) && file[0x10_0004..0x10_0008] == BE32(MDAT);
    WordIn(file, 0x10_0000, |Payload(ps)| + 8);
    WordIn(file, 0x10_0004, MDAT);
  }

  // What a reader of the finished file finds in the header of the movie.
  predicate MovieHeadRight(file: seq<byte>, info: MovieInfo)
    requires |info.tracks| == 2
  {
    && (match ReadMovieHead(file) case None => false case Some(h) => MvhdRight(h, info))
    && ReadPlace(file) == match info.geo
                          case None => None
                          case Some(g) => Some([0x00, 0x12, 0x15, 0xc7] + g.latitude + g.longitude + [0x2f])
  }

  // What it finds in the headers of track k.
  ghost predicate TrackHeadRight(file: seq<byte>, info: MovieInfo, k: nat)
    requires |info.tracks| == 2 && k < 2 && info.tracks[k].timescale > 0
  {
    match ReadTrackHead(file, k + 1)
    case None => false
    case Some(h) => HeadRight(h, info.tracks[k], k + 1, info.createTime, info.title)
  }

  // All of it together.
  ghost predicate HeadersRight(file: seq<byte>, info: MovieInfo, ps: seq<Packet>)
    requires MovieOk(info) && AllValid(ps)
  {
    && FileOpensRight(file, ps) && MovieHeadRight(file, info)
    && forall k: nat :: k < 2 && Mp4Timing.Of(ps, k) != [] ==> TrackHeadRight(file, info, k)
  }

  lemma MoovChildren(info: MovieInfo, m: Mov)
    requires MovieOk(info) && TablesOk(m)
    ensures Find(MoovBox(info, m).children, MVHD) == Some(Box(MVHD, MvhdFields(info), []))
    ensures Descend(Find(MoovBox(info, m).children, UDTA), XYZ)
         == match info.geo case None => None case Some(g) => Some(Box(XYZ, XyzFields(g), []))
  {
    hide *;
    VideoFirst(info);
    var t0, t1, mvhd := TrakBoxes(info, m, 0), TrakBoxes(info, m, 1), Box(MVHD, MvhdFields(info), []);
    MoovParts(info, m);
    assert t0 + t1 == t0 + t1 && MoovHeadBoxes(info) + t0 + t1 == MoovHeadBoxes(info) + (t0 + t1);
    if info.geo == None {
      MovieBoxes([], mvhd, t0 + t1);
    } else {
      var udta := Box(UDTA, [], [Box(XYZ, XyzFields(info.geo.value), [])]);
      MovieBoxes([udta], mvhd, t0 + t1);
      DescendIs([udta] + [mvhd] + (t0 + t1), udta);
    }
  }

  lemma MoovParts(info: MovieInfo, m: Mov)
    requires MovieOk(info) && TablesOk(m)
    ensures MoovBox(info, m).children == MoovHeadBoxes(info) + TrakBoxes(info, m, 0) + TrakBoxes(info, m, 1)
    ensures forall b :: b in TrakBoxes(info, m, 0) + TrakBoxes(info, m, 1) ==> b.kind == TRAK
    ensures info.geo == None ==> MoovHeadBoxes(info) == [] + [Box(MVHD, MvhdFields(info), [])]
    ensures info.geo.Some? ==>
              var xyz := Box(XYZ, XyzFields(info.geo.value), []);
              && MoovHeadBoxes(info) == [Box(UDTA, [], [xyz])] + [Box(MVHD, MvhdFields(info), [])]
              && Find([xyz], XYZ) == Some(xyz)
  {
    hide MvhdFields, XyzFields, MovieOk, MdiaBox, TkhdFields;
  }

  lemma DescendIs(bs: seq<Box>, b: Box)
    requires Find(bs, UDTA) == Some(b)
    ensures Descend(Find(bs, UDTA), XYZ) == Find(b.children, XYZ)
  {
  }

  lemma MovieBoxes(udta: seq<Box>, mvhd: Box, traks: seq<Box>)
    requires |udta| <= 1 && (udta != [] ==> udta[0].kind == UDTA) && mvhd.kind == MVHD
    requires forall b :: b in traks ==> b.kind == TRAK
    ensures Find(udta + [mvhd] + traks, MVHD) == Some(mvhd)
    ensures Find(udta + [mvhd] + traks, UDTA) == if udta == [] then None else Some(udta[0])
    ensures Descend(None, XYZ) == None
  {
    assert udta + [mvhd] + traks == udta + ([mvhd] + traks);
    FindPast(udta, [mvhd] + traks, MVHD);
    if udta == [] {
      FindPast([mvhd] + traks, [], UDTA);
      assert [] + ([mvhd] + traks) == [mvhd] + traks + [];
    }
  }

  lemma MovieHeadOfFile(info: MovieInfo, ps: seq<Packet>)
    requires Legal(info, ps)
    ensures MovieOk(info) && AllValid(ps) && ps != []
    ensures MovieHeadRight(FileBytes(info, ps), info)
  {
    hide *;
    FinalParts(info, ps);
    MovieParts(info, 0);
    ReadMoovBack(info, ps);
    MoovChildren(info, Final(ps));
    MvhdIsRight(info);
    MovieHeadIs(FileBytes(info, ps), info, MoovBox(info, Final(ps)));
  }

  lemma MovieHeadIs(file: seq<byte>, info: MovieInfo, moov: Box)
    requires |info.tracks| == 2 && ReadMoov(file) == Some(moov) && MvhdRight(MvhdFields(info), info)
    requires Find(moov.children, MVHD) == Some(Box(MVHD, MvhdFields(info), []))
    requires Descend(Find(moov.children, UDTA), XYZ)
          == match info.geo case None => None case Some(g) => Some(Box(XYZ, XyzFields(g), []))
    ensures MovieHeadRight(file, info)
  {
    hide MvhdRight, MvhdFields, Find, ReadMoov;
    assert BE32(0x001215c7) == [0x00, 0x12, 0x15, 0xc7];
  }

  lemma TrackHeadOfFile(info: MovieInfo, ps: seq<Packet>, k: nat)
    requires Legal(info, ps) && k < 2 && Mp4Timing.Of(ps, k) != []
    ensures MovieOk(info) && AllValid(ps) && ps != [] && info.tracks[k].timescale > 0
    ensures TrackHeadRight(FileBytes(info, ps), info, k)
  {
    hide *;
    ReadTrackBack(info, ps, k);
    FinalParts(info, ps);
    MovieParts(info, k);
    var i, t := info.tracks[k], Final(ps).tracks[k];
    ReadHeadBox(i, k + 1, t, info.createTime, info.title);
    TkhdIsRight(i, k + 1, info.createTime);
    MdhdIsRight(i, info.createTime);
    HdlrIsRight(i.video, info.title);
    MinfIsRight(i, k + 1, t);
    EntryIsRight(i, k + 1);
    TrackHeadIs(FileBytes(info, ps), k + 1, TrakBox(i, k + 1, t, info.createTime, info.title));
    var h := ReadTrackHead(FileBytes(info, ps), k + 1).value;
    HeadIs(h, i, k + 1, info.createTime, info.title);
    HeadFound(FileBytes(info, ps), info, k, h);
  }

  // Main result for the headers: for every run, a reader that only sees the finished file finds the
  // media data, the movie's header and each track's, with every value where the format has it.
  lemma HeadersOfFile(info: MovieInfo, ps: seq<Packet>)
    requires Legal(info, ps)
    ensures MovieOk(info) && AllValid(ps) && ps != []
    ensures HeadersRight(FileBytes(info, ps), info, ps)
  {
    hide FileOpensRight, MovieHeadRight, TrackHeadRight, Mp4Timing.Of, FileBytes, Legal;
    FileOpens(info, ps);
    MovieHeadOfFile(info, ps);
    forall k: nat | k < 2 && Mp4Timing.Of(ps, k) != []
      ensures TrackHeadRight(FileBytes(info, ps), info, k)
    {
      TrackHeadOfFile(info, ps, k);
    }
  }

  lemma HeadFound(file: seq<byte>, info: MovieInfo, k: nat, h: Head)
    requires |info.tracks| == 2 && k < 2 && info.tracks[k].timescale > 0
    requires ReadTrackHead(file, k + 1) == Some(h) && HeadRight(h, info.tracks[k], k + 1, info.createTime, info.title)
    ensures TrackHeadRight(file, info, k)
  {
  }

  lemma MovieParts(info: MovieInfo, k: nat)
    requires MovieOk(info) && k < 2
    ensures |info.tracks| == 2 && InfoOk(info.tracks[k]) && info.tracks[k].timescale > 0
  {
  }

  lemma TrackHeadIs(file: seq<byte>, id: uint32, trak: Box)
    requires ReadTrackBox(file, id) == Some(trak)
    ensures ReadTrackHead(file, id) == ReadHead(trak)
  {
  }

  lemma HeadIs(h: Head, i: TrackInfo, id: int, time: int, title: seq<byte>)
    requires i.timescale > 0
    requires TkhdRight(h.tkhd, i, id, time) && MdhdRight(h.mdhd, i, time) && HdlrRight(h.hdlr, i.video, title)
    requires MinfRight(h.minf, i.video) && EntryRight(h.entry, i, id)
    ensures HeadRight(h, i, id, time, title)
  {
  }
}
