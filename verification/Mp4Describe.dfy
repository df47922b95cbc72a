/**
 The sample description of a track: the sample entry and, inside it, the box that carries the codec
 data. Both boxes are written by loops over the codec data and over descriptor lengths.
 */
module Mp4Describe {
  import opened Bytes
  import opened Boxes
  import opened FileCache
  import opened Descriptors
  import opened Mp4Boxes
  import opened Mp4Avcc

  // One more write behind those already made.
  method Append(pb: SimpleCache, b: seq<byte>, ghost f: File, ghost done: seq<byte>)
    requires pb.Valid() && pb.Logical() == WriteAt(f, done)
    modifies pb.Repr
    ensures pb.Valid() && pb.Logical() == WriteAt(f, done + b)
  {
    hide *;
    WriteConcat(f, done, b);
    var _ := pb.Write(b);
  }

  // ---------------------------------------------------------------- avcC

  lemma AvccFieldsAre(i: TrackInfo)
    ensures |i.csd| <= 6 ==> AvccFields(i) == []
    ensures |i.csd| > 6 && !StartsWithCode(i.csd) ==> AvccFields(i) == i.csd
    ensures |i.csd| > 6 && StartsWithCode(i.csd) && AvccReadable(i) ==>
              var sps, pps := CsdSets(i).0, CsdSets(i).1;
              |sps| >= 4 && AvccFields(i) == [1, sps[1], sps[2], sps[3], 0xff, 0xe1] + BE16(|sps|) + sps
                                             + ([1] + BE16(|pps|)) + pps
  {
    hide CsdSets, BE16;
  }

  method WriteAvcc(pb: SimpleCache, i: TrackInfo)
    requires pb.Valid() && (StartsWithCode(i.csd) ==> Convertible(i) && AvccReadable(i))
    modifies pb.Repr
    ensures pb.Valid()
    ensures pb.Logical() == WriteAt(old(pb.Logical()), WithHeader(AvccSize(i), AVCC, AvccFields(i)))
  {
    hide *;
    var size := ComputeAvccSize(i);
    AvccFieldsAre(i);
    ghost var f := pb.Logical();
    var head := BE32(size) + BE32(AVCC);
    HeaderIs(AvccSize(i), AVCC, AvccFields(i));
    var _ := pb.Write(head);
    if |i.csd| > 6 {
      FirstWordIsOne(i.csd);
      if U32At(i.csd, 0) == 1 {
        var sps, pps := SearchCodecData(i);
        var front := [1, sps[1], sps[2], sps[3], 0xff, 0xe1] + BE16(|sps|);
        var middle := [1] + BE16(|pps|);
        Append(pb, front, f, head);
        Append(pb, sps, f, head + front);
        Append(pb, middle, f, head + front + sps);
        Append(pb, pps, f, head + front + sps + middle);
        assert head + front + sps + middle + pps == head + (front + sps + middle + pps);
      } else {
        Append(pb, i.csd, f, head);
      }
    } else {
      assert head + [] == head;
    }
  }

  lemma HeaderIs(size: int, kind: uint32, fields: seq<byte>)
    ensures WithHeader(size, kind, fields) == BE32(size) + BE32(kind) + fields
  {
  }

  // ---------------------------------------------------------------- esds

  // The lengths of the nested descriptors, innermost first.
  method ComputeEsLengths(i: TrackInfo) returns (config: nat, es: nat)
    requires EsLength(i) < 0x1000_0000
    ensures config == 13 + SpecificInfoSize(i) && es == EsLength(i)
    ensures |i.csd| < 0x1000_0000 && config < 0x1000_0000
  {
    var specific := 0;
    if |i.csd| > 0 {
      specific := ComputeDescrLength(|i.csd|);
    }
    config := 13 + specific;
    var c := ComputeDescrLength(config);
    var one := ComputeDescrLength(1);
    es := 3 + c + one;
  }

  lemma EsdsInParts(i: TrackInfo, trackId: nat)
    ensures EsdsSize(i) == 12 + DescrLength(EsLength(i))
    ensures EsdsFields(i, trackId)
         == BE32(0) + (DescrHeader(3, EsLength(i)) + (BE16(trackId) + [0x00]))
            + (DescrHeader(4, 13 + SpecificInfoSize(i)) + DecoderFields(i))
            + (if |i.csd| > 0 then DescrHeader(5, |i.csd|) + i.csd else [])
            + (DescrHeader(6, 1) + [0x02])
  {
    hide EsLength, SpecificInfoSize, DescrHeader, BE16, BE32;
  }

  // A descriptor header and what follows it.
  method PutDescrAnd(pb: SimpleCache, tag: byte, size: nat, rest: seq<byte>, ghost f: File, ghost done: seq<byte>)
    requires pb.Valid() && pb.Logical() == WriteAt(f, done) && size < 0x1000_0000
    modifies pb.Repr
    ensures pb.Valid() && pb.Logical() == WriteAt(f, done + (DescrHeader(tag, size) + rest))
  {
    hide *;
    var d := PutDescr(tag, size);
    Append(pb, d, f, done);
    Append(pb, rest, f, done + d);
    assert done + d + rest == done + (d + rest);
  }

  method WriteEsds(pb: SimpleCache, i: TrackInfo, trackId: nat)
    requires pb.Valid() && EsLength(i) < 0x1000_0000
    modifies pb.Repr
    ensures pb.Valid()
    ensures pb.Logical() == WriteAt(old(pb.Logical()), WithHeader(EsdsSize(i), ESDS, EsdsFields(i, trackId)))
  {
    hide *;
    var config, es := ComputeEsLengths(i);
    var whole := ComputeDescrLength(es);
    EsdsInParts(i, trackId);
    HeaderIs(EsdsSize(i), ESDS, EsdsFields(i, trackId));
    ghost var f := pb.Logical();
    var head := BE32(12 + whole) + BE32(ESDS);
    var _ := pb.Write(head);
    Append(pb, BE32(0), f, head);
    ghost var done := head + BE32(0);
    var esd, decoder := BE16(trackId) + [0x00], DecoderFields(i);
    PutDescrAnd(pb, 3, es, esd, f, done);
    done := done + (DescrHeader(3, es) + esd);
    PutDescrAnd(pb, 4, config, decoder, f, done);
    done := done + (DescrHeader(4, config) + decoder);
    ghost var specific := if |i.csd| > 0 then DescrHeader(5, |i.csd|) + i.csd else [];
    if |i.csd| > 0 {
      PutDescrAnd(pb, 5, |i.csd|, i.csd, f, done);
    } else {
      assert done + specific == done;
    }
    PutDescrAnd(pb, 6, 1, [0x02], f, done + specific);
    ghost var last := DescrHeader(6, 1) + [0x02];
    assert done + specific + last
        == head + (BE32(0) + (DescrHeader(3, es) + esd) + (DescrHeader(4, config) + decoder) + specific + last);
  }

  // ---------------------------------------------------------------- the sample entry

  lemma VideoParts(i: TrackInfo, trackId: nat)
    requires InfoOk(i) && i.video && CsdOk(i)
    ensures CodecTag(i.codec) == AVC1 ==>
              VideoExtra(i, trackId) == WithHeader(AvccSize(i), AVCC, AvccFields(i))
              && (StartsWithCode(i.csd) ==> Convertible(i) && AvccReadable(i))
    ensures CodecTag(i.codec) == MP4V ==>
              VideoExtra(i, trackId) == WithHeader(EsdsSize(i), ESDS, EsdsFields(i, trackId)) && EsLength(i) < 0x1000_0000
    ensures CodecTag(i.codec) != AVC1 && CodecTag(i.codec) != MP4V ==> VideoExtra(i, trackId) == []
    ensures WithHeader(VideoSize(i), CodecTag(i.codec), VideoFixed(i) + VideoExtra(i, trackId))
         == BE32(VideoSize(i)) + BE32(CodecTag(i.codec)) + VideoFixed(i) + VideoExtra(i, trackId)
  {
    hide BE32, VideoFixed, AvccFields, EsdsFields, Convertible, AvccReadable, StartsWithCode;
    assert AVC1 != MP4V;
  }

  method WriteVideo(pb: SimpleCache, i: TrackInfo, trackId: nat)
    requires pb.Valid() && InfoOk(i) && i.video && CsdOk(i)
    modifies pb.Repr
    ensures pb.Valid()
    ensures pb.Logical() == WriteAt(old(pb.Logical()),
              WithHeader(VideoSize(i), CodecTag(i.codec), VideoFixed(i) + VideoExtra(i, trackId)))
  {
    hide *;
    VideoParts(i, trackId);
    var head := BE32(VideoSize(i)) + BE32(CodecTag(i.codec)) + VideoFixed(i);
    WriteConcat(pb.Logical(), head, VideoExtra(i, trackId));
    var _ := pb.Write(head);
    if CodecTag(i.codec) == AVC1 {
      WriteAvcc(pb, i);
    } else if CodecTag(i.codec) == MP4V {
      WriteEsds(pb, i, trackId);
    } else {
      assert head + [] == head;
    }
  }

  lemma AudioParts(i: TrackInfo, trackId: nat)
    requires CsdOk(i)
    ensures CodecTag(i.codec) == MP4A ==>
              AudioExtra(i, trackId) == WithHeader(EsdsSize(i), ESDS, EsdsFields(i, trackId)) && EsLength(i) < 0x1000_0000
    ensures CodecTag(i.codec) != MP4A ==> AudioExtra(i, trackId) == []
    ensures WithHeader(AudioSize(i), CodecTag(i.codec), AudioFixed(i) + AudioExtra(i, trackId))
         == BE32(AudioSize(i)) + BE32(CodecTag(i.codec)) + AudioFixed(i) + AudioExtra(i, trackId)
  {
    hide BE32, AudioFixed, EsdsFields, Convertible, AvccReadable, StartsWithCode;
  }

  method WriteAudio(pb: SimpleCache, i: TrackInfo, trackId: nat)
    requires pb.Valid() && CsdOk(i)
    modifies pb.Repr
    ensures pb.Valid()
    ensures pb.Logical() == WriteAt(old(pb.Logical()),
              WithHeader(AudioSize(i), CodecTag(i.codec), AudioFixed(i) + AudioExtra(i, trackId)))
  {
    hide *;
    AudioParts(i, trackId);
    var head := BE32(AudioSize(i)) + BE32(CodecTag(i.codec)) + AudioFixed(i);
    WriteConcat(pb.Logical(), head, AudioExtra(i, trackId));
    var _ := pb.Write(head);
    if CodecTag(i.codec) == MP4A {
      WriteEsds(pb, i, trackId);
    } else {
      assert head + [] == head;
    }
  }

  // ---------------------------------------------------------------- stsd

  lemma StsdInParts(i: TrackInfo, trackId: nat)
    requires InfoOk(i)
    ensures StsdOut(i, trackId)
         == BE32(StsdSize(i)) + BE32(STSD) + (BE32(0) + BE32(1))
            + (if i.video then WithHeader(VideoSize(i), CodecTag(i.codec), VideoFixed(i) + VideoExtra(i, trackId))
               else WithHeader(AudioSize(i), CodecTag(i.codec), AudioFixed(i) + AudioExtra(i, trackId)))
  {
    hide InfoOk, VideoExtra, AudioExtra, VideoFixed, AudioFixed, BE32, CodecTag;
    HeaderIs(StsdSize(i), STSD, StsdFields(i, trackId));
  }

  method WriteStsd(pb: SimpleCache, i: TrackInfo, trackId: nat)
    requires pb.Valid() && InfoOk(i) && CsdOk(i)
    modifies pb.Repr
    ensures pb.Valid() && pb.Logical() == WriteAt(old(pb.Logical()), StsdOut(i, trackId))
  {
    hide *;
    StsdInParts(i, trackId);
    var head := BE32(StsdSize(i)) + BE32(STSD) + (BE32(0) + BE32(1));
    ghost var f := pb.Logical();
    var _ := pb.Write(head);
    if i.video {
      WriteConcat(f, head, WithHeader(VideoSize(i), CodecTag(i.codec), VideoFixed(i) + VideoExtra(i, trackId)));
      WriteVideo(pb, i, trackId);
    } else {
      WriteConcat(f, head, WithHeader(AudioSize(i), CodecTag(i.codec), AudioFixed(i) + AudioExtra(i, trackId)));
      WriteAudio(pb, i, trackId);
    }
  }
}
