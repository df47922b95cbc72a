/**
 The parameter sets in the avcC box: the search loop over length-prefixed units, and what it finds
 in the codec data the encoder hands over.
 */
module Mp4Avcc {
  import opened Bytes
  import opened AnnexB
  import opened Mp4Boxes

  const SPS: nat := 7
  const PPS: nat := 8

  // Converted units the search can take: lengths that fit their word, a type byte in the last unit.
  predicate Searchable(us: seq<seq<byte>>) {
    (forall u :: u in us ==> |u| < TWO_32) && (us != [] ==> us[|us| - 1] != [])
  }

  lemma SearchableTail(us: seq<seq<byte>>)
    requires Searchable(us) && us != []
    ensures Searchable(us[1..]) && |us[0]| < TWO_32 && us[|us| - 1] != []
  {
    assert us[0] in us;
    assert |us| > 1 ==> us[1..][|us| - 2] == us[|us| - 1];
  }

  // One unit of the search: its length, its type byte, and what the reader goes on with.
  lemma SearchStep(s: seq<byte>, buf: nat, us: seq<seq<byte>>, sps: seq<byte>, pps: seq<byte>)
    requires buf <= |s| && s[buf..] == Prefixed(us) && us != [] && us[|us| - 1] != [] && |us[0]| < TWO_32
    ensures buf + 5 <= |s| && U32At(s, buf) == |us[0]| && buf + 4 + |us[0]| <= |s|
    ensures var next, t := buf + 4 + |us[0]|, s[buf + 4] % 32;
            && s[next..] == Prefixed(us[1..])
            && ParameterSets(s[buf..], sps, pps)
               == ParameterSets(s[next..], if t == 7 then s[buf + 4..next] else sps, if t == 8 then s[buf + 4..next] else pps)
  {
    var u, more, rest := us[0], Prefixed(us[1..]), s[buf..];
    UnitAhead(us);
    hide BE32, U32At;
    SplitPrefix(u, more);
    assert rest == BE32(|u|) + u + more;
    U32Inside(s, buf);
    var next := buf + 4 + |u|;
    assert rest[4] == s[buf + 4] && rest[4..4 + |u|] == s[buf + 4..next] && rest[4 + |u|..] == s[next..];
  }

  lemma SearchEnds(s: seq<byte>, sps: seq<byte>, pps: seq<byte>)
    ensures s[0..] == s && s[|s|..] == [] && ParameterSets([], sps, pps) == (sps, pps) && Prefixed([]) == []
  {
  }

  // The search loop, on a buffer the converter wrote.
  method FindParameterSets(s: seq<byte>, ghost us: seq<seq<byte>>) returns (sps: seq<byte>, pps: seq<byte>)
    requires s == Prefixed(us) && Searchable(us)
    ensures (sps, pps) == ParameterSets(s, [], [])
  {
    hide *;
    sps, pps := [], [];
    var buf := 0;
    ghost var left := us;
    SearchEnds(s, [], []);
    while buf < |s|
      invariant 0 <= buf <= |s| && s[buf..] == Prefixed(left) && Searchable(left)
      invariant ParameterSets(s, [], []) == ParameterSets(s[buf..], sps, pps)
    {
      SearchableTail(left);
      SearchStep(s, buf, left, sps, pps);
      var size := U32At(s, buf);
      var nalType := s[buf + 4] % 32;
      if nalType == 7 {
        sps := s[buf + 4..buf + 4 + size];
      } else if nalType == 8 {
        pps := s[buf + 4..buf + 4 + size];
      }
      buf := buf + size + 4;
      left := left[1..];
    }
    SearchEnds(s, sps, pps);
  }

  lemma U32Inside(s: seq<byte>, i: nat)
    requires i + 4 <= |s|
    ensures U32At(s, i) == U32At(s[i..], 0)
  {
  }

  // A unit of its own, or the length of the next one, lies behind every length.
  lemma UnitAhead(us: seq<seq<byte>>)
    requires us != [] && us[|us| - 1] != []
    ensures |Prefixed(us)| >= 5
  {
    if us[0] == [] {
      assert us[1..][|us| - 2] == us[|us| - 1];
      assert |Prefixed(us[1..])| >= 4;
    }
  }

  // Conversion and search, as both the size computation and the writer do them.
  method SearchCodecData(i: TrackInfo) returns (sps: seq<byte>, pps: seq<byte>)
    requires Convertible(i)
    ensures (sps, pps) == CsdSets(i)
  {
    var buf := ParseNalUnits(i.csd, i.csdBase);
    ghost var ns := Converted(i.csd, i.csdBase);
    forall n | n in ns ensures |n| < TWO_32 {
      UnitInside(ns, n);
    }
    sps, pps := FindParameterSets(buf, ns);
  }

  lemma {:induction false} UnitInside(us: seq<seq<byte>>, u: seq<byte>)
    requires u in us
    ensures |u| + 4 <= |Prefixed(us)|
  {
    if u != us[0] {
      UnitInside(us[1..], u);
    }
  }

  // The test of the code, on the first word: a start code of four bytes.
  lemma FirstWordIsOne(csd: seq<byte>)
    requires |csd| > 6
    ensures U32At(csd, 0) == 1 <==> StartsWithCode(csd)
    ensures U32At(csd, 0) == 1 <==> csd[0] == 0 && csd[1] == 0 && csd[2] == 0 && csd[3] == 1
  {
  }

  method ComputeAvccSize(i: TrackInfo) returns (size: nat)
    requires StartsWithCode(i.csd) ==> Convertible(i)
    ensures size == AvccSize(i)
    ensures |i.csd| <= 6 ==> size == 8
    ensures |i.csd| > 6 && i.csd[..4] != [0, 0, 0, 1] ==> size == 8 + |i.csd|
    ensures |i.csd| > 6 && i.csd[..4] == [0, 0, 0, 1] ==> size == 8 + 11 + |CsdSets(i).0| + |CsdSets(i).1|
  {
    size := 8;
    if |i.csd| > 6 {
      FirstWordIsOne(i.csd);
      if U32At(i.csd, 0) == 1 {
        var sps, pps := SearchCodecData(i);
        size := size + (6 + 2 + |sps| + 1 + 2 + |pps|);
      } else {
        size := size + |i.csd|;
      }
    }
  }

  // Up to 256 units behind four-byte start codes are converted within the buffer.
  lemma CodecDataConvertible(i: TrackInfo, us: seq<seq<byte>>)
    requires i.csd == Joined(us) && NalStream(us) && |us| <= 256 && |i.csd| < 0x8000_0000
    ensures Convertible(i)
  {
    ConvertedStream(us, i.csdBase);
    hide Converted, NoCode;
    ConvertedLength(Converted(i.csd, i.csdBase), us);
  }

  // The last unit of a type, or what was there before.
  function LastOfType(us: seq<seq<byte>>, t: nat, before: seq<byte>): seq<byte> {
    if us == [] then before
    else LastOfType(us[1..], t, if us[0] != [] && us[0][0] % 32 == t then us[0] else before)
  }

  lemma {:induction false} SetsOfPrefixed(us: seq<seq<byte>>, sps: seq<byte>, pps: seq<byte>)
    requires forall u :: u in us ==> 0 < |u| < TWO_32
    ensures ParameterSets(Prefixed(us), sps, pps) == (LastOfType(us, SPS, sps), LastOfType(us, PPS, pps))
  {
    hide BE32, U32At;
    if us != [] {
      var u, s := us[0], Prefixed(us);
      SplitPrefix(u, Prefixed(us[1..]));
      assert s == BE32(|u|) + u + Prefixed(us[1..]);
      assert s[4] == u[0];
      assert u in us;
      SetsOfPrefixed(us[1..], if u[0] % 32 == SPS then u else sps, if u[0] % 32 == PPS then u else pps);
    }
  }

  // A trailing zero does not change which unit is the last of its type.
  lemma {:induction false} LastUpToZero(ns: seq<seq<byte>>, us: seq<seq<byte>>, t: nat, n: seq<byte>, u: seq<byte>)
    requires UpToOneZero(ns, us) && StripZero(n) == u
    requires forall v :: v in us ==> v != [] && v == StripZero(v)
    ensures StripZero(LastOfType(ns, t, n)) == LastOfType(us, t, u)
  {
    if us != [] {
      assert us[0] in us;
      assert ns[0] == us[0] || ns[0] == us[0] + [0];
      assert ns[0][0] == us[0][0] && StripZero(ns[0]) == us[0];
      assert UpToOneZero(ns[1..], us[1..]);
      var hit, ns', us' := us[0][0] % 32 == t, ns[1..], us[1..];
      var n', u' := if hit then ns[0] else n, if hit then us[0] else u;
      forall v | v in us' ensures v != [] && v == StripZero(v) {
        assert v in us;
      }
      hide StripZero, UpToOneZero;
      LastUpToZero(ns', us', t, n', u');
    }
  }

  // Main result: for codec data made of non-empty units behind four-byte start codes, the sets that
  // go into the avcC box are the last SPS and the last PPS, up to one trailing zero, whatever the
  // alignment of the buffer.
  lemma SetsOfCodecData(i: TrackInfo, us: seq<seq<byte>>)
    requires i.csd == Joined(us) && NalStream(us) && |i.csd| < TWO_32
    requires forall u :: u in us ==> u != [] && u == StripZero(u)
    ensures StripZero(CsdSets(i).0) == LastOfType(us, SPS, []) && StripZero(CsdSets(i).1) == LastOfType(us, PPS, [])
  {
    var ns := Converted(i.csd, i.csdBase);
    ConvertedStream(us, i.csdBase);
    forall n | n in ns ensures 0 < |n| < TWO_32 {
      var k :| 0 <= k < |ns| && ns[k] == n;
      assert us[k] in us;
      UnitShorter(us, k);
    }
    hide Converted, NalStream, NoCode;
    SetsOfPrefixed(ns, [], []);
    LastUpToZero(ns, us, SPS, [], []);
    LastUpToZero(ns, us, PPS, [], []);
  }

  // Reading the box back gives the sets it was filled with, as long as their lengths fit 16 bits.
  lemma AvccReadsBack(i: TrackInfo)
    requires StartsWithCode(i.csd) && AvccReadable(i)
    ensures var f, sps, pps := AvccFields(i), CsdSets(i).0, CsdSets(i).1;
            && |f| == AvccConfigSize(i) == 11 + |sps| + |pps|
            && f[0] == 1 && f[4] == 0xff && f[5] == 0xe1 && f[8 + |sps|] == 1
            && f[1] == sps[1] && f[2] == sps[2] && f[3] == sps[3]
            && ((f[6] as int) * 256 + f[7] == |sps| <==> |sps| < 0x1_0000)
            && f[8..8 + |sps|] == sps && f[11 + |sps|..] == pps
            && ((f[9 + |sps|] as int) * 256 + f[10 + |sps|] == |pps| <==> |pps| < 0x1_0000)
  {
    hide CsdSets;
    var sps, pps := CsdSets(i).0, CsdSets(i).1;
    var f := AvccFields(i);
    assert f == [1, sps[1], sps[2], sps[3], 0xff, 0xe1] + BE16(|sps|) + sps + [1] + BE16(|pps|) + pps;
    BE16Back(|sps|);
    BE16Back(|pps|);
  }

  lemma BE16Back(n: int)
    ensures (BE16(n)[0] as int) * 256 + BE16(n)[1] == n % 0x1_0000
  {
    assert n == n / 256 * 256 + n % 256 && n / 256 == n / 0x1_0000 * 256 + n / 256 % 256;
  }
}
