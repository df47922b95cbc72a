# Verified models of the media muxers and their foundations

Dafny models of the MP4 muxer, the MPEG transport stream muxer, the write-behind cache both write
through, and the message queue, intrusive list and semaphore below them, with proofs of what they
promise. `dafny verify dfyconfig.toml` checks the project.

- `Bytes`, `Bits`, `FileCache`: fixed-width integers, and the cache as a class refining a plain
  positioned file. Both muxers write through this class, so what they are shown to write is what the
  real file holds after a flush.
- `AnnexB`, `Mp4Avcc`, `Descriptors`, `Mp4Describe`: the word-at-a-time start-code scanner, the
  converter from start codes to length prefixes, the parameter sets of avcC, the descriptor lengths of
  esds, and the writers of the sample description, which run all of these.
- `Boxes`, `SampleTables`: independent readers of nested boxes and of sample tables after
  ISO/IEC 14496-12. They know nothing of the muxer.
- `Mp4Packets`, `Mp4Timing`, `Mp4Boxes`, `Mp4File`: what the MP4 muxer's tables, boxes and file are,
  as functions of the packets written, and what the readers get back from them.
- `Mp4Headers`: a reader of the headers of that file, field by field at the offsets of the standards.
- `FlatTables`, `Mp4Muxer`: the muxer as the source runs it, counters, table pointers into one flat
  buffer and streamed bytes, tied to those functions call by call. `Mp4Muxer.MuxRun` puts all of it
  together.
- `Crc`, `TsFields`, `TsPackets`, `TsDemux`, `TsReceiver`, `Mpeg2tsMuxer`: the same for the transport
  stream, with the payload extraction loop of the repository's own checker and a receiver after
  ISO/IEC 13818-1 as the decoders. `Mpeg2tsMuxer.MuxRun` puts all of it together.
- `Rings`, `MessageQueue`: the circular list on the heap, and the queue of deep-copied messages on it.
- `WaitProtocol`, `QueueProtocol`, `Semaphore`: the condition-variable protocols as interleaved atomic
  steps, with spurious wake-ups, and the critical sections of the code as those steps.

Where the code does not do what its comments or its counterpart expect, the model follows the code,
and a member states exactly when the expectation is met:

- the start-code scanner reports the byte before a code it meets in the word loop, so a unit in front
  of a three-byte start code can be cut wrong (`AnnexB.ConvertedMixture`, `AnnexB.ShortCodeCutWrong`);
- a video packet whose first block is empty is stored without its length prefix
  (`Mp4Packets.StoredVideo`), and if it is a key frame it is missing from the key-frame table
  (`Mp4Timing.KeyTableExact`, `Mp4Timing.EmptyFirstBlockMissesKey`);
- the padding for small transport stream frames leaves out the frame's size, so a frame of fewer than
  162 bytes, lead included, cannot be written, nor one whose lead is longer than 162 bytes
  (`Mpeg2tsMuxer.WriteAccessUnit`). The write with a negative length that follows is modelled as
  failure;
- the checker takes an audio frame's length from the PES header, which holds 0 for long frames
  (`TsDemux.RunRoundTrip`, `TsDemux.LongAudioAborts`);
- a payload of zero bytes is copied to a block that is never freed (`MessageQueue.RunToTheEnd`,
  `MessageQueue.EmptyPayloadLost`);
- two consumers on one queue share one flag and lose wake-ups (`WaitProtocol.NoWakeUpLost`).

What the callers have to provide, as the code does without checking it: two MP4 tracks, video first;
a fifth byte in every video packet whose first block is not empty; in H.264 codec data behind a start
code, an SPS of four bytes, a last unit that is not empty, and no more three-byte start codes than the
spare 256 bytes of the conversion buffer allow; esds descriptors below 2^28 bytes; tables large enough
for the finished run, and media data that ends below 2^31; for the transport stream, codec data of two bytes for an audio track, at least one byte of
coded data, and the second block of a frame directly behind the first.

## Model

| member | source | states |
|---|---|---|
| `FileCache.SimpleCache.Write` | mm_media/cache/mm_cache_simple.c:21-80 | the logical file after a cached write is the file after one direct write at the position; the cache stays strictly below its size; the result is the count, or -1 for an empty request |
| `FileCache.SimpleCache.WriteRest` | mm_media/cache/mm_cache_simple.c:46-78 | the tail that no longer fits reaches the logical file unchanged, whole blocks past the cache and the remainder through it |
| `FileCache.SimpleCache.Seek` | mm_media/cache/mm_cache_simple.c:82-89 | a seek through the cache is the seek of the plain file, buffered bytes included: it goes to the offset from the start, the position or the end and returns 0 unless that lies before the start, and then returns -1; no byte changes |
| `FileCache.SimpleCache.Tell` | mm_media/cache/mm_cache_simple.c:91-98 | tell reports the position a direct writer would be at and changes nothing logically |
| `FileCache.SimpleCache.Truncate` | mm_media/cache/mm_cache_simple.c:100-107 | on the logical file, index by index: 0 and the length asked for, the old bytes below the old length and zeros beyond, the position as it was; a negative length gives -1 and changes nothing |
| `FileCache.SimpleCache.Flush` | mm_media/cache/mm_cache_simple.c:109-118 | after a flush the real file equals the logical one and nothing is buffered |
| `FileCache.SimpleCache.RunOps` | mm_media/cache/mm_cache_simple.c:21-118 | refinement over every sequence of write, seek, tell, truncate and flush: same results and same logical file as on the plain file, for any cache size |
| `FileCache.CreateCacheSimple` | mm_media/cache/mm_cache_simple.c:120-163 | no cache exactly for a size that is not positive or a failed allocation; a new cache shows the stream as it is |
| `FileCache.WriteAtMeaning` | mm_media/cache/mm_cache_simple.c:21-80 | the reference write, index by index: what is overwritten, what is kept, what is zero-filled |
| `FileCache.SeekMeaning` | mm_media/cache/mm_cache_simple.c:82-89 | the reference seek by its three origins: where it goes, when it fails, and that the bytes stay |
| `FileCache.TruncateMeaning` | mm_media/cache/mm_cache_simple.c:100-107 | the reference truncation, index by index, growing and shrinking, and that a negative length changes nothing |
| `FileCache.WriteConcat` | mm_media/cache/mm_cache_simple.c:39-79 | two writes in a row are one write of the concatenation, from any position: the law that makes buffering sound |
| `AnnexB.ZeroByteTest` | mm_media/muxer/mp4_muxer/Mp4Muxer.c:264-265 | `(x - 0x01010101) & ~x & 0x80808080` is non-zero exactly when one of the four bytes of the word is zero |
| `AnnexB.ScanWord` | mm_media/muxer/mp4_muxer/Mp4Muxer.c:263-279 | one turn of the word loop returns exactly when a start code begins in the word, and then one byte before the first of them |
| `AnnexB.FindStartCode` | mm_media/muxer/mp4_muxer/Mp4Muxer.c:254-287 | for every buffer and alignment the fast scan gives the first start code the byte-by-byte scan finds, or the byte before it when the word loop met it, never before the start, and the end if there is none |
| `AnnexB.BoundaryRight` | mm_media/muxer/mp4_muxer/Mp4Muxer.c:254-287 | the next unit starts right behind its start code if and only if the code was met outside the word loop or the byte before it is zero |
| `AnnexB.SkipZeros` | mm_media/muxer/mp4_muxer/Mp4Muxer.c:299 | the skip loop stops just past the first non-zero byte and stays inside the buffer |
| `AnnexB.ParseNalUnits` | mm_media/muxer/mp4_muxer/Mp4Muxer.c:289-312 | the conversion loop emits the specified units, each behind its big-endian length |
| `AnnexB.ConvertedStream` | mm_media/muxer/mp4_muxer/Mp4Muxer.c:289-312 | for every non-empty list of units free of embedded start codes, joined with four-byte start codes, exactly that many units come out in order, each the original or the original plus one zero byte, at any alignment |
| `AnnexB.ConvertedMixture` | mm_media/muxer/mp4_muxer/Mp4Muxer.c:254-312 | for any list of units joined with any mixture of three- and four-byte start codes: one unit more comes out for every cut made wrong, so the units come out in order, up to one zero, if and only if the scan meets no three-byte code in its word loop; the condition is one on positions and lengths |
| `AnnexB.ShortCodeCutWrong` | mm_media/muxer/mp4_muxer/Mp4Muxer.c:263-279 | the failing family is real: a unit in front of a three-byte code loses its last byte |
| `AnnexB.ReadPrefixed` | mm_media/muxer/mp4_muxer/Mp4Muxer.c:302-306 | reading length-prefixed units back gives the units that were written |
| `AnnexB.RecoverUnits` | mm_media/muxer/mp4_muxer/Mp4Muxer.c:289-312 | from the converted bytes every original unit is recovered once its trailing zero is dropped |
| `AnnexB.ConvertedLength` | mm_media/muxer/mp4_muxer/Mp4Muxer.c:296-310 | the output is at least as long as the input and at most one byte per unit longer, so the 256 spare bytes cover 256 units |
| `Mp4Avcc.FindParameterSets` | mm_media/muxer/mp4_muxer/Mp4Muxer.c:335-353 | the search loop over converted units, the last of which has a type byte, finds what the recursive reader of length-prefixed units finds |
| `Mp4Avcc.SearchCodecData` | mm_media/muxer/mp4_muxer/Mp4Muxer.c:326-353 | conversion and search together give the parameter sets of the codec data |
| `Mp4Avcc.ComputeAvccSize` | mm_media/muxer/mp4_muxer/Mp4Muxer.c:314-363 | the computed size is that of the avcC box: 8 for at most six bytes, 8 more than the codec data if its first four bytes are not 0, 0, 0, 1, and otherwise 19 more than both parameter sets |
| `Mp4Avcc.CodecDataConvertible` | mm_media/muxer/mp4_muxer/Mp4Muxer.c:296-310 | up to 256 units behind four-byte start codes, the last not empty, are converted within the buffer allocated for them, with a type byte to read in the last one |
| `Mp4Avcc.SetsOfCodecData` | mm_media/muxer/mp4_muxer/Mp4Muxer.c:365-395 | for codec data made of units behind four-byte start codes, the sets chosen are the last SPS and the last PPS, up to one trailing zero, at any alignment |
| `Mp4Avcc.AvccReadsBack` | mm_media/muxer/mp4_muxer/Mp4Muxer.c:314-415 | the size computed for avcC is that of the bytes written, and a reader gets version 1, profile, compatibility, level, SPS and PPS back; each 16-bit length is right exactly when the set is shorter than 65536 bytes |
| `Mp4Avcc.FirstWordIsOne` | mm_media/muxer/mp4_muxer/Mp4Muxer.c:320 | the test of the first word is a test for the bytes 0, 0, 0, 1 |
| `Descriptors.ComputeDescrLength` | mm_media/muxer/mp4_muxer/Mp4Muxer.c:170-175 | the loop returns the content plus tag plus one byte for each seven-bit group of the length |
| `Descriptors.PutDescr` | mm_media/muxer/mp4_muxer/Mp4Muxer.c:177-186 | the loop emits the tag and the groups, most significant first, continuation bit on all but the last |
| `Descriptors.HeaderRoundTrip` | mm_media/muxer/mp4_muxer/Mp4Muxer.c:170-186 | the header takes exactly `descrLength(size) - size` bytes and its length field reads back as the size, whatever follows |
| `Descriptors.FourGroups` | mm_media/muxer/mp4_muxer/Mp4Muxer.c:170-186 | below 2^28 no length needs more than four groups |
| `SampleTables.ExpandIsExpandCounts` | mm_media/muxer/mp4_muxer/Mp4Muxer.c:124-132 | the stsc lookup of section 8.7.4 of ISO/IEC 14496-12 over one entry per chunk hands each chunk its own count |
| `Mp4Packets.StoredLength` | mm_media/muxer/mp4_muxer/Mp4Muxer.c:1472-1511 | the bytes a packet puts into mdat are as many as its entry in stsz says |
| `Mp4Packets.StoredVideo` | mm_media/muxer/mp4_muxer/Mp4Muxer.c:1465-1511 | a video sample is stored as be32(size - 4) followed by (data0 ++ data1)[4..] if and only if the first block is not empty (or the second one already starts with that prefix); with an empty first block it is the second one as it is |
| `Mp4Packets.EmptyFirstBlockLosesPrefix` | mm_media/muxer/mp4_muxer/Mp4Muxer.c:1476-1511 | the failing family is real: a video packet handed over wholly in the second block loses its length prefix |
| `Mp4Packets.StoredAudio` | mm_media/muxer/mp4_muxer/Mp4Muxer.c:1476-1511 | an audio sample is stored as data0 ++ data1, with no prefix |
| `Mp4Packets.LayoutTiles` | mm_media/muxer/mp4_muxer/Mp4Muxer.c:1472-1511 | the samples of both tracks tile the media data: the first at its start, each next one where the previous ends, the last ending with it |
| `Mp4Packets.RunIndexRight` | mm_media/muxer/mp4_muxer/Mp4Muxer.c:1348-1472 | the invariant of every run, per track: with the open chunk counted, the tables describe exactly the samples written so far, and the open chunk ends where the media data ends |
| `Mp4Packets.IndexOfFinishedRun` | mm_media/muxer/mp4_muxer/Mp4Muxer.c:1348-1367 | after the trailer, for every run and track: as many stsc entries as stco entries, their counts sum to the number of stsz entries, and expanding stco, stsc and stsz gives the offset and length of each packet in order |
| `Mp4Packets.CutLayout` | mm_media/muxer/mp4_muxer/Mp4Muxer.c:1348-1514 | in any file holding the media data at its place, cutting out a track's extents gives that track's stored samples in order |
| `Mp4Timing.RunTimesAndKeys` | mm_media/muxer/mp4_muxer/Mp4Muxer.c:1421-1463 | in every run the video durations are the packets' in order, as many as the samples, and the key table is the strictly increasing list of 1-based numbers of the packets whose fifth byte has NAL type 5 and whose first block is not empty |
| `Mp4Timing.KeyTableExact` | mm_media/muxer/mp4_muxer/Mp4Muxer.c:1438-1456 | in every run the key table lists exactly the packets whose fifth byte has NAL type 5 if and only if each of them has a first block that is not empty |
| `Mp4Timing.EmptyFirstBlockMissesKey` | mm_media/muxer/mp4_muxer/Mp4Muxer.c:1438-1456 | the failing family is real: a key frame handed over wholly in the second block is missing from the table |
| `Mp4Timing.VideoDecodeTime` | mm_media/muxer/mp4_muxer/Mp4Muxer.c:632-658 | with one entry per duration, the first skipped and a zero added, the counts sum to the number of samples and sample k is decoded at the sum of the durations of packets 1 to k |
| `Mp4File.VideoSttsFields` | mm_media/muxer/mp4_muxer/Mp4Muxer.c:632-658 | the bytes emitted for the video stts box are the table of exactly those entries |
| `Mp4Timing.SplitIndependentRun` | mm_media/muxer/mp4_muxer/Mp4Muxer.c:1438-1511 | runs that differ only in where packets are split into two blocks leave equal tables and equal media data (no first block empty) |
| `Mp4Boxes.TablesAgree` | mm_media/muxer/mp4_muxer/Mp4Muxer.c:38-139 | the sizes computed for stco, stsz and stsc are those of the bytes emitted, which are the intended boxes |
| `Mp4Boxes.StssAgrees` | mm_media/muxer/mp4_muxer/Mp4Muxer.c:142-166 | the same for stss |
| `Mp4Boxes.SttsSizeRight` | mm_media/muxer/mp4_muxer/Mp4Muxer.c:589-661 | the stts size is that of the bytes emitted if and only if a video track has at least one duration: the writer skips one entry and adds one |
| `Mp4Boxes.EsdsAgrees` | mm_media/muxer/mp4_muxer/Mp4Muxer.c:188-252 | the same for esds, three nested descriptors with their own length arithmetic |
| `Mp4Boxes.AvccAgrees` | mm_media/muxer/mp4_muxer/Mp4Muxer.c:314-431 | the same for avcC |
| `Mp4Boxes.VideoAgrees` | mm_media/muxer/mp4_muxer/Mp4Muxer.c:513-561 | the same for the video sample entry of every codec, its child box included |
| `Mp4Boxes.AudioAgrees` | mm_media/muxer/mp4_muxer/Mp4Muxer.c:433-480 | the same for the audio sample entry |
| `Mp4Boxes.StsdAgrees` | mm_media/muxer/mp4_muxer/Mp4Muxer.c:563-587 | the same for stsd |
| `Mp4Boxes.StblAgrees` | mm_media/muxer/mp4_muxer/Mp4Muxer.c:684-712 | the same for stbl: two independently written recursive families give one box tree |
| `Mp4Boxes.MinfAgrees` | mm_media/muxer/mp4_muxer/Mp4Muxer.c:820-846 | the same for minf |
| `Mp4Boxes.MdiaAgrees` | mm_media/muxer/mp4_muxer/Mp4Muxer.c:872-891 | the same for mdia |
| `Mp4Boxes.TrakAgrees` | mm_media/muxer/mp4_muxer/Mp4Muxer.c:1034-1052 | the same for trak |
| `Mp4Boxes.TkhdLength` | mm_media/muxer/mp4_muxer/Mp4Muxer.c:936-1032 | tkhd has its fixed size and carries the track number where readers look for it |
| `Mp4Boxes.MoovAgrees` | mm_media/muxer/mp4_muxer/Mp4Muxer.c:1187-1251 | the whole moov: the size computed ahead of time is that of the bytes emitted, and they serialize the intended tree of nested boxes |
| `Mp4File.FileIsTiled` | mm_media/muxer/mp4_muxer/Mp4Muxer.c:1207-1537 | the finished file is its top-level boxes end to end with right size fields at every depth: ftyp, moov, free, mdat when moov fits the reserve, else ftyp, free, mdat, moov; the box reader recovers them |
| `Mp4File.MediaDataInPlace` | mm_media/muxer/mp4_muxer/Mp4Muxer.c:1214-1251 | wherever moov goes, the media data lies untouched at the place the chunk offsets assume |
| `Mp4File.TablesInRange` | mm_media/muxer/mp4_muxer/Mp4Muxer.c:1348-1472 | every entry of all five tables of a legal run fits 32 bits, so no stored word was truncated |
| `Mp4File.RunBounded` | mm_media/muxer/mp4_muxer/Mp4Muxer.c:1369-1408 | offsets and sizes never exceed the end of the media data |
| `Mp4File.SampleCount` | mm_media/muxer/mp4_muxer/Mp4Muxer.c:1404-1407 | a track has as many sizes as packets |
| `Mp4File.ReadIndexBack` | mm_media/muxer/mp4_muxer/Mp4Muxer.c:1516-1537 | a reader that walks moov, trak, mdia, minf and stbl of the finished file, and takes only tables of version 0 whose entry counts fit their lengths, finds exactly those the run left: extents, stts entries and, for video, key-frame numbers, with the time scale and duration of mdhd |
| `Mp4File.MdhdRead` | mm_media/muxer/mp4_muxer/Mp4Muxer.c:853-870 | the media header has the time scale at 12 and the duration at 16, where readers look for them |
| `Mp4File.IndexDescribes` | mm_media/muxer/mp4_muxer/Mp4Muxer.c:1324-1537 | for every legal run, what the file says of a track: its time scale and duration, as 32-bit words; the extents of its packets in order; stts counts that sum to their number; decode times that are the sums of the durations of video packets 1 to k, or multiples of the audio frame size; and key frames that are exactly the true ones if and only if none was handed over with an empty first block |
| `Mp4File.ReadBack` | mm_media/muxer/mp4_muxer/Mp4Muxer.c:1324-1537 | for every legal run, a reader that sees only the finished file gets back, per track, the stored bytes of each packet in order |
| `Mp4Headers.KindNames` | mm_media/muxer/mp4_muxer/Mp4Muxer.c:853-1537 | every box kind is the four letters of its name |
| `Mp4Headers.MediaKindNames` | mm_media/muxer/mp4_muxer/Mp4Muxer.c:38-846 | the same for the kinds below minf |
| `Mp4Headers.MvhdIsRight` | mm_media/muxer/mp4_muxer/Mp4Muxer.c:1059-1103 | field by field at the offsets of ISO/IEC 14496-12: times, a thousand ticks a second, the duration of the video track, rate and volume one, the unit matrix, next track 3 |
| `Mp4Headers.TkhdIsRight` | mm_media/muxer/mp4_muxer/Mp4Muxer.c:941-1032 | enabled, times, track number, duration in milliseconds rounded up, volume for sound only, the matrix of the rotation, and the picture size in 16.16 |
| `Mp4Headers.MdhdIsRight` | mm_media/muxer/mp4_muxer/Mp4Muxer.c:853-870 | times, time scale and duration in this order |
| `Mp4Headers.HdlrIsRight` | mm_media/muxer/mp4_muxer/Mp4Muxer.c:788-818 | vide or soun, and the title with its final zero |
| `Mp4Headers.MinfIsRight` | mm_media/muxer/mp4_muxer/Mp4Muxer.c:668-846 | vmhd for video and smhd for sound, never both, and a data reference into the same file |
| `Mp4Headers.EntryKindIsRight` | mm_media/muxer/mp4_muxer/Mp4Muxer.c:482-511 | the sample entry each codec gets: avc1, mp4v, mjpa, mp4a, sowt, ms 0x11, and none for H.265 |
| `Mp4Headers.VideoEntryIsRight` | mm_media/muxer/mp4_muxer/Mp4Muxer.c:523-554 | width and height, 72 dots an inch, one frame a sample, 24 bits |
| `Mp4Headers.AudioEntryIsRight` | mm_media/muxer/mp4_muxer/Mp4Muxer.c:442-467 | channels, bits a sample and sample rate |
| `Mp4Headers.EsdsIsRight` | mm_media/muxer/mp4_muxer/Mp4Muxer.c:199-246 | a reader of nested descriptors gets the track number, the object and stream type and the codec data back, whatever its length |
| `Mp4Headers.LastOfTypeIs` | mm_media/muxer/mp4_muxer/Mp4Muxer.c:335-353 | the unit found last is one of its type with none of that type behind it, or there is none |
| `Mp4Headers.AvccIsRight` | mm_media/muxer/mp4_muxer/Mp4Muxer.c:365-431 | avcC is empty for codec data of at most six bytes; it is the codec data as it is if that does not begin with 0, 0, 0, 1; and for codec data made of units behind such codes a reader finds version 1, the last SPS with its profile, compatibility and level bytes, and the last PPS, each up to one trailing zero |
| `Mp4Headers.EntryIsRight` | mm_media/muxer/mp4_muxer/Mp4Muxer.c:482-587 | the sample entry of a track: its kind, its fields, and avcC or esds below it |
| `Mp4Headers.MovieHeadOfFile` | mm_media/muxer/mp4_muxer/Mp4Muxer.c:1059-1251 | for every legal run, a reader of the finished file finds the movie header right, and the place, with its language, exactly when one was given |
| `Mp4Headers.TrackHeadOfFile` | mm_media/muxer/mp4_muxer/Mp4Muxer.c:433-1052 | for every legal run and every track with packets, a reader of the finished file finds its track header, media header, handler, media information and sample entry right |
| `Mp4Headers.FileOpens` | mm_media/muxer/mp4_muxer/Mp4Muxer.c:1207-1537 | the first bytes are ftyp with its brands; moov comes next exactly if it and a free box fit in front of one mebibyte, where the media data stands with its length, and otherwise last |
| `Mp4Headers.HeadersOfFile` | mm_media/muxer/mp4_muxer/Mp4Muxer.c:1324-1537 | all of this for every legal run, from nothing but the bytes of the finished file |
| `FlatTables.CarvingIsDisjoint` | mm_media/muxer/mp4_muxer/Mp4MuxerDrv.c:283-309 | the seven tables and the spare page assigned one after the other are pairwise disjoint, in order, inside the buffer |
| `FlatTables.Tables.Open` | mm_media/muxer/mp4_muxer/Mp4MuxerDrv.c:283-309 | the open call leaves seven empty queues, for any table capacities; the spare page ends with the buffer |
| `FlatTables.Tables.Push` | mm_media/muxer/mp4_muxer/Mp4Muxer.c:1371 | a push appends to one table and changes no other |
| `FlatTables.Tables.Wrap` | mm_media/muxer/mp4_muxer/Mp4Muxer.c:1381-1384 | the wrap test moves the write pointer only when the table is exactly full, and loses nothing |
| `FlatTables.Tables.Next` | mm_media/muxer/mp4_muxer/Mp4Muxer.c:56-59 | reading through the read pointer replays the pushed values in order, the table that wrapped at exactly full included |
| `FlatTables.OpenWithDriverSizes` | mm_media/muxer/mp4_muxer/Mp4MuxerDrv.c:276-309 | with the compiled-in sizes the carving fills the buffer exactly and the key-frame table has an entry for every stts entry |
| `Mp4Muxer.MovContext.PushChunk` | mm_media/muxer/mp4_muxer/Mp4Muxer.c:1369-1402 | a change of stream appends the new chunk's offset and the old chunk's count, each to its own table |
| `Mp4Muxer.MovContext.OpenChunk` | mm_media/muxer/mp4_muxer/Mp4Muxer.c:1369-1402 | the pointer-level chunk opening is the value-level one |
| `Mp4Muxer.MovContext.CountSample` | mm_media/muxer/mp4_muxer/Mp4Muxer.c:1404-1417 | the pointer-level sample count is the value-level one |
| `Mp4Muxer.MovContext.CloseChunk` | mm_media/muxer/mp4_muxer/Mp4Muxer.c:1362-1367 | the trailer's pseudo packet appends the open chunk's count to its track's stsc table |
| `Mp4Muxer.MovContext.NoteVideo` | mm_media/muxer/mp4_muxer/Mp4Muxer.c:1421-1463 | duration and key-frame entry; -1 for a video codec other than H.264, after the duration was stored |
| `Mp4Muxer.UpdateTables` | mm_media/muxer/mp4_muxer/Mp4Muxer.c:1348-1472 | all table updates of one packet are one step of the model, refused packets included |
| `Mp4Muxer.WriteData` | mm_media/muxer/mp4_muxer/Mp4Muxer.c:1474-1511 | the two or three writes of a packet put exactly its stored bytes at the current position |
| `Mp4Muxer.WriteHeader` | mm_media/muxer/mp4_muxer/Mp4Muxer.c:1324-1346 | the file is ftyp, the reserve and an open mdat header; the state is that of the empty run |
| `Mp4Muxer.WritePacket` | mm_media/muxer/mp4_muxer/Mp4Muxer.c:1348-1514 | one more packet extends tables and file alike; a video packet of a codec other than H.264 returns -1 with the tables touched and nothing written |
| `Mp4Muxer.ReplayWords` | mm_media/muxer/mp4_muxer/Mp4Muxer.c:55-60 | a replay loop emits the table's words in the order pushed and moves no other table's read pointer |
| `Mp4Muxer.ReplayStsc` | mm_media/muxer/mp4_muxer/Mp4Muxer.c:124-132 | the stsc loop emits one triple per chunk, numbered from 1 |
| `Mp4Muxer.ReplayStts` | mm_media/muxer/mp4_muxer/Mp4Muxer.c:641-651 | the video stts loop skips the first entry and emits the others with count 1 |
| `Mp4Muxer.ReplayKeys` | mm_media/muxer/mp4_muxer/Mp4Muxer.c:160-163 | the stss loop emits the key-frame table in order |
| `Mp4Muxer.WriteStco` | mm_media/muxer/mp4_muxer/Mp4Muxer.c:45-68 | the writer emits exactly the stco box of the finished tables |
| `Mp4Muxer.WriteStsz` | mm_media/muxer/mp4_muxer/Mp4Muxer.c:78-103 | the same for stsz |
| `Mp4Muxer.WriteStsc` | mm_media/muxer/mp4_muxer/Mp4Muxer.c:112-139 | the same for stsc |
| `Mp4Muxer.WriteStss` | mm_media/muxer/mp4_muxer/Mp4Muxer.c:149-166 | the same for stss |
| `Mp4Muxer.WriteStts` | mm_media/muxer/mp4_muxer/Mp4Muxer.c:610-661 | the same for stts, video and audio |
| `Mp4Describe.WriteAvcc` | mm_media/muxer/mp4_muxer/Mp4Muxer.c:365-431 | the writer emits exactly the avcC box that Mp4Headers.AvccIsRight describes, converting and searching the codec data as the code does |
| `Mp4Describe.ComputeEsLengths` | mm_media/muxer/mp4_muxer/Mp4Muxer.c:188-204 | the lengths of the nested descriptors, innermost first |
| `Mp4Describe.WriteEsds` | mm_media/muxer/mp4_muxer/Mp4Muxer.c:199-246 | the writer emits exactly the esds box, descriptor by descriptor |
| `Mp4Describe.WriteVideo` | mm_media/muxer/mp4_muxer/Mp4Muxer.c:523-561 | the writer emits exactly the video sample entry with its codec box |
| `Mp4Describe.WriteAudio` | mm_media/muxer/mp4_muxer/Mp4Muxer.c:442-480 | the same for the audio sample entry |
| `Mp4Describe.WriteStsd` | mm_media/muxer/mp4_muxer/Mp4Muxer.c:573-587 | the same for stsd |
| `Mp4Muxer.WriteStsd` | mm_media/muxer/mp4_muxer/Mp4Muxer.c:573-587 | emitting the sample description leaves the counters and tables alone |
| `Mp4Muxer.WriteStbl` | mm_media/muxer/mp4_muxer/Mp4Muxer.c:698-712 | the same for stbl, reading the tables of its own track only |
| `Mp4Muxer.WriteMinf` | mm_media/muxer/mp4_muxer/Mp4Muxer.c:833-846 | the same for minf |
| `Mp4Muxer.WriteMdia` | mm_media/muxer/mp4_muxer/Mp4Muxer.c:881-891 | the same for mdia |
| `Mp4Muxer.WriteTrak` | mm_media/muxer/mp4_muxer/Mp4Muxer.c:1042-1052 | the same for trak |
| `Mp4Muxer.WriteMoov` | mm_media/muxer/mp4_muxer/Mp4Muxer.c:1214-1251 | moov goes into the reserve, followed by a free header for the rest, or to the end when it does not fit |
| `Mp4Muxer.CloseLastChunk` | mm_media/muxer/mp4_muxer/Mp4Muxer.c:1362-1367 | closing the last chunk finishes the tables |
| `Mp4Muxer.TrailerFile` | mm_media/muxer/mp4_muxer/Mp4Muxer.c:1516-1537 | moov, free header and the patched mdat size together turn the streamed bytes into the tiled file: the reserve's zeros are the free box's body and no media byte changes |
| `Mp4Muxer.RunGrows` | mm_media/muxer/mp4_muxer/Mp4Muxer.c:1348-1472 | no table ever shrinks over a run, so capacity needs to be asked of the finished tables only |
| `Mp4Muxer.WriteTrailer` | mm_media/muxer/mp4_muxer/Mp4Muxer.c:1516-1537 | after flush the stream holds exactly the tiled file, and its length is returned |
| `Mp4Muxer.MuxRun` | mm_media/muxer/mp4_muxer/Mp4Muxer.c:1324-1537 | whole runs through a cache of any size and tables of any capacity that holds them: the stream holds the tiled file, and a reader gets the headers of the movie and its tracks, and each track's time scale, stored samples, decode times and key frames back |
| `Crc.InitCrcTable` | mm_media/muxer/mpeg2ts_muxer/Mpeg2tsMuxer.c:21-33 | the nested loops fill the table with eight shifts of each byte |
| `Crc.TableStepIsClocks` | mm_media/muxer/mpeg2ts_muxer/Mpeg2tsMuxer.c:38-48 | one table step is eight clocks of the shift register of Annex A of ISO/IEC 13818-1 (polynomial 0x04C11DB7) |
| `Crc.Crc32` | mm_media/muxer/mpeg2ts_muxer/Mpeg2tsMuxer.c:38-48 | over every byte string the table-driven loop leaves the bit-serial register's value |
| `Crc.CrcIsAccepted` | mm_media/muxer/mpeg2ts_muxer/Mpeg2tsMuxer.c:166-167 | every message followed by its CRC in big-endian order leaves the decoder's register zero |
| `Crc.PatCrc` | mm_media/muxer/mpeg2ts_muxer/Mpeg2tsMuxer.c:78-85 | the constant four bytes behind the program association section are its CRC |
| `TsFields.PtsRoundTrip` | mm_media/muxer/mpeg2ts_muxer/Mpeg2tsMuxer.c:335-341 | for every 32-bit time stamp the restore formula gives it back, and prefix and marker bits are set |
| `TsFields.Clock90Ticks` | mm_media/muxer/mpeg2ts_muxer/Mpeg2tsMuxer.c:281 | a time stamp in milliseconds becomes ninety times as many ticks, modulo 2^32: itself when it fits |
| `TsFields.PtsOnBytes` | mm_media/muxer/mpeg2ts_muxer/Mpeg2tsMuxer.c:335-341 | the time stamp in terms of its five bytes, as a receiver puts it together |
| `TsFields.PcrRoundTrip` | mm_media/muxer/mpeg2ts_muxer/Mpeg2tsMuxer.c:315-322 | base times 300 plus extension gives the clock back if and only if it is below 300 * 2^33; reserved bits are ones |
| `TsFields.AdtsRoundTrip` | mm_media/muxer/mpeg2ts_muxer/Mpeg2tsMuxer.c:369-381 | on the bytes: sync word, object type less one, sampling index; the frame length reads back if and only if it is below 8192, and then the channel count does too |
| `TsPackets.TablesAccepted` | mm_media/muxer/mpeg2ts_muxer/Mpeg2tsMuxer.c:50-169 | both section decoders accept, and the length field counts the bytes behind it |
| `TsPackets.MapEntries` | mm_media/muxer/mpeg2ts_muxer/Mpeg2tsMuxer.c:147-164 | a receiver reads from the map the stream type and PID of each track |
| `TsPackets.PatRead` | mm_media/muxer/mpeg2ts_muxer/Mpeg2tsMuxer.c:50-96 | a receiver reads from the association table one program and the PID of its map |
| `TsPackets.PmtRead` | mm_media/muxer/mpeg2ts_muxer/Mpeg2tsMuxer.c:99-169 | a receiver reads from the map the clock PID, and stream type and PID of each track |
| `TsPackets.RunContinuous` | mm_media/muxer/mpeg2ts_muxer/Mpeg2tsMuxer.c:88-410 | over every run, on each of the four PIDs the n-th packet carries n mod 16, although four places advance the counters in three ways |
| `TsPackets.RunRecognised` | mm_media/muxer/mpeg2ts_muxer/Mpeg2tsMuxer.c:433-451 | every run emits only whole 188-byte packets behind 0x47, on the PAT, PMT, video or audio PID |
| `TsPackets.RestMarked` | mm_media/muxer/mpeg2ts_muxer/Mpeg2tsMuxer.c:387-430 | the following packets of an access unit are whole, on its PID and counted consecutively |
| `TsPackets.StampsReadBack` | mm_media/muxer/mpeg2ts_muxer/Mpeg2tsMuxer.c:312-341 | on the bytes of the first packet of every access unit: its time stamp is ninety times the frame's milliseconds modulo 2^32, and its clock the frame's exactly when that fits |
| `TsPackets.AdtsReadBack` | mm_media/muxer/mpeg2ts_muxer/Mpeg2tsMuxer.c:365-382 | on the bytes of the ADTS header in front of an audio frame: the codec data's object type less one, sampling index and channels, and the frame length, header included, exactly when it fits 13 bits |
| `TsPackets.SmallFrame` | mm_media/muxer/mpeg2ts_muxer/Mpeg2tsMuxer.c:292-298 | the padding of small frames is wrong for a real input: a ten-byte AAC frame meets every assumption and cannot be written |
| `TsReceiver.FirstTells` | mm_media/muxer/mpeg2ts_muxer/Mpeg2tsMuxer.c:292-385 | a receiver of the first packet of a unit finds stream id, time stamp, clock, length, or 0 where it does not fit, and for video an access unit delimiter |
| `TsReceiver.RunStarts` | mm_media/muxer/mpeg2ts_muxer/Mpeg2tsMuxer.c:213-451 | over every run, on the PID of each stream, one such start for every frame, in order |
| `TsReceiver.TablesInRun` | mm_media/muxer/mpeg2ts_muxer/Mpeg2tsMuxer.c:433-451 | over every run, an association table and a map that read right stand in front of each video unit, and nowhere else |
| `TsReceiver.TrackOfRun` | mm_media/muxer/mpeg2ts_muxer/Mpeg2tsMuxer.c:343-431 | what a track carries is, frame by frame in order, codec data on key frames and both blocks, or an ADTS header that reads right and both blocks |
| `TsReceiver.PacketsBack` | mm_media/muxer/mpeg2ts_muxer/Mpeg2tsMuxer.c:213-460 | cutting the file every 188 bytes gives the packets |
| `Mpeg2tsMuxer.AVFormatContext.constructor` | mm_media/muxer/mpeg2ts_muxer/Mpeg2tsMuxerDrv.c:74-87 | the context starts with the CRC table built and all counters zero |
| `Mpeg2tsMuxer.WriteProgramAssociationTable` | mm_media/muxer/mpeg2ts_muxer/Mpeg2tsMuxer.c:50-96 | one PAT packet with the counter's value, the counter moved modulo 16 |
| `Mpeg2tsMuxer.WriteProgramMapTable` | mm_media/muxer/mpeg2ts_muxer/Mpeg2tsMuxer.c:99-169 | one PMT packet, its CRC that of the section, the counter moved modulo 16 |
| `Mpeg2tsMuxer.FillMapEntries` | mm_media/muxer/mpeg2ts_muxer/Mpeg2tsMuxer.c:155-164 | the loop appends one entry per track and leaves the stuffing behind |
| `Mpeg2tsMuxer.WriteAvTsPacket` | mm_media/muxer/mpeg2ts_muxer/Mpeg2tsMuxer.c:171-210 | the next bytes of the coded data are written wherever the boundary of the two blocks falls; it succeeds if and only if that many are left, so neither assertion is reached in a supported frame |
| `Mpeg2tsMuxer.FillFirstHeader` | mm_media/muxer/mpeg2ts_muxer/Mpeg2tsMuxer.c:300-341 | the pointer ends behind header and padding; without padding the buffer holds transport header, clock and PES header with the time stamp |
| `Mpeg2tsMuxer.WriteLead` | mm_media/muxer/mpeg2ts_muxer/Mpeg2tsMuxer.c:351-383 | delimiter and, on key frames, codec data, or the ADTS header |
| `Mpeg2tsMuxer.WriteFirst` | mm_media/muxer/mpeg2ts_muxer/Mpeg2tsMuxer.c:292-385 | the first packet is written whole if and only if lead and coded data have at least 162 bytes together and the lead at most 162 |
| `Mpeg2tsMuxer.FillNextHeader` | mm_media/muxer/mpeg2ts_muxer/Mpeg2tsMuxer.c:400-428 | the header of a following packet; the last one is stuffed to end with the packet |
| `Mpeg2tsMuxer.WriteNext` | mm_media/muxer/mpeg2ts_muxer/Mpeg2tsMuxer.c:400-429 | one following packet, 184 bytes or the rest |
| `Mpeg2tsMuxer.WriteRest` | mm_media/muxer/mpeg2ts_muxer/Mpeg2tsMuxer.c:387-430 | the loop writes the remaining packets in order, with the bytes left as its measure, and moves the counter by their number |
| `Mpeg2tsMuxer.WriteAccessUnit` | mm_media/muxer/mpeg2ts_muxer/Mpeg2tsMuxer.c:213-431 | success if and only if the frame is supported, and then exactly the access unit's packets |
| `Mpeg2tsMuxer.WritePacket` | mm_media/muxer/mpeg2ts_muxer/Mpeg2tsMuxer.c:433-451 | tables in front of video only; an unknown stream is reported and changes nothing |
| `Mpeg2tsMuxer.WriteTrailer` | mm_media/muxer/mpeg2ts_muxer/Mpeg2tsMuxer.c:453-460 | the real file equals the logical one and its length is returned |
| `Mpeg2tsMuxer.MuxRun` | mm_media/muxer/mpeg2ts_muxer/Mpeg2tsMuxer.c:213-460 | whole runs through a cache of any size: the checker's loop gets every frame's bytes back in order, and a receiver finds the tables in front of every video unit and each frame's time stamp, clock and length |
| `TsDemux.ExtractPayload` | mm_media/test/check_ts_muxer.c:111-169 | the read loop, stale buffer tail included, computes the recursive demultiplexer |
| `TsDemux.DemuxPackets` | mm_media/test/check_ts_muxer.c:112-169 | on a whole number of packets the stale tail of the read buffer never shows |
| `TsDemux.RestExtract` | mm_media/test/check_ts_muxer.c:121-168 | from the following packets of an access unit the loop takes exactly the bytes they were cut from |
| `TsDemux.AccessUnitExtract` | mm_media/test/check_ts_muxer.c:111-169 | for one frame, whatever its split: codec data on key frames, then data0 ++ data1 for video; ADTS, data0 ++ data1 for audio; if and only if an audio frame's length fits the PES field |
| `TsDemux.RunRoundTrip` | mm_media/test/check_ts_muxer.c:111-169 | for every run of supported frames the loop applied to the muxer's output returns both tracks, which TsReceiver.TrackOfRun describes, or aborts on an audio frame too long for the PES length |
| `TsDemux.LongAudioAborts` | mm_media/test/check_ts_muxer.c:140-154 | the failing family is real: the muxer writes an audio frame of 65520 bytes and the loop aborts on it |
| `Rings.InitListHead` | mm_foundations/include/mm_list.h:40-44 | an initialised head is an empty ring |
| `Rings.AddBetween` | mm_foundations/include/mm_list.h:52-58 | linking between two neighbours inserts at that position of the sequence, rings well formed in next and prev |
| `Rings.ListAdd` | mm_foundations/include/mm_list.h:68-71 | insertion at the front |
| `Rings.ListAddTail` | mm_foundations/include/mm_list.h:82-85 | insertion at the end |
| `Rings.DelBetween` | mm_foundations/include/mm_list.h:94-98 | making the neighbours point at each other removes the entry between them |
| `Rings.ListDel` | mm_foundations/include/mm_list.h:111-116 | removal, with the entry's pointers poisoned |
| `Rings.ListDelInit` | mm_foundations/include/mm_list.h:143-147 | removal, the entry left as an empty ring |
| `Rings.ListReplace` | mm_foundations/include/mm_list.h:125-131 | the new node takes the old one's place, head or entry, in every position |
| `Rings.ListReplaceInit` | mm_foundations/include/mm_list.h:133-137 | the same, the old node left as an empty ring |
| `Rings.ListMove` | mm_foundations/include/mm_list.h:154-158 | removal from one ring and insertion at the front of the same or another |
| `Rings.ListMoveTail` | mm_foundations/include/mm_list.h:165-170 | removal from one ring and insertion at the end of the same or another |
| `Rings.TestsMean` | mm_foundations/include/mm_list.h:177-232 | empty, singular and last say exactly that of the sequence |
| `Rings.ListRotateLeft` | mm_foundations/include/mm_list.h:215-223 | the first entry goes to the end |
| `Rings.CutPosition` | mm_foundations/include/mm_list.h:234-244 | the entries up to and including the given one form the other ring, the rest stays |
| `Rings.ListCutPosition` | mm_foundations/include/mm_list.h:260-272 | all its guards: an empty list, a single entry, the head as the entry |
| `Rings.Splice` | mm_foundations/include/mm_list.h:274-286 | all entries of one ring join another at a position |
| `Rings.ListSplice` | mm_foundations/include/mm_list.h:293-298 | joined at the front |
| `Rings.ListSpliceTail` | mm_foundations/include/mm_list.h:305-310 | joined at the end |
| `Rings.ListSpliceInit` | mm_foundations/include/mm_list.h:319-326 | joined at the front, the source left empty |
| `Rings.ListSpliceTailInit` | mm_foundations/include/mm_list.h:336-343 | joined at the end, the source left empty |
| `MessageQueue.Allocator.Copy` | mm_foundations/srcs/mm_message.c:38-42 | an allocation is told apart from every earlier one and holds the bytes copied |
| `MessageQueue.Allocator.Free` | mm_foundations/srcs/mm_message.c:32 | only a live block can be freed, once |
| `MessageQueue.Queue.DeepCopy` | mm_foundations/srcs/mm_message.c:24-52 | the node holds id, command, both parameters and the bytes of the request, field by field, its old block was freed, the waiting messages are unchanged; it fails exactly when memory for the payload is missing |
| `MessageQueue.Queue.Increase` | mm_foundations/srcs/mm_message.c:65-98 | sixteen blank nodes join the idle ring and one pool the pool ring, or nothing changes but the pool count |
| `MessageQueue.Queue.PutMessageWithData` | mm_foundations/srcs/mm_message.c:224-256 | a delivery with the request's id, command, parameters and bytes joins the end of the queue, or the queue is unchanged when memory is missing; signalled exactly when accepted with the flag up |
| `MessageQueue.Queue.PutMessage` | mm_foundations/srcs/mm_message.c:210-222 | the same without bytes, signalled under the same condition |
| `MessageQueue.Queue.GetMessage` | mm_foundations/srcs/mm_message.c:258-276 | the oldest message, field by field, its node back in the idle ring; -1 exactly when there is none |
| `MessageQueue.Queue.GetMessageCount` | mm_foundations/srcs/mm_message.c:278-287 | the count is the number of waiting messages |
| `MessageQueue.Queue.WaitSection` | mm_foundations/srcs/mm_message.c:293-305 | blocked exactly when nothing waits, otherwise the oldest message; the flag goes up on entry, stays up while blocked and comes down with the message |
| `MessageQueue.Queue.DryWaitSection` | mm_foundations/srcs/mm_message.c:356-367 | blocked exactly when nothing waits, otherwise the count, nothing dequeued |
| `MessageQueue.Queue.MessageDestroy` | mm_foundations/srcs/mm_message.c:143-207 | every payload the nodes own is freed, every pool buffer returned once, the lists empty |
| `MessageQueue.Queue.IdleCount` | mm_foundations/srcs/mm_message.c:86-92 | idle and ready nodes together are sixteen per pool |
| `MessageQueue.MessageCreate` | mm_foundations/srcs/mm_message.c:101-141 | an empty valid queue with one pool, or -1 when memory is missing |
| `MessageQueue.FirstInFirstOut` | mm_foundations/srcs/mm_message.c:224-412 | over any puts, gets, waits, dry waits and counts, what was read followed by what is waiting is what was accepted, in order: id, command, parameters and bytes of the i-th are those of the i-th accepted call |
| `MessageQueue.FreedOnce` | mm_foundations/srcs/mm_message.c:143-207 | at the end no block was freed twice, and all were freed if and only if none was lost |
| `MessageQueue.EmptyPayloadLost` | mm_foundations/srcs/mm_message.c:36-49 | a payload of zero bytes is accepted, and counted as lost |
| `MessageQueue.RunToTheEnd` | mm_foundations/srcs/mm_message.c:24-412 | over any run of puts, gets, waits, dry waits and counts that ends with destroy: first in first out, field by field, every reported count that of the waiting messages, no payload freed twice, and every payload freed exactly once if and only if no message with a payload of zero bytes was accepted |
| `MessageQueue.TakeFacts` | mm_foundations/srcs/mm_message.c:36-44 | taking a copy keeps every live block owned by one node, except a zero-length one, which is lost |
| `QueueProtocol.PutStep` | mm_foundations/srcs/mm_message.c:224-256 | an accepted put is the protocol's put step: it signals exactly when the flag is up, which wakes a blocked consumer if there is one |
| `QueueProtocol.PutBareStep` | mm_foundations/srcs/mm_message.c:210-222 | the same for a put without data |
| `QueueProtocol.GetStep` | mm_foundations/srcs/mm_message.c:258-276 | a get is the protocol's get step |
| `QueueProtocol.WaitStep` | mm_foundations/srcs/mm_message.c:289-305 | each pass of the untimed wait between two sleeps is the protocol's wait or resume step |
| `QueueProtocol.DryWaitStep` | mm_foundations/srcs/mm_message.c:356-367 | the same for the dry wait |
| `QueueProtocol.RunSections` | mm_foundations/srcs/mm_message.c:224-412 | any legal run of producers and consumers, driven on a queue, keeps flag and ready list where the protocol has them; with one consumer, in every state, a consumer blocked and not signalled has the waiting flag up and nothing to read |
| `WaitProtocol.RunInductive` | mm_foundations/srcs/mm_message.c:224-305 | with one consumer, in every reachable state a consumer that is not running has the flag up, and a blocked one has nothing to read |
| `WaitProtocol.NoWakeUpLost` | mm_foundations/srcs/mm_message.c:224-305 | no wake-up is lost in any run, any number of producers and spurious wake-ups included, if and only if there is at most one consumer |
| `WaitProtocol.TwoConsumersLose` | mm_foundations/srcs/mm_message.c:294-304 | with two consumers or more there is a run in which one sleeps, unsignalled, while a message waits |
| `WaitProtocol.RunConserves` | mm_foundations/srcs/mm_message.c:224-305 | what was put is waiting or was taken, with any number of consumers |
| `Semaphore.MmSem.DownSection` | mm_foundations/srcs/mm_semaphore.c:50-64 | each pass of down between two sleeps is one step of the transition system: at zero the thread blocks, else the value goes down by one and it runs |
| `Semaphore.MmSem.UpSection` | mm_foundations/srcs/mm_semaphore.c:70-79 | up is one step: one more, and the signalled thread, if one is blocked, wakes |
| `Semaphore.MmSem.UpUniqueSection` | mm_foundations/srcs/mm_semaphore.c:81-92 | up_unique is one step: the same at zero, and nothing otherwise |
| `Semaphore.MmSem.ResetSection` | mm_foundations/srcs/mm_semaphore.c:98-105 | reset is one step: the value is zero and no thread wakes |
| `Semaphore.RunSound` | mm_foundations/srcs/mm_semaphore.c:50-105 | over all interleavings of any number of threads from a start that is not negative: the value stays non-negative, and while some thread is blocked the signalled threads not yet resumed are at least the value |
| `Semaphore.NoLostUnit` | mm_foundations/srcs/mm_semaphore.c:50-105 | when a unit is available and some thread is blocked, some thread has been signalled and will take it |
| `Semaphore.RunSections` | mm_foundations/srcs/mm_semaphore.c:50-105 | every legal run of critical sections, driven on a semaphore, stays where the transition system is: sound in every state, with the value the books give |
| `Semaphore.RunConserves` | mm_foundations/srcs/mm_semaphore.c:50-105 | from any start the value is the start plus effective ups minus completed downs, less what resets dropped; nothing was dropped without a reset |

## Left out

- Streams: the libc and kernel file calls. A stream is a byte string with a position that accepts all bytes; short writes, which the callers ignore, and the error counting in mm_cache.c are not modelled.
- destroy_cache_simple does not flush; results about the real file are stated after a flush, which both trailers make.
- The cache's test for a valid length that has reached its size, which no run meets, null buffers and unknown seek origins.
- CACHEMODE_THREAD, which the muxers refuse.
- Straight-line emitters (tkhd, mvhd, mdhd, hdlr, vmhd, smhd, dref, udta and the fixed part of the sample entries), which Mp4Headers reads back field by field, are byte functions written with one call, where the code makes one call per field; by FileCache.WriteConcat the file is the same. The loops of stsd, avcC, esds and the sample tables are kept; the sizes written into their ancestors come from the size functions of Mp4Boxes.
- The text of the coordinates and of the track title: byte strings as given, the coordinates of their fixed lengths.
- Total time and creation time are fixed before a run.
- A codec the tag table does not know keeps the tag its encoder was given; here that tag is zero.
- Other numbers of MP4 tracks than two: the control call that sets one counts two.
- The record-too-long paths only log; runs whose tables overflow their capacity are outside the proofs.
- edts, elst and version 1 of the sound description, which nothing calls.
- The floating-point computation of the program clock; the clock is a number that comes with the frame.
- The checker's search for the two PIDs (check_ts_muxer.c, lines 40 to 108); the PIDs are parameters.
- Two stores to the transport packet buffer that follow each other are sometimes one store of both bytes.
- Timed waits of the queue, which return without a message when one is waiting and trust any wake-up.
- mm_sem_wait and mm_sem_signal, which share the condition variable with down and up.
- Memory after free: a poisoned list pointer is null, and a freed block is never handed out again.
- Scheduling: whether a signalled thread ever runs; the protocols are shown safe, not live.
- list_empty_careful, which on a well-formed ring is list_empty.
- Control switches, handle creation, logging, and the drivers apart from the table layout.
