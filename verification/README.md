# Verified model of the native audio code

The native part of the recorder packs bits, cuts packets into Ogg pages and puts them together again, hands
recorded samples from one thread to another, and converts between FLAC, WAVE and AIFF files. This project models
that code in Dafny and proves what it is for. `dafny verify dfyconfig.toml` checks everything.

The code works in place on buffers with fill and read marks, so it is modelled twice: as classes and methods that
take the same branches on arrays, and as functions on values that say what a caller sees. The methods are proved
to do what the functions say; the large statements, over every run or every input, are lemmas about the functions.

| files | what they hold |
|---|---|
| Wrappers, Sequences, Bytes, Bits, BitOps, Words, Buffers | options, lists of lists, bytes, bit strings, C's shifts and masks, words, memmove and realloc |
| Division, CrcTable, Checksum, PageChecksum | the page checksum: bit-serial division, the table, the loop, the loop in place |
| PageFormat | headers and bodies of pages (section 6 of RFC 3533) |
| Resync, SyncLayer | finding pages in a byte stream: on values, and `ogg_sync_state` |
| BurstErrors | the damage that the checksum always catches |
| Decoder, LossRecovery, EndFlags, JoinStream, LacingValues, DecoderStream | pages to packets: on values, with pages lost, with flags in the middle, from the middle on, and `ogg_stream_state` |
| Encoder, PageTiming, Muxing, EncoderStream | packets to pages: one call, when it gives a page, whole runs, and `ogg_stream_state` |
| RoundTrip, EndMarks, Demux | all of it composed, which packets are marked as the end, and several streams in one |
| BitPacking, PackedStreams, Bitwise | the bit packer: one field, streams of fields, and `oggpack_buffer` |
| WriteFifo, FifoSafety, Recording, FifoWakeup, FifoShutdown, JniAlone, FifoThreads | the two threads of `FLACStreamEncoder`: a transition system, what every interleaving keeps, what is encoded, that nobody sleeps over it, how it ends, and the linked list and buffers on the heap |
| SaneFloat, PcmFormat, PcmBuffers, PcmInput | sample rates and samples in files |
| IffFile, SectorAlign, MetadataRebuild | headers against contents, lists of files for CDs, metadata blocks |

## What the code does that its documentation does not say

- The first page always has granule position 0, whether or not a packet ends on it
  (`jni/ogg/src/framing.c:388-389`). `Muxing.PageStamped` and `Muxing.Restored` say so.
- The end flag goes on every page that empties the encoder once a packet was flagged (`jni/ogg/src/framing.c:436-437`),
  so a packet submitted after that moves the mark. `EndMarks.MarksRightIffFlagAtEnd` says exactly when marks can be
  wrong.
- A page with the end flag from which nothing is kept marks the gap before it (`jni/ogg/src/framing.c:907-911`), which
  then is not taken for one (`jni/ogg/src/framing.c:860`), and the end of a packet without its start can be handed out.
  `EndFlags.HeardIffNoFlagCuts` says exactly when.
- Peeking takes a hole report off, as fetching a packet does (`jni/ogg/src/framing.c:968-974`).
- An aligned `oggpack_writecopy` that needs more room clears the packer: the test in front of its growth
  (`jni/ogg/src/bitwise.c:202`) is true whenever it is reached. `Bitwise.OggPackBuffer.WriteCopy` states exactly
  when that happens.
- The destructor of `FLACStreamEncoder` can wait for ever: the writer thread waits before it first looks at the
  kill flag (`jni/jni/FLACStreamEncoder.cpp:322-326`), so a broadcast that comes before that is lost.
  `FifoShutdown.DestructorReturnsIffWriterHadStarted` says exactly when.
- A file in a sector-aligned list that has fewer samples than it should carry over makes an unsigned count wrap
  around (`jni/flac/src/flac/encode.c:1024`); it is then encoded whole, the next file starts with samples it should not
  have, and the sectors are not aligned. `SectorAlign.AlignedIffAllEnough` and `SectorAlign.NothingLostIffAllEnough` say
  exactly when.
- When a file is decoded whose number of samples is not known, the header that is corrected in the end counts a pad byte
  behind an odd number of bytes (`jni/flac/src/flac/decode.c:603`), but none was written
  (`jni/flac/src/flac/decode.c:485`). `IffFile.CorrectedSizesMatchIffEven` says exactly when the sizes are right.
- A file with several comment blocks keeps them all unless tags are given on the command line.

Every lemma is proved without automatic induction.

## Model

| member | source | states |
|---|---|---|
| Division.ClockInjective | jni/ogg/src/framing.c:291-294 | A zero bit clocked into the 32-bit remainder register loses nothing: different registers stay different |
| Division.ClockNLinear | jni/ogg/src/framing.c:291-294 | Any number of clocks distributes over exclusive or |
| Division.DivideBlock | jni/ogg/src/framing.c:291-294 | Dividing up to 32 message bits is adding them at the top of the register and clocking that often; the table step is the case of eight |
| Division.BurstChangesRemainder | jni/ogg/src/framing.c:280-301 | Messages that differ in a stretch of at most 32 bits, and only there, have different remainders |
| Checksum.TableStepDivides | jni/ogg/src/framing.c:291-294 | One table step of the checksum loop is bit-serial division by 0x04c11db7 of one byte, unreflected |
| Checksum.FoldDivides | jni/ogg/src/framing.c:291-294 | The loop over any byte string, from any register, is bit-serial division of that string |
| Checksum.CrcIsRemainder | jni/ogg/src/framing.c:280-301 | For every byte string the table-driven checksum is the remainder of bit-serial division with a zero start (section 6 of RFC 3533) |
| CrcTable.TableIsRight | jni/ogg/src/framing.c:99-184 | Every one of the 256 table entries is what the reference computation of eight shift-and-xor steps yields |
| PageChecksum.Accumulate | jni/ogg/src/framing.c:291-294 | The loop leaves the register that the specification of the checksum folds to |
| PageChecksum.ChecksumSetInPlace | jni/ogg/src/framing.c:280-301 | In place: just the four checksum bytes change, to the remainder of header and body with the field zero, least significant byte first; header and body may share one buffer |
| PageFormat.SplitJoin | jni/ogg/src/framing.c:809-900 | Cutting a body by its segment table gives back the segments that were joined |
| PageFormat.CrcFieldInjective | jni/ogg/src/framing.c:296-299 | The checksum field determines the remainder |
| PageFormat.PageRoundTrip | jni/ogg/src/framing.c:29-70 | The accessors read every header field back as it was written, signed ones included, and the page is well sized and sound |
| PageFormat.PageLayout | jni/ogg/src/framing.c:424-497 | Every page byte by byte, in numbers (section 6 of RFC 3533): OggS, version, the flags 1, 2 and 4, granule position, serial and page number low-order byte first, the checksum over the page with zeros in its place, count and sizes of the segments, and behind the header just the segments |
| PageFormat.CrcFieldValue | jni/ogg/src/framing.c:296-299 | The checksum field is the 32-bit remainder, low-order byte first |
| Bytes.SignedFieldRoundTrip | jni/ogg/src/framing.c:45-70 | A signed value of n bytes survives being written least significant byte first and read in two's complement |
| Bytes.EndianBytes | jni/ogg/src/framing.c:443-457 | Byte i of a number is what division by 256 to the i leaves, counted from the front in little-endian and from the back in big-endian order |
| Resync.JudgeExtends | jni/ogg/src/framing.c:659-711 | A verdict on the bytes at hand, page or no page, is not changed by bytes that come later |
| Resync.JumpIsSafe | jni/ogg/src/framing.c:732-743 | The jump to the next letter O skips no place where a page starts, whatever follows, and is one loss of sync |
| Resync.PageOutRefines | jni/ogg/src/framing.c:757-785 | A call returns what comes next of the reference scanner that tries every offset: a page, or a hole where sync is lost and not again before the next page |
| Resync.DrainRefines | jni/ogg/src/framing.c:757-785 | Calling until more data is needed yields just the pages and holes of the reference scanner, in order |
| Resync.FeedRefines | jni/ogg/src/framing.c:610-785 | The same with more bytes arriving between the calls |
| Resync.ChunkIndependence | jni/ogg/src/framing.c:610-785 | For any byte stream and any cutting into pieces, each followed by draining, the pages and holes that come out, in order, are those of the reference scanner on the whole stream |
| Resync.ScanOfPages | jni/ogg/src/framing.c:659-785 | Sound pages one after the other are scanned back into just these pages, and sync is never lost |
| Resync.ScanIsSound | jni/ogg/src/framing.c:685-711 | Every page the scanner hands out is well sized and its checksum holds |
| SyncLayer.SyncState.constructor | jni/ogg/src/framing.c:580-586 | A new scanner holds nothing |
| SyncLayer.SyncState.Buffer | jni/ogg/src/framing.c:610-640 | Returned bytes are dropped, unread ones are kept through move and growth, and there is room |
| SyncLayer.SyncState.Wrote | jni/ogg/src/framing.c:642-647 | The bytes become unread input, also when a page header has been looked at already; refused exactly when they exceed the storage |
| SyncLayer.SyncState.ReadHeader | jni/ogg/src/framing.c:666-681 | Capture pattern and sizes: page sizes known, no page here, or more data needed |
| SyncLayer.SyncState.Verify | jni/ogg/src/framing.c:685-711 | The checksum is recomputed in the buffer itself, compared, and the buffer ends as it was |
| SyncLayer.SyncState.SyncFail | jni/ogg/src/framing.c:732-743 | The read mark moves to the next letter O, or to the end |
| SyncLayer.SyncState.PageSeek | jni/ogg/src/framing.c:659-744 | Page, bytes skipped or more data, as the verdict on the unread bytes says, with the new state |
| SyncLayer.SyncState.PageOut | jni/ogg/src/framing.c:757-785 | The loop over pageseek: page, one hole report per loss of sync, or more data |
| BurstErrors.BurstChangesCrc | jni/ogg/src/framing.c:280-301 | A burst of at most 32 bits in a byte string always changes its checksum |
| BurstErrors.BurstIsRejected | jni/ogg/src/framing.c:685-711 | A page damaged by such a burst outside capture pattern, checksum field and segment table is not taken for a page |
| BurstErrors.BodyBurstIsRejected | jni/ogg/src/framing.c:685-711 | In particular, damage to the body: pageseek skips, whatever bytes follow |
| Decoder.FirstPacketReady | jni/ogg/src/framing.c:980-992 | The gathering loop stops before lacing_packet, and on a segment |
| Decoder.PacketOutTakesNext | jni/ogg/src/framing.c:958-1010 | Each call hands out the next pending packet or hole, nothing exactly when none is pending, and keeps the invariant |
| Decoder.PageInKeepsInv | jni/ogg/src/framing.c:790-916 | For every page the order of the indices, whole packets before lacing_packet and only full segments behind it are kept |
| DecoderStream.StreamState.constructor | jni/ogg/src/framing.c:188-208 | A new stream state is the initial one |
| DecoderStream.StreamState.Compact | jni/ogg/src/framing.c:807-832 | Moving what is not yet returned to the front changes nothing a caller sees |
| DecoderStream.StreamState.ExpandBody | jni/ogg/src/framing.c:239-252 | Growing the body buffer keeps it |
| DecoderStream.StreamState.ExpandLacing | jni/ogg/src/framing.c:254-275 | Growing the lacing buffers keeps them |
| DecoderStream.StreamState.Unroll | jni/ogg/src/framing.c:841-854 | A page out of turn: the partial packet and its bytes go, a gap is noted unless no page number was expected |
| DecoderStream.StreamState.SkipLeading | jni/ogg/src/framing.c:858-872 | How many leading segments of a continued page are passed over, and their bytes |
| DecoderStream.StreamState.AppendSegments | jni/ogg/src/framing.c:874-905 | The kept segments, their bytes, the mark of the first one and the one granule position behind the last complete packet |
| DecoderStream.StreamState.MarkLastEntry | jni/ogg/src/framing.c:907-911 | The last entry gets the end-of-stream mark |
| DecoderStream.StreamState.PageIn | jni/ogg/src/framing.c:790-916 | Refines the decoder on values; false exactly for another serial number or a version above 0, and then nothing changes |
| DecoderStream.StreamState.MeasurePacket | jni/ogg/src/framing.c:980-992 | Count, bytes and end mark of the packet in front |
| DecoderStream.StreamState.NextEvent | jni/ogg/src/framing.c:958-1010 | Packet, hole or nothing; a hole is taken off even when only peeking |
| DecoderStream.StreamState.PacketOut | jni/ogg/src/framing.c:1012-1015 | Hands out and advances past the next packet or hole |
| DecoderStream.StreamState.PacketPeek | jni/ogg/src/framing.c:1017-1020 | Leaves a packet in place, but not a hole |
| DecoderStream.StreamState.Reset | jni/ogg/src/framing.c:930-949 | Nothing is held, and any page is taken as the next one |
| LossRecovery.LossRecoveryTheorem | jni/ogg/src/framing.c:790-1010 | For every well-formed page stream, every choice of lost pages and every timing of packet calls: what was handed out and what is pending is exactly what should be heard of the pages so far |
| LossRecovery.ExpectedIsExact | jni/ogg/src/framing.c:840-905 | That is, the packets all of whose pages arrived, in order, and one hole for each gap in front of a delivered page |
| LossRecovery.NoLoss | jni/ogg/src/framing.c:790-1010 | With nothing lost, every packet and no hole |
| LossRecovery.DeliverKeeps | jni/ogg/src/framing.c:790-916 | Delivering a page keeps the link between what the decoder holds and the reading of the whole stream |
| EndFlags.HeardIffNoFlagCuts | jni/ogg/src/framing.c:790-1010 | For streams with end-of-stream flags on any pages, empty ones and ones that end inside a packet too: end marks aside, packets and holes are those of the stream without the flags, whatever is lost, exactly when no flag is on a page inside a packet that ends on a later page |
| EndFlags.NoCutNoHarm | jni/ogg/src/framing.c:857-911 | Its first half: then the run is followed step by step by one on the stream without the flags |
| EndFlags.CutHarms | jni/ogg/src/framing.c:857-911 | Its second half: with the pages in front lost and the others delivered, there is a hole and as many packets as end on the last page, one more than those that arrived whole, and the first has just the bytes behind the page with the flag |
| EndFlags.FlagCutsPacket | jni/ogg/src/framing.c:857-911 | A stream for which this happens: a packet of 511 bytes on three pages, the second with the flag; the first lost, its last byte is handed out as a packet |
| JoinStream.JoinRecovery | jni/ogg/src/framing.c:930-949 | A decoder that was reset and gets some of the pages of a stream: the packets all of whose pages arrived, in order, and a hole for every gap behind the first page that arrived, none in front of it |
| JoinStream.JoinAtPage | jni/ogg/src/framing.c:930-949 | If nothing is lost from some page on: just the packets that start there or later, in order, and no hole |
| Demux.PageInTakesIffBelongs | jni/ogg/src/framing.c:834-836 | A page of another stream or version leaves the decoder as it was; any other page moves the expected page number on and is taken |
| Demux.OthersMakeNoDifference | jni/ogg/src/framing.c:790-1010 | From any state, with any pages of other streams in between and any calls: a decoder does what it does on the pages of its own stream alone |
| Demux.EachHearsItsOwn | jni/ogg/src/framing.c:790-1010 | Any number of logical streams in one, every page given to every decoder: each hears exactly the packets of its own stream all of whose pages came, and a hole for each gap |
| Demux.TwoStreams | jni/ogg/src/framing.c:790-1010 | In particular two streams with different serial numbers, pages of either lost and the rest interleaved in any way |
| Encoder.PacketSegs | jni/ogg/src/framing.c:313-314 | A packet of n bytes has n / 255 full segments and a shorter last one, which may be empty |
| Encoder.EntriesOfPacket | jni/ogg/src/framing.c:333-351 | Entry i holds bytes 255 i and on of the packet; just the first has the mark, and just the last the granule position of the packet, the others that of the packet before |
| Encoder.GranuleOfPage | jni/ogg/src/framing.c:404-418 | A later page has the granule position of the last packet that ends on it, or -1 |
| Encoder.PagesBreakAtPackets | jni/ogg/src/framing.c:404-420 | A later page ends inside a packet only if it is full or takes all there is |
| Encoder.FlushTakesSomething | jni/ogg/src/framing.c:517-519 | A forced flush returns nothing exactly when nothing is held, and otherwise holds less after it |
| PageTiming.PageOutIff | jni/ogg/src/framing.c:533-557 | Counting what is held: a call gives a page if and only if something is held and it is the first page, or a packet was flagged as the last, or 255 segments are held, or in front of a full page there is a place where more than nfill bytes and at least four packets end with a packet |
| PageTiming.PageTakes | jni/ogg/src/framing.c:384-486 | However it is asked for, the page has the first segments held and the rest stays: the first page up to the end of its packet, a later one up to the first such place, else as many as there are, 255 at most; without a page nothing changes |
| PageTiming.OneRightSize | jni/ogg/src/framing.c:384-421 | That determines the size of the page |
| PageTiming.FirstPageAtOnce | jni/ogg/src/framing.c:537-539 | In every run the first ogg_stream_pageout after the first packet gives a page |
| PageTiming.PageOutsFinish | jni/ogg/src/framing.c:537-539 | In every run with a packet flagged as the last, ogg_stream_pageout alone, called as often as segments are held, takes everything out; the last page has the end flag, and the pages hold exactly the packets submitted, marks included |
| PageTiming.PacketsCounted | jni/ogg/src/framing.c:355 | packetno counts the packets submitted |
| EncoderStream.StreamState.constructor | jni/ogg/src/framing.c:188-208 | A new stream state is the initial one |
| EncoderStream.StreamState.IovecIn | jni/ogg/src/framing.c:304-360 | Refines submission on values: pieces gathered, body kept through move and growth, lacing and granule entries, first mark, counters |
| EncoderStream.StreamState.PacketIn | jni/ogg/src/framing.c:362-367 | A packet in one piece |
| EncoderStream.StreamState.ChooseSegments | jni/ogg/src/framing.c:389-422 | Both loops compute the choice of the specification: segments, granule position and whether to go ahead |
| EncoderStream.StreamState.WriteHeader | jni/ogg/src/framing.c:424-478 | The header bytes, field by field, are those of the page described |
| EncoderStream.StreamState.RemoveEntries | jni/ogg/src/framing.c:489-492 | The entries on the page leave the front of the lacing buffers and their bytes are marked returned |
| EncoderStream.StreamState.EmitPage | jni/ogg/src/framing.c:424-500 | The page returned is the serialised, checksummed page of the specification, and the state moves on |
| EncoderStream.StreamState.FlushInternal | jni/ogg/src/framing.c:372-501 | Refines flushing on values |
| EncoderStream.StreamState.FlushFill | jni/ogg/src/framing.c:517-527 | Forced flush |
| EncoderStream.StreamState.PageOutFill | jni/ogg/src/framing.c:533-557 | Refines the unforced call on values, forced for the first page and once a packet was flagged as the last |
| Muxing.RunKeeps | jni/ogg/src/framing.c:304-557 | Every run of submissions and page calls keeps: pages and held entries are the packets cut up; continued and first marks, page numbers and granule positions as below; a page with the end flag has the last of the packets so far, one of them flagged; unless packets came after a flagged one, just that one is marked |
| Muxing.EncoderPaging | jni/ogg/src/framing.c:372-501 | In every run: page bodies are the front of the bytes submitted and the rest is still held; 1 to 255 segments and the right number on each page; only the first is marked first and it holds segments of the first packet alone; continued exactly on pages that start inside a packet; granule position 0 on the first page, on later ones that of the last packet that ends there, or -1 if none does |
| Muxing.StampedPage | jni/ogg/src/framing.c:404-418 | A page taken out keeps this of the granule positions of all pages, and the first mark on the first packet alone |
| Muxing.EosPage | jni/ogg/src/framing.c:436-437 | A page taken out keeps that end flags are on pages with the last of the packets so far, one of them flagged, and that marks are right as long as no packet follows a flagged one |
| Muxing.DrainKeeps | jni/ogg/src/framing.c:509-519 | Flushing until nothing comes terminates and keeps all of this |
| Muxing.DrainedPages | jni/ogg/src/framing.c:372-501 | After it the pages read back as the packets submitted; the last packet that ends on a page, and no other, has the end mark of the page and, except on the first page, its own granule position |
| Muxing.PacketMarks | jni/ogg/src/framing.c:980-1000 | Of the packets that end on a page of a well-formed stream just the last has the page's granule position and end mark |
| EndMarks.MarkedIffLastOnEndPage | jni/ogg/src/framing.c:304-1010 | In every run, packets after a flagged one or not, a packet is marked as the end exactly when it is the last that ends on a page with the flag |
| EndMarks.FlaggedIffEmptied | jni/ogg/src/framing.c:436-437 | In every run a page has the flag exactly when it empties the encoder and some packet so far was flagged |
| EndMarks.FinalPacketMarked | jni/ogg/src/framing.c:304-557 | Whenever pages are taken out, the final packet is marked exactly when it or an earlier one was flagged |
| EndMarks.MarksRightIffFlagAtEnd | jni/ogg/src/framing.c:304-557 | The marks are those submitted, whenever pages are taken out, exactly when no packet but the final one is flagged |
| EndMarks.LateMarkMoves | jni/ogg/src/framing.c:436-437 | A run in which they are not: two packets, the first flagged, the second marked |
| RoundTrip.ScannedBack | jni/ogg/src/framing.c:610-785 | Serialised pages in any pieces are scanned back into themselves without a loss of sync and say what they were made of |
| RoundTrip.MuxDemuxRoundTrip | jni/ogg/src/framing.c:304-1010 | Any packets, any interleaving with page calls, then flushed; the bytes in any pieces through the scanner; the pages into a decoder asked at any time: the packets in order, first mark on the first, granule position on the last packet of each page but the first, end marks as submitted if only the final packet has one |
| RoundTrip.DamagedRoundTrip | jni/ogg/src/framing.c:304-1010 | With pages lost on the way: the bytes of those left, in any pieces, through the scanner and the decoder, give the packets submitted less those with a segment on a lost page, and a hole for each gap |
| Demux.MultiplexedRoundTrip | jni/ogg/src/framing.c:304-1015 | Two muxers with different serial numbers, their pages interleaved in any way, the bytes in any pieces through the scanner, every page given to both demuxers, asked at any time: each hears what was submitted to its own muxer |
| BitOps.ShrAndLowDivide | jni/ogg/src/bitwise.c:28-36 | Right shift and mask are quotient and remainder by a power of two |
| BitPacking.DecodeEncode | jni/ogg/src/bitwise.c:83-166 | A field decoded from its own bits is the value masked to its width, both bit orders |
| BitPacking.WholeBytes | jni/ogg/src/bitwise.c:371-455 | Which order is which: a whole number of bytes is read as a little-endian number least significant bit first, and as a big-endian one most significant bit first |
| BitPacking.LsbByteBit | jni/ogg/src/bitwise.c:96-115 | Each bit of each byte stored by oggpack_write is the old bit or the field bit that belongs there |
| BitPacking.MsbByteBit | jni/ogg/src/bitwise.c:139-158 | The same for oggpackB_write |
| BitPacking.WriteAppends | jni/ogg/src/bitwise.c:83-166 | So a write appends the field to the bits written and leaves the rest of the last byte clear |
| BitPacking.GatherBit | jni/ogg/src/bitwise.c:391-404 | The word a read puts together from up to five bytes has the stream's bits in order |
| BitPacking.ReadDecodes | jni/ogg/src/bitwise.c:371-455 | What a read returns is the field that the next bits encode |
| PackedStreams.ReadIsLookThenAdvance | jni/ogg/src/bitwise.c:266-455 | A read of at most 32 bits is a look and an advance |
| PackedStreams.OverflowSticks | jni/ogg/src/bitwise.c:409-412 | Behind the end every read of any width fails |
| PackedStreams.BadWidthClears | jni/ogg/src/bitwise.c:84 | The packer is cleared exactly when it was, or when a width above 32 is among the writes, and stays so |
| PackedStreams.AlignFills | jni/ogg/src/bitwise.c:168-178 | After alignment the length is a multiple of 8, less than a byte longer, and the added bits are clear |
| PackedStreams.WrittenReadsBack | jni/ogg/src/bitwise.c:83-455 | Fields read back masked from any bits that start with what was written |
| PackedStreams.PackUnpack | jni/ogg/src/bitwise.c:83-505 | Round trip over the oggpack_bytes bytes for any list of fields of 0 to 32 bits, both orders; less than a byte is left, and a read for more fails and so do all after it |
| Bitwise.OggPackBuffer.WriteInit | jni/ogg/src/bitwise.c:40-49 | An empty packer in either order, with 256 bytes of room |
| Bitwise.OggPackBuffer.WriteClear | jni/ogg/src/bitwise.c:246-253 | Cleared: nothing held |
| Bitwise.OggPackBuffer.Reset | jni/ogg/src/bitwise.c:235-244 | Empty again, or still cleared |
| Bitwise.OggPackBuffer.Grow | jni/ogg/src/bitwise.c:85-93 | Growth keeps the bits |
| Bitwise.OggPackBuffer.StoreLsb | jni/ogg/src/bitwise.c:96-115 | The byte stores in place, branch by branch |
| Bitwise.OggPackBuffer.StoreMsb | jni/ogg/src/bitwise.c:139-158 | The byte stores in place, branch by branch |
| Bitwise.OggPackBuffer.WriteLsb | jni/ogg/src/bitwise.c:83-123 | Appends the low bits of the value; clears the packer for a width outside 0 to 32; does nothing to a cleared one |
| Bitwise.OggPackBuffer.WriteMsb | jni/ogg/src/bitwise.c:126-166 | The same, most significant bit first |
| Bitwise.OggPackBuffer.WriteAlign | jni/ogg/src/bitwise.c:168-178 | Zero bits up to the next byte |
| Bitwise.OggPackBuffer.WriteTrunc | jni/ogg/src/bitwise.c:60-80 | Back to the first bits written, the rest of the byte clear so that later writes append |
| Bitwise.OggPackBuffer.WriteCopy | jni/ogg/src/bitwise.c:180-233 | Appends just the first bits of the source, by bytes or as a block; clears the packer exactly when it is cleared already, or aligned and without room |
| Bitwise.CopyIntoNew | jni/ogg/src/bitwise.c:197-206 | A copy that clears the packer: 255 bytes into a new one |
| Bitwise.OggPackBuffer.ReadInit | jni/ogg/src/bitwise.c:255-264 | Reading starts at the first bit |
| Bitwise.OggPackBuffer.ByteTotal | jni/ogg/src/bitwise.c:499-501 | The bytes that hold the bits so far |
| Bitwise.OggPackBuffer.Look | jni/ogg/src/bitwise.c:266-326 | The next bits as a number, or nothing when they are not all there, in both orders |
| Bitwise.OggPackBuffer.Look1 | jni/ogg/src/bitwise.c:328-336 | The same for one bit |
| Bitwise.OggPackBuffer.Adv | jni/ogg/src/bitwise.c:338-356 | Moves on, or behind the end |
| Bitwise.OggPackBuffer.Adv1 | jni/ogg/src/bitwise.c:358-368 | Moves on by one bit, without a look at the end |
| Bitwise.OggPackBuffer.Read | jni/ogg/src/bitwise.c:371-455 | The next bits as a number and the new position; on failure the position is behind the end |
| Bitwise.OggPackBuffer.Read1 | jni/ogg/src/bitwise.c:457-497 | The same for one bit |
| WriteFifo.WriteIsSafe | jni/jni/FLACStreamEncoder.cpp:263-313 | Every branch of write finds what it needs: a buffer with room, the lock, no kill flag; and copies just the samples of the call |
| WriteFifo.DestroyIsSafe | jni/jni/FLACStreamEncoder.cpp:213-226 | So does the destructor up to the join |
| Recording.SamplesAreThoseRecorded | jni/jni/FLACStreamEncoder.cpp:438-475 | Samples of one or two bytes in two's complement, low-order byte first, are stored as the numbers they are, negative ones too |
| Recording.EncodedIsRecorded | jni/jni/FLACStreamEncoder.cpp:213-382 | In every run without encoder failures whose calls of write bring recorded blocks: what was encoded is the front of the samples recorded and the rest is on its way, in order; once the writer thread has ended, all of it was encoded |
| FifoSafety.StepKeeps | jni/jni/FLACStreamEncoder.cpp:213-430 | Every step of either thread and every call keeps the invariant |
| FifoSafety.EveryRun | jni/jni/FLACStreamEncoder.cpp:213-430 | So it holds in every state of every interleaving, and what was submitted is what write was called with |
| FifoSafety.NothingLostOnTheWay | jni/jni/FLACStreamEncoder.cpp:263-382 | Without encoder failures, encoded samples, the rest of the batch, the list, the entry on its way, the write buffer and what write has yet to copy are everything written, in order |
| FifoSafety.ShutdownLosesNothing | jni/jni/FLACStreamEncoder.cpp:213-226 | When the writer thread has ended, all buffers are empty for good; without failures all was encoded |
| FifoSafety.FailuresDropTheTail | jni/jni/FLACStreamEncoder.cpp:329-373 | Each batch is encoded up to an entry: those before it went through once within four tries, it failed four times, later ones were never tried; calls go in order |
| FifoSafety.AppendIsExclusive | jni/jni/FLACStreamEncoder.cpp:408-430 | The JNI thread appends under the lock while the writer does not look, and never to the writer's batch |
| FifoSafety.CopyFits | jni/jni/FLACStreamEncoder.cpp:438-459 | copyBuffer never writes behind the end of the write buffer |
| FifoSafety.BetweenCalls | jni/jni/FLACStreamEncoder.cpp:184-185 | Between two calls the JNI thread holds no lock and at most one write buffer, for 32768 samples |
| FifoWakeup.NoWakeupIsLost | jni/jni/FLACStreamEncoder.cpp:248-326 | In every run, once the writer has looked at the list: whenever it sleeps with something in the list it has been signalled or a signal is still to be sent; with no call going on it always has a step to take until the list is empty |
| FifoWakeup.WriteSignals | jni/jni/FLACStreamEncoder.cpp:263-313 | Whatever write puts into the list, a signal follows |
| FifoSafety.NothingAfterKill | jni/jni/FLACStreamEncoder.cpp:216-226 | Once the kill flag is set, the JNI thread has nothing left to hand over |
| FifoShutdown.KilledStepsCount | jni/jni/FLACStreamEncoder.cpp:320-382 | Once the kill flag is set every step is one less of a bounded number |
| FifoShutdown.ShutdownEnds | jni/jni/FLACStreamEncoder.cpp:213-226 | So no run goes on for ever |
| FifoShutdown.JoinReturnsIffWriterHadSlept | jni/jni/FLACStreamEncoder.cpp:219-226 | Spurious wakeups aside, the destructor can come back from the join exactly when its broadcast finds the writer past its first wait; then every run ends, and only with the destructor done |
| FifoShutdown.DestructorReturnsIffWriterHadStarted | jni/jni/FLACStreamEncoder.cpp:213-226 | From the call of the destructor, spurious wakeups aside, every run is bounded, and none gets stuck before the destructor is done exactly when the writer thread had taken the lock for the first time before the call |
| FifoShutdown.ShutdownCanHang | jni/jni/FLACStreamEncoder.cpp:320-326 | In particular an encoder destroyed as soon as it is made need not come back |
| FifoThreads.Last | jni/jni/FLACStreamEncoder.cpp:90-97 | The walk ends at the last node |
| FifoThreads.Link | jni/jni/FLACStreamEncoder.cpp:417-427 | The node goes behind the last one, and a list with no node in common is untouched |
| FifoThreads.FLACStreamEncoder.constructor | jni/jni/FLACStreamEncoder.cpp:127-142 | Nothing is held |
| FifoThreads.FLACStreamEncoder.Detach | jni/jni/FLACStreamEncoder.cpp:410-418 | The write buffer goes to a new entry |
| FifoThreads.FLACStreamEncoder.Append | jni/jni/FLACStreamEncoder.cpp:420-429 | The entry goes behind the list; no node of the writer's changes |
| FifoThreads.FLACStreamEncoder.CopyBuffer | jni/jni/FLACStreamEncoder.cpp:438-475 | Appends the samples to the write buffer, which are those that Recording.SamplesAreThoseRecorded says; bytes taken, or 0 for a sample size that is not copied |
| FifoThreads.FLACStreamEncoder.FlushToFifo | jni/jni/FLACStreamEncoder.cpp:408-430 | Appends the write buffer, if there is one |
| FifoThreads.FLACStreamEncoder.Write | jni/jni/FLACStreamEncoder.cpp:263-313 | The branches take just the steps that the transition system gives the call; and the value returned |
| FifoThreads.FLACStreamEncoder.TakeFifo | jni/jni/FLACStreamEncoder.cpp:329-333 | The list becomes the writer's, the shared one is empty |
| FifoThreads.FLACStreamEncoder.EncodeBatch | jni/jni/FLACStreamEncoder.cpp:335-372 | The nested loop with its retries meets the specification of a batch, and what was encoded is its front |
| JniAlone.WriteAlone | jni/jni/FLACStreamEncoder.cpp:263-313 | What the steps of one call come to when the other thread takes none: more than 32768 samples get a list entry of their own behind the buffer so far; others go into the buffer, a new one of 32768 if they do not fit |
| JniAlone.FlushCallAlone | jni/jni/FLACStreamEncoder.cpp:248-255 | flush puts the write buffer into the list |
| SaneFloat.WriteSane | jni/flac/src/flac/decode.c:859-888 | The loop finds the highest bit and terminates; the ten bytes are exponent, normalised value and zeros |
| SaneFloat.SaneMeans | jni/flac/src/flac/decode.c:859-888 | The ten bytes are the exponent of the highest bit, biased by 16383, and the rate times 2 to the 63 less that exponent |
| SaneFloat.ReadSane | jni/flac/src/flac/encode.c:2847-2878 | Value, nothing, end of file or error, as the bytes say |
| SaneFloat.RoundsToNearest | jni/flac/src/flac/encode.c:2875 | The shift and the rounding bit amount to the nearest whole number |
| SaneFloat.NearestIs | jni/flac/src/flac/encode.c:2875 | That number is less than a half away, or a half above |
| SaneFloat.ReadsNearest | jni/flac/src/flac/encode.c:2847-2878 | With the sign clear and 2 to the 0 up to 2 to the 62 as the exponent, biased by 16383: the whole number nearest to the significand with 63 binary places taken to that power, 32 bits of it; else an error |
| SaneFloat.SaneRoundTrip | jni/flac/src/flac/encode.c:2847-2878 | Every nonzero 32-bit rate written is read back, and the rounding bit is zero |
| PcmFormat.CodeRoundTrip | jni/flac/src/flac/decode.c:1077-1181 | A sample in range survives its container: one to three bytes, either byte order, signed or unsigned |
| PcmFormat.InterleavedAt | jni/flac/src/flac/decode.c:1077-1175 | Sample w of channel c comes at w times the number of channels plus c |
| PcmFormat.ContainerBytes | jni/flac/src/flac/decode.c:1077-1181 | Byte k of every container, for one to three bytes: that of the sample in two's complement, or with 128, 32768 or 8388608 added, low-order byte first or last |
| PcmFormat.PcmRoundTrip | jni/flac/src/flac/encode.c:2374-2464 | So do all samples, shifted to the top of the container and back |
| PcmBuffers.StoreSamples | jni/flac/src/flac/decode.c:1077-1175 | The loops over samples and channels store the interleaved samples, biased, in host order |
| PcmBuffers.SwapPairs | jni/flac/src/flac/decode.c:1112-1120 | Exchanges the bytes of every pair in place |
| PcmBuffers.SwapQuads | jni/flac/src/flac/decode.c:1135-1146 | Reverses the bytes of every four in place |
| PcmBuffers.Compact | jni/flac/src/flac/decode.c:1147-1165 | Four bytes down to three in place; nothing unread is overwritten |
| PcmBuffers.PackStereo | jni/flac/src/flac/decode.c:1060-1069 | The copied block of the first channel and every second sample from the other: same bytes as the general loops |
| PcmBuffers.PackMono | jni/flac/src/flac/decode.c:1070-1075 | Same bytes as the general loops |
| PcmBuffers.Pack | jni/flac/src/flac/decode.c:1060-1187 | Whatever branch is taken, the bytes are the interleaved samples in containers of the width asked for |
| PcmBuffers.PackFrame | jni/flac/src/flac/decode.c:1037-1187 | With the shift to the top of the container before |
| PcmInput.Load24 | jni/flac/src/flac/encode.c:2430-2448 | Three bytes put together by shifts are the sample they contain |
| PcmInput.LoadSamples | jni/flac/src/flac/encode.c:2388-2448 | Each channel gets its samples in order |
| PcmInput.DropLowBits | jni/flac/src/flac/encode.c:2453-2462 | Refused exactly when a low-order bit is set, shifted otherwise |
| PcmInput.FormatInput | jni/flac/src/flac/encode.c:2374-2464 | In place and out, through any channel map: the samples that the bytes contain, or a refusal |
| PcmInput.SamplesComeBack | jni/flac/src/flac/encode.c:2374-2464 | format_input of write_callback's bytes accepts them and gives back every sample of every channel |
| IffFile.CanonicalUntil | jni/flac/src/flac/decode.c:553-596 | Zero for the end of the stream exactly when it was asked for relatively, else within the input behind the skip point |
| IffFile.UntilMeans | jni/flac/src/flac/decode.c:553-596 | The sample meant: itself, counted back from the end of the input, or counted on from the skip point; an error exactly when that is not behind the skip point and within the input |
| IffFile.SamplesToDecode | jni/flac/src/flac/decode.c:1217-1240 | Skip point and samples to come add up to the until point or the end; refused exactly when the skip point is not within the input, or for the until point |
| IffFile.FmtChunkReadsBack | jni/flac/src/flac/decode.c:748-790 | A reader of the fmt chunk finds, in numbers: its letters and size, code 1 in the short form and 65534 in the long one, channels, rate, bytes in a second modulo 2 to the 32, block size and sample size, and in the long form the size of the rest, valid bits, channel mask and the 16 bytes of the GUID |
| IffFile.FmtForms | jni/flac/src/flac/decode.c:601 | The short form is for up to two channels, whole bytes and channel mask 0, 1 or 3 |
| IffFile.CommChunkReadsBack | jni/flac/src/flac/decode.c:792-817 | A reader of the COMM chunk finds its letters, size, channels, samples, sample size and rate again |
| IffFile.HeaderDeclares | jni/flac/src/flac/decode.c:598-746 | Both sizes in the header, and where the audio starts |
| IffFile.HeaderSections | jni/flac/src/flac/decode.c:640-743 | The letters RIFF, WAVE and data, or FORM, AIFF and SSND, as numbers in their places, the chunks between them, and offset and block size 0 |
| IffFile.SampleInFile | jni/flac/src/flac/decode.c:1037-1186 | Byte k of sample i in the file: WAVE with the low-order byte first, up to 8 bits with 128 added; AIFF with the high-order byte first; always shifted to the top of the container |
| IffFile.DecoderSession.WriteIffHeaders | jni/flac/src/flac/decode.c:598-746 | The header, refused when the sizes would not fit 32 bits, or without a sample count for standard output when warnings are errors |
| IffFile.DecoderSession.WriteCallback | jni/flac/src/flac/decode.c:1006-1186 | Skip point plus samples processed never passes the until point; of the block just the part in front of it is packed and written |
| IffFile.DecoderSession.WriteFrames | jni/flac/src/flac/decode.c:1006-1033 | Over all frames: up to the until point or the end, and just those samples' bytes |
| IffFile.DecoderSession.Process | jni/flac/src/flac/decode.c:407-493 | The file is header, the accepted samples shifted to the top of their containers and packed, and pad byte; they are as many as announced, if that was known, and the rate of an AIFF header can be read back |
| IffFile.DecoderSession.FixupIffHeaders | jni/flac/src/flac/decode.c:890-907 | Just the header is written over, with the samples processed; too large a size leaves the file as it was |
| IffFile.DecoderSession.DecodeFile | jni/flac/src/flac/decode.c:407-539 | The file in the end: with the number of samples unknown at first, the header has the one processed, unless it went to standard output |
| IffFile.AudioIsInFile | jni/flac/src/flac/decode.c:1037-1186 | What the frames are packed into, one by one, is all their samples packed |
| IffFile.AudioReadsBack | jni/flac/src/flac/decode.c:1037-1186 | A reader of the audio finds the samples of every legal format again |
| IffFile.DeclaredSizesMatch | jni/flac/src/flac/decode.c:485-493 | RIFF or FORM size and data or SSND size are those of the file, pad byte counted where it must be |
| IffFile.CorrectedSizesMatchIffEven | jni/flac/src/flac/decode.c:485-493 | When the number was not known at first: the size of the audio is right, and that of the file if and only if the audio has an even number of bytes |
| IffFile.OddFileIsShort | jni/flac/src/flac/decode.c:485-493 | One sample of 8 bits for which it is not |
| SectorAlign.Encoder.EncodeData | jni/flac/src/flac/encode.c:956-1112 | What one file encodes and leaves in the reservoir, also when the unsigned subtraction wraps around |
| SectorAlign.ReadChunks | jni/flac/src/flac/encode.c:1031-1068 | The chunk loop reads what is wanted, or to the end of the file when the count has wrapped |
| SectorAlign.WholeIffEnough | jni/flac/src/flac/encode.c:991-1027 | A file encodes whole sectors exactly when it is the last or has its remainder in samples of its own |
| SectorAlign.AlignedIffAllEnough | jni/flac/src/flac/encode.c:956-1112 | All files of a list do exactly when, for every one but the last, the samples so far leave over no more than it has |
| SectorAlign.NothingLostIffAllEnough | jni/flac/src/flac/encode.c:956-1112 | The encodings together are the inputs together and less than a sector of zeros exactly under the same condition |
| SectorAlign.ShortFileBreaksAlignment | jni/flac/src/flac/encode.c:1020-1025 | A list of stereo files for which both fail: for a middle file of 100 samples behind one carried over 101 are encoded, and 101 that are not its own in front of the last |
| MetadataRebuild.FLACDecoderData.Squeeze | jni/flac/src/flac/encode.c:1868-1884 | The blocks that stay, in order, squeezed together in place |
| MetadataRebuild.FLACDecoderData.Prepend | jni/flac/src/flac/encode.c:1893-1896 | The block goes in behind STREAMINFO, all others move up; nothing when the array is full |
| MetadataRebuild.FLACDecoderData.RebuildTags | jni/flac/src/flac/encode.c:1857-1898 | Comment blocks |
| MetadataRebuild.FLACDecoderData.RebuildCues | jni/flac/src/flac/encode.c:1899-1956 | Cue sheets |
| MetadataRebuild.FLACDecoderData.RebuildSeeks | jni/flac/src/flac/encode.c:1957-2011 | Seek tables |
| MetadataRebuild.FLACDecoderData.RebuildPadding | jni/flac/src/flac/encode.c:2012-2054 | Padding |
| MetadataRebuild.FLACDecoderData.Rebuild | jni/flac/src/flac/encode.c:1837-2057 | All steps in place refine the rebuilding on values, and stop where a warning is an error |
| MetadataRebuild.RebuiltShape | jni/flac/src/flac/encode.c:1837-2057 | STREAMINFO first; other blocks in order, pictures behind; with tags given just those, with the channel mask of the last comment block that has one, else the comment blocks of the file; the cue sheet given or those of the file whose lead-out is the known length; one seek table asked for, the file's own, or none; padding as asked for, else as much as all of the file's, else 8192 bytes, from 20 minutes on 65536, in one block at the end |
| MetadataRebuild.RebuiltList | jni/flac/src/flac/encode.c:1837-2057 | The same block by block: STREAMINFO, the new seek table, the cue sheet and the comments given, as far as there are any, then the blocks of the file that stay and the pictures, in order, then the padding |
| MetadataRebuild.PadLengthSums | jni/flac/src/flac/encode.c:2024-2031 | How much padding a file has: lengths of lists add up, one block counts its length |
| MetadataRebuild.RebuiltIffNothingLost | jni/flac/src/flac/encode.c:1868-2011 | With warnings as errors it stops if and only if the file has comments to be replaced, a cue sheet that is replaced or does not fit, or a seek table that is replaced or whose length changes; a seek table that is not wanted goes silently |
| MetadataRebuild.KindBehind | jni/flac/src/flac/encode.c:1885-1897 | Putting a block in changes its own kind only |
| MetadataRebuild.OtherKinds | jni/flac/src/flac/encode.c:1868-1884 | Dropping blocks of one kind leaves the others in order |

## Left out

Of the Ogg layer:

- Memory that runs out, null arguments, and the calls that only free memory.
- Packets, buffers and sums of 2^31 bytes and more, and streams of more than 2^31 pages: lengths and page numbers are unbounded.
- `ogg_page_packets`, `ogg_sync_reset`, `ogg_stream_reset_serialno`, `ogg_stream_eos` and `packetno` in packets: no state of interest.
- One stream state used for encoding and decoding at once: the two roles are two classes. A reset of an encoding stream only appears as page number -1.
- Pages and packets are returned as values, not as pointers into buffers that the next call overwrites.
- The flags kept in the upper bits of `lacing_vals` are fields of a datatype.
- LossRecovery.LossRecoveryTheorem: an end-of-stream page is taken to end with a packet, as the encoder makes it; EndFlags has the others, without their end marks, which then are on whatever entry was last.
- LossRecovery.DeliverKeeps: likewise.
- BurstErrors.BurstIsRejected: damage to the capture pattern or the segment table changes what the checksum is taken over, and no such claim holds for it.

Of the bit packer:

- Bitwise.OggPackBuffer.WriteTrunc: only back to bits that were written; the code does not look.
- Bitwise.OggPackBuffer.Adv: only by widths that are not negative; the code does not look.
- Bitwise.OggPackBuffer.WriteCopy: the source is a value, so a source inside the packer's own buffer is not covered.
- A result of -1 that a 32-bit `long` cannot tell from a failure: failures are an option type.

Of the writer thread:

- Memory-model effects and the inside of mutexes and condition variables: critical sections are atomic. Starting the thread.
- FifoThreads.FLACStreamEncoder.Write: proved for a call during which the writer thread does nothing; calls that are interrupted are covered by the transition system, whose steps are the same.
- FifoThreads.FLACStreamEncoder.EncodeBatch: likewise, on nodes that no step of the JNI thread can write to.
- Fewer than 8 bits per sample, which would divide by zero; samples are read in little-endian order; amplitudes and averages.

Of the FLAC front end:

- Decoding and encoding themselves, seeking, option parsing, cue sheets and seek points, ReplayGain, statistics, and foreign metadata.
- SaneFloat.ReadSane: exponent 63, which shifts by -1 and has no meaning in C.
- PcmBuffers.StoreSamples: one method for loops that differ in width and bias only; the unrolled loops for one and two channels are not modelled apart, the block copies are.
- IffFile.DecoderSession.Process: every frame decodes, and there are as many as a known number of samples says.
- SectorAlign.Encoder.EncodeData: nothing behind the data chunk, no pad byte, warnings not treated as errors; WAVE input only, as the other formats do the same.
- MetadataRebuild.RebuiltShape: with room in the array; what happens without is in the functions but not in this statement.
- Metadata of files that are not encoded from FLAC, and the merging of tags.
