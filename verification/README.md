# A model of the recorder: WebM muxer, parser, ring buffer, pixel primitives

A Dafny model of the parts of a screen recorder that carry its correctness.

* **EBML** (`Bytes`, `Ebml`, `EbmlWriter`, `EbmlReader`): sizes, writers and readers of variable-size integers, IDs,
  payloads and Void elements (RFC 8794), against an output that may refuse any write.
* **Muxer** (`Blocks`, `HoldBack`, `Clusters`, `Planning`, `Boundaries`, `SegmentMux`, `Recordings`, `SeekHeads`, `Cues`,
  `Relocation`): frames as blocks, the queue of audio frames, cluster boundaries, cues, back-patched sizes and SeekHead,
  and moving the Cues in front of the clusters. `Planning` says which frame goes to which cluster and which frames are
  taken at all; `SegmentMux` is proved to follow that plan, `Boundaries` says from frames, settings and bytes alone where
  its clusters begin and what is in them, and `Recordings` says which recordings it completes.
* **Parser** (`Lacing`, `BlockEntries`, `ClusterParser`, `CueReader`, `ClusterIndex`, and the reading half of
  `SeekHeads`): blocks with their lacing, block groups, clusters parsed entry by entry, cue points, and the searchable
  array of clusters (RFC 9559).
* **Both together** (`Playback`): what the muxer has written, cluster by cluster and after the Cues have been moved, is
  what the parser reads, and a cue leads to its block.
* **The whole way** (`Production`): frames in, a finished file, and its copy with the Cues in front, one step after the
  other; what the parser reads of the copy are the frames.
* **Bip buffer** (`BipBuffer`): a circular buffer in two blocks that is a plain queue.
* **Pixels** (`Planes`, `RectMove`, `PixelCompare`, `YCoCg`, `YCoCg420`, `YCoCgNeon`, `YCoCgPictures`): overlapping moves,
  difference rectangles, and the colour transform, each fast form with the plain meaning it has to have.
* **Timeline** (`Timeline`): the recorder over any clock and any encoder; what they and the muxer are given is logged
  by themselves.

Objects that the program updates in place are classes here, loops are loops, and each is proved against a function or
predicate that says what it is for; the lemmas then prove what that means. A "sound writer" below is one that does not
refuse a write. Where the code can fail, the failure is a result, not a precondition.

## What the proofs brought to light

* `WriteVoidElement` cannot fill every size: just where its size field grows (128..129, 16384..16386, ...) it computes a
  size that does not come out and reports 0; `VoidGaps` gives the exact set. The hole for the SeekHead stays clear of it.
* A SeekHead whose positions are all at their longest leaves less than two bytes in its hole and cannot be finalized
  (`HoleCanOverfill`); with two or more spare bytes it always can.
* `ChunkedCopy` does not look at what the writer answers: the copy it reports as a success is complete if and only if
  every write was answered with 0 (`CopiedExactly`), and `RefusedPiece` is a copy that lacks its first 2048 bytes.
* Audio that waits for a first video frame gives the first cluster its timecode, so a first video frame more than 0x7FFF
  ticks later is refused (`LateVideoRefused`, `FirstReach`). A recording with a video track but only audio frames has no
  cluster and cannot be completed (`OnlyWaiting`). Without such gaps every recording succeeds (`SmoothRecords`).
* Frames that wait in the queue are not checked against each other, so with the cues on an audio track the cues need not
  be in the order of time (`UnorderedCues`); `Record` gives the exact condition.
* A block with EBML lacing and a single frame is read as if the size of that frame were written (`LacingExact`).
* `ReadReserve` of nothing makes the buffer grow and then fails.
* `Grow` adds `size % 4096` and does not round up to a page; a reservation is lost when the buffer grows.
* The SSE2 form of the 32-bit comparison overlooks up to three columns unless the width is divisible by 4 or the last
  tile has fewer than 4 columns; `SimdAgrees` is the exact condition.
* A cue that gives no block number is found again only when its block is the first of the cluster, audio, or a video key
  frame (`CueFindsWithoutNumber`); the muxer gives the number whenever it is not 1, so its own cues are always found.
* The first image lasts `1000 / frame_rate` milliseconds, which is 0 above 1000 frames a second; `StartsIncrease` is the
  exact condition.
* The comment on the 16-bit transform allows -256 for the chroma samples; they never go below -255 (`LiftingInverts`).

## Model

| member | source | states |
|---|---|---|
| Ebml.UIntSizeIsLeast | libwebm/mkvmuxer/mkvmuxerutil.cc:202-218 | the unsigned size function gives the least number of bytes that hold the value, for every 64-bit value |
| Ebml.IntSizeIsLeast | libwebm/mkvmuxer/mkvmuxerutil.cc:220-225 | the signed size function gives the least number of bytes whose two's complement range holds the value, for every int64 |
| Ebml.CodedSizeIsLeast | libwebm/mkvmuxer/mkvmuxerutil.cc:184-200 | the coded size is the least length that leaves the all-ones pattern free, for every value up to 2^56 - 2 |
| Ebml.ElementSizesMatchEncodings | libwebm/mkvmuxer/mkvmuxerutil.cc:227-310 | every element-size function (master, unsigned with and without fixed size, signed, binary) is the length of the encoding that goes with it |
| EbmlWriter.SerializeInt | libwebm/mkvmuxer/mkvmuxerutil.cc:325-343 | success means exactly the low bytes of the value, most significant first (two's complement for negative values); sizes outside 1..8 are refused |
| EbmlWriter.WriteUIntSize | libwebm/mkvmuxer/mkvmuxerutil.cc:382-414 | success means the marked value of exactly the given size, or of the least size when 0 is given, and only values short of the reserved all-ones pattern; on a sound writer these always succeed |
| EbmlWriter.WriteUInt | libwebm/mkvmuxer/mkvmuxerutil.cc:373-380 | writes the shortest variable-size integer; succeeds on a sound writer for every value up to 2^56 - 2 |
| EbmlWriter.WriteID | libwebm/mkvmuxer/mkvmuxerutil.cc:416-425 | writes the ID in its own bytes |
| EbmlWriter.WriteEbmlMasterElement | libwebm/mkvmuxer/mkvmuxerutil.cc:427-438 | writes ID and payload size; success means exactly that header |
| EbmlWriter.WriteUIntElement | libwebm/mkvmuxer/mkvmuxerutil.cc:444-465 | writes an unsigned element, of a fixed size when one is given; fails when the value does not fit the fixed size, or that is above 8 |
| EbmlWriter.WriteIntElement | libwebm/mkvmuxer/mkvmuxerutil.cc:467-482 | writes a signed element in the least number of bytes |
| EbmlWriter.WriteBinaryElement | libwebm/mkvmuxer/mkvmuxerutil.cc:517-532 | writes a binary element; refuses an empty one |
| EbmlWriter.WriteVoidElement | libwebm/mkvmuxer/mkvmuxerutil.cc:571-605 | fills exactly the asked number of bytes with a Void element or reports 0; on a sound writer it succeeds exactly for the sizes that have such an element |
| EbmlWriter.VoidGaps | libwebm/mkvmuxer/mkvmuxerutil.cc:571-605 | the exact sizes for which a Void element comes out: 2 up to 2^31 + 5, without the gaps 2^7s .. 2^7s + s where the size field has just grown |
| EbmlReader.ReadUInt | libwebm/mkvparser/mkvparser.cc:62-109 | reads the marked integer at a position together with its length, and fails exactly when there is none |
| EbmlReader.VintRoundTrip | libwebm/mkvparser/mkvparser.cc:62-109 | reading undoes writing for every value up to 2^56 - 2, in the coded size, and never yields the value reserved for an unknown size |
| EbmlReader.ReadID | libwebm/mkvparser/mkvparser.cc:118-170 | reads the ID at a position together with its length, and fails exactly when there is none |
| EbmlReader.IdRoundTrip | libwebm/mkvparser/mkvparser.cc:118-170 | reading undoes writing for every valid ID |
| EbmlReader.UnserializeUInt | libwebm/mkvparser/mkvparser.cc:209-230 | the value of one to eight bytes, which turns negative from 2^63 on; any other size is refused |
| EbmlReader.UIntPayloadRoundTrip | libwebm/mkvparser/mkvparser.cc:209-230 | an unsigned payload written at any sufficient size is read back |
| EbmlReader.ToInt64Keeps | libwebm/mkvparser/mkvparser.cc:209-230 | the signed result keeps an unsigned value exactly below 2^63, and is negative otherwise |
| EbmlReader.UnserializeInt | libwebm/mkvparser/mkvparser.cc:290-320 | the two's complement value of one to eight bytes; fails exactly when the bytes are not there or the size is wrong |
| EbmlReader.IntPayloadRoundTrip | libwebm/mkvparser/mkvparser.cc:290-320 | a signed payload written at its least (or any sufficient) size is read back, for every int64 |
| EbmlReader.ParseElementHeader | libwebm/mkvparser/mkvparser.cc:352-391 | reads ID, size and payload position without passing the given end, and fails exactly when there is no such header |
| EbmlReader.HeaderRoundTrip | libwebm/mkvparser/mkvparser.cc:352-391 | the parser finds every header the muxer writes |
| SeekHeads.SeekHead.AddSeekEntry | libwebm/mkvmuxer/mkvmuxer.cc:2846-2855 | takes the first free entry; fails exactly when there is none |
| SeekHeads.SeekHead.SetSeekEntry | libwebm/mkvmuxer/mkvmuxer.cc:2869-2875 | sets one entry and no other; fails exactly for an index out of range |
| SeekHeads.SeekHead.Write | libwebm/mkvmuxer/mkvmuxer.cc:2832-2844 | leaves a hole of the reserved size at the position it remembers |
| SeekHeads.SeekHead.Finalize | libwebm/mkvmuxer/mkvmuxer.cc:2768-2830 | when it succeeds on a seekable writer, SeekHead and Void cover exactly the reserved bytes, all other bytes and the position are as before; on a sound writer it succeeds exactly when at least two spare bytes are left; a start of -1 is refused |
| SeekHeads.SpareBound | libwebm/mkvmuxer/mkvmuxer.cc:2877-2888 | the hole is never too small for the entries, and a Void fits what is left exactly when that is at least two bytes |
| SeekHeads.HoleCanOverfill | libwebm/mkvmuxer/mkvmuxer.cc:2768-2830 | entries exist that leave no spare byte, and others that leave one: the two cases in which finalizing fails |
| SeekHeads.ParseEntry | libwebm/mkvparser/mkvparser.cc:1738-1819 | parses one Seek element; succeeds exactly when it holds an ID and a position and nothing else |
| SeekHeads.Parse | libwebm/mkvparser/mkvparser.cc:1497-1596 | collects all entries between two positions, passing over entries that do not parse, and the places of all Void elements; fails exactly when an element does not fit |
| SeekHeads.SeekHeadRoundTrip | libwebm/mkvparser/mkvparser.cc:1497-1596 | the parser reads back the IDs and positions that the muxer wrote |
| SeekHeads.ParsedAmong | libwebm/mkvparser/mkvparser.cc:1497-1596 | among elements of any kind the entries found are those of the Seek elements that parse, and the Void elements found stand where they begin with the length they have |
| Cues.CuePoint.Write | libwebm/mkvmuxer/mkvmuxer.cc:294-347 | writes exactly the counted bytes of a cue point, unless its track or position was never set |
| Cues.CueMonotone | libwebm/mkvmuxer/mkvmuxer.cc:349-369 | moving a cue point further never makes it smaller |
| Cues.CueList.AddCue | libwebm/mkvmuxer/mkvmuxer.cc:391-421 | appends the cue with the list's choice about block numbers |
| Cues.CueList.Size | libwebm/mkvmuxer/mkvmuxer.cc:433-439 | the size of the element for the present positions |
| Cues.CueList.Write | libwebm/mkvmuxer/mkvmuxer.cc:441-477 | writes exactly as many bytes as the size function says |
| Cues.RelocationUnique | libwebm/mkvmuxer/mkvmuxer.cc:3123-3174 | there is only one least distance that equals the size of the Cues moved by it, however it is found |
| Cues.SizeMonotone | libwebm/mkvmuxer/mkvmuxer.cc:349-439 | the element never gets smaller when positions grow |
| Relocation.MoveCuesBeforeClustersHelper | libwebm/mkvmuxer/mkvmuxer.cc:3123-3150 | from every state in which no cue has moved too far the mutual recursion terminates (the bounded total size grows at each level) and has moved this cue by what was due and every cue by the growth of the element |
| Relocation.Segment.MoveCuesBeforeClusters | libwebm/mkvmuxer/mkvmuxer.cc:3152-3174 | every cue moves by the final size of the Cues element, which is the least consistent distance; the Cues and Cluster seek entries follow |
| Relocation.MovedEntries | libwebm/mkvmuxer/mkvmuxer.cc:3163-3174 | the Cues take over the position of the first cluster, the cluster's grows by the size of the Cues, and other entries stay |
| Relocation.ChunkedCopy | libwebm/mkvmuxer/mkvmuxer.cc:150-166 | answers true exactly when the whole range can be read; the file gets exactly the pieces the writer has taken, so the copy is complete if and only if every write was answered with 0 |
| Relocation.CopiedExactly | libwebm/mkvmuxer/mkvmuxer.cc:150-166 | the bytes taken are the range exactly when no piece was refused; else there are fewer |
| Relocation.RefusedPiece | libwebm/mkvmuxer/mkvmuxer.cc:150-166 | a writer that refuses the first of two pieces is left with the last byte alone |
| Relocation.Segment.CopyAndMoveCuesBeforeClusters | libwebm/mkvmuxer/mkvmuxer.cc:3190-3224 | the file is what the pieces taken of headers and clusters make with the new Cues, hole and size between them, and it is the file that is wanted if and only if no piece was refused; on a sound writer none is, and it succeeds whenever the hole leaves two spare bytes and the cues are complete |
| Relocation.CopyExactly | libwebm/mkvmuxer/mkvmuxer.cc:3190-3224 | whatever pieces of headers and clusters are refused, one is enough to spoil the copy: the wanted file comes out exactly when all are taken |
| Relocation.RelocatedMeaning | libwebm/mkvmuxer/mkvmuxer.cc:3190-3224 | every cluster byte is found again, moved by the size of the Cues; of the headers only the hole and the size field are new |
| Relocation.CuesStillPoint | libwebm/mkvmuxer/mkvmuxer.cc:3123-3224 | in the copy, what stands at and behind a cue's new position is what stood at and behind its old one |
| Blocks.WriteSimpleBlock | libwebm/mkvmuxer/mkvmuxerutil.cc:153-180 | success means exactly the bytes of a SimpleBlock, and the result is their number |
| Blocks.WriteBlock | libwebm/mkvmuxer/mkvmuxerutil.cc:35-151 | success means exactly the bytes of a BlockGroup with its block, additions, discard padding, reference and duration in that order, and the result is their number |
| Blocks.GroupSizes | libwebm/mkvmuxer/mkvmuxerutil.cc:37-90 | the sizes counted before writing are the lengths of what is then written |
| Blocks.WriteFrame | libwebm/mkvmuxer/mkvmuxerutil.cc:550-569 | writes a valid frame in one of the two forms; refuses an invalid frame, a zero scale, and a time before the cluster or more than 0x7FFF after it; on a sound writer it succeeds for all others |
| ClusterParser.Cluster.ParseSimpleBlock | libwebm/mkvparser/mkvparser.cc:6427-6523 | succeeds exactly when there is a block with track, timecode, flags and at least one byte more; appends its entry and moves on |
| ClusterParser.Cluster.ParseBlockGroup | libwebm/mkvparser/mkvparser.cc:6525-6732 | succeeds exactly when both passes over the children do and the block can be read; appends its entry with discard padding and moves on |
| ClusterParser.Cluster.CreateBlockGroup | libwebm/mkvparser/mkvparser.cc:7159-7264 | collects the first block, the last duration and the references of a checked group, and reads the block |
| ClusterParser.CheckChild | libwebm/mkvparser/mkvparser.cc:6616-6717 | what the first pass demands of a child: eight bytes at most of discard padding, room in a Block |
| ClusterParser.Collect | libwebm/mkvparser/mkvparser.cc:7198-7227 | what the second pass takes from a child: the first Block, durations, and references by their sign |
| BlockEntries.BlockReadsBack | libwebm/mkvparser/mkvparser.cc:7607-7690 | the body of a written block reads back as its track, timecode, flags and exact payload |
| BlockEntries.ReferencePasses | libwebm/mkvparser/mkvparser.cc:7211-7227 | a reference is read as the ticks of its time, written unsigned in the least number of bytes and read as a signed number of as many; whatever the value, it makes the group not a key frame, and a key frame has none |
| BlockEntries.FrameRoundTrip | libwebm/mkvparser/mkvparser.cc:6427-6732 | parsing what WriteFrame writes gives back track, relative timecode, key flag and payload; a frame is a group exactly when it has additions, padding or a duration, and then the padding, the duration in whole ticks (none below one tick) and the reference are read too; the element ends where the frame's bytes end |
| BlockEntries.AdditionsReadBack | libwebm/mkvmuxer/mkvmuxerutil.cc:111-132 | the additional bytes of a frame and their number are in the group, as elements within elements, to be read by whoever looks for them |
| BlockEntries.SimpleExact | libwebm/mkvparser/mkvparser.cc:6427-6523 | a SimpleBlock in the file is read exactly when its frames are laced as its flags say, and the highest bit of the flags makes it a key frame |
| BlockEntries.GroupAmong | libwebm/mkvparser/mkvparser.cc:6525-6732 | a BlockGroup with children of any kind in any order gives the first Block, the last duration, the last padding and the last reference to either side |
| ClusterParser.Cluster.Load | libwebm/mkvparser/mkvparser.cc:6012-6235 | finds the timecode in front of the first block, and the end of the cluster when its size is known; fails exactly when there is no such cluster, and does nothing the second time |
| ClusterParser.FindTimecode | libwebm/mkvparser/mkvparser.cc:6102-6223 | the last timecode before the first block; fails exactly when one of the two is missing or an element does not fit |
| ClusterParser.Cluster.Parse | libwebm/mkvparser/mkvparser.cc:6237-6425 | adds exactly the next of all the entries the cluster has, or finds that there are no more; what all of them are never changes |
| ClusterParser.NextBlock | libwebm/mkvparser/mkvparser.cc:6266-6397 | passes over other elements to the next block; ends at the end of the cluster, of the file, or where a cluster or the Cues begin |
| ClusterParser.EntriesAmong | libwebm/mkvparser/mkvparser.cc:6266-6397 | among elements of any kind the entries of a cluster are those of its blocks, in their order, for a cluster with a size and for one that ends with the file or where another cluster or the Cues begin |
| ClusterParser.LastTimecode | libwebm/mkvparser/mkvparser.cc:6102-6223 | whatever elements stand before the first block, other timecodes among them, the last timecode is the cluster's |
| ClusterParser.DoneAgain | libwebm/mkvparser/mkvparser.cc:6266-6397 | where parsing has ended it ends again |
| ClusterParser.Cluster.GetLast | libwebm/mkvparser/mkvparser.cc:7323-7352 | parses all entries; succeeds exactly when the whole cluster can be parsed |
| ClusterParser.Cluster.GetEntry | libwebm/mkvparser/mkvparser.cc:7456-7553 | the entry a cue means, as if all entries had been parsed, though no more are parsed than needed |
| CueReader.ParsePosition | libwebm/mkvparser/mkvparser.cc:2385-2429 | track, cluster and block of one position; fails exactly when track or cluster is missing; the block is 1 when it is not given |
| CueReader.CuePoint.Load | libwebm/mkvparser/mkvparser.cc:2264-2383 | reads time and positions in two passes, once; fails exactly when the time or every position is missing or something does not fit |
| CueReader.Cues.Init | libwebm/mkvparser/mkvparser.cc:1861-1938 | finds the place of every cue point; fails exactly when an element does not fit |
| CueReader.Cues.LoadCuePoint | libwebm/mkvparser/mkvparser.cc:1940-2002 | loads the next cue point in order; stops for good exactly when there is none left or the next one is bad |
| CueReader.Cues.Find | libwebm/mkvparser/mkvparser.cc:2004-2067 | for cue points in the order of time, the last one not later than a time, or the first when none is earlier; in any order never one that is later |
| CueReader.FindPosition | libwebm/mkvparser/mkvparser.cc:2431-2449 | the first position of a track |
| CueReader.PositionIsFirst | libwebm/mkvparser/mkvparser.cc:2431-2449 | that is the first of all positions of the track, and there is one exactly when the track has any |
| CueReader.PointReadsBack | libwebm/mkvparser/mkvparser.cc:2264-2429 | a cue point is read with the time, track, cluster and block it was written with |
| CueReader.PositionAmong | libwebm/mkvparser/mkvparser.cc:2385-2429 | fields in any order, repeated or with others among them: the last track, cluster and block number count, the number is 1 if there is none, and without track or cluster there is no position |
| CueReader.PointAmong | libwebm/mkvparser/mkvparser.cc:2264-2383 | a cue point with positions for any number of tracks has them all, in their order, and the last time; without a time or a position it is not read |
| CueReader.PlacesAmong | libwebm/mkvparser/mkvparser.cc:1861-1938 | of the elements in the Cues exactly the cue points are found, in their order |
| CueReader.CuesReadBack | libwebm/mkvparser/mkvparser.cc:1861-2002 | the parser finds as many cue points as the muxer wrote, each as it was written |
| SegmentMux.CuesInOrder | libwebm/mkvmuxer/mkvmuxer.cc:3507-3593 | when the blocks of the cue track come in the order of time, so do the cues |
| Playback.FrameStep | libwebm/mkvparser/mkvparser.cc:6237-6732 | at a frame that was written the parser stops, reads it, and goes on exactly behind it |
| Playback.BlocksGiveBack | libwebm/mkvparser/mkvparser.cc:6237-6732 | from any block of a cluster on, the entries are the frames that were written, in their order |
| Playback.ClusterLoads | libwebm/mkvparser/mkvparser.cc:6012-6235 | loading undoes writing: timecode and end of every complete cluster that has a block |
| Playback.ClusterPlaysBack | libwebm/mkvparser/mkvparser.cc:6012-6425 | every complete cluster, with its size or without, is read as its timecode and exactly its frames in their order |
| Playback.RecordingPlaysBack | libwebm/mkvparser/mkvparser.cc:6012-6425 | every cluster of a recording is read back where its position says, wherever the recording stands |
| Playback.RecordedPlaysBack | libwebm/mkvmuxer/mkvmuxer.cc:3226-3593 | a whole recording: from the frames given to the muxer to the file, and from the file to the same frames |
| Playback.CueFinds | libwebm/mkvparser/mkvparser.cc:7456-7500 | following a cue finds the first block of its track in its cluster, with exactly the time of the cue |
| Playback.CueFindsWithoutNumber | libwebm/mkvparser/mkvparser.cc:7456-7553 | a cue without block number finds its block exactly when that is the first one, or audio, or a video key frame |
| Playback.RelocatedCueFinds | libwebm/mkvmuxer/mkvmuxer.cc:3123-3224 | after the Cues have been moved in front, a cue leads to its cluster and its block |
| Playback.RelocatedFilePlays | libwebm/mkvmuxer/mkvmuxer.cc:3123-3224 | in the copy with the Cues in front all cues are read as they were made but for the moved positions, and each leads to its cluster and its block |
| Playback.RecordedCopyPlays | libwebm/mkvmuxer/mkvmuxer.cc:3123-3593 | from the frames given to the muxer to the copy made with the Cues in front: the parser reads every recorded cue from the copy, and each leads to its cluster, played back, and its block |
| Playback.LoadedInOrder | libwebm/mkvparser/mkvparser.cc:2004-2067 | cue points loaded from cues in the order of time meet what searching by halving needs |
| Production.CueFits | libwebm/mkvmuxer/mkvmuxer.cc:3390-3413 | in whatever was recorded a cue names a track, a cluster inside the file and a block the file has room for, and gives the number of its block |
| Production.WriteTail | libwebm/mkvmuxer/mkvmuxer.cc:3290-3335 | behind the clusters come the Cues, in front of them the SeekHead fills its hole and the size field has the size of it all, and the clusters stay as they were |
| Production.Produce | libwebm/mkvmuxer/mkvmuxer.cc:3226-3345 | from frames to the finished file, every part of it in its place, with the frames and cues that were recorded |
| Production.MoveAndCopy | libwebm/mkvmuxer/mkvmuxer.cc:3190-3224 | all cues of a recording move by the final size of the Cues, and the copy is played back through them unless the writer refused a piece |
| Production.RecordAndMove | libwebm/mkvmuxer/mkvmuxer.cc:3190-3345 | recording, finishing, moving and copying one after the other: the frames given are those that the parser reads from the copy, every cue leads to its block there, in the order of time if the cue track was; with sound writers and a free seek entry it succeeds for whatever fits a terabyte |
| Lacing.Block.Parse | libwebm/mkvparser/mkvparser.cc:7607-7690 | reads track, timecode, flags and the frames of a block, and fails exactly when they are not there |
| Lacing.ParseFrames | libwebm/mkvparser/mkvparser.cc:7666-7975 | the frame array for each kind of lacing, lengths first and positions patched in afterwards |
| Lacing.XiphFrames | libwebm/mkvparser/mkvparser.cc:7715-7782 | the lengths of Xiph-laced frames; fails exactly when one of them is missing or not positive |
| Lacing.FixedFrames | libwebm/mkvparser/mkvparser.cc:7800-7828 | equal lengths; fails exactly when the rest of the block is not a positive multiple of the number of frames |
| Lacing.EbmlFrames | libwebm/mkvparser/mkvparser.cc:7834-7958 | the lengths of EBML-laced frames from signed differences; fails exactly when one is missing, not positive or out of range |
| Lacing.Patch | libwebm/mkvparser/mkvparser.cc:7784-7798 | gives every frame its position: one behind the other up to the end of the block |
| Lacing.LacingTiles | libwebm/mkvparser/mkvparser.cc:7607-7975 | whenever a block can be read, what stands behind its count byte is a lacing header of some sizes as in section 10.3 of RFC 9559, and its frames are exactly of these sizes: the first starts where the header ends, they follow each other, have positive lengths and end where the block ends |
| Lacing.LacingExact | libwebm/mkvparser/mkvparser.cc:7666-7975 | frames are read from a laced block if and only if it holds a lacing header of some sizes that fill it, and they are of just these sizes |
| Lacing.XiphLacingRoundTrip | libwebm/mkvparser/mkvparser.cc:7715-7798 | frames laced by section 10.3.2 of RFC 9559 are found with exactly their sizes |
| Lacing.FixedLacingRoundTrip | libwebm/mkvparser/mkvparser.cc:7800-7832 | frames laced by section 10.3.4 of RFC 9559 are found with exactly their sizes |
| Lacing.EbmlLacingRoundTrip | libwebm/mkvparser/mkvparser.cc:7834-7971 | frames laced by section 10.3.3 of RFC 9559 are found with exactly their sizes, for every choice of code lengths |
| Lacing.BlockExact | libwebm/mkvparser/mkvparser.cc:7607-7690 | a whole block is read exactly when its frames are laced as two bits of its flags say, 0x02 for Xiph, 0x04 for equal sizes, 0x06 for EBML lacing, and none for one frame, whatever the other bits are |
| Lacing.XiphBlockRoundTrip | libwebm/mkvparser/mkvparser.cc:7715-7798 | a block with the flag bits 0x02 and a Xiph header for sizes that fill it is read as frames of these sizes |
| Lacing.FixedBlockRoundTrip | libwebm/mkvparser/mkvparser.cc:7800-7832 | the same with the flag bits 0x04 and equal sizes |
| Lacing.EbmlBlockRoundTrip | libwebm/mkvparser/mkvparser.cc:7834-7971 | the same with the flag bits 0x06 and an EBML header, whatever code lengths are chosen |
| ClusterIndex.Segment.AppendCluster | libwebm/mkvparser/mkvparser.cc:1335-1392 | puts a loaded cluster behind the loaded ones exactly when its index is their number; otherwise nothing changes |
| ClusterIndex.Segment.PreloadCluster | libwebm/mkvparser/mkvparser.cc:1394-1446 | inserts a cluster known by position at a slot that is not among the loaded ones; otherwise nothing changes |
| ClusterIndex.Segment.LoadCluster | libwebm/mkvparser/mkvparser.cc:1224-1302 | the next cluster in the file becomes the last loaded one: the first preloaded one when that is where it is, else a new one |
| ClusterIndex.Segment.FindOrPreloadCluster | libwebm/mkvparser/mkvparser.cc:2193-2250 | returns the cluster at a position, or inserts one there, keeping positions strictly increasing; none exactly for a negative position or one between loaded clusters, and then nothing changes |
| ClusterIndex.Segment.FindTwice | libwebm/mkvparser/mkvparser.cc:2193-2250 | asking again gives the same cluster |
| ClusterIndex.InsertedSorted | libwebm/mkvparser/mkvparser.cc:1394-1446 | inserting at the slot that binary search finds keeps positions strictly increasing |
| ClusterIndex.Segment.ShiftUp | libwebm/mkvparser/mkvparser.cc:1433-1441 | moves the preloaded clusters up by one slot in place, last one first |
| Clusters.Cluster.WriteClusterHeader | libwebm/mkvmuxer/mkvmuxer.cc:2729-2753 | writes ID, unknown size and timecode; the payload size then counts the bytes behind the size field |
| Clusters.Cluster.DoWriteFrame | libwebm/mkvmuxer/mkvmuxer.cc:2658-2672 | writes one frame behind those before; the payload size stays the number of bytes behind the size field, and the frame is within reach of the cluster |
| Clusters.Cluster.QueueOrWriteFrame | libwebm/mkvmuxer/mkvmuxer.cc:2674-2727 | writes at once, or queues the frame and writes exactly those of its track, short of the last, up to the first for which another track holds an earlier frame; on a sound writer it succeeds for a valid frame when what its track holds is within reach |
| Clusters.Cluster.PickEarliest | libwebm/mkvmuxer/mkvmuxer.cc:2567-2577 | the track whose first stored frame is the earliest, the lowest of them when several are |
| Clusters.Cluster.WriteHeld | libwebm/mkvmuxer/mkvmuxer.cc:2564-2600 | the k-way merge: everything held is written in the order of time, and a frame gains a duration exactly when it is the last of its track; it succeeds on a sound writer when all that is held is within reach |
| Clusters.Cluster.Finalize | libwebm/mkvmuxer/mkvmuxer.cc:2560-2621 | the cluster in the file is complete: its size field (on a seekable writer) is the number of bytes behind it, and these are its timecode and its blocks; on a sound writer, with all held frames within reach, it succeeds exactly when the size can be written |
| Clusters.MergeAll | libwebm/mkvmuxer/mkvmuxer.cc:2560-2727 | frames held back in any successful run are all written, as a permutation, in the order of time and of each track, and only the last frame of a track can gain a duration; on a sound writer a run of less than four million frames succeeds exactly when all of them are within reach of the cluster, and a longer one if moreover the size of the cluster can be written |
| Clusters.QueuedHolds | libwebm/mkvmuxer/mkvmuxer.cc:2674-2727 | for frames in the order of time, queueing keeps the merge invariant: each track in order, nothing held earlier than anything written |
| HoldBack.MayGoUnique | libwebm/mkvmuxer/mkvmuxer.cc:2690-2718 | only one number of queued frames may be written |
| HoldBack.Arrives | libwebm/mkvmuxer/mkvmuxer.cc:2684-2688 | a frame not earlier than those before joins the held ones and keeps the merge invariant |
| HoldBack.Leaves | libwebm/mkvmuxer/mkvmuxer.cc:2566-2601 | the earliest first frame may be written and keeps the merge invariant |
| HoldBack.LeavesAs | libwebm/mkvmuxer/mkvmuxer.cc:2579-2588 | a frame gains a duration exactly when it is the only one its track still holds |
| HoldBack.DurationsEnd | libwebm/mkvmuxer/mkvmuxer.cc:2579-2588 | a frame that gains a duration ends at the time given, and refers to the frame before it in its track if it is no key frame and has no reference; nothing else of any frame changes |
| HoldBack.QueuedMeans | libwebm/mkvmuxer/mkvmuxer.cc:2678-2727 | queueing a frame writes frames of its track from the front, none later than what another track holds back, and what stays is the new frame alone or waits for an earlier frame of another track |
| HoldBack.MergeIsPermutation | libwebm/mkvmuxer/mkvmuxer.cc:2560-2601 | when nothing is held any more, what was written is what came, each track in order |
| SegmentMux.Segment.TestFrame | libwebm/mkvmuxer/mkvmuxer.cc:3774-3844 | when a new cluster is due by the plan, and when the answer is 2 or -1; `Boundaries.ClustersDivided` says without the plan where clusters begin |
| SegmentMux.Segment.DoNewClusterProcessing | libwebm/mkvmuxer/mkvmuxer.cc:3921-3951 | called as AddGenericFrame calls it, the test answers 0 or 1, so there is one pass; a cluster is begun exactly when one is due, and the queue is written |
| SegmentMux.Segment.MakeNewCluster | libwebm/mkvmuxer/mkvmuxer.cc:3846-3919 | the old cluster gets the early part of the queue and is complete; the new one has the timecode of the frame or of the first frame still queued, and stands at the present offset in the segment; on a sound writer it succeeds exactly when the old cluster can be completed |
| SegmentMux.Segment.WriteFramesAll | libwebm/mkvmuxer/mkvmuxer.cc:4077-4116 | writes the whole queue in order |
| SegmentMux.Segment.WriteFramesLessThan | libwebm/mkvmuxer/mkvmuxer.cc:4118-4175 | the frames written to the old cluster are exactly the early part of the queue, none without a cluster; on a sound writer it succeeds when they are within reach |
| Planning.Early | libwebm/mkvmuxer/mkvmuxer.cc:4118-4175 | the early part of a queue: never all of it; the successor of each of its frames is not later than the given time, and it cannot be made longer |
| Planning.EarlyUnique | libwebm/mkvmuxer/mkvmuxer.cc:4118-4175 | there is only one such part, so the contract says which queued frames go to the old cluster |
| Boundaries.ClustersDivided | libwebm/mkvmuxer/mkvmuxer.cc:3774-3844 | in every recording, audio that waits for video included, each cluster after the first was begun for a frame that was out of reach of the one before, was a key frame of a video track, came too long after its timecode or found too many bytes in it; no other frame written at once was any of these, and a frame that could have waited began a cluster only when it was out of reach |
| Boundaries.FramesKept | libwebm/mkvmuxer/mkvmuxer.cc:3494-3593 | the clusters have the frames that came, in their order; a frame that needs a reference gets the time of the frame before it in its track, and only one that may wait may get an older one, if the times do not strictly increase |
| Boundaries.NotBack | libwebm/mkvmuxer/mkvmuxer.cc:3501-3509 | a frame is refused for its time when it is earlier than the last one written, and one that waits only then |
| Boundaries.PlainClusters | libwebm/mkvmuxer/mkvmuxer.cc:3774-3844 | where nothing waits, a cluster begins with its own timecode, and a frame begins one exactly when it is a key frame of a video track or at one of the limits |
| Boundaries.KeyFramesBegin | libwebm/mkvmuxer/mkvmuxer.cc:3774-3844 | a recording of video that begins with a key frame and stays below the limits has its clusters begin exactly with the key frames |
| SegmentMux.Segment.AddCuePoint | libwebm/mkvmuxer/mkvmuxer.cc:3390-3413 | the cue takes the time, the number of blocks so far and the cluster's position; without a cluster there is none and the answer is false |
| SegmentMux.Segment.WriteToCluster | libwebm/mkvmuxer/mkvmuxer.cc:3577-3583 | a frame is written behind the others, and makes the cue of the cluster if it is the first of the cue track |
| SegmentMux.Segment.AddGenericFrame | libwebm/mkvmuxer/mkvmuxer.cc:3500-3593 | a frame is accepted exactly when the plan takes it (on a sound writer; on any writer only then), clusters and queue are then those of the plan, and blocks written and then the queue are the frames accepted, in that order |
| SegmentMux.Segment.FinishClusters | libwebm/mkvmuxer/mkvmuxer.cc:3226-3243 | the queue is empty, every accepted frame is in the file in the order of acceptance, each within reach of its cluster, and every cluster has at most one cue; on a sound writer it succeeds exactly when the queue fits the last cluster and that can be completed |
| SegmentMux.Segment.Record | libwebm/mkvmuxer/mkvmuxer.cc:3226-3593 | a whole recording succeeds only if the plan takes every frame, and then on every sound writer: the clusters are those of the plan, their blocks the frames given, in that order, but for references filled in; the cues come in the order of time exactly when the plan's first cue track blocks do, so always unless frames of the cue track may wait and come out of order; its clusters are divided as `Boundaries` says, and every reference is the one a frame must have |
| SegmentMux.CueTimesAre | libwebm/mkvmuxer/mkvmuxer.cc:3390-3413 | the cues carry the times of the first cue track blocks of their clusters, so the plan decides whether they come in the order of time |
| Recordings.SmoothRecords | libwebm/mkvmuxer/mkvmuxer.cc:3226-3593 | frames in the order of time, none more than 0x7FFF after the one before it and the first that does not wait not more than that after the very first, are recorded by every sound writer, whatever the limits of clusters |
| Recordings.FirstReach | libwebm/mkvmuxer/mkvmuxer.cc:3846-3919 | before the first cluster a frame that does not wait is taken only within 0x7FFF of the first one queued |
| Recordings.LateVideoRefused | libwebm/mkvmuxer/mkvmuxer.cc:3846-3919 | audio at 0 and a first video frame 40 seconds later: a good frame is refused |
| Recordings.OnlyWaiting | libwebm/mkvmuxer/mkvmuxer.cc:3226-3243 | a recording all of whose frames wait for video has no cluster and cannot be completed |
| Recordings.UnorderedCues | libwebm/mkvmuxer/mkvmuxer.cc:3500-3593 | a recording that is completed and whose cues, on the audio track, come at 100 and then at 50 |
| SegmentMux.CueMeaning | libwebm/mkvmuxer/mkvmuxer.cc:3390-3413 | a cluster has at most one cue, exactly when it has a block of the cue track; its time and its number, counted from 1, are those of the first such block |
| SegmentMux.ClusterAt | libwebm/mkvmuxer/mkvmuxer.cc:3906-3917 | every complete cluster stands in the file where its position for cues says |
| BipBuffer.BipBuffer.WriteTryReserve | libxmf/XmfBipBuffer.c:127-183 | where and how much is reserved in each layout, and when nothing is; a failing call leaves the older reservation |
| BipBuffer.BipBuffer.WriteCommit | libxmf/XmfBipBuffer.c:203-241 | appends exactly the first min(n, reserved) reserved bytes to the queue |
| BipBuffer.CommitAppends | libxmf/XmfBipBuffer.c:203-241 | committing appends the reserved bytes wherever the region was, and keeps the layout |
| BipBuffer.BipBuffer.ReadTryReserve | libxmf/XmfBipBuffer.c:310-330 | the oldest contiguous bytes |
| BipBuffer.BipBuffer.ReadCommit | libxmf/XmfBipBuffer.c:356-383 | drops exactly the oldest bytes, at most a block; a reservation outstanding for writing keeps its bytes |
| BipBuffer.BipBuffer.Read | libxmf/XmfBipBuffer.c:385-442 | removes exactly the first min(n, used) bytes |
| BipBuffer.BipBuffer.Grow | libxmf/XmfBipBuffer.c:59-104 | keeps contents and order, never shrinks; pads by the remainder of the page |
| BipBuffer.BipBuffer.WriteReserve | libxmf/XmfBipBuffer.c:185-201 | keeps the contents; reserves exactly the next free run, at most what was asked, after growing if that run was shorter; fails exactly when there is no free run |
| BipBuffer.BipBuffer.ReadReserve | libxmf/XmfBipBuffer.c:332-354 | any n queued bytes can be had contiguously, contents unchanged; fails exactly for more than are queued |
| BipBuffer.BipBuffer.Write | libxmf/XmfBipBuffer.c:243-308 | appends exactly the first min(n, room) bytes, or answers -1 with contents unchanged when there is no room |
| BipBuffer.FillRun | libxmf/XmfBipBuffer.c:243-308 | the next free run and the one behind it are together what one write can take |
| BipBuffer.Run | libxmf/XmfBipBuffer.c:127-442 | over every sequence of operations, reads between a reservation and its commit included, every answer and every byte put or taken is what its operation makes of the state before it, in every state the reservation and the queue hold as many bytes as their blocks say, and the bytes come out in the order they went in, none lost and none invented |
| BipBuffer.RunIsQueue | libxmf/XmfBipBuffer.c:127-442 | whatever each operation may do, over a run what was taken and then the contents are the old contents and then what was put |
| BipBuffer.CommitsWhatWasFilled | libxmf/XmfBipBuffer.c:203-241 | what a commit puts is what the writer had filled into its reservation |
| BipBuffer.CommitsWhatWasReserved | libxmf/XmfBipBuffer.c:203-241 | whatever is filled in and read in between, a reservation keeps its length, and the commit puts the first min(n, reserved) bytes of it |
| BipBuffer.ReserveFillCommit | libxmf/XmfBipBuffer.c:127-241 | bytes that are reserved for, filled in and committed are put as they are |
| RectMove.CopyRow | libxpp/simd/XppCopy_sse2.c:94-117 | one row in chunks of 32, 16, 8 and 1 pixels from first to last, right when the source lies behind |
| RectMove.MoveRow | libxpp/simd/XppCopy_sse2.c:188-293 | one row from last to first, odd pixels first, right when the source does not lie behind |
| RectMove.Move | libxpp/simd/XppCopy_sse2.c:295-347 | every destination byte gets the byte that stood at its place in the source before the call and nothing else changes, whatever the overlap |
| RectMove.PixelMoved | libxpp/simd/XppCopy_sse2.c:295-347 | byte by byte of every row, the destination is the old source |
| RectMove.PreviousRow | libxpp/simd/XppCopy_sse2.c:188-293 | moving rows from the last to the first keeps the rows still to be read |
| RectMove.NextRow | libxpp/simd/XppCopy_sse2.c:94-117 | copying rows from the first to the last keeps the rows still to be read |
| PixelCompare.Compare32 | libxpp/XppCompare.c:11-116 | 0 with an empty rectangle exactly when no pixel differs, else the smallest rectangle on the 16-pixel grid around all differences, clipped to the image; up to the 1024 tile rows of its table |
| PixelCompare.Compare32Simd | libxpp/simd/XppCompare_sse2.c:186-332 | the same for the columns it looks at: of a last tile four or more columns wide only whole groups of four |
| PixelCompare.SimdAgrees | libxpp/simd/XppCompare_sse2.c:186-332 | the two forms answer alike on every image of a width exactly when the width is divisible by 4 or its last tile has fewer than 4 columns |
| PixelCompare.SmallestUnique | libxpp/XppCompare.c:90-113 | there is only one smallest rectangle, so the contracts determine the answer |
| PixelCompare.Answer32Unique | libxpp/XppCompare.c:11-116 | the answer of a 32-bit comparison is determined |
| PixelCompare.Compare8 | libxpp/XppCompare.c:125-232 | 0 exactly when no byte differs, else the smallest rectangle on the 4-byte grid around all differences |
| PixelCompare.Compare8Simd | libxpp/simd/XppCompare_sse2.c:354-451 | the same answer as the generic form, at every width |
| PixelCompare.Answer8Unique | libxpp/XppCompare.c:125-232 | the answer of an 8-bit comparison is determined |
| PixelCompare.MaskedGroup | libxpp/simd/XppCompare_sse2.c:336-352 | four bits of the equality mask tell whether four bytes agree |
| PixelCompare.SpanIsPixels | libxpp/XppCompare.c:56-66 | comparing a run of bytes decides whether one of its pixels differs |
| YCoCg.LiftingInverts | libxpp/XppYCoCgR.c:43-46 | lifting is undone exactly, and its results fit 8 and 9 bits |
| YCoCg.SamplesMean | libxpp/XppYCoCgR.c:43-46 | orange is red less blue, green is green less the mean of red and blue, and luma a quarter of red, blue and twice green |
| YCoCg.NearestDecoded | libxpp/XppYCoCgR.c:74-133 | any three samples are those of one colour, and each byte decoded is the nearest to it there is |
| YCoCg.Encode | libxpp/XppYCoCgR.c:12-72 | the three planes hold the lifted samples of every pixel, whatever the steps, and nothing else changes in them |
| YCoCg.Decode | libxpp/XppYCoCgR.c:74-133 | the pixels are the inverse lifting of the planes with alpha 0xFF, and nothing else changes |
| YCoCg.RoundTrip | libxpp/XppYCoCgR.c:12-133 | decoding what was encoded gives red, green and blue exactly, with alpha 0xFF, for every image and steps |
| YCoCg420.ChromaFits | libxpp/XppYCoCgR.c:352-353 | the chroma of any four pixels fits its byte |
| YCoCg420.ChromaNear | libxpp/XppYCoCgR.c:332-353 | what is decoded of the chroma of four pixels is within one of their mean |
| YCoCg420.EncodeBlock | libxpp/XppYCoCgR.c:306-372 | one block: four luma samples and the two chroma means |
| YCoCg420.DecodeBlock | libxpp/XppYCoCgR.c:176-255 | one block: four pixels from four luma samples and the shared chroma |
| YCoCg420.EqualBlock | libxpp/XppYCoCgR.c:139-381 | four equal pixels come back with blue exact, and green and red exact when their chroma is odd or they are at 255, else one higher |
| YCoCgNeon.DecodedLane | libxpp/simd/XppYCoCgR_neon.c:8-41 | splitting into even and odd lanes and zipping them again puts every pixel in its place |
| YCoCgNeon.LaneIsPixel | libxpp/simd/XppYCoCgR_neon.c:8-41 | 16-bit lane arithmetic does not wrap around: a lane computes the scalar result |
| YCoCgNeon.KernelDecodes | libxpp/simd/XppYCoCgR_neon.c:8-41 | the decoding kernel stores the very bytes of the scalar loop for sixteen pixels |
| YCoCgNeon.KernelEncodes | libxpp/simd/XppYCoCgR_neon.c:218-251 | the encoding kernel computes the luma of sixteen pixels and the chroma sums of their pairs |
| YCoCgNeon.MeansAre | libxpp/simd/XppYCoCgR_neon.c:306-317 | the narrowed sums of two rows are the chroma of the blocks |
| YCoCgNeon.DecodeColumns | libxpp/simd/XppYCoCgR_neon.c:89-115 | thirty-two columns of two rows hold the bytes of the scalar loop |
| YCoCgNeon.EncodeColumns | libxpp/simd/XppYCoCgR_neon.c:298-322 | thirty-two columns of two rows leave the samples of the scalar loop |
| YCoCgPictures.Encode | libxpp/simd/XppYCoCgR_neon.c:253-401 | vector loop with scalar tail, or scalar loop alone: the same bytes in all three planes for every size and steps |
| YCoCgPictures.Decode | libxpp/simd/XppYCoCgR_neon.c:43-207 | vector loop with scalar tail, or scalar loop alone: the same pixels for every size and steps |
| YCoCgPictures.PixelBack | libxpp/XppYCoCgR.c:139-381 | after encoding and decoding a pixel has its own luma and the chroma of its block |
| YCoCgPictures.EqualBlockBackInPicture | libxpp/XppYCoCgR.c:139-381 | in a whole picture, the pixels of a block of equal ones come back with blue exact and green and red exact or one higher |
| Planes.PaintedAt | libxpp/XppYCoCgR.c:60-69 | writing rows a step apart leaves every row as written when a row fits the step |
| Planes.PaintedKeeps | libxpp/XppYCoCgR.c:60-69 | and leaves what lies in none of the rows |
| Timeline.Recorder.WriteBlock | libxmf/XmfWebM.cpp:141-158 | the muxer gets exactly one block, at the time of its packet or, if that is not later than the block before, a millisecond after that |
| Timeline.Recorder.EncodeImage | libxmf/XmfWebM.cpp:173-204 | the encoder gets exactly one call, with the image, its start and duration, and a key frame forced every fifteen times the frame rate; on success the timeline and the count advance |
| Timeline.Recorder.EncodePendingFrame | libxmf/XmfWebM.cpp:206-232 | asks the encoder for nothing exactly when no time has passed or, unforced, less than a nominal frame; otherwise for the pending image, at the end of the timeline, for the time since the last one |
| Timeline.Recorder.Encode | libxmf/XmfWebM.cpp:239-275 | asks for what is pending, takes the picture, and asks for the very first one at once; nothing else reaches the encoder |
| Timeline.Recorder.Finalize | libxmf/XmfWebM.cpp:277-301 | the last image is asked for, with a token millisecond when the clock has not moved, and then the encoder is only drained |
| Timeline.Recorder.Record | libxmf/XmfWebM.cpp:173-301 | over a whole run, whatever encoder and clock answer: up to 1000 frames a second every image the encoder is given has a positive duration, and those it grants start strictly later than those before; the times of the blocks the muxer gets strictly increase, so it never sees one out of order, and keep the times of the packets wherever these allow it; the images asked for are pictures that were given, in their order, none of them again once it has been granted, and the last one is always asked for |
| Timeline.Recorder.PtsFollowsClock | libxmf/XmfWebM.cpp:206-269 | the timeline ends one nominal frame after the time since the first image |
| Timeline.EndFollowsClock | libxmf/XmfWebM.cpp:206-269 | the same for the log of images |
| Timeline.DurationsAddUp | libxmf/XmfWebM.cpp:200-203 | the timeline is as long as the durations together |
| Timeline.StartsIncrease | libxmf/XmfWebM.cpp:206-269 | all durations are positive, and images start strictly later than those before, exactly when the frame rate is at most 1000 |
| Timeline.AllPositive | libxmf/XmfWebM.cpp:173-269 | every image the encoder is given, granted or not, has a positive duration exactly up to 1000 frames a second |
| Timeline.ImagesIncrease | libxmf/XmfWebM.cpp:173-269 | the images it grants start strictly later than those before, under the same condition |
| Timeline.StampsIncrease | libxmf/XmfWebM.cpp:141-158 | the times given to the muxer strictly increase, whatever times the packets carry |
| Timeline.StampsOnTime | libxmf/XmfWebM.cpp:146-151 | no block is earlier than its packet, one that is later stands exactly a millisecond after the block before it, and packets with positive times in strict order keep their times |
| Timeline.FrameTimesAre | libxmf/XmfWebM.cpp:190-198 | there is one block for every frame the encoder hands out with success, in their order, and none for other packets |
| Timeline.NominalIs | libxmf/XmfWebM.cpp:212 | the nominal length is the longest of which as many as the frame rate fit a second |
| Timeline.KeysSpaced | libxmf/XmfWebM.cpp:180-185 | the first image granted is to be a key frame, then each that is fifteen times the frame rate behind one, and none between |
| Timeline.Segment.AddFrame | libwebm/mkvmuxer/mkvmuxer.cc:3507-3509 | a block earlier than the last accepted one is refused |

## Left out

- EbmlWriter.WriteUIntSize: with a size of 0, values above 2^56 - 2, for which the source shifts out of range.
- EbmlWriter.WriteUIntElement: fixed sizes from 2^31 on, which the source cuts to 32 bits.
- EbmlWriter.WriteBinaryElement: lengths are below 2^32; the source cuts the length of a buffer to 32 bits when it writes it.
- Blocks.WriteFrame: payloads are below 2^31 - 4 bytes and additions below 2^31, the widths the source casts them to.
- Blocks.WriteSimpleBlock: the same bound on the payload.
- Blocks.WriteBlock: the same bounds on payload and additions.
- SeekHeads.Parse: where an entry's own element stands and how long it is, which the source keeps beside the entry.
- ClusterParser.Cluster.CreateBlockGroup: is called for groups that the first pass has accepted, as in the source; what its assertions would do on others is not modelled.
- SegmentMux.Segment.AddGenericFrame: nothing is promised of the segment after a call that has failed; such a segment is not used again. Times are below 2^63.
- Clusters.Cluster.QueueOrWriteFrame: after a write that fails nothing is promised about the frames held back (the source has freed the frame by then).
- SegmentMux.Segment.FinishClusters: the part of finalizing that writes the queue and completes the last cluster; the Cues, the SeekHead and the segment size are in the modules of their own.
- Lacing.Block.Parse: 64-bit `long`; positions and sizes are below 2^63.
- ClusterIndex.Segment.LoadCluster: the search for the next cluster in the file is a parameter; only what happens to the array is modelled.
- PixelCompare.Compare32: images of more than 16384 rows, for which the table of rows is too short.
- Timeline.Recorder.Encode: the conversion of the picture; an image is a number. The encoder and the clock answer anything, and the encoder holds finitely many packets.
- Timeline.Recorder.EncodeImage: a frame rate of 0, by which the source divides.
- RectMove.Move: `Xpp_Copy_simd`, the same chunk loops between two buffers that cannot overlap, and `Xpp_Move_generic`.
- The first form of `Xpp_Compare32_simd`, which is not compiled.
- ClusterParser.Cluster.GetEntry: the other `GetEntry` and `GetNext`, which step through the same entries.
- CueReader.Cues.LoadCuePoint: the growing of the array of cue points, which are a sequence here.
- Production.Produce: the segment information is not written again and the header is not rewritten for another document type version; a frame at least is given before the file is copied, because the source looks at the first cluster without asking whether there is one.
- Playback.RelocatedFilePlays: finding the Cues by way of the SeekHead and the clusters by way of the array of clusters, which `SeekHeads.SeekHeadRoundTrip` and `ClusterIndex.Segment.FindOrPreloadCluster` are about.
- Parsing while the file is still arriving, and finding the next cluster behind one of unknown size: the whole file is there.
- Segment information, tracks, chapters, tags, projection and colour metadata, strings, floating point and random identifiers.
- Chunked output in several files, live mode, and the estimate of the duration of the whole file.
- The document type version, which only depends on discard padding and on track settings.
- Sockets, pipes, files, image loading and the .NET wrappers: plumbing; the file is a sequence of bytes in memory.
- The signaled state of the bip buffer, which is always set to true.
- Failing allocation.
