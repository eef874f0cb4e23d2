# HDDM: a verified model

HDDM is a serializer that is driven by a schema. A data model is an xml template; from it a
generator makes classes that write records as XDR (RFC 1832) and read them back, also from
files that were written with another version of the model, whose text stands at the head of
the file. Records may go through compressed blocks that several threads write to, or read
from, one file. This project models that code in Dafny and proves what it is for.

## Modules

- `Xdr`, `Model`: four-byte units, the tree of tags, records, and their bytes. `Layout` says
  of the texts of a model which bytes they stand for, in figures.
- `TagText`, `Document`: the text form of a model, and the matcher that walks two texts.
- `Sequencer`: the two-phase decoder, proved to do what a plain recursive decoder does.
- `Evolution`: what a reader of one model gets from a file of another. `Misreading` shows that
  its conditions, and those of `CRuntime`, are exact. `Reader` joins `Evolution` with
  the text matcher to one end-to-end method.
- `Writer`: the writer that patches lengths into a bounded buffer and grows it.
- `ElementList`, `HostLists`: lists of elements as windows into one host list per tag.
- `Framing`, `Flushing`, `Sharing`: compressed blocks, the bytes read ahead, random access,
  and the threads of writers and readers as a state machine. `Delivery` and `Writing` show
  that the stream buffers of several threads do what the state machine does, `Progress` that
  runs come to an end, and `Exchange` joins all this with `Evolution`.
- `Control`: the tokens between records that change checksums and compression.
- `CRuntime`, `Tools`: the C runtime and the conversion tools, which implement the same
  format again, each in its own way.
- `Md5`, `Base64`: two smaller streams of the same kind.
- `Basics`, `Slices`: helpers.

Code that changes things step by step is a class or a method here, proved against functions;
what the source promises is then proved about these functions.

## Where the code does less than it seems to

- Two attributes that differ in blanks and slashes may be taken for equal, so that a stored
  value is mistaken for a literal one or a list for a link (`TagText.MistakenExactly`).
- The attributes of the root are not compared at all (`Reader.RootsMatch`), so that records
  whose root stores other values are misread (`Misreading.SchemaEvolutionExactly`).
- A link to an element without content is lost (`Evolution.LinkSurvives`).
- The matcher does not find the end of a container tag without an attribute
  (`Document.EndNeedsAttribute`).
- The C runtime misreads lists whose elements have children in the file, but not in the
  reader (`Misreading.UnpackingExactly`), and writes four bytes more for an empty array
  (`CRuntime.SameBytes`).
- `hddm-xml` stops at lists of elements without content (`Tools.ConstructXML`), and does not
  show links without content (`Tools.ShownIsAll`).
- Base64 lines of one to three characters, or of more than an int, lose data
  (`Base64.WidthsExactly`); its `underflow` returns 0 where the next character is expected.

The members named, or those beside them in the table below, give the condition under which
the code does what it should.

## Checking

`dafny verify dfyconfig.toml` checks the project.

## Model

| member | source | states |
|---|---|---|
| Xdr.BigEndianRoundTrip | xstream/src/xdr.cpp:30-65 | every number that fits into n bytes reads back from the bytes that the shift loop of the writer puts out, most significant first |
| Xdr.PadLength | xstream/src/xdr.cpp:18-28 | a string is filled up with fewer than four bytes to a multiple of four |
| Xdr.ReadTextBack | xstream/src/xdr.cpp:87-101 | a written string reads back, with the cursor behind its padding; an empty one leaves the target string as it was |
| Xdr.InBuffer.GetWord | xstream/src/xdr.cpp:103-128 | the shift loop of the reader computes the big-endian number; a buffer that ends too early gives all one bits |
| Xdr.InBuffer.GetText | xstream/src/xdr.cpp:87-101 | string extraction: length, that many bytes, and the padding; the target is only replaced if the length is not zero |
| Xdr.WordMeans | xstream/src/xdr.cpp:103-111 | in figures: four bytes are the number in them, the first byte the most significant, and all one bits at an early end |
| Xdr.LongMeans | xstream/src/xdr.cpp:120-128 | the same for eight bytes |
| Xdr.IntMeans | xstream/src/xdr.cpp:113-118 | an int is the number of its four bytes in two's complement |
| Xdr.TextMeans | xstream/src/xdr.cpp:18-28 | byte by byte: a string is its length, its characters, and zero bytes up to a multiple of four |
| Xdr.TextReadMeans | xstream/src/xdr.cpp:87-101 | the characters that are read are those behind the length, and the cursor is then at the next multiple of four |
| Model.ElemIsWords | src/hddm-cpp.cpp:4495-4505 | the bytes of every element of every model are a multiple of four, so no record length is the token mark 1 |
| Model.ContentIsVisible | src/hddm-cpp.cpp:1217-1221 | an element takes no bytes exactly if its tag has no stored attribute and no child |
| Layout.WordTypes | xstream/src/xdr.cpp:30-71 | an attribute whose value is int, float, boolean or Particle_t takes four bytes, the first the most significant |
| Layout.LongTypes | xstream/src/xdr.cpp:48-83 | one whose value is long or double takes eight |
| Layout.TextTypes | xstream/src/xdr.cpp:18-28 | one whose value is string or anyURI takes its length, its characters, and zeros up to a multiple of four |
| Layout.OtherValues | src/hddm-cpp.cpp:4237-4242 | any other value is no type, and nothing is stored |
| Layout.AttributesJoin | src/hddm-cpp.cpp:4283-4291 | several attributes stand one behind the other, in document order |
| Layout.ChildrenFollow | src/hddm-cpp.cpp:4495-4505 | behind them each child tag has a length and so many bytes: none if it does not occur, a count and its elements if it repeats, and otherwise its element |
| Layout.RecordIsBlock | src/hddm-cpp.cpp:4446-4505 | a record is its length and its root element |
| Layout.RepeatsMeans | src/hddm-cpp.cpp:4255-4257 | a tag is a list if its maxOccurs is unbounded or a number above one, and a link if it is a smaller number or missing |
| TagText.TagsMatchLoop | src/hddm-cpp.cpp:1263-1281 | the index loops of tags_match decide whether the texts agree after the common part, one run of blanks and one run of slashes |
| TagText.LooseMeans | src/hddm-cpp.cpp:1273-1280 | behind their common part two texts go on with runs of blanks and slashes, which are skipped, and match if the rest is the same |
| TagText.RootTexts | src/hddm-cpp.cpp:1267-1269 | two texts that begin with the name HDDM match, whatever follows |
| TagText.TagsMatchExactly | src/hddm-cpp.cpp:1263-1281 | tags_match, exactly: for two tags of one name other than HDDM it holds if and only if their attribute lists are equal, or both or neither have children and the lists differ in just one value, in which after the common part the values agree once a run of blanks and then a run of slashes is skipped on each side |
| TagText.MistakenExactly | src/hddm-cpp.cpp:1273-1280 | two matched tags differ in what they store, or in being a list or a link, if and only if that one value is the name of a type on one side only, or is the maxOccurs that counts and plural on one side only |
| TagText.TidyTags | src/hddm-cpp.cpp:1273-1280 | no two tags are mistaken for each other if no value of either is the name of a type but for blanks and slashes, and no maxOccurs has any of these in it |
| TagText.SlashHidesMismatch | src/hddm-cpp.cpp:1273-1278 | a pair of tags that is mistaken: a slash in front of the name of a type is skipped |
| Sequencer.Codon.constructor | src/hddm-cpp.cpp:651-660 | a codon owns a tree of codons, and stands for the gene that the tree spells out |
| Sequencer.IStream.Extract | src/hddm-cpp.cpp:4402-4417 | operator>>: with the flag up it only registers its target; otherwise the record is what the one-phase decoder makes of the block, the flag and the current codon are as before, and the cursor is at start plus size however much the target took |
| Sequencer.IStream.Sequencer | src/hddm-cpp.cpp:4424-4444 | on every target and every byte sequence the flag-driven machine does what the one-phase decoder does, and returns with the flag down and the current codon restored; on its way it clears and fills exactly the lists that Refills computes, in that order |
| Sequencer.IStream.Sequence | src/hddm-cpp.cpp:4435-4442 | the loop of the second phase decodes one block for each child tag of the file; every index into the target list is in range |
| Sequencer.IStream.Streamer | src/hddm-cpp.cpp:4227-4300 | the virtual streamer: in the first phase it reads the attributes and registers the members in order; a repeating list decodes itself and takes the flag down |
| Sequencer.IStream.ElementStreamer | src/hddm-cpp.cpp:4261-4280 | the generated streamer of a class: attributes in document order, then the members in class order |
| Sequencer.IStream.LinkStreamer | src/hddm-cpp.cpp:1212-1215 | a link is cleared and makes one new element, whose members are registered with the codon of the link |
| Sequencer.IStream.ListStreamer | src/hddm-cpp.cpp:1026-1037 | a list reads a count and makes that many new elements, each run through the sequencer with the same codon; a count of zero makes none |
| Sequencer.BlocksAreParsed | src/hddm-cpp.cpp:4435-4442 | running the blocks one at a time through the address of the target gives what the recursive decoder gives for the element |
| Sequencer.ElemsAreParsed | src/hddm-cpp.cpp:1031-1035 | decoding the new elements of a list in place, one after the other, gives what the recursive decoder gives for the list |
| Evolution.GenesFit | src/hddm-cpp.cpp:1991-2003 | the order numbers of every codon tree that is matched are members of the class they are used with |
| Evolution.AgreeExactly | src/hddm-cpp.cpp:1967-2019 | matched tags store the same values and are lists or links alike, at every level of two models, if and only if no tag of one is mistaken for a tag of the other |
| Evolution.TidyModels | src/hddm-cpp.cpp:1967-2019 | a condition on each model by itself that rules mistakes out: no two tidy models mistake their tags |
| Evolution.SchemaEvolution | src/hddm-cpp.cpp:4402-4444 | schema evolution: for all models W and R whose roots store the same and of which no tags are mistaken for each other, all records of W and every place in a buffer, decoding the bytes of the record with the codons of (W,R) gives exactly its projection to R, and ends exactly at the end of the record |
| Misreading.SchemaEvolutionExactly | src/hddm-cpp.cpp:4402-4444 | and only for these: all records of W are decoded to their projections if and only if the two roots store the same, a long being as good as a double, and no tag of W below is mistaken for a tag of R |
| Misreading.RootMisread | src/hddm-cpp.cpp:1267-1269 | where the roots store different values, which nothing compares, a record without any elements is misread |
| Misreading.MistakenElem | src/hddm-cpp.cpp:1967-2019 | wherever in the models a tag is mistaken, at any depth, there is a nearly blank record that is misread |
| Misreading.MemberParsed | src/hddm-cpp.cpp:4435-4442 | a member is decoded from the one block that its codon assigns to it, whatever the other blocks hold |
| Evolution.RoundTrip | src/hddm-cpp.cpp:4402-4505 | with one model on both sides every record comes back as it was |
| Evolution.ProjectToSelf | src/hddm-cpp.cpp:1967-2019 | the projection of a record to its own model is the record |
| Evolution.ElemProjects | src/hddm-cpp.cpp:4402-4444 | for two models that agree, which AgreeExactly says of their texts, the same for one element anywhere in a record, at any depth |
| Evolution.ListProjects | src/hddm-cpp.cpp:1026-1037 | for two models that agree, a list or link member is decoded to the projections of its elements, in order |
| Evolution.LinkSurvives | src/hddm-cpp.cpp:4408-4414 | a link element survives being written and read if and only if its tag stores something; one without content is read as absent |
| Document.GetTag | src/hddm-cpp.cpp:1869-1914 | getTag returns the text up to the first closing angle outside of quotes, its depth from the indentation, and the position behind the line; without such an angle it reports an error |
| Document.GetEndTag | src/hddm-cpp.cpp:1916-1946 | the quote-skipping search of getEndTag finds the first end tag that no string contains |
| Document.PrintMeans | src/hddm-cpp.cpp:4511-4560 | the normal form: two blanks for each level, attributes in quotes behind a blank, an end tag for each tag with children |
| Document.OutsideMeans | src/hddm-cpp.cpp:1929-1935 | outside of strings means behind an even number of quotes |
| Document.FindTextMeans | src/hddm-cpp.cpp:1925 | find returns the first place where the text stands, or npos |
| Document.FindCharMeans | src/hddm-cpp.cpp:1926 | the same for a single character |
| Document.FindLastMeans | src/hddm-cpp.cpp:1874 | find_last_of returns the last place up to a position, or npos |
| Document.EndOfContainer | src/hddm-cpp.cpp:1922-1945 | on the printed text of any tag with children it returns the position where this text ends, however many tags of other names and strings lie between |
| Document.EndNeedsAttribute | src/hddm-cpp.cpp:1924 | in the text of a document, for a container at any depth and at its own place there: its end is found if and only if its tag has an attribute; without one no end is found at all |
| Document.Synthesize | src/hddm-cpp.cpp:1967-2019 | on any two documents printed in normal form the text walk visits the children of the file tag in order, terminates, and returns the codons that the structural match of the two trees defines |
| Document.MatchInRef | src/hddm-cpp.cpp:1993-2011 | the inner walk over the reader document finds the child of the same name, counts its position from 1, and matches it |
| Document.SkipTree | src/hddm-cpp.cpp:1922-1934 | the whole printed text of a tag can be skipped without being inside a string or meeting the end tag searched for |
| Reader.Transcribe | src/hddm-cpp.cpp:1991-2014 | the codons are copied together to a tree that stands for the genes computed |
| Reader.RootsMatch | src/hddm-cpp.cpp:1267-1269 | two root tags match whatever their attributes |
| Reader.ReadFirst | src/hddm-cpp.cpp:1371-1376 | end to end: from the two header texts and the bytes of a record of the file model, the reader has the projection of the record, and host lists with its elements in stream order, divided among the list members |
| Writer.OStream.PutWord | xstream/src/xdr.cpp:30-65 | a number written to a bounded buffer adds its bytes as far as there is room, and no other byte changes |
| Writer.OStream.PutText | xstream/src/xdr.cpp:18-28 | the same for a string: if it fits, the bytes added are its length, its characters, and zeros up to a multiple of four |
| Writer.OStream.Insert | src/hddm-cpp.cpp:4495-4505 | zero, object, and then the length over the zero: if there is room, the buffer has what it had before, and behind it the block with its length in front; otherwise the buffer is full |
| Writer.OStream.Patch | src/hddm-cpp.cpp:4500-4503 | seeking back and writing the length changes these four bytes and nothing else |
| Writer.OStream.WriteRecord | src/hddm-cpp.cpp:4446-4461 | the doubling loop terminates, the complete pure encoding of the record is in the buffer, the capacity is the first doubling that is larger than the record, and there is room for a CRC |
| Writer.OStream.PutChecksum | src/hddm-cpp.cpp:4462-4470 | the CRC word follows the record |
| Writer.CapacityFits | src/hddm-cpp.cpp:4450-4461 | the doubled capacity is an int as long as the record is shorter than 1638400000 bytes, and exactly then |
| Writer.Doubling | src/hddm-cpp.cpp:4450-4453 | the capacities are 100000 times a power of two, all multiples of four |
| ElementList.StdList.Plus | src/hddm-cpp.cpp:834-842 | stepping an iterator by an offset in either direction moves it by that many positions |
| ElementList.Window.Insert | src/hddm-cpp.cpp:1067-1130 | insert, in every branch: the window is the old one with the new nodes at the place that the start index means, first, last and size fit it, the host list before and behind the window is unchanged, and the first new position is returned |
| ElementList.Window.InsertFront | src/hddm-cpp.cpp:1068-1096 | an empty window, or start 0: including the detour around the begin iterator |
| ElementList.Window.InsertBack | src/hddm-cpp.cpp:1097-1106 | start -1: behind the last element |
| ElementList.Window.InsertAfter | src/hddm-cpp.cpp:1107-1119 | a positive start, also when it meets the end of the window |
| ElementList.Window.InsertBeforeEnd | src/hddm-cpp.cpp:1120-1130 | a start below -1 |
| ElementList.Window.Erase | src/hddm-cpp.cpp:1132-1165 | erase, in every branch: the window loses exactly the elements named, the rest of the host list is unchanged, and the position behind them is returned |
| ElementList.Window.Add | src/hddm-cpp.cpp:955-966 | add: the list returned shows exactly the new elements, at their place in the window, and old elements keep their values |
| ElementList.Window.Del | src/hddm-cpp.cpp:968-998 | del: the elements destroyed, in order, are exactly those erased afterwards |
| ElementList.Window.Range | src/hddm-cpp.cpp:764-779 | the constructor counts the range between two iterators |
| ElementList.Window.Deflate | src/hddm-cpp.cpp:1183-1186 | deflate finds the distance of the window from the start of the host list |
| ElementList.Window.Inflate | src/hddm-cpp.cpp:1168-1182 | inflate makes the window of a given distance and size |
| ElementList.Window.Restore | src/hddm-cpp.cpp:1168-1186 | deflate and then inflate, on this list or on one with the same elements, gives a window with the same contents between the same contents |
| ElementList.Append | src/hddm-cpp.cpp:1026-1033 | filling the list of a new element puts its window behind all others on the host list, which stay where they are |
| ElementList.SpliceFacts | src/hddm-cpp.cpp:1070-1077 | inserting nodes into a list keeps all nodes distinct and moves those behind the place by the number inserted |
| HostLists.ListsFollowStream | src/hddm-cpp.cpp:955-966 | for every template, in which no tag may be its own ancestor, decoding leaves in the host list of every tag exactly the elements of this tag in the order in which they are decoded |
| HostLists.RefillsFill | src/hddm-cpp.cpp:1026-1037 | the lists that the machine fills, in its order and with its counts, give the host lists of the record that it has decoded in the end |
| HostLists.FilledOnce | src/hddm-cpp.cpp:953 | it fills no list twice, so each is empty when it is cleared, and its elements go to the end of the host list |
| HostLists.HostListsOfBytes | src/hddm-cpp.cpp:4402-4444 | so after reading the bytes of any record of a compatible file every host list has the elements of its tag in stream order, divided among the list members |
| HostLists.VisitsFollowBytes | src/hddm-cpp.cpp:4402-4444 | that order is the order of the byte stream: every element of the record that the reader gets has a position, where the bytes are that it is decoded from, and the positions do not decrease |
| HostLists.TrailMarks | src/hddm-cpp.cpp:1026-1037 | the elements below any element lie in the stream in the order in which they are decoded, each at its own bytes |
| HostLists.ListsArePartitioned | src/hddm-cpp.cpp:2764-2783 | after any decoding the windows of a tag lie side by side from the start to the end of its host list, each showing the elements of its own parent |
| HostLists.MetOnce | src/hddm-cpp.cpp:1031-1035 | every element that the file has a tag for is decoded once and only once |
| HostLists.HostListsOfProjection | src/hddm-cpp.cpp:1026-1037 | order, partition and completeness for the record that a reader of one model gets from a file of another |
| Framing.BlockParts | xstream/src/z.cpp:329-348 | block number i of a file stands at the sum of the blocks before it: its length in four bytes, and its contents |
| Framing.IStreamBuf.ReadBlock | xstream/src/z.cpp:584-637 | a claim: whatever number of bytes (0 to 8) was read ahead, and by whom, the block claimed is the next one, stream position minus leftovers is the next header, block_next is block_start + 4 + block_size, and the input buffer holds the contents of the block, followed by what was read ahead |
| Framing.IStreamBuf.ReadLength | xstream/src/bz.cpp:621-644 | the first half of a claim, with or without a new position: where the block starts, at least its length, and whether the decompressor has to start anew |
| Framing.IStreamBuf.ReadContents | xstream/src/bz.cpp:645-662 | the second half: contents as far as they were not read ahead, and up to eight bytes of the next block |
| Framing.IStreamBuf.ReadInflate | xstream/src/z.cpp:567-672 | the block claimed is expanded from its beginning |
| Framing.IStreamBuf.Inflate | xstream/src/z.cpp:674-682 | the output continues where it was; at the end of the stream the input is dropped and block_next is 0 |
| Framing.IStreamBuf.Reposition | xstream/src/z.cpp:498-529 | random access: from any state of the decompressor (earlier or later in the same block, in another block, at the end of a block or of the file) the next byte is the one at the position asked for |
| Framing.IStreamBuf.Deliver | xstream/src/z.cpp:531-565 | n bytes come from the block at hand or, when it is used up, from the next one that nobody has claimed; at the end of the file nothing is claimed |
| Framing.IStreamBuf.Xsgetn | xstream/src/z.cpp:495-565 | both parts together |
| Framing.IStreamBuf.ReadLengthOf | src/hddm-cpp.cpp:1526-1549 | the position stored after reading the length of a record is the position of the record |
| Framing.IStreamBuf.ReadAt | src/hddm-cpp.cpp:1404-1435 | setPosition with it, at any later time, makes the next read deliver the same bytes |
| Framing.SameBlock | xstream/src/z.cpp:499-501 | two blocks that start at the same place are one, so comparing starts is enough |
| Flushing.OStreamBuf.Flush | xstream/src/z.cpp:267-393 | what was fed goes out as one whole block behind its length, or stays in the compressor; there is no empty block; the mutex is taken once for a block, given back, and its pointer restored |
| Flushing.OStreamBuf.Sync | xstream/src/z.cpp:233-242 | the lock of sync and the lock of flush inside it take the mutex once |
| Flushing.OStreamBuf.Xsputn | xstream/src/z.cpp:261-265 | a write that does not complete a block leaves the file alone |
| Sharing.StepLocks | xstream/src/z.cpp:40-56 | every step of every thread keeps the lock discipline: at most one holder, nested locks put the null pointer aside, outside of commands the pointer is null |
| Sharing.StepIsSound | xstream/src/z.cpp:329-348 | every step keeps the file a sequence of whole blocks, plus at most the length of one that the holder of the mutex is appending |
| Sharing.RunKeepsRecords | xstream/src/z.cpp:267-393 | writer atomicity over all interleavings: every block holds whole records of one thread, at least one, and for each thread what is in the file, in its compressor and still to do is its program |
| Sharing.FinalFileIsMerge | src/hddm-cpp.cpp:4446-4493 | when all is done the file is whole blocks, and the record stream is a merge that keeps the order of each thread |
| Sharing.NoDeadlock | xstream/src/z.cpp:40-56 | as long as some thread has something to do, some thread can take a step |
| Sharing.WrittenFileIsReadable | xstream/src/z.cpp:329-348 | the file that writers leave is, behind any header, one that the readers of module Framing need |
| Sharing.ReadRunKeepsClaims | xstream/src/z.cpp:531-565 | in every interleaving of readers, what they hold is exactly the blocks before the first unclaimed one |
| Sharing.ExactlyOnce | src/hddm-cpp.cpp:1519-1626 | exactly-once delivery: no record is held twice, each reader delivers in file order, and when all have ended each record of the file has been delivered once |
| Sharing.NothingLostOrRepeated | src/hddm-cpp.cpp:1475-1517 | for every interleaving of writers and of readers the multiset of records delivered is the multiset of records written |
| Delivery.ReadHead | src/hddm-cpp.cpp:1531-1549 | reading a length from a stream buffer takes it from the next record of the block at hand, or from the first one of the next unclaimed block, or finds the end |
| Delivery.ReadBody | src/hddm-cpp.cpp:1607-1626 | the body behind a length that was read, whatever other threads have claimed since |
| Delivery.ReadOne | src/hddm-cpp.cpp:1519-1626 | whatever the reader of the state machine does, its stream buffer does, for a length and for a body, and both stay abreast |
| Delivery.Simulate | xstream/src/z.cpp:495-672 | exactly-once delivery by the stream buffers themselves: in whatever order the reading threads, which share a stream position and leftovers, read lengths and bodies, what they deliver is what a run of the state machine delivers, and when all have come to the end it is the multiset of all records of the file |
| Delivery.RecordParts | src/hddm-cpp.cpp:1531-1626 | a record stands in the contents of its block behind the records before it, as a length and a body |
| Progress.StepWorks | xstream/src/z.cpp:40-56 | a step of a writer changes nothing, or leaves less to do |
| Progress.RunsAreFinite | xstream/src/z.cpp:267-393 | what is to do at the beginning bounds the number of steps that a run can take |
| Progress.EveryRunCanFinish | xstream/src/z.cpp:233-242 | from wherever the writers have come, they can finish, if each ends with a flush, as the destructor of its stream does |
| Progress.EveryReadingCanEnd | src/hddm-cpp.cpp:1519-1549 | from wherever the readers have come, they can all reach the end of the file |
| Progress.AllIsWrittenAndRead | src/hddm-cpp.cpp:4446-4493 | nothing is lost or repeated, of runs that exist: whatever writers and readers have done, they can go on until all is written and read, and then what was delivered is what was to be written |
| Writing.CommandSteps | xstream/src/z.cpp:267-393 | the steps of one thread for a record or a flush, taken together: the file has one block more, or the compressor has one record more |
| Writing.BlocksAreCut | xstream/src/z.cpp:285-393 | in figures: records are kept back as long as no more than 32000 bytes have been fed, and then go out together as one block behind its length; a flush lets out what there is |
| Writing.RunCommand | xstream/src/z.cpp:233-265 | a stream buffer does to the file, the compressor and the offset what these steps do, with the mutex taken once |
| Writing.Simulate | xstream/src/z.cpp:267-393 | stream buffers of several threads on one file: in whatever order the threads carry out their commands, the file is that of a run of the state machine, and that run is finished when all programs are |
| Exchange.Exchanged | src/hddm-cpp.cpp:1519-1668 | from writers of one model to readers of another: whatever the interleaving of the writers, all records of the file, decoded in any order, are as a multiset the projections of the records written |
| Exchange.AllIsExchanged | src/hddm-cpp.cpp:4446-4493 | and such runs exist: however writers and readers have begun, they can go on until the readers have the projections of all records, each once |
| Exchange.FileIsReadable | src/hddm-cpp.cpp:1531-1626 | every record in such a file is longer than its length word, shorter than 2^31 bytes, and stands behind its length, as module Delivery asks of the files that it reads |
| Control.ReplaceBits | src/hddm-cpp.cpp:1737-1738 | the two atomic operations replace the bits under the mask by those of the flags, and keep all others |
| Control.OStream.SetCompression | src/hddm-cpp.cpp:1732-1755 | a change of compression goes into the status word and out as a token on the stream as it was before |
| Control.OStream.SetIntegrityChecks | src/hddm-cpp.cpp:1757-1778 | the same for integrity checks |
| Control.IntegrityBits | src/hddm-cpp.cpp:1757-1764 | the status word after a change of integrity checks, bit by bit |
| Control.CompressionBits | src/hddm-cpp.cpp:1732-1741 | the status word after a change of compression, bit by bit |
| Control.TokenBytes | src/hddm-cpp.cpp:1742 | the sixteen bytes of a token |
| Control.SwitchChecks | src/hddm-cpp.cpp:4459-4472 | if checksums are switched on and off again, the records in between have one, and no others |
| Control.SwitchCompression | src/hddm-cpp.cpp:1732-1755 | if compression is switched on, the records before it and the token are plain, and the records after it compressed |
| Control.OStream.Insert | src/hddm-cpp.cpp:4459-4472 | a record is its length and body, and behind them four bytes of checksum exactly if the bit 01 (hex) of the status word is set; it is compressed exactly if one of the bits f0 is |
| Control.IStream.ReadToken | src/hddm-cpp.cpp:1578-1606 | reading a token leaves the new status word, and the stream behind the token |
| Control.IStream.Extract | src/hddm-cpp.cpp:1519-1652 | the reader passes over any number of tokens to the next record of the writer, with the status bits that the writer had there, or finds the end |
| Control.IStream.ReadRecord | src/hddm-cpp.cpp:1619-1652 | the record is complete and its checksum matches |
| Control.ReadBack | src/hddm-cpp.cpp:1519-1668 | in step: for any sequence of records, integrity changes and changes of compression that never turn it off again, the reader gets those records, each under the status bits of the writer, and then the end |
| CRuntime.SameBytes | src/hddm-c.cpp:1459-1711 | the C packers write the bytes of the C++ streamers if and only if no pointer leads to an array of no elements; each of these costs four bytes |
| CRuntime.PackMember | src/hddm-c.cpp:1511-1549 | a pack function, with the length written over the place kept for it, appends the block of the member |
| CRuntime.PackOne | src/hddm-c.cpp:1543-1683 | the body of a pack function: attributes, and for each child a block or a zero |
| CRuntime.PopTreeIsCodonTree | src/hddm-c.cpp:1885-1963 | the pop tree that matches builds is the codon tree of the C++ reader |
| CRuntime.ReadersAgree | src/hddm-c.cpp:1146-1330 | for all models of which no tags are mistaken, unpacking any record by the pop tree gives the projection that the sequencer gives, if each repeating tag with children in the file has children in the reader or holds nothing |
| Misreading.UnpackingExactly | src/hddm-c.cpp:1146-1330 | for two models of which the C++ reader projects every record, that condition is exact for whole records: all records of W are unpacked to their projections if and only if it holds wherever a tag of W is matched |
| CRuntime.ListsAgreeIff | src/hddm-c.cpp:1303-1323 | for one repeating tag the condition is exact: all its lists are unpacked right if and only if it holds |
| CRuntime.UnfollowedMisreads | src/hddm-c.cpp:1303-1323 | without it a list of two elements is misread, wherever it stands |
| CRuntime.CListProjects | src/hddm-c.cpp:1146-1330 | a list or link anywhere in the record is unpacked to the projections of its elements |
| CRuntime.Unpack | src/hddm-c.cpp:1159-1181 | an unpack function takes a length, then the list or element if there is one, and ends behind the block |
| CRuntime.UnpackKids | src/hddm-c.cpp:1303-1323 | the loop over the pop list |
| Tools.StringSizesAgree | src/hddm-root.cpp:334-339 | the three formulas for the size of a string agree with the layout of section 3.11 of RFC 1832 |
| Tools.ConstructXML | src/hddm-xml.cpp:548-712 | on everything that is packed for a tag the remaining size ends at 0 and the repeat count is right if and only if, everywhere in the document, repeating tags with elements store something and other tags have 1 for maxOccurs or take no bytes; the elements shown are those packed, without the links that store nothing |
| Tools.ShownIsAll | src/hddm-xml.cpp:666-669 | all elements are shown if and only if none is in a link that stores nothing |
| Tools.CountableIsAccepted | src/hddm-xml.cpp:548-712 | if every tag of the model can occur and stores something, every document is read and all of it is shown |
| Tools.StreamersPack | src/hddm-cpp.cpp:1040-1046 | every record of the C++ streamers is the same data as a C structure, with the same bytes, so that all of this holds for C++ files |
| Tools.XmlElement | src/hddm-xml.cpp:563-698 | one element with everything below it takes off exactly its bytes, or ends in an error exactly if something in it is not accepted |
| Tools.ReadElement | src/hddm-root.cpp:442-516 | element_t::read: both assertions hold, here and below, if and only if every repeating tag with elements stores something; then it returns the bytes it consumed, and there is a row for each element, with strings cut to the 80 characters of their column |
| Tools.RowsMean | src/hddm-root.cpp:334-339 | a column keeps a number as it is, and of a string what stands in front of its first zero byte, at most 80 characters of it |
| Tools.OutputStream | src/xml-hddm.cpp:402-605 | a document is accepted if and only if the text of the template permits it: once for tags without a maxOccurs, k times for those with the number k, and any number of times for unbounded ones; it is written as the packed form of the document sorted by the template, with a list even for repeating tags that do not occur |
| Tools.OutputMember | src/xml-hddm.cpp:536-603 | the instances of one tag, gathered in any order of the document, behind their length and count |
| Tools.MaxOccursMeans | src/xml-hddm.cpp:551-553 | what the text of a maxOccurs counts as |
| Tools.OccursMeans | src/xml-hddm.cpp:572-598 | the documents accepted, said of the texts of the template and the places of the instances |
| Tools.SelectPlaces | src/xml-hddm.cpp:556-565 | the instances of a tag are all its elements, in the order of the document |
| Tools.ArrangedMeans | src/xml-hddm.cpp:536-603 | the document sorted by the template: every element keeps its values, and a member has the instances of its tag in the order of the document |
| Tools.NoInstance | src/xml-hddm.cpp:590-603 | the bytes of a tag that does not occur: a length of 4 and a count of 0 if it repeats, and otherwise a length of 0 |
| Tools.ThereAndBack | src/xml-hddm.cpp:402-605 | a document that xml-hddm has written is read by hddm-xml exactly if its packed form is accepted, and comes out with the same elements if none is in a link that stores nothing |
| Tools.PackVisible | src/hddm-xml.cpp:563 | an element takes no bytes exactly if its tag has no content, which ends the loops too early |
| Md5.CountStep | src/md5.c:333-337 | the two count words, with the carry between them, hold the length in bits modulo 2^64 |
| Md5.OffsetOfCount | src/md5.c:328 | the low count word alone tells how many bytes are buffered |
| Md5.Md5State.Append | src/md5.c:322-358 | after any append the digest words are the fold of the block function over the whole blocks of the message so far, the buffer holds the rest, and the count words its length |
| Md5.Md5State.Finish | src/md5.c:360-381 | the digest is that of the message padded as sections 3.1 and 3.2 of RFC 1321 say, with no partial block left |
| Md5.DigestOf | src/md5.c:322-381 | the digest does not depend on how the message is cut into pieces |
| Md5.PaddingIsMinimal | src/md5.c:375-376 | no shorter padding reaches 56 bytes modulo 64 |
| Md5.PaddedMeans | src/md5.c:375-378 | byte by byte: behind the message are 80 (hex), zeros, and in the last eight bytes the length in bits, least significant byte first; at most 72 bytes |
| Md5.InitialBytes | src/md5.c:313-320 | the bytes that come out if the block function does nothing, which are those of section 3.3 of RFC 1321 |
| Md5.DigestBytesAre | src/md5.c:379-380 | the digest is its four words, each least significant byte first |
| Base64.LettersOfDictionary | xstream/src/base64.cpp:12 | the letters in figures are the dictionary string |
| Base64.IndexOfLetter | xstream/src/base64.cpp:115-157 | the comparisons of index invert the dictionary, and no letter is the padding character |
| Base64.DecodeEncode | xstream/src/base64.cpp:159-189 | four characters decode to the three bytes they encode |
| Base64.EncodeBits | xstream/src/base64.cpp:33-46 | the positions of the four letters in the dictionary, as one number to the base 64, are the three bytes, as one number to the base 256 |
| Base64.LastTwo | xstream/src/base64.cpp:85-112 | a last group of two bytes is three letters, with two zero bits, and one padding character |
| Base64.LastOne | xstream/src/base64.cpp:85-112 | a last group of one byte is two letters, with four zero bits, and two padding characters |
| Base64.QuadAt | xstream/src/base64.cpp:71-112 | group number k encodes the bytes from 3 k on |
| Base64.LinesAreWrapped | xstream/src/base64.cpp:48-69 | the output is the base64 text with a delimiter behind every w characters, also within a group of four |
| Base64.LineByLine | xstream/src/base64.cpp:48-69 | which means line by line: w characters, a delimiter, and the next line |
| Base64.QuadReadsBack | xstream/src/base64.cpp:192-233 | one group of four, with or without a delimiter in it, reads back, and the column of the reader is that of the writer |
| Base64.RoundTrip | xstream/src/base64.cpp:192-253 | for every message, delimiter and usable width, reading what was written gives the message and then the end |
| Base64.WidthsExactly | xstream/src/base64.cpp:192-204 | a width is good for all messages if and only if it is 0, or at least 4 and below 2^31; the reader computes the columns left in an int |
| Base64.NarrowFails | xstream/src/base64.cpp:48-69 | for widths 1 to 3 the column count of the writer passes the width, and a message is lost |
| Base64.OStreamBuf.Write | xstream/src/base64.cpp:48-69 | a group is written across the end of a line |
| Base64.OStreamBuf.Sputc | xstream/src/base64.cpp:71-83 | a character goes to the buffer, after the full group before it has been written |
| Base64.OStreamBuf.Close | xstream/src/base64.cpp:85-112 | the destructor writes the last group, padded as section 4 of RFC 4648 has it |
| Base64.IStreamBuf.Underflow | xstream/src/base64.cpp:192-253 | the get area holds the next bytes of the message; the value returned is 0, not the next character that a peek expects |
| Base64.ThereAndBack | xstream/src/base64.cpp:33-253 | through both streams: the text is wrapped base64, and all bytes come back |

## Left out

- Sequencer.IStream.Extract: records are value trees and a streamable reference is an address in the tree, because the pointers of the generated classes cannot alias; destructors, owners and the `m_parent` and `m_host` back pointers are not modelled.
- Sequencer.ParseElem: a negative element count makes no elements here; in the source the loop over it does not run either, but `add` computes an iterator before the start of the list.
- Xdr.InBuffer.GetText: bytes of a string beyond the end of the buffer are zeros here; in the source they are uninitialized.
- Evolution.SchemaEvolution: the children of a tag that occurs several times in one model must be in the same order everywhere, because `checkConsistency` does not compare the order and the class follows the first occurrence; buffers are shorter than 2^31 bytes, because sizes are ints.
- Document.Synthesize: documents are in the normal form that `constructDocument` prints, each tag with children has an attribute, names contain no blanks, slashes, quotes or angles, and no container has the name of one of its ancestors; an xml element whose only children are white space prints as an open and a close tag and is not modelled; other texts are not parsed.
- Writer.OStream.WriteRecord: the capacity is unbounded here; CapacityFits says when it still is an int.
- Writer.OStream.PutChecksum: the CRC algorithm is not modelled, nor is that of Control, where it is a parameter.
- ElementList.Window.Insert: edits of several windows of one host list after deletions are not modelled; an emptied window keeps an iterator into a neighbour.
- ElementList.Window.Add: the check for a list without a parent, which throws, is left out.
- Misreading.SchemaEvolutionExactly: the model of the file must not be so large that a record in which nearly everything is blank exceeds 2^31 bytes; the same holds for UnpackingExactly.
- TagText.TagsMatchExactly: attribute values contain no quotes, because the printed text does not escape them, and names contain no blanks, slashes, equal signs or quotes.
- HostLists.Play: the machine notes which lists it fills and with how many elements, and the host lists are what comes of this; each filling is an `add` to an empty list, of which ElementList.Append is the imperative step. A list that is filled a second time, which FilledOnce rules out, is not followed.
- Framing.IStreamBuf.ReadBlock: streams without block lengths are left out, and blocks are from 4 to 2^24 - 1 bytes long and fit into the input buffer.
- Framing.IStreamBuf.Inflate: compression is an abstract pair of functions; zlib and bzip2 themselves, the injected stream headers and the dummy blocks of bzip2 are not modelled; a stream that has not ended is taken to have input left.
- Framing.IStreamBuf.Deliver: a single request stays within a record and records do not straddle blocks, as Sharing proves for the writers; the get area of the buffer, which only `underflow` fills and `read` never uses, is left out.
- Framing.IStreamBuf.ReadAt: for one reader; with several, repositioning moves the position they share.
- Flushing.OStreamBuf.Flush: data reach the compressor by `write` only; characters put one at a time, errors and exceptions, and a bzip2 block that exceeds the output buffer are not modelled.
- Sharing.ExactlyOnce: a claim is one atomic step, which the mutex around Framing.IStreamBuf.ReadBlock makes it.
- Delivery.Simulate: threads take turns by lengths and bodies; within one of these they touch what they share only in a claim, which the mutex makes one step. Records carry no CRC there, and their lengths are below 2^31.
- Writing.Simulate: threads take turns by commands there; all finer interleavings are in Sharing, and Writing.CommandSteps says that a command is a run of its steps.
- Sharing.RunKeepsRecords: compression is on from the start, and every thread writes under the mutex; the final flush of the destructors, which runs in one thread, is a command like others.
- Control.ReadBack: one thread; turning compression off and read errors are left out; a change of codec is only a change of status bits here, because all compressed bytes are one channel whatever the codec; status words keep their 32 bits, and the two channels before and after compression are byte sequences.
- CRuntime.PopTreeIsCodonTree: the fixed line length of 500 characters of the C matcher and its scanning of the text are left out; it is modelled on the trees.
- CRuntime.ReadersAgree: the limit on string sizes, error exits and a boolean word other than 0 or 1, which the C reader turns into 1, are left out.
- CRuntime.PackMember: the memory stream grows here; in the source it has a fixed size that is checked at the end.
- Tools.ConstructXML: the text that is printed, number formats and the Xerces document are not modelled; attributes are their stored values.
- Tools.ReadElement: ROOT trees are the rows that are filled; keys and branches are left out.
- Tools.OutputStream: attribute values are given, not parsed from text, and documents have the attributes of the template.
- Md5.Md5State.Append: the rounds of `md5_process` are a parameter; a piece is at most 2^31 - 64 bytes long, as the sum with the bytes in the buffer is an int.
- Base64.IStreamBuf.Underflow: characters outside of the alphabet and a missing delimiter, which throw, are only modelled as the end of what is sound.
- Iterator distance, `slice`, const iterators, `ostream::getPosition`, HDF5 files, the Python wrappers, the other stream buffers (http, xrootd, fd, posix, tee, dater, the digests of xstream) and the tables of particle types are not part of this model.
