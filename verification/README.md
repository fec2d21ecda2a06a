# Split-Flap wall firmware: verified models of its state-keeping code

The firmware of the Split-Flap wall keeps a handful of small state machines whose mistakes would only
show after a power cut, a dropped connection, a full table or an unlucky interleaving. This project
models them in Dafny and proves what they keep over every run:

| file | models |
|---|---|
| `EventRecordPolicy.dfy` | one entry of the event record on flash, torn writes and their padding, and the newest-first pager that jumps by seq arithmetic |
| `EventStage.dfy` | the bounded queue that holds entries until the clock is known |
| `EventDampPolicy.dfy` | the damper that writes a repeated entry a few times and then counts it |
| `EventRecord.dfy` | the two rotating files over ticks, rotations, power cuts and restarts, and paging over both |
| `ClusterWrap.dfy`, `ClusterLayout.dfy` | the member table, word wrap, alignment, slicing into segments and the mirror that puts them together again |
| `FactorySlot.dfy` | the streaming install of a rescue image |
| `FollowerImageStore.dfy` | the stored row image: uploader, flusher, readers and stall reclaim beside each other, and its three files |
| `FollowerUnitJobs.dfy` | the row's one unit job, and telling its end over a connection that drops |
| `FollowerLog.dfy` | the row's log ring |
| `FollowerOtaImage.dfy` | the checks on a packed upload that make unpacking in place safe |
| `DisplayIpc.dfy` | the wrong-letter verdict over frames, re-shows and facts older than the frame |

Where the source changes fields step by step, a class does the same on the same fields and its methods
are proved equal to step functions on values; the lemmas are about those functions and runs of them.
Flash is a sequence of bytes; a power cut is a run that stops, and for the rescue image also a flash
operation that breaks off part way. Clocks, the bus, file writes that fail and the network arrive as
parameters of the steps, so the lemmas hold for anything they bring.

## Where the code does not do what its comments say

The model follows the code. Each of these is proved, with the exact condition under which the promise
holds.

- `EventRecordPolicy.h:238-239` says that what padding completes after a torn write fails its check. An
  entry torn after 22 or 23 bytes is completed to itself, since only zeros are missing, and a shorter tear
  is when its bytes happen to XOR to the mask (`PaddedTearReadable`). A power cut then doubles a seq or
  loses one, and otherwise never (`TearExact`).
- `EventRecordPolicy.h:273-275` justifies the pager's jump by seqs being in order and used once. That is
  not enough: with a seq missing, the jump can pass entries (`GapLosesAnEntry`; exact condition `JumpExact`).
  As long as padding completes nothing, seqs go missing only when an append fails while the board is up
  (`NoneMissing`) and it writes again before a restart, which takes the lost seqs back
  (`RestartTakesBack`); the gap stays until a rotation drops what lies before it (`LostAppendExact`,
  `MissingExactly`).
- `FactorySlot.h:57-58` and `FactorySlot.cpp:90-91` promise that a second install leaves the one in flight
  alone. Being refused, it sets the shared error, and the install in flight accepts no chunk and no end any
  more (`RefusedBeginStopsTheInstall`).
- `FactorySlot.h:66-67` promises that a failure after the slot was touched leaves the header sector erased.
  It does, unless some of the header had landed and the erase that takes it back fails too
  (`FailureLeavesNoHeader`, `TornHeaderHappens`); a slot torn this way stays so until the next install
  begins (`EveryRunIsSafe`).
- `FactorySlot.h:40-43` promises that an image in flight reads invalid across reboots. A power cut inside the
  write of the header leaves the rest of the image under part of a header, which may hold a descriptor; it
  is the only place where that can happen (`CutInsideACall`).
- `FollowerImageStore.cpp:394-395` promises that a restart in the middle of a store leaves the old image
  held. If the old image was itself waiting for another release, it now waits for the new one, and is
  offered once that runs, whatever it was stored for (`OfferedTooEarlyExactly`, `TooEarlyHappens`).
- `FollowerImageStore.h:83` promises that an upload is offered at once. One that is cut off before it removes
  the hold of the image before it is withheld from the next start on (`WithheldExactly`, `WithheldHappens`).
- `FollowerImageStore.cpp:83-84` allows for a missing rev label at a start. A store cut off between image
  and label also leaves the new image under the old label (`LabelIsTheImages`, `MislabelledHappens`), and a release that label
  names then does not store its own (`StaleLabelSkipsAStore`).
- `FollowerLog.h:67-68` says that a cursor past `written` starts at `written`. That is so within one call,
  but as line 70 adds, nothing changes while no whole line waits: the cursor is not moved, and such a reader
  is given what one at the end of the log would be given if and only if its cursor was not past it
  (`StartsAtTheEndExactly`). No reader of this firmware gets there: its one cursor (`FollowerLink.cpp:84`,
  `:425-436`) lives and dies with the ring and only takes values `nextLine` gave it, which never pass the end
  (`ReaderGetsTheLog`).
- `DisplayIpc.h:179` takes a last-seen time of 0 for never read, so a read at the one instant in 49 days when
  the clock shows 0 does not count (`ReadAfterIsTrueOrder`).
- `ClusterLayout.h:178-182` does not promise optimality, and past a row narrower than the word greedy
  wrapping gives a text up that would fit (`NarrowRowStopsTheText`); with every word fitting every row it
  is optimal (`GreedyIsOptimal`).

## Model

| member | source | states |
|---|---|---|
| EventRecordPolicy.DecodeEncode | firmware/v2/Master/EventRecordPolicy.h:108-137 | every entry reads back as it was written; seq 0 alone cannot be written |
| EventRecordPolicy.EncodeLayout | firmware/v2/Master/EventRecordPolicy.h:7-17 | each field lies at its offset, low byte first, the last two bytes are 0 and all 24 XOR to 0x5A |
| EventRecordPolicy.XorBits | firmware/v2/Master/EventRecordPolicy.h:99-105 | the exclusive or of the model has exactly the bits that one of the two numbers has |
| EventRecordPolicy.OneDamagedByteIsRefused | firmware/v2/Master/EventRecordPolicy.h:99-105 | one changed byte anywhere in a readable entry is always refused |
| EventRecordPolicy.PaddedTearReadable | firmware/v2/Master/EventRecordPolicy.h:238-242 | a torn entry, padded, is readable exactly for the tears past the check byte and those whose bytes XOR to the mask under a nonzero seq |
| EventRecordPolicy.EarlyTearIsRefused | firmware/v2/Master/EventRecordPolicy.h:123-137 | a tear inside the time field is never readable |
| EventRecordPolicy.TornSeqIsLow | firmware/v2/Master/EventRecordPolicy.h:89-98 | a torn entry shows no seq, its own, or one at least 256 lower |
| EventRecordPolicy.LastSeq | firmware/v2/Master/EventRecordPolicy.h:252-262 | the backward search finds the seq of the newest readable entry, and 0 exactly when there is none |
| EventRecordPolicy.ReadChunk | firmware/v2/Master/EventRecordPolicy.h:289-296 | a chunk of slots walked backward adds what the plain scan of those slots adds, up to the cap |
| EventRecordPolicy.PageRead | firmware/v2/Master/EventRecordPolicy.h:267-299 | jump, chunks and cap together append the newest wanted entries from the start slot down, behind what was there |
| EventRecordPolicy.JumpLosesNothing | firmware/v2/Master/EventRecordPolicy.h:272-283 | with consecutive seqs and unreadable slots anywhere, the page is the plain backward scan for every `before` and every room |
| EventRecordPolicy.JumpExact | firmware/v2/Master/EventRecordPolicy.h:272-283 | for a file in seq order, which is all the jump's comment asks for, any `before` and any room, the page is the plain scan's if and only if nothing is wanted, nothing is jumped, or no more seqs lie between `before` and the newest entry than slots behind the newest wanted one |
| EventRecordPolicy.JumpExactAnyOrder | firmware/v2/Master/EventRecordPolicy.h:272-283 | the same for a file in any order, with room for all of it |
| EventRecordPolicy.GapLosesAnEntry | firmware/v2/Master/EventRecordPolicy.h:273-275 | a file in seq order with one seq missing whose page comes back empty although an entry is wanted |
| EventStaging.EventStage.Put | firmware/v2/Master/EventRecordPolicy.h:193-202 | an entry joins the end of the queue; at 32 it is refused and counted, up to the counter's end |
| EventStaging.EventStage.CopyOut | firmware/v2/Master/EventRecordPolicy.h:211-220 | the entries copied out are the longest front of the queue that may go, dated by their age and numbered from the next seq |
| EventStaging.EventStage.Shift | firmware/v2/Master/EventRecordPolicy.h:221-222 | the queue is what was behind the first n, in order |
| EventStaging.EventStage.Take | firmware/v2/Master/EventRecordPolicy.h:209-233 | what goes out, what stays, and one entry owning up to those lost once the queue is empty |
| EventStaging.StagedInOrder | firmware/v2/Master/EventRecordPolicy.h:183-234 | over every run entries leave in the order they came, none lost or doubled, and refusals are told of, still counted, or past the counter's end |
| EventStaging.DatedByItsAge | firmware/v2/Master/EventRecordPolicy.h:213-217 | in true time on a clock that wraps: an entry is dated back by its age in whole seconds, nothing else of it changes, and it may go once the clock is set, the board forces it, or two minutes are over |
| EventStaging.OutTells | firmware/v2/Master/EventRecordPolicy.h:204-232 | what a take hands out, field by field, and when it owns up to how many lost |
| EventDampPolicy.EventDamp.Clear | firmware/v2/Master/EventDampPolicy.h:71-74 | every slot is free |
| EventDampPolicy.EventDamp.Find | firmware/v2/Master/EventDampPolicy.h:94-99 | the first occupied slot that follows this entry, or none |
| EventDampPolicy.EventDamp.Room | firmware/v2/Master/EventDampPolicy.h:101-109 | the first free slot, else the first of those whose window began earliest |
| EventDampPolicy.EventDamp.Admit | firmware/v2/Master/EventDampPolicy.h:116-149 | the whole table after an offer, whether it is written, and the summary, as the step function the run lemmas are about |
| EventDampPolicy.EventDamp.Seed | firmware/v2/Master/EventDampPolicy.h:153-165 | the whole table after an entry read back from the record |
| EventDampPolicy.EventDamp.Due | firmware/v2/Master/EventDampPolicy.h:169-183 | the table and the entries after freeing passed windows front to back until the output is full |
| EventDampPolicy.AdmitConserves | firmware/v2/Master/EventDampPolicy.h:116-149 | counts in the table plus the number told grow by exactly one for each refusal, except at a full counter |
| EventDampPolicy.DueConserves | firmware/v2/Master/EventDampPolicy.h:169-183 | what leaves the table as counts is what the Repeated entries say |
| EventDampPolicy.DueFreesOrKeeps | firmware/v2/Master/EventDampPolicy.h:171-180 | every slot stays as it is or is freed because its window passed; with room for all, every passed one is freed |
| EventDampPolicy.AdmitKeepsDistinct | firmware/v2/Master/EventDampPolicy.h:94-149 | occupied slots stay pairwise different and within the burst |
| EventDampPolicy.SeedsCountNothing | firmware/v2/Master/EventDampPolicy.h:16-19 | a table rebuilt from the record counts nothing as unwritten and follows each entry once |
| EventDampPolicy.RunBalances | firmware/v2/Master/EventDampPolicy.h:11-19 | over every run, power cuts and rebuilds included, entries refused = told + still counted + refused at a full counter + in RAM at a power cut |
| EventDampPolicy.ToldExactly | firmware/v2/Master/EventDampPolicy.h:8-11 | nothing refused goes unaccounted if and only if no counter was full and no power was cut |
| EventDampPolicy.BurstIsKept | firmware/v2/Master/EventDampPolicy.h:8-9 | without a rebuild no slot ever counts more than 10 as written |
| EventDampPolicy.AdmitIsCounted | firmware/v2/Master/EventDampPolicy.h:116-149 | an offer moves the offered entry's own counter on and leaves every other entry's slot alone |
| EventDampPolicy.TableIsManyCounters | firmware/v2/Master/EventDampPolicy.h:30-31 | as long as no more than 16 different entries are followed, the one table stands for an unbounded map of independent counters |
| EventDampPolicy.RefusedByItsOwnCount | firmware/v2/Master/EventDampPolicy.h:6-11 | an entry is refused exactly when a counter that saw only its own occurrences refuses it, whatever else was offered or freed |
| EventDampPolicy.FirstTenAreWritten | firmware/v2/Master/EventDampPolicy.h:8-10 | of the occurrences of one entry within the hour its first opens exactly the first ten are written |
| EventDampPolicy.RepeatedTellsTheRest | firmware/v2/Master/EventDampPolicy.h:81-92 | the Repeated entry of such an hour says how many were not written, of which entry, and when the last was |
| EventDampPolicy.WindowStartsOver | firmware/v2/Master/EventDampPolicy.h:111-120 | outside that hour the next occurrence is written and opens one of its own |
| EventDampPolicy.UndampedPasses | firmware/v2/Master/EventDampPolicy.h:114-118 | an entry without a time and a Repeated one are written and leave the table alone |
| EventDampPolicy.SeedIsCounted | firmware/v2/Master/EventDampPolicy.h:151-165 | an entry read back counts once more as written in its window, or opens one, and moves no other entry's slot |
| EventRecordStore.ToWriteFits | firmware/v2/Master/EventRecord.cpp:42-44 | no take and no table overruns the array of entries to write |
| EventRecordStore.DampingLosesNothing | firmware/v2/Master/EventRecord.cpp:109-122 | the entries written are those taken, unchanged and in order, with some left out, and each one left out is counted in the table or told of |
| EventRecordStore.SummaryBeforeEntry | firmware/v2/Master/EventRecord.cpp:117-118 | a summary stands right before an entry that was taken |
| EventRecordStore.EventRecorder.Init | firmware/v2/Master/EventRecord.cpp:91-104 | the next seq is recovered from the two files, and a lost table rebuilt from the 64 newest entries, oldest first |
| EventRecordStore.EventRecorder.Rebuild | firmware/v2/Master/EventRecord.cpp:98-103 | the table is what seeding those entries from the oldest on gives |
| EventRecordStore.EventRecorder.DampTaken | firmware/v2/Master/EventRecord.cpp:111-122 | table and output after damping each entry with its summary before it, then the passed windows; never more than the array holds |
| EventRecordStore.EventRecorder.Renumber | firmware/v2/Master/EventRecord.cpp:165 | every entry keeps all its fields but the seq, which is the first seq plus its place, on 32 bits |
| EventRecordStore.EventRecorder.Append | firmware/v2/Master/EventRecord.cpp:178-186 | the file is padded to the entry boundary and takes the entries one after the other, or stops after any number of bytes, in the padding or in an entry |
| EventRecordStore.EventRecorder.WriteEntries | firmware/v2/Master/EventRecord.cpp:182-186 | as many entries as the file takes whole, and the beginning of the next |
| EventRecordStore.EventRecorder.Tick | firmware/v2/Master/EventRecord.cpp:149-197 | files, seq and table after a tick on every path: a file that does not open, a write that comes short anywhere, a rotation whole, half or not done |
| EventRecordStore.EventRecorder.Page | firmware/v2/Master/EventRecord.cpp:199-206 | the page over both files, the current one first |
| EventRecordStore.PadAddsNothing | firmware/v2/Master/EventRecord.cpp:178-181 | padding changes nothing that can be read unless it completes an entry |
| EventRecordStore.NumberKeepsTheRest | firmware/v2/Master/EventRecord.cpp:165 | numbering changes the seqs alone, field by field |
| EventRecordStore.TickWritesItsEntries | firmware/v2/Master/EventRecord.cpp:164-193 | after a tick that writes everything what can be read of the files ends with exactly its entries, field by field, numbered on |
| EventRecordStore.RotationKeepsAFile | firmware/v2/Master/EventRecordPolicy.h:31-32 | with a rename that works the current file stays below 2048 entries' worth between ticks, and a rotated one holds at least that |
| EventRecordStore.FreshRecord | firmware/v2/Master/EventRecord.cpp:36-36 | an empty record meets the invariant |
| EventRecordStore.StepKeepsInv | firmware/v2/Master/EventRecord.cpp:83-197 | each tick, failed append, rotation that breaks off anywhere, restart and power cut (in the padding, in an entry, once all is written, between removal and rename, after it) keeps the retained entries a suffix of all written, in seq order, with a seq missing exactly at each hole a lost append has left |
| EventRecordStore.RunKeepsInv | firmware/v2/Master/EventRecord.cpp:83-197 | the same over every run in which padding completes no torn entry, failed appends included |
| EventRecordStore.MissingExactly | firmware/v2/Master/EventRecord.cpp:83-197 | over every run a seq is missing if and only if the first entry written after a loss with no restart in between can still be read together with one from before it |
| EventRecordStore.NoneMissing | firmware/v2/Master/EventRecord.cpp:83-197 | over every run in which no append failed with the board up no seq is missing |
| EventRecordStore.TearExact | firmware/v2/Master/EventRecordPolicy.h:238-242 | after a cut, a restart and one more write, the record is without a missing or doubled seq if and only if padding did not complete the torn entry |
| EventRecordStore.LostAppendExact | firmware/v2/Master/EventRecord.cpp:166-177 | for every state of the two files: after an append that lost numbers, the next tick leaves a record without a missing seq if and only if it lost none, or writes nothing, or none of the older entries survives it |
| EventRecordStore.RestartTakesBack | firmware/v2/Master/EventRecord.cpp:91-95 | after a restart the next write leaves no gap, whatever an append had lost |
| EventRecordStore.PageIsScan | firmware/v2/Master/EventRecord.cpp:199-206 | two indexed lookups equal one backward scan over all retained entries, whenever no seq is missing |
| EventRecordStore.NextPageFollows | firmware/v2/Master/EventRecordPolicy.h:264-266 | the scan from the last entry of a page is what followed that page |
| EventRecordStore.PagingVisitsEverything | firmware/v2/Master/EventRecord.cpp:199-206 | paging to the end terminates and gives every retained entry exactly once, newest first, for every page size |
| EventRecordStore.LaterPagesStay | firmware/v2/Master/EventRecord.cpp:149-206 | a tick between two pages adds nothing to the later ones and takes from them only what a rotation removed |
| ClusterLayout.Validate | firmware/v2/Master/ClusterLayout.h:97-152 | the verdict, in the order faults are named, and the grid facts of a valid table |
| ClusterLayout.AcceptedTables | firmware/v2/Master/ClusterLayout.h:97-152 | a table is accepted if and only if it has one to eight members, rows below 8, a flap, no flap shared by two that are not twins, and rows with flaps from 0 on |
| ClusterLayout.ClashIsASharedColumn | firmware/v2/Master/ClusterLayout.h:121-134 | two members clash if and only if they share a column of a row and not all their columns |
| ClusterLayout.ExtentEndsAtAFlap | firmware/v2/Master/ClusterLayout.h:139-140 | a row's extent ends right behind its last flap |
| ClusterLayout.AnyClash | firmware/v2/Master/ClusterLayout.h:121-134 | whether two members share columns without being twins |
| ClusterLayout.MeasureRows | firmware/v2/Master/ClusterLayout.h:136-142 | widths and extents of every row in one pass |
| ClusterLayout.WidthNeedsAMember | firmware/v2/Master/ClusterLayout.h:143-148 | a row has width exactly when a member renders in it, twins counted once |
| ClusterLayout.OffsetCountsFlaps | firmware/v2/Master/ClusterLayout.h:78-89 | text position offset + k is the number of flaps left of column col + k |
| ClusterLayout.RowWidthCountsFlaps | firmware/v2/Master/ClusterLayout.h:63-64 | a row is as wide as it has columns with flaps, all left of its extent |
| ClusterLayout.SpansPartitionTheText | firmware/v2/Master/ClusterLayout.h:67-89 | a position lies in the row's text if and only if it lies in a distinct span, and only twins share one |
| ClusterLayout.AlignRowMeaning | firmware/v2/Master/ClusterLayout.h:154-176 | shorter text stands whole between blanks on the right sides, longer text keeps its beginning |
| ClusterLayout.SegmentIsAsWide | firmware/v2/Master/ClusterLayout.h:250-257 | every segment has exactly its member's width |
| ClusterLayout.SegmentShowsItsColumns | firmware/v2/Master/ClusterLayout.h:250-257 | character k of a segment is the row text's, as far in as flaps lie left of its column |
| ClusterLayout.TwinsGetTheSame | firmware/v2/Master/ClusterLayout.h:67-68 | coincident members get the same segment |
| ClusterLayout.AlignAndSlice | firmware/v2/Master/ClusterLayout.h:269-274 | aligning the rows in place and slicing them |
| ClusterLayout.LayoutGridText | firmware/v2/Master/ClusterLayout.h:262-276 | accepts exactly the valid tables and gives the slices of the wrapped, aligned rows |
| ClusterLayout.ClockSegments | firmware/v2/Master/ClusterLayout.h:319-336 | time on row 0, date on row 1 if there is one, blanks below, aligned and sliced |
| ClusterLayout.DrawSlot | firmware/v2/Master/ClusterLayout.h:308-310 | writes a member's columns and no other |
| ClusterLayout.DrawPass | firmware/v2/Master/ClusterLayout.h:301-312 | one pass: each column shows the last member of that pass drawn over it |
| ClusterLayout.MirrorRows | firmware/v2/Master/ClusterLayout.h:290-314 | rows as long as their extent; each column shows the own slot, else the segment there, else a blank |
| ClusterLayout.MirrorUndoesLayout | firmware/v2/Master/ClusterLayout.h:278-289 | where no own slot lies over it a column with a flap shows the row text at its count, and a gap is blank |
| ClusterLayout.MirrorSpellsTheText | firmware/v2/Master/ClusterLayout.h:278-289 | read over its flaps, a mirrored row without an own slot is the row text again |
| ClusterLayout.WallShowsTheText | firmware/v2/Master/ClusterLayout.h:259-314 | wrap, align, slice and mirror, for every text and valid table: each column shows the live text of an own slot, else the character of the wrapped and aligned line its flap counts to, else a blank; and a row without an own slot spells that line |
| ClusterLayout.OwnSlotWins | firmware/v2/Master/ClusterLayout.h:283-286 | an own slot shows the live text, also over a coincident twin |
| ClusterWrap.WordEnd | firmware/v2/Master/ClusterLayout.h:207-209 | the word found is the next token and the rest are the tokens behind it |
| ClusterWrap.SplitRows | firmware/v2/Master/ClusterLayout.h:228-246 | the loop that splits a word down the rows does what the recursive split does |
| ClusterWrap.PlaceWord | firmware/v2/Master/ClusterLayout.h:211-246 | where one word goes: this row, the next, split, or nowhere |
| ClusterWrap.WrapRows | firmware/v2/Master/ClusterLayout.h:188-248 | the character loop terminates and gives the greedy wrap of the text's tokens |
| ClusterWrap.MarkerIsABreak | firmware/v2/Master/ClusterLayout.h:184-193 | a backslash and an n become a newline wherever they stand, and what is before and behind them is what it would be alone |
| ClusterWrap.NoMarkerUnchanged | firmware/v2/Master/ClusterLayout.h:192-193 | a text without that marker stays as it is |
| ClusterWrap.BreakStartsANewRow | firmware/v2/Master/ClusterLayout.h:184-187 | what follows a break, raw or the marker, shows on the rows below what precedes it, as it would show there alone; not at all if what precedes it is cut off or fills the wall |
| ClusterWrap.LeadingBreak | firmware/v2/Master/ClusterLayout.h:186-186 | a leading break leaves the first row blank and wraps the rest on the others |
| ClusterWrap.TokensKeepLetters | firmware/v2/Master/ClusterLayout.h:199-209 | cutting a text into words and breaks keeps every letter in order |
| ClusterWrap.RowsFitAndAreTidy | firmware/v2/Master/ClusterLayout.h:178-182 | every row stays within its width without leading, trailing or double spaces |
| ClusterWrap.RowsSpellThePrefix | firmware/v2/Master/ClusterLayout.h:178-187 | the rows read on end, plus what was given up, are exactly the text's letters in order |
| ClusterWrap.PlaceKeepsWordWhole | firmware/v2/Master/ClusterLayout.h:178-182 | a word is split only if it is wider than the row reached and fits no next one |
| ClusterWrap.WordsShowInOrder | firmware/v2/Master/ClusterLayout.h:178-182 | for every text and grid the words on the rows are the text's in order, each in one piece unless it is wider than a row and the next, and only the last shown can lack its end |
| ClusterWrap.GivenUpForCause | firmware/v2/Master/ClusterLayout.h:178-182 | the rest of a text is given up only past the last row, or at a word no wider than the row reached that has no room on it and no next row as wide |
| ClusterWrap.SplitFillsRows | firmware/v2/Master/ClusterLayout.h:228-246 | a split word leaves no row it passes with room for a space and a character |
| ClusterWrap.GreedyStaysAhead | firmware/v2/Master/ClusterLayout.h:199-225 | from any point the greedy place is never behind that of any other layout of the same tokens |
| ClusterWrap.GreedyIsOptimal | firmware/v2/Master/ClusterLayout.h:188-248 | if no word is wider than a row and any layout fits, all words are placed whole, in order, reaching no further down |
| ClusterWrap.NarrowRowStopsTheText | firmware/v2/Master/ClusterLayout.h:220-226 | past a row narrower than the word the text stops although a layout exists |
| FactoryChunkPlan.PlanCoversTheChunk | firmware/v2/Master/FactoryChunkPlan.h:19-33 | the chunk is cut at the end of the header sector with nothing left over, and the erase mark is the first sector boundary at or past its end |
| FactorySlot.FactoryInstaller.FailWith | firmware/v2/Master/FactorySlot.cpp:74-87 | the whole state after a failure, scrubbed only if the slot was touched |
| FactorySlot.FactoryInstaller.WriteBegin | firmware/v2/Master/FactorySlot.cpp:89-113 | the whole state after a begin, refused, without partition or started |
| FactorySlot.FactoryInstaller.EraseRange | firmware/v2/Master/FactorySlot.cpp:82-82 | flash after an erase that may break off after some sectors |
| FactorySlot.FactoryInstaller.WriteRange | firmware/v2/Master/FactorySlot.cpp:170-171 | flash after programming, which only clears bits and may break off after some bytes |
| FactorySlot.FactoryInstaller.HoldBack | firmware/v2/Master/FactorySlot.cpp:157-159 | the held-back sector with the chunk's first bytes in it |
| FactorySlot.FactoryInstaller.Store | firmware/v2/Master/FactorySlot.cpp:156-186 | the whole state after the part of a chunk past its checks |
| FactorySlot.FactoryInstaller.Digest | firmware/v2/Master/FactorySlot.cpp:176-184 | the digest is fed the whole chunk, in slices |
| FactorySlot.FactoryInstaller.WriteChunk | firmware/v2/Master/FactorySlot.cpp:124-187 | the whole state and the answer after a chunk, on every path |
| FactorySlot.FactoryInstaller.WriteEnd | firmware/v2/Master/FactorySlot.cpp:189-217 | the whole state after an end, on every path |
| FactorySlot.FactoryInstaller.WriteAbort | firmware/v2/Master/FactorySlot.cpp:119-122 | the whole state after giving up, nothing when none runs |
| FactorySlot.WritesLandOnErased | firmware/v2/Master/FactorySlot.cpp:160-175 | every byte a chunk programs is erased and not yet written in this install; the watermark is a sector multiple, never falls and never passes the partition |
| FactorySlot.ChunkTakenExactly | firmware/v2/Master/FactorySlot.cpp:124-187 | a chunk that holds something is taken if and only if an install runs without an error, it goes on at the cursor, fits, begins an image if it is the first, and the flash operations it needs are done |
| FactorySlot.OutOfOrderEndsTheInstall | firmware/v2/Master/FactorySlot.cpp:127-133 | a chunk at any other offset ends the install, with the slot untouched or without a header |
| FactorySlot.TakenLieEndToEnd | firmware/v2/Master/FactorySlot.cpp:124-187 | over every run the chunks an install has taken were said to lie end to end from 0, and what it holds are exactly their bytes |
| FactorySlot.SuccessHoldsTheChunks | firmware/v2/Master/FactorySlot.cpp:189-217 | an end that succeeds after any run leaves in flash what those chunks add up to |
| FactorySlot.ClaimLastsHalfAMinute | firmware/v2/Master/FactorySlot.cpp:70-72 | in true time on a clock that wraps, an install claims the slot for 30 s from its last chunk |
| FactorySlot.ClaimFollowsTheInstall | firmware/v2/Master/FactorySlot.cpp:89-113 | a begin is taken if and only if there is a slot and no claim on it; begin and chunks renew the claim, and it ends with the install |
| FactorySlot.AbortGivesUp | firmware/v2/Master/FactorySlot.cpp:119-122 | giving up ends an install that runs, with the slot untouched or without a header, and does nothing else |
| FactorySlot.StepIsKnown | firmware/v2/Master/FactorySlot.cpp:74-217 | any call with any data, flash operations breaking off anywhere: the install's invariant is kept, and no flash content on the way is other than the one before, one without a header, the image, or the image with a torn header |
| FactorySlot.CutInsideACall | firmware/v2/Master/FactorySlot.cpp:199-204 | a power cut inside a call finds a torn header if and only if the write of the header stops inside it at bytes that differ from erased flash; otherwise what was there before, no header, or the whole image |
| FactorySlot.BoundaryExact | firmware/v2/Master/FactorySlot.cpp:74-217 | after any call the slot is untouched since its install began, or has no header, or holds the whole checked image with a descriptor, if and only if this call does not tear the header with its scrub failing too, and no earlier one did since the last begin |
| FactorySlot.EveryRunIsSafe | firmware/v2/Master/FactorySlot.h:61-68 | the same if and only if over every sequence of calls in every order, told from the calls alone |
| FactorySlot.TornHeaderHappens | firmware/v2/Master/FactorySlot.cpp:199-204 | on every board a begin, a two-byte chunk and an end whose write and scrub both break off leave a torn header |
| FactorySlot.NoPartialImageStarts | firmware/v2/Master/FactorySlot.h:61-68 | with scrubs that work, whatever else fails, over any number of installs the slot holds between calls what it held at first, no header, or byte for byte an image whose end returned true |
| FactorySlot.SuccessHoldsTheStream | firmware/v2/Master/FactorySlot.cpp:189-217 | an end that reports success leaves exactly the streamed bytes, checked and described |
| FactorySlot.FailureLeavesNoHeader | firmware/v2/Master/FactorySlot.h:66-68 | a failure after the header sector was erased, in the first chunk or later, leaves it erased if and only if none of the new header had landed or its scrub worked; one before that leaves the slot as it was |
| FactorySlot.AnyCutInstallsTheImage | firmware/v2/Master/FactorySlot.cpp:124-187 | however an image is cut into chunks, all are accepted and the digest has seen exactly the image |
| FactorySlot.AnyCutEndsWithTheImage | firmware/v2/Master/FactorySlot.cpp:89-217 | from any state a begin accepts and for every cut, the end succeeds if and only if the header is written, the image's digest is the one asked for and the flash is described; then flash holds exactly the image |
| FactorySlot.RefusedBeginStopsTheInstall | firmware/v2/Master/FactorySlot.cpp:89-95 | a refused second begin makes every later chunk and end of the install in flight fail without effect |
| FollowerImagePolicy.SkippedStoreIsOnOfferThen | firmware/v2/Master/FollowerImagePolicy.h:60-80 | a release skips its store exactly when its row image is stored and on offer, or will be once the release's master runs |
| FollowerImageStore.StepKeepsInv | firmware/v2/Master/FollowerImageStore.cpp:130-445 | every step of every task keeps buffers singly owned, readers out of a rewrite, and RAM telling what the files hold |
| FollowerImageStore.StoredIsUploaded | firmware/v2/Master/FollowerImageStore.cpp:234-329 | over every interleaving the image on flash is, byte for byte and under its rev, the one found at the start or one whose chunks came end to end from its beginning and whose end brought a matching checksum |
| FollowerImageStore.ChunkTakenExactly | firmware/v2/Master/FollowerImageStore.cpp:280-293 | a chunk is taken if and only if an upload runs, it goes on where that has got to, and fits; one out of place ends the upload |
| FollowerImageStore.HandedOverExactly | firmware/v2/Master/FollowerImageStore.cpp:295-329 | an end hands the upload over if and only if it holds something and its checksum matches, and is the end of it either way |
| FollowerImageStore.UploadEndsExactly | firmware/v2/Master/FollowerImageStore.cpp:219-232 | otherwise an upload ends only given up or stalled, and its buffer with it |
| FollowerImageStore.ClaimedExactly | firmware/v2/Master/FollowerImageStore.cpp:130-138 | a claim is granted if and only if no upload and no store is under way |
| FollowerImageStore.ReleasedExactly | firmware/v2/Master/FollowerImageStore.cpp:140-144 | a release takes back one claim, if there is one, and changes nothing else |
| FollowerImageStore.StoreStartsExactly | firmware/v2/Master/FollowerImageStore.cpp:371-379 | a store that is due starts if and only if no reader holds a claim |
| FollowerImageStore.StoreEndsWith | firmware/v2/Master/FollowerImageStore.cpp:393-445 | what the files and RAM hold when a store is over, done or failed |
| FollowerImageStore.SpentHoldIsRemoved | firmware/v2/Master/FollowerImageStore.cpp:349-357 | the first tick after a start removes the hold of a release that runs, and no other |
| FollowerImageStore.ExclusionAlways | firmware/v2/Master/FollowerImageStore.cpp:371-379 | over every interleaving no claim is held while the file is rewritten, and the live buffers are exactly those with an owner, one each |
| FollowerImageStore.ClaimsOnlyFall | firmware/v2/Master/FollowerImageStore.cpp:130-138 | while a flush is pending the claims never grow |
| FollowerImageStore.OfferedTooEarlyExactly | firmware/v2/Master/FollowerImageStore.cpp:95-109 | over every interleaving with stops and starts anywhere, rows are offered an image before its release runs if and only if another release's store wrote its hold over that image's, never came to its own image, and runs or has run since |
| FollowerImageStore.TooEarlyHappens | firmware/v2/Master/FollowerImageStore.cpp:394-402 | a run from held files, cut off after the hold of a second release, that offers the first one's image when the second runs |
| FollowerImageStore.WithheldExactly | firmware/v2/Master/FollowerImageStore.h:82-83 | over every interleaving an image that waits for nothing is withheld if and only if a hold was left over it and its rev does not run |
| FollowerImageStore.WithheldHappens | firmware/v2/Master/FollowerImageStore.cpp:403-409 | a run in which an upload over a held image, cut off before the hold is removed, is withheld |
| FollowerImageStore.HoldIsTheHistorys | firmware/v2/Master/FollowerImageStore.cpp:352-439 | over every run, what hold an image lies under, its own, a foreign one, a stray one or none, is what the events tell |
| FollowerImageStore.OfferByHold | firmware/v2/Master/FollowerImageStore.cpp:146-153 | outside a store an image is offered too early exactly under a foreign hold whose rev runs or with its hold gone, and withheld exactly under a stray hold whose rev does not run |
| FollowerImageStore.InterruptedStoreLeavesOldOrHeld | firmware/v2/Master/FollowerImageStore.cpp:393-424 | wherever a release's store stops, flash holds the old image, none, or the new one under its own hold |
| FollowerImageStore.LabelIsTheImages | firmware/v2/Master/FollowerImageStore.cpp:410-417 | over every run the rev shown is the stored image's own or none, except exactly after a store stopped between its image and its label with another image's label there |
| FollowerImageStore.MislabelledHappens | firmware/v2/Master/FollowerImageStore.cpp:403-417 | a run in which an upload cut off after its image is shown and offered under the old image's label |
| FollowerImageStore.StaleLabelSkipsAStore | firmware/v2/Master/FollowerImagePolicy.h:71-80 | under such a label, a release whose row rev it names does not store its own image |
| FollowerUnitJobs.UnitJobs.Stage | firmware/v2/FollowerEsp01/FollowerUnitJobs.cpp:81-102 | answer and state of a request on every path |
| FollowerUnitJobs.UnitJobs.ExecuteStaged | firmware/v2/FollowerEsp01/FollowerUnitJobs.cpp:145-300 | the slot is given up, and the job is stamped now or handed to the poll or scan that will stamp it |
| FollowerUnitJobs.UnitJobs.EndAtOnce | firmware/v2/FollowerEsp01/FollowerUnitJobs.cpp:194-240 | the stamp of a job that ends at once, with what it does to the dump buffer |
| FollowerUnitJobs.UnitJobs.PollSelfTest | firmware/v2/FollowerEsp01/FollowerUnitJobs.cpp:302-318 | a self-test is stamped once, under its own seq, when it has answered |
| FollowerUnitJobs.UnitJobs.PollHome | firmware/v2/FollowerEsp01/FollowerUnitJobs.cpp:320-334 | a home likewise |
| FollowerUnitJobs.UnitJobs.Rescan | firmware/v2/FollowerEsp01/FollowerUnitJobs.cpp:350-371 | the job that awaits the scan is stamped by it, not before the inhibit is over |
| FollowerUnitJobs.UnitJobs.ReleaseDump | firmware/v2/FollowerEsp01/FollowerUnitJobs.cpp:344-347 | the dump buffer goes back once stale and nothing is staged |
| FollowerUnitJobs.UnitJobs.LoopTick | firmware/v2/FollowerEsp01/FollowerUnitJobs.cpp:342-372 | one pass of the loop |
| FollowerUnitJobs.StageKeeps | firmware/v2/FollowerEsp01/FollowerUnitJobs.cpp:74-102 | a job is accepted only when none runs, and then it is the newest |
| FollowerUnitJobs.StageExactly | firmware/v2/FollowerEsp01/FollowerUnitJobs.cpp:76-102 | a job is taken if and only if the row is not in rescue, no update and no job runs, and a dump finds memory; each refusal says which it was |
| FollowerUnitJobs.TickKeeps | firmware/v2/FollowerEsp01/FollowerUnitJobs.cpp:342-372 | at most one job runs, under the newest seq; each earlier one was stamped once, in order, under its own |
| FollowerUnitJobs.NewestJobIsNeverExpired | firmware/v2/shared/MaintenancePolicy.h:269-276 | the newest job's result is found exactly when nothing runs and never reads expired |
| FollowerUnitJobs.PassEndsTheJob | firmware/v2/FollowerEsp01/FollowerUnitJobs.cpp:342-372 | a pass of the loop stamps the running job if and only if it brings the report or the scan that job waits for; then under its seq, and nothing runs any more |
| FollowerUnitJobs.JobEndsAsItsKindDoes | firmware/v2/FollowerEsp01/FollowerUnitJobs.cpp:145-372 | kind by kind, what a job ends with and on what it waits: the unit's report, the scan, or its own bus traffic |
| FollowerUnitJobs.ScanIsAskedFor | firmware/v2/FollowerEsp01/FollowerUnitJobs.cpp:145-300 | after which jobs the bus is scanned |
| FollowerUnitJobs.PassAndDump | firmware/v2/FollowerEsp01/FollowerUnitJobs.cpp:233-240 | a dump that ends well has its bytes unless the same pass finds them stale, and keeps them until one does |
| FollowerLink.RowLink.HandleOp | firmware/v2/FollowerEsp01/FollowerLink.cpp:249-286 | the whole link and job state after a request on every path |
| FollowerLink.RowLink.OpTick | firmware/v2/FollowerEsp01/FollowerLink.cpp:288-344 | the messages that end a job, and that a failed one leaves it open |
| FollowerLink.RowLink.SendDump | firmware/v2/FollowerEsp01/FollowerLink.cpp:313-326 | the piece loop writes the dump's messages in order up to the first that fails |
| FollowerLink.PiecesCoverTheSection | firmware/v2/FollowerEsp01/FollowerLink.cpp:313-326 | the pieces lie end to end over the whole boot section, none empty or too long, and only the last ends the job |
| FollowerLink.EndIsNeverExpired | firmware/v2/FollowerEsp01/FollowerLink.cpp:298-301 | the branch for a lost result is unreachable |
| FollowerLink.StepKeeps | firmware/v2/FollowerEsp01/FollowerLink.cpp:249-344 | requests, job passes, reports, drops and new connections in any order keep the job protocol |
| FollowerLink.EveryJobEndsOnceAndTruly | firmware/v2/FollowerEsp01/FollowerLink.cpp:53-61 | over every run the ends told are one for each accepted job but the open one, in order; each is told as done if and only if it was stamped so and, for a dump, no pass since its stamp had found its bytes stale, and as failed with the stamped outcome |
| FollowerLink.DumpToldWhole | firmware/v2/FollowerEsp01/FollowerLink.cpp:303-326 | a dump stamped done and not gone stale is told, with room, as its pieces from 0 to the end of the section, the last as done |
| FollowerLink.EndGoesOutOrStays | firmware/v2/FollowerEsp01/FollowerLink.cpp:288-344 | an end that does not get out whole drops the connection and leaves the job open; one that does closes it |
| FollowerLink.RequestIsAnswered | firmware/v2/FollowerEsp01/FollowerLink.cpp:249-286 | every request gets one answer at once, running exactly under the conditions for taking it, refused without any change otherwise |
| FollowerLink.RowLink.LoopPass | firmware/v2/FollowerEsp01/FollowerUnitJobs.cpp:342-372 | a pass of the loop as the link sees it |
| FollowerLink.DumpKeptUntilStale | firmware/v2/FollowerEsp01/FollowerLink.cpp:306-312 | while its job is open, the bytes of a dump are there to be sent if and only if no pass has found them stale, whatever is asked, told or dropped in between |
| FollowerLog.PieceIsNext | firmware/v2/FollowerEsp01/FollowerLog.h:66-71 | a piece is the next whole line, or the next cap bytes of one longer than that; none exactly when no whole line waits within cap |
| FollowerLog.DrainSpellsTheLog | firmware/v2/FollowerEsp01/FollowerLog.h:66-94 | reading to the end delivers every byte exactly once in order and leaves only an unfinished line |
| FollowerLog.StampFits | firmware/v2/FollowerEsp01/FollowerLog.h:50-52 | every stamp fits its 14-byte buffer |
| FollowerLog.StampedByLine | firmware/v2/FollowerEsp01/FollowerLog.h:42-58 | a stamp stands before every line and nowhere else |
| FollowerLog.StampShowsTheSeconds | firmware/v2/FollowerEsp01/FollowerLog.h:50-51 | a stamp is the seconds in decimal digits between brackets and a space |
| FollowerLog.FollowerLogRing.Append | firmware/v2/FollowerEsp01/FollowerLog.h:30-40 | the ring stands for its history with the data behind it |
| FollowerLog.FollowerLogRing.AppendStamped | firmware/v2/FollowerEsp01/FollowerLog.h:42-58 | the same with a stamp before every line, over calls that end within one |
| FollowerLog.FollowerLogRing.RetainsTheLast | firmware/v2/FollowerEsp01/FollowerLog.h:60-64 | what is retained is the last fill() bytes of the history, from oldestCursor() on |
| FollowerLog.FollowerLogRing.NextLine | firmware/v2/FollowerEsp01/FollowerLog.h:71-94 | for any cursor, the next piece of the history from the clamped cursor; otherwise the cursor is unchanged |
| FollowerLog.ReaderGetsTheLog | firmware/v2/FollowerEsp01/FollowerLog.h:66-94 | appends and reads in any order, lapped or not: a reader is given the log from where it started, in order and nothing twice, but for its gaps |
| FollowerLog.ReadTells | firmware/v2/FollowerEsp01/FollowerLog.h:71-94 | one read's gap is exactly the bytes between the reader's cursor and the oldest one retained, none for a reader that keeps up |
| FollowerLog.KeepingUpMissesNothing | firmware/v2/FollowerEsp01/FollowerLog.h:66-94 | a reader that keeps up is given the log byte for byte |
| FollowerLog.AheadIsGivenNothing | firmware/v2/FollowerEsp01/FollowerLog.h:67-68 | a reader whose cursor lies past the log is given nothing until the log has passed that cursor |
| FollowerLog.StartsAtTheEndExactly | firmware/v2/FollowerEsp01/FollowerLog.h:66-70 | over all that can be logged and read, a reader is given what one put back to the end of the log is given if and only if its cursor does not lie past that end |
| FollowerOtaImage.OtaGzipTail.Feed | firmware/v2/FollowerEsp01/FollowerOtaImage.h:90-102 | for every chunking the tail holds the last four bytes fed and counts them all |
| FollowerOtaImage.LengthReadsBack | firmware/v2/FollowerEsp01/FollowerOtaImage.h:103-106 | the tail reads as n if and only if it is n's four bytes, low byte first |
| FollowerOtaImage.TailIsTheEnd | firmware/v2/FollowerEsp01/FollowerOtaImage.h:94-102 | of a stream of four bytes or more the tail is its last four |
| FollowerOtaImage.SectorCeilRoundsUp | firmware/v2/FollowerEsp01/FollowerOtaImage.h:111-113 | rounds up to the next sector if and only if the sum does not pass 32 bits |
| FollowerOtaImage.ReserveTakesTheUpload | firmware/v2/FollowerEsp01/FollowerOtaImage.h:115-126 | whatever fits the free space fits the reserve, which is whole sectors and less than a sector too large |
| FollowerOtaImage.AcceptedExactly | firmware/v2/FollowerEsp01/FollowerOtaImage.h:136-142 | an upload that ends with length n is accepted if and only if it has four bytes, n holds a header and fits the app area, and n's last sector ends below the copy, or n lies within a sector of 2^32 |
| FollowerOtaImage.AcceptedUnpacksSafely | firmware/v2/FollowerEsp01/FollowerOtaImage.h:128-142 | for an accepted upload that ends with length n, a copier of n bytes in any order of reads, erases and writes reads only uploaded bytes and writes what unpacking the whole copy first gives |
| FollowerOtaImage.OneSectorMoreCanDestroy | firmware/v2/FollowerEsp01/FollowerOtaImage.h:130-133 | an image reaching into the copy's first sector can destroy it unread |
| DisplayIpc.ReadAfterIsTrueOrder | firmware/v2/Master/DisplayIpc.h:179-183 | the signed comparison is the true order across clock wrap within 2^31 ms, but for a read at the instant the clock shows 0 |
| DisplayIpc.VerdictIsTheHistorys | firmware/v2/Master/DisplayIpc.h:82-101 | over every run the verdict kept is the one defined from the history of frames, re-shows and folds alone |
| DisplayIpc.VerdictHasAReason | firmware/v2/Master/DisplayIpc.h:155-194 | a true verdict has a fold, since the last change of the letter and the last re-show, that saw the unit still on another letter, after a read that followed the frame then in force |
| DisplayIpc.FoldJudges | firmware/v2/Master/DisplayIpc.h:167-194 | a fold calls a unit read since the frame wrong if and only if there is a frame and it stands on a letter it is sure of that is not the frame's; any other keeps its verdict |
| DisplayIpc.FactsAreTheLast | firmware/v2/Master/DisplayIpc.h:167-170 | over every run all else stored of a unit is what the last fold brought |
| DisplayIpc.DisplaySnapshot.ApplyFrame | firmware/v2/Master/DisplayIpc.h:82-93 | the whole snapshot after a frame |
| DisplayIpc.DisplaySnapshot.ApplyReshow | firmware/v2/Master/DisplayIpc.h:97-101 | the whole snapshot after a re-show |
| DisplayIpc.DisplaySnapshot.ApplyUnitFacts | firmware/v2/Master/DisplayIpc.h:160-194 | units, verdicts and the unread mask after a fold |

## Left out

- Reads of the event files that fail.
- EventRecordStore.RunKeepsInv: assumes that no seq passes 2^32 and that no entry is torn where padding completes it; the latter is exact, by TearExact.
- The damper's magic and checksum in RTC memory: whether the table survived is a parameter of the start.
- Board keys, rev numbers, ages and kind names of the event record: one-line conversions that would only add easy members.
- EventDampPolicy.TableIsManyCounters: assumes the clock the entries are dated by does not fall behind the moment windows were last freed at, and at most 16 entries followed; with more, the oldest window makes room and its entry starts over.
- The clock tick interval and crash marks around the record's flash writes.
- The rescue slot's partition lookup, MD5 and the descriptor check are unknown functions of the flash; the later SHA-256 check of the caller is not modelled.
- FactorySlot.EveryRunIsSafe: assumes the erase of the one header sector happens whole or not at all and that a write that breaks off has written a prefix.
- FollowerImageStore.StepKeepsInv: on values and not a class, because several tasks change the statics between each other's lock sections; one step is one lock section or one file operation, each atomic, with one uploader as the source assumes.
- The stored image's size, checksum and packing facts and reading them off flash after a start: an image that is offered here is offered in the source once those are known.
- FollowerImageStore.OfferedTooEarlyExactly: a hold file that exists but cannot be opened at a start is not modelled.
- FollowerLink.StepKeeps: the job counter is unbounded, so the wrap of the 32-bit seq after 2^32 jobs is not modelled.
- How the bus grades a job, and when a home or self-test has answered: any outcome at any pass.
- The reports a job's end carries as JSON text, and everything else the row's connection does (dialling, status, unit facts, log and update traffic).
- FollowerLog.FollowerLogRing.Append: assumes fewer than 2^32 bytes in all, as the cursor does.
- FollowerOtaImage.AcceptedUnpacksSafely: the copier is any order of byte reads, sector erases and byte writes of a decoder whose output only grows with its input; the decoder itself is not modelled.
- The gzip header inspection before the first chunk is flashed.
- Display width, unit counts, the command gate and maintenance results kept beside the wrong-letter verdict.
- Arduino strings are sequences of characters; running out of memory for them is not modelled.
