# LibreDWG: verified models of its search, parsing and scripting cores

LibreDWG reads and writes AutoCAD drawings. Around the library proper the repository
holds six self-contained algorithms, and this project models each of them and proves what
it promises, or exactly when it keeps the promise:

- the **field solver** (`examples/unknown.c`), which explains the undocumented bits of an
  object by searching for the known DXF values in them at arbitrary bit offsets, counting
  how often every bit is covered, and searching again behind a hit that overlaps another;
  with the relative handles it writes, the C strings it quotes and the list of classes it
  goes through;
- the **binary DXF reader** (`examples/compare_dxfb.py`): records, chunked binary values
  with a put-back of two bytes, file offsets, and the split into sections;
- **getopt** (`programs/getopt.c`), the resumable option scanner behind every program;
- the **drawing script interpreter** (`examples/dwgadd.c`) with its list scanners;
- the **FNV-1a selection** of the fuzzer (`examples/llvmfuzz.c`);
- the **comment sanitiser** of the SVG writer (`programs/dwg2SVG.c`).

`dafny verify dfyconfig.toml` checks everything.

## How it is laid out

| file | holds |
|---|---|
| `Option.dfy`, `Numbers.dfy`, `Sequences.dfy` | optional values, machine integers, regrouping of concatenations |
| `BitSearch.dfy` | bit strings, first occurrence, all occurrences, `membits` |
| `FieldSolver.dfy` | counters, `search_bits`, `set_found` |
| `FieldLoop.dfy`, `FieldLoopProofs.dfy`, `FieldTable.dfy` | the SEARCH/FOUND loop for one field, what it means, and all fields of an object |
| `ClassList.dfy`, `Handles.dfy`, `CQuote.dfy` | the rest of `unknown.c` that is modelled |
| `DxfRecords.dfy`, `DxfStream.dfy`, `DxfFile.dfy` | reading as functions, the record loop and its offsets, the reader on a file position |
| `DxfFormat.dfy` | the format on its own: the type of each group code, and the widths |
| `DxfRoundTrip.dfy` | writing records as the format has them, reading them back, what merges |
| `DxfWire.dfy` | what the bytes of each type of record mean, spelled out, and files that end too early |
| `DxfSections.dfy`, `DxfSectionProofs.dfy` | `split_sections` on every input, and on a file laid out in sections |
| `Getopt.dfy`, `GetoptProofs.dfy` | one call and progress; round trip, and what resetting on each call does |
| `ListScanner.dfy` | the scanners of the script, on every text and on printed lists |
| `Interpreter.dfy`, `InterpreterMachine.dfy` | a script run as functions, and the variables of `dwg_add_dat` changed line by line |
| `InterpreterHistory.dfy` | a run told from the lines that went through: what they add, which ones go through, and all variables |
| `InterpreterProofs.dfy`, `InterpreterBlocks.dfy` | what every run keeps, and where entities go |
| `InterpreterVersions.dfy`, `InterpreterDictionaries.dfy` | which version protects an old drawing; which dictionary an XRECORD gets |
| `InterpreterLines.dfy` | when a run is a fold over lines, and which lines those are |
| `FuzzSelect.dfy`, `CommentSanitizer.dfy` | the two small cores |

Where the source changes things step by step, a method (on a class where the source keeps
state between calls) is proved equal to a function of the old state; the theorems are then
about that function.

## What the code does where its documentation or its neighbours say otherwise

The models follow the code. These are the places where that matters, each with the lemmas
that give a failing input or the exact condition.

- `membits` is announced as memmem for bits, but its bound is strict: an occurrence ending
  on the very last bit is never seen (`BitSearch.StrictBound`).
- The size test of `search_bits` rounds up by the wrong remainder and turns some short
  enough fields away (`FieldSolver.SizeTest`, `FieldSolver.SizeTestHides`).
- `set_found` looks for overlaps only at bits below the field's own length, unlike
  `set_found_i` (`FieldSolver.SetFoundMisses`).
- The coverage counters are bytes: a place marked 256 times counts as free again
  (`FieldTable.OverlapsExactly`, `FieldTable.WrapHides`).
- The handle guards add and subtract in 32 bits, the resolver in 64
  (`Handles.CandidateResolves`).
- The class list compares with the previous object only and stops at 200
  (`ClassList.EachObjectOnce`, `ClassList.EachObjectOnceShort`).
- The callers of `cquote` leave twice the length of the string, which is one too little for
  a string of quotation marks and backslashes only (`CQuote.RoomInBuffer`); and line breaks,
  which a C string literal cannot hold, are not escaped (`CQuote.RoundTrip`).
- Binary DXF values whose last chunk is full merge with a following record of the same
  code (`DxfRoundTrip.RoundTrip`).
- `getopt` resets `opterr` and `optind` on every call, so it does not get past the first
  argument (`GetoptProofs.AsWrittenStops`, `GetoptProofs.AsWrittenRoundTrip`,
  `GetoptProofs.AsWrittenCycles`). The intended scanner, initialised once, is proved against
  guidelines 5, 6 and 10 of section 12.2 of IEEE Std 1003.1 (XBD); any argument that starts
  with two dashes ends the options, and a lone dash does so without being used up
  (`GetoptProofs.RoundTrip`); so does a dash behind flags, with its argument not used up
  either (`GetoptProofs.DashInside`).
- The list scanners do not skip white space in front of the parenthesis that closes a list,
  so the pointer is then left in front of it (`ListScanner.RoundTripExactly`,
  `ListScanner.BlankStops`); only `scan_pts2d` returns a list of no points
  (`ListScanner.EmptyScan`).
- An `xrecord` line looks at the type of the remembered dictionary only, not at its pointer.
  That is enough, because `dwg_add_DICTIONARY` does not fail (`src/dwg_api.c:27510-27546`):
  the pointer is never null there (`InterpreterDictionaries.XRecordGoes`).
- A `leader` line is not taken for one unless the last entity is an MTEXT, so its own test for
  a remembered mtext never fails (`InterpreterHistory.StateSeen`).
- The version tests of a script look at a variable, which a `version` line sets; the drawing
  keeps the version it came with, so the tests do not protect an old drawing
  (`InterpreterVersions.SafeExactly`, `InterpreterVersions.VersionLineOverrides`,
  `InterpreterVersions.ReadingOverrides`).

## Model

| member | source | states |
|---|---|---|
| BitSearch.ByteBitsAt | examples/unknown.c:675-678 | Masking with 0x80 shifted right and shifting back yields the bit that is on top after shifting the earlier ones out, and yields 0 or 1. |
| BitSearch.ByteValue | examples/unknown.c:672-677 | The bits that a byte denotes are its binary digits, from the highest one down. |
| BitSearch.BitDenotes | examples/unknown.c:675-678 | On every byte string the BIT macro reads the denoted bit sequence, most significant bit first. |
| BitSearch.FindLeast | examples/unknown.c:680-682 | First-occurrence search returns an occurrence at or after the offset with none before it, and -1 only if there is none. |
| BitSearch.FindHere | examples/unknown.c:690-702 | Comparing up to the first difference decides whether the search stops at this position or goes on at the next. |
| BitSearch.NextBit | examples/unknown.c:692-697 | One bit comparison of `membits` extends the agreement of the two bit sequences by one, or refutes it. |
| BitSearch.Membits | examples/unknown.c:683-704 | `membits` is first-occurrence search in the haystack without its last bit, and -1 on an empty haystack, for all sizes and offsets. |
| BitSearch.LastBitLost | examples/unknown.c:690 | Leaving out the last bit turns the result into -1 exactly where the first occurrence ends on it, and changes nothing else. |
| BitSearch.StrictBound | examples/unknown.c:680-690 | `membits` agrees with textbook search if and only if it is not the case that the haystack ends in the needle and has it nowhere before that at or after the offset; one padding bit makes them agree always. |
| BitSearch.OccurrencesExact | examples/unknown.c:727-739 | The list of occurrences holds every occurrence at or after the offset, overlapping ones included, nothing else, and strictly increases. |
| BitSearch.NextOccurrence | examples/unknown.c:727-739 | That list is what repeated search, each time one bit further, produces. |
| BitSearch.OneFurther | examples/unknown.c:727-738 | With the first m of all occurrences found, the next search finds number m, or there is none left. |
| FieldSolver.Coverage.constructor | examples/unknown.c:935-937 | The counters start at 0, one more of each than the dump has bits. |
| FieldSolver.CoverAppend | examples/unknown.c:645-660 | How often a bit is covered adds up over lists of ranges. |
| FieldSolver.RaisedTwice | examples/unknown.c:656-659 | Raising byte counters by two lists of ranges in turn is raising them by both together, modulo 256. |
| FieldSolver.SetPossiblePos | examples/unknown.c:645-660 | Adds one, modulo 256, to exactly the counters of the occurrence's bits; nothing at all if it would overflow. |
| FieldSolver.SetFound | examples/unknown.c:599-620 | Marks the field's bits at its first position, and reports an overlap only if a bit below the field's own length was marked before. |
| FieldSolver.SetFoundI | examples/unknown.c:622-643 | Marks the field's bits at position i, and reports an overlap if any of them was marked before. |
| FieldSolver.SetFoundMisses | examples/unknown.c:612-635 | The two reports agree on all counters if and only if the field starts at bit 0 or is empty; a field placed at or past its own length is never reported. |
| FieldSolver.HitsFit | examples/unknown.c:653-659 | Every reported hit ends before the last bit, so the overflow guard never fires from `search_bits`. |
| FieldSolver.HitsExactly | examples/unknown.c:683-742 | `search_bits` reports a position if and only if it is at or after the offset, all bits of the field are there by the BIT macro and end before the last bit of the dump, the field has a format and bits, the dump has a whole byte, and the size test does not turn the field away. |
| FieldSolver.NextHit | examples/unknown.c:727-738 | Each call of `membits` in the loop yields the next hit, or proves that all are found. |
| FieldSolver.KeepHit | examples/unknown.c:731-735 | A hit goes into the position list if it is among the first five, and into the counters always. |
| FieldSolver.EnumerateHits | examples/unknown.c:727-739 | The loop finds all hits, leaves the first five in order, raises the counters by all of them, and terminates. |
| FieldSolver.SearchBits | examples/unknown.c:706-742 | `search_bits` returns the number of hits if the tests let the field through and 0 otherwise; positions past the number of hits keep their old values. |
| FieldSolver.SizeTest | examples/unknown.c:717-722 | A field short enough to occur is turned away if and only if the dump's whole bytes are a multiple of eight and the field is longer than they are. |
| FieldSolver.SizeTestHides | examples/unknown.c:719-722 | There is a dump and a field that occurs in it at bit 0 and is not found: 65 zero bits in 66. |
| FieldLoop.PickMeans | examples/unknown.c:986-1344 | The encoding a visit ends with is the first of the field's own one and its alternates that hits anything, or the last one; those in front of it hit nothing. |
| FieldLoop.SearchAndRetry | examples/unknown.c:986-1344 | SEARCH with its alternates, each one accepted where it hits, ends with that encoding, its hits and their first five positions; `possible` counts exactly its hits; without hits the positions stay. |
| FieldLoop.MarkedTwice | examples/unknown.c:619-659 | Marking two lists of hits in turn is marking them together, counter by counter modulo 256. |
| FieldLoop.MarkHits | examples/unknown.c:1395-1515 | With two or more hits, as many as there are equal fields, the first five are marked, once each, and the field counts as filled; with any other number neither counters nor fill count change. |
| FieldLoop.MarkSingle | examples/unknown.c:1378-1394 | A single hit is marked; an overlap is a reason to search on, and otherwise a field that is alone in its object counts as filled. |
| FieldLoop.Found | examples/unknown.c:1378-1515 | A visit goes on strictly behind its hit if that is the only one and overlaps what was found before, and otherwise ends the search with the marks and the fill count of its hits. |
| FieldLoop.SolveField | examples/unknown.c:986-1515 | The goto loop terminates for every field and every choice of alternates, and leaves in the field, its positions, both counters and the fill count exactly what the recursive search `Solve` of the field's initial encoding says. |
| FieldLoopProofs.SolveRestarts | examples/unknown.c:986-1386 | Restart k of that search uses the first encoding that hits, of the one before it and the alternates of visit k; it hits once behind the restart before it, and that hit overlaps what the field had found and the earlier restarts marked. |
| FieldLoopProofs.SolveEnds | examples/unknown.c:986-1515 | The last visit uses the encoding so picked and begins right behind the last restart. It marks its only hit, which overlaps nothing that `set_found` looks at; or its first five hits, if it has two or more and as many as there are equal fields; or else nothing. The field counts as filled in the second case, and in the first unless others are equal to it. |
| FieldLoopProofs.SolveMovesRight | examples/unknown.c:1382-1386 | Restarts move strictly to the right, so there are no more of them than the dump has bits. |
| FieldLoopProofs.SolveOwn | examples/unknown.c:986-1515 | Everything marked or seen is a real occurrence of the field in one of its own ways to be written out. |
| FieldTable.SolveNext | examples/unknown.c:961-1526 | One more field is passed over or searched for on the counters the earlier ones left, and adds its marks, hits and fill count. |
| FieldTable.SolveObject | examples/unknown.c:935-1526 | From fresh counters, each field of the table is solved as `Solve` says on what the fields before it left; `found`, `possible` and `num_filled` are exactly the sums over all fields, and every field ends with its encoding and positions. |
| FieldTable.ObjectMeans | examples/unknown.c:935-1526 | Over the whole run both arrays count nothing but real occurrences of the fields' own values: each mark belongs to a field whose code is below 1000 and neither 100 nor 102, and to one of its encodings. |
| FieldTable.LastBitsUncovered | examples/unknown.c:690 | The counters of the dump's last bit, and the extra ones, end at 0. |
| FieldTable.OverlapsExactly | examples/unknown.c:610-618 | On counters that started at 0, an overlap is reported exactly if a bit looked at was marked a number of times that is no multiple of 256. |
| FieldTable.WrapHides | examples/unknown.c:610-618 | After 256 marks of the same place none is reported there. |
| ClassList.ListClasses | examples/unknown.c:845-866 | Without a class asked for, the classes are the names without immediate repetitions, cut at 200. |
| ClassList.RunsDistinct | examples/unknown.c:848-852 | The list has no class twice if and only if the objects of each class stand next to each other. |
| ClassList.LookedAtRuns | examples/unknown.c:848-859 | The classes listed are the runs of the part of the table that is looked at: up to the start of run 200, or all of it. |
| ClassList.LookedAtLeast | examples/unknown.c:853-858 | No shorter part of the table has 200 runs. |
| ClassList.EachObjectOnce | examples/unknown.c:845-914 | For every table, cut or not, every object is processed exactly once if and only if that part is grouped by class and no class begins behind it. |
| ClassList.EachObjectOnceShort | examples/unknown.c:845-914 | With at most 200 runs that is so if and only if the table is grouped by class. |
| Handles.Candidates | examples/unknown.c:997-1024 | The codes tried are, in increasing order and without the current one, 2 to 5, 6 and 8 for the handles next to the object's own, 10 for those not below it and 12 for those not above; for group 330 from 6 on. |
| Handles.CandidateResolves | examples/unknown.c:388-429 | Reading back a handle written under a code that passes its guard gives the handle, except code 6 next to 0xFFFFFFFF and code 8 next to 0. |
| Handles.OffsetResolves | src/dwg.c:1253-1298 | Offset and absolute codes resolve for every 64-bit handle, also when the stored difference wraps around. |
| Handles.SizeHoldsValue | examples/unknown.c:374-383 | The size of a candidate holds its value, and a smaller one would exactly at 0xff, 0xffff and 0xffffff. |
| Handles.SomeOffsetPasses | examples/unknown.c:1014-1019 | For every handle one offset code passes, both only for the object's own, and the stored offset fits 32 bits exactly where the guard lets it through. |
| CQuote.QuotedAppend | examples/unknown.c:751-765 | Quoting works character by character. |
| CQuote.CQuote | examples/unknown.c:744-768 | The buffer receives the quoted text and its terminator, and keeps everything behind. |
| CQuote.RoomInBuffer | examples/unknown.c:1329-1332 | The callers' buffer of twice the length has room for the quoted text and its terminator if and only if some character needs no quoting. |
| CQuote.RoundTrip | examples/unknown.c:744-768 | Between quotation marks the quoted text reads back as the original by the rules of C string literals, and the literal ends at the closing mark, whatever follows, if and only if the text has no line break. |
| DxfRecords.TextAdvances | examples/compare_dxfb.py:97-106 | A string takes its length and one more, or all the rest of the file. |
| DxfRecords.ChunksAdvance | examples/compare_dxfb.py:107-134 | A binary value takes what the source adds up, or all the rest of the file, put-back included. |
| DxfRecords.ReadAdvances | examples/compare_dxfb.py:89-174 | Every record read takes at least two bytes, and a record whose `nbytes` is not what it took leaves nothing to read. |
| DxfFormat.KindsAgree | examples/compare_dxfb.py:20-86 | The reader's table gives every group code, also those in no range, the type that the format has for it. |
| DxfStream.ExactOffsets | examples/compare_dxfb.py:187-194 | On every byte string the offsets added up from `nbytes` are the true file positions, and there are at most half as many records as bytes. |
| DxfStream.RecordAtOffset | examples/compare_dxfb.py:187-194 | Reading the file anew at a record's offset gives that record, and the next record's offset is where that reading ends. |
| DxfStream.FileOffsets | examples/compare_dxfb.py:177-196 | The same for `parse_dxfb` on every file, truncated or not, with or without the sentinel, from the first record to the last; there are none only if nothing can be read behind the header. |
| DxfFile.ByteFile.Read | examples/compare_dxfb.py:91 | Reading gives the next bytes, fewer at the end, and moves on by as many. |
| DxfFile.ReadString | examples/compare_dxfb.py:97-105 | The string loop reads up to the first NUL, which is used up, or to the end of the file. |
| DxfFile.ReadCodeAgain | examples/compare_dxfb.py:123-132 | Behind a full chunk the code is used up if it is the same, put back if not, and a lone byte is lost. |
| DxfFile.ReadCounted | examples/compare_dxfb.py:112-120 | A count byte and as many of its bytes as there are. |
| DxfFile.ReadBinary | examples/compare_dxfb.py:107-133 | The chunk loop returns the joined chunks and the count of bytes, leaves the position behind them, and terminates. |
| DxfFile.ReadSized | examples/compare_dxfb.py:135-164 | Values of fixed size, or nothing if the file ends in them. |
| DxfFile.ReadOne | examples/compare_dxfb.py:89-174 | `read_record` moves the file exactly as the record reader on the remaining bytes says. |
| DxfFile.SkipHeader | examples/compare_dxfb.py:181-187 | The position is behind the sentinel if there is one, and at the start if not. |
| DxfFile.ParseLoop | examples/compare_dxfb.py:187-194 | The record loop, at any position, appends the records of the rest of the file, and terminates. |
| DxfFile.ParseDxfb | examples/compare_dxfb.py:177-196 | `parse_dxfb` on a file with a position computes the records of its contents. |
| DxfRoundTrip.LeBytesBack | examples/compare_dxfb.py:94 | Little-endian bytes read back as the number. |
| DxfRoundTrip.PackBack | examples/compare_dxfb.py:141-158 | Two's complement of any width reads back, for every number that fits. |
| DxfRoundTrip.TextBack | examples/compare_dxfb.py:97-106 | A NUL-free text and its NUL read back, in front of anything. |
| DxfRoundTrip.ChunksBack | examples/compare_dxfb.py:107-134 | Full chunks ended by a short one, or followed by another code or nothing, read back joined. |
| DxfRoundTrip.ReadBack | examples/compare_dxfb.py:89-174 | Every record whose value fits its group code reads back, with the right byte count, in front of anything that cannot be taken for more of it. |
| DxfRoundTrip.ParseBack | examples/compare_dxfb.py:187-194 | A list of records without mergers reads back, record for record, with true offsets. |
| DxfRoundTrip.SameBytes | examples/compare_dxfb.py:121-132 | Written down, two records that merge cannot be told from one with the chunks of both. |
| DxfRoundTrip.NormalKeepsBytes | examples/compare_dxfb.py:121-132 | Merging everything that merges does not change the bytes of a file. |
| DxfRoundTrip.NormalIsNormal | examples/compare_dxfb.py:121-132 | Merging leaves nothing to merge, changes a list if and only if something merges, and then makes it shorter. |
| DxfRoundTrip.FileBack | examples/compare_dxfb.py:177-196 | Every written file reads back as its records after merging. |
| DxfRoundTrip.RoundTrip | examples/compare_dxfb.py:89-196 | Writing and parsing gives the same records with their file positions if and only if no binary value without a short last chunk is followed by a record of the same code. |
| DxfWire.ReadsInt16 | examples/compare_dxfb.py:153-158 | Two bytes of a 16-bit group code and two of any 16-bit number, low byte first, read as that code and number, with 4 bytes counted and the rest left. |
| DxfWire.ReadsInt32 | examples/compare_dxfb.py:147-152 | Likewise four bytes and 6, for the 32-bit codes. |
| DxfWire.ReadsInt64 | examples/compare_dxfb.py:141-146 | Likewise eight bytes and 10, for the 64-bit codes. |
| DxfWire.ReadsBool | examples/compare_dxfb.py:159-164 | Likewise one byte and 3, for the boolean codes. |
| DxfWire.ReadsFloat | examples/compare_dxfb.py:135-140 | Likewise the eight bytes of a float64 and 10. |
| DxfWire.ReadsText | examples/compare_dxfb.py:97-106 | A NUL-free text and its NUL, behind any code of no other type, read as that text. |
| DxfWire.ReadsLastChunk | examples/compare_dxfb.py:107-134 | A count and as many bytes read as a binary value, and end it, if they are less than 127 or another code or nothing follows. |
| DxfWire.ReadsFullChunk | examples/compare_dxfb.py:121-132 | Behind 127 bytes or more, the same code again goes on with the value, whatever comes then. |
| DxfWire.ReadsNoPart | examples/compare_dxfb.py:91-93 | A number that is not all there is not read, and neither is half a code. |
| DxfWire.ReadsOpenText | examples/compare_dxfb.py:97-106 | A text without its NUL is read to the end of the file, and counts one byte more than there is. |
| DxfWire.ReadsCutChunk | examples/compare_dxfb.py:112-126 | A chunk is read as far as it goes and counts in full, a missing count reads as nothing, and a lone byte behind a full chunk is lost. |
| DxfWire.HeaderExactly | examples/compare_dxfb.py:181-185 | The first 22 bytes are passed over exactly if they are the header of a binary DXF file. |
| DxfSections.SplitSections | examples/compare_dxfb.py:199-225 | The loop of `split_sections` computes the fold that the section theorems are about. |
| DxfSections.TruthyMeans | examples/compare_dxfb.py:214-220 | A name counts as none exactly if it is the empty text, empty bytes, 0, 0.0 or -0.0. |
| DxfSections.FoldMeans | examples/compare_dxfb.py:205-221 | At every point of the loop, on every input, the dictionary holds exactly the last completed section of each name, and the section in progress is the one that is open. |
| DxfSections.AddSpan | examples/compare_dxfb.py:213-218 | An ENDSEC that ends a section adds it or replaces an earlier one of its name, and leaves those of other names. |
| DxfSectionProofs.CurrentMeans | examples/compare_dxfb.py:208-223 | Records are left over without a section in progress exactly if the last start has a name that counts as false. |
| DxfSectionProofs.NamelessCurrent | examples/compare_dxfb.py:208-223 | Behind a last start whose name counts as false nothing more is collected. |
| DxfSectionProofs.SplitMeans | examples/compare_dxfb.py:199-225 | On every input each name other than `__tail__` stands for exactly its last section from SECTION to ENDSEC in order, without stray SECTION records; under `__tail__` stands what is left over (the section in progress, or the two records of a nameless start), and only if nothing is, the last section of that name. |
| DxfSectionProofs.SpansDisjoint | examples/compare_dxfb.py:207-220 | Different sections have no record in common. |
| DxfSectionProofs.SplitLayout | examples/compare_dxfb.py:199-225 | Splitting records laid out in sections (code 0 SECTION, code 2 and a name, other records, code 0 ENDSEC), with ordinary records before and between, gives each section whole under its name, and no tail. |
| DxfSectionProofs.ByNameDistinct | examples/compare_dxfb.py:213-218 | With distinct names these are all the sections and nothing else. |
| DxfSectionProofs.FileToSections | examples/compare_dxfb.py:177-225 | The bytes of a file laid out in sections with any non-empty texts as names parse and split into those sections. |
| DxfSectionProofs.FileSections | examples/compare_dxfb.py:177-225 | On every file, damaged or not, the names other than `__tail__` are texts and exactly those of the sections in the file, and under each stands the last of its sections. |
| Getopt.StrChrFinds | programs/getopt.c:71 | The scan of the option string finds the first place of a letter, if there is one. |
| Getopt.Scanner.TakeLetter | programs/getopt.c:71-109 | What one option letter does to the variables and what is returned, in all cases. |
| Getopt.Scanner.Getopt | programs/getopt.c:48-110 | One call on the variables is one step of the scanner, with the initialisation or without it. |
| Getopt.LetterProgress | programs/getopt.c:71-109 | A letter uses up a letter or an argument, and leaves the pointer in a proper suffix of an argument. |
| Getopt.UpdateProgress | programs/getopt.c:56-70 | Moving on never goes back and never passes the end. |
| Getopt.StepProgress | programs/getopt.c:56-109 | Initialised once, each call keeps 1 <= optind <= nargc, the pointer in a proper suffix and opterr, and each call not returning -1 decreases arguments and letters left, so every sequence of calls ends. |
| GetoptProofs.FlagsRun | programs/getopt.c:85-90 | A cluster of flags is returned letter by letter. |
| GetoptProofs.ArgRun | programs/getopt.c:91-108 | An option-argument is returned, attached or detached, and both are used up. |
| GetoptProofs.GroupRun | programs/getopt.c:56-109 | One argument with flags and possibly an option-argument is returned as meant, and the scanner stands behind it. |
| GetoptProofs.StringMeans | programs/getopt.c:71-91 | In an option string printed from declared options exactly the declared letters are known, and exactly those declared so take an argument, with or without a colon in front. |
| GetoptProofs.RoundTrip | programs/getopt.c:56-109 | For every list of declared options (distinct letters, with or without an argument, printed as an option string), any list of them in any rendering (clustered or not, arguments attached or detached, a lone dash if it is declared), ended by two dashes or an operand, is returned as exactly that list, with `optopt` and `optarg`, and with optind at the first operand; from the start, and from any state that `optreset` sends back there. |
| GetoptProofs.UnknownLetter | programs/getopt.c:71-84 | A letter that was not declared, anywhere in a cluster of flags, is reported as `?` in its place with the letter in `optopt`, and all options around it, in this argument and the others, are returned. |
| GetoptProofs.MissingArgument | programs/getopt.c:95-103 | If the last option lacks its argument, everything before it is returned as meant, then `:` if the option string begins with a colon and `?` if not, with the letter in `optopt`, then -1 with optind at the end. |
| GetoptProofs.DashInside | programs/getopt.c:76-79 | An undeclared dash behind flags ends the options as well, but optind stays at its argument and what is behind the dash is still to be scanned. |
| GetoptProofs.LoopingForever | programs/getopt.c:53-62 | As written, from any state that is not heading for a dash no call ever returns -1. |
| GetoptProofs.DashStops | programs/getopt.c:71-84 | As written, scanning that runs into a dash returns -1. |
| GetoptProofs.AsWrittenStops | programs/getopt.c:53-84 | As written, some call returns -1 if and only if the first argument is missing, is an operand, starts with two dashes or runs into a dash. |
| GetoptProofs.AsWrittenRoundTrip | programs/getopt.c:48-110 | As written, the option round trip holds (each option returned in turn with its argument, then -1) if and only if the command line has no options. |
| GetoptProofs.AsWrittenCycles | programs/getopt.c:53-90 | As written, a first argument of k flags is returned for ever with period k. |
| ListScanner.ScanList | examples/dwgadd.c:427-593 | The loop of each scanner, which moves a pointer along, computes the scan function. |
| ListScanner.LoopSuffix | examples/dwgadd.c:444-461 | The loop over the items never moves the pointer back, however it ends. |
| ListScanner.LoopComplete | examples/dwgadd.c:444-461 | When it completes it has as many items as asked for. |
| ListScanner.ScanForward | examples/dwgadd.c:427-593 | On every text the pointer never moves back, a list is returned only complete and with at most 5000 items, the program ends exactly if more are asked for and there is an opening parenthesis, and without one nothing happens. |
| ListScanner.NumsBack | examples/dwgadd.c:500 | From k printed numbers any smaller count can be read, and no larger one. |
| ListScanner.ItemBack | examples/dwgadd.c:548-577 | A printed item reads back, a face of three corners with a fourth that is 0. |
| ListScanner.RoundTrip | examples/dwgadd.c:427-593 | A printed list of up to 5000 items, with any white space in front of each, reads back as its items and leaves the pointer behind it and the blanks that follow. |
| ListScanner.BadItem | examples/dwgadd.c:455-460 | Where printed items are followed by what is no item before the count is reached, nothing is returned and the pointer is left in front of that. |
| ListScanner.UnclosedItem | examples/dwgadd.c:450-452 | Where an item is not closed, nothing is returned and the pointer stays where it was. |
| ListScanner.RoundTripExactly | examples/dwgadd.c:463-475 | With any text between the last item and the closing parenthesis the items still read back, but the pointer ends behind the list if and only if that text is empty (or, in a list without items, white space). |
| ListScanner.BlankStops | examples/dwgadd.c:463-469 | One blank there leaves the pointer in front of the parenthesis. |
| ListScanner.EmptyScan | examples/dwgadd.c:463-529 | A list of no items is returned by `scan_pts2d` alone, and exactly where there is an opening parenthesis; otherwise the pointer stays. |
| Interpreter.StepAdvances | examples/dwgadd.c:729-752 | Whatever a command and its scanners did to the cursor, the next line begins strictly behind the line it came from; so every script terminates. |
| InterpreterMachine.Machine.ExecuteList | examples/dwgadd.c:1594-1639 | Entities with a list: the scan, the tests and the adding call. |
| InterpreterMachine.Machine.ExecutePface | examples/dwgadd.c:1669-1718 | Vertices and then faces, in all combinations of scans that fail. |
| InterpreterMachine.Machine.DwgAddDat | examples/dwgadd.c:630-2271 | The whole loop on the variables is the run that the theorems are about, with its outcome and its log of commands. |
| InterpreterProofs.BracketMeans | examples/dwgadd.c:1266-1296 | REPEATs and ENDREPs alternate, beginning with a REPEAT, if and only if every prefix has as many REPEATs as ENDREPs or one more. |
| InterpreterProofs.EntityKeeps | examples/dwgadd.c:1090-2160 | Entity commands keep the run invariant. |
| InterpreterProofs.ListedKeeps | examples/dwgadd.c:1594-1904 | So do commands with lists. |
| InterpreterProofs.OtherKeeps | examples/dwgadd.c:1064-2263 | So do dictionaries, records, layouts and fields. |
| InterpreterProofs.HeaderKeeps | examples/dwgadd.c:754-888 | So do header commands, and behind the header they change nothing and end the run. |
| InterpreterProofs.StepKeeps | examples/dwgadd.c:729-2266 | Every command keeps the invariant, whether or not it goes through, and behind the header it keeps the version. |
| InterpreterProofs.SettledRun | examples/dwgadd.c:756-899 | Once the drawing is set up a run has no header command and the version stays. |
| InterpreterProofs.RunKeeps | examples/dwgadd.c:729-2270 | The invariant holds at the end of every run: remembered pointers are null or point to an added object of the remembered type, `insert`, `mtext` and `dict` hold only their kinds, every ATTRIB stands behind an INSERT or MINSERT and every XRECORD behind a DICTIONARY, every field was set on an added object of the type asked for, brackets alternate with `repeat_open`, and every object passed its version test. |
| InterpreterProofs.RunHeader | examples/dwgadd.c:754-899 | In every run the header commands come first, and at most the last of them reads a drawing. |
| InterpreterProofs.RunConcludes | examples/dwgadd.c:2267-2270 | A run that reaches the final return ends as the last lines of the function say. |
| InterpreterProofs.EveryRun | examples/dwgadd.c:630-2271 | Every script from the start: invariant, header first; at the final return of a run that set the drawing up, as many ENDREPs as REPEATs, and 0 returned exactly if the script added something; of one that did not, nothing changed, and 0 returned exactly if the drawing came with objects; where the run ends for want of an ENDREP, one REPEAT more. |
| InterpreterHistory.StateSeen | examples/dwgadd.c:1114-1131 | What a line finds in the variables is what the lines before it say: the version, a current block, an open REPEAT, the kind asked for last and whether it was made, an INSERT made last, a DICTIONARY; and with an MTEXT last the test for a remembered mtext holds. |
| InterpreterHistory.StepTells | examples/dwgadd.c:729-2266 | A line goes through exactly if it is to, by what the lines before it say: header lines only in front of all others and on an empty drawing, each kind under its versions, in a block where it needs one, behind what it refers to; and then each variable is what the lines say. |
| InterpreterHistory.EveryScript | examples/dwgadd.c:620-2271 | Every script from the start: each line that went through was to go through behind those before it, the run ended in front of one that was not to, at a REPEAT or ENDREP that failed, or at the end, as the lines say, and every variable at the end is what they say. |
| InterpreterHistory.ScriptAdds | examples/dwgadd.c:624-2266 | Past the header the objects are those the drawing began with and behind them, in order, what each line adds: an insert line that succeeds an INSERT, a minsert line a MINSERT, a 3dline line a 3DLINE up to R_10 and a LINE later, a line with a list its kind if the list is read, and so on. |
| InterpreterVersions.RunVersions | examples/dwgadd.c:855-888 | The version that is tested is that of the last version line, or the initial one; the version of the drawing is that of the file that was read, or the initial one. |
| InterpreterVersions.OldVersions | examples/dwgadd.c:1170-2160 | A script adds a RAY, XLINE, MTEXT, MINSERT, ELLIPSE, SPLINE, LEADER, TOLERANCE, MLINESTYLE, GROUP, LAYOUT or ACIS solid only if the version that is tested is past R_11. |
| InterpreterVersions.OldDrawingSafe | examples/dwgadd.c:855-888 | So a drawing of version R_11 or older gets none of them from a script that neither sets a version nor reads a drawing. |
| InterpreterVersions.SafeExactly | examples/dwgadd.c:1220-1234 | Behind the header, with a current block, some rest of the script adds an MTEXT if and only if the version that is tested is past R_11; the version of the drawing has no part in it. |
| InterpreterVersions.VersionLineOverrides | examples/dwgadd.c:867-873 | A drawing of version R_11 does get an MTEXT from a script of a version line of 2000 and an mtext line. |
| InterpreterVersions.ReadingOverrides | examples/dwgadd.c:754-774 | So does one of version R_11 that a script started with version 2000 reads. |
| InterpreterProofs.PointerOwns | examples/dwgadd.c:1121-1130 | The pointer passed on to the adding call of an ATTRIB or XRECORD is not null and points to an INSERT or MINSERT, or to a DICTIONARY, that the script added. |
| InterpreterDictionaries.XRecordGoes | examples/dwgadd.c:1787-1797 | An xrecord line goes through if and only if its name is valid and the script has added a DICTIONARY; the pointer it passes on is then the last of those. |
| InterpreterDictionaries.EveryXRecord | examples/dwgadd.c:1772-1797 | In every run each XRECORD that the script added stands behind a DICTIONARY that it added, and the remembered dictionary is the last one added, if any. |
| InterpreterBlocks.StepInBlock | examples/dwgadd.c:620-2266 | Every command keeps this: without a current block the script has placed nothing, and the current block is model space only in a drawing that has one. |
| InterpreterBlocks.EveryEntityInBlock | examples/dwgadd.c:620-2271 | So it holds at the end of every run of every script. |
| InterpreterLines.RunIsFold | examples/dwgadd.c:729-2266 | A script whose lists close on their own lines runs as a fold of one command per line that is neither blank nor a comment: same variables, same outcome, same commands. |
| InterpreterLines.LinesOfRows | examples/dwgadd.c:745-753 | The lines run of a script written line by line are those that are neither empty nor begin with `#`, each without its indent. |
| InterpreterLines.PrintedScriptRuns | examples/dwgadd.c:729-2266 | So a written script whose lists close on their own lines runs as a fold over exactly these. |
| InterpreterLines.FacesSeen | examples/dwgadd.c:1676-1682 | A printed list is taken for faces exactly if its first item has three numbers or more. |
| InterpreterLines.PrintedListIsTidy | examples/dwgadd.c:465-475 | A list printed without line breaks, with more text behind it, is such a list. |
| InterpreterLines.PfaceRoundTrip | examples/dwgadd.c:1669-1718 | Vertices and faces printed one behind the other are both recovered, and exactly one POLYLINE_PFACE is added if the adding call succeeds. |
| FuzzSelect.Selection.Select | examples/llvmfuzz.c:98-108 | `h` is the FNV-1a hash of at most 4096 bytes, `out` and `ver` are taken from it, are 0 without input, and lie in the ranges of their switches. |
| FuzzSelect.XorBits | examples/llvmfuzz.c:105 | A bit of the exclusive or is set exactly if it is in one of the two numbers. |
| FuzzSelect.DraftValues | examples/llvmfuzz.c:102-105 | The hashes of the empty input and of "a" are those of draft-eastlake-fnv. |
| FuzzSelect.PrimeBack | examples/llvmfuzz.c:105 | Multiplying by the FNV prime is undone by 899433627, modulo 2 to the 32nd. |
| FuzzSelect.MixBack | examples/llvmfuzz.c:105 | One byte step permutes the 32-bit states: it has a two-sided inverse. |
| FuzzSelect.MixTells | examples/llvmfuzz.c:105 | From one state different bytes lead to different states. |
| FuzzSelect.HashBack | examples/llvmfuzz.c:102-105 | Hashing any input permutes the states. |
| FuzzSelect.OneByteMatters | examples/llvmfuzz.c:102-105 | Inputs of one length that differ in exactly one of the first 4096 bytes never share a hash. |
| FuzzSelect.RestIgnored | examples/llvmfuzz.c:103 | Bytes past 4096 never matter. |
| CommentSanitizer.PassKeepsResult | programs/dwg2SVG.c:801-805 | A pass of the loop leaves the eventual result alone and takes away two dashes; no pass is left exactly at the result. |
| CommentSanitizer.Sanitize | programs/dwg2SVG.c:797-806 | The loop terminates with pairs of dashes replaced from the left, within the string, and leaves the terminator and what is behind it. |
| CommentSanitizer.DashRun | programs/dwg2SVG.c:801-805 | A run of k dashes becomes k/2 pairs of underscores and, if k is odd, a dash. |
| CommentSanitizer.RunByRun | programs/dwg2SVG.c:801-805 | Maximal runs are treated each by itself, wherever they stand. |
| CommentSanitizer.OtherCharactersStay | programs/dwg2SVG.c:801-805 | Characters other than dashes stay, and a dash stays or becomes an underscore. |
| CommentSanitizer.ContentMeans | programs/dwg2SVG.c:797 | A text followed by a blank is comment content by the grammar of section 2.5 of XML 1.0 if and only if it has no pair of dashes and consists of characters that section 2.2 allows. |
| CommentSanitizer.SanitizedIsComment | programs/dwg2SVG.c:797-816 | What is printed has no pair of dashes, is such content if and only if the name consists of characters that XML allows, and for such names is the name itself exactly if that was such content already. |

## Left out

- The library proper (bit codes, Reed-Solomon, decoding and encoding of drawings) and the programs that only print or call it.
- `examples/unknown.c`: `bits_format` and the alternate encoders. An encoding is any bit string, and the alternates are an arbitrary list for each visit to SEARCH.
- FieldLoop.SearchAndRetry: leaves out the imprecise search for doubles (lines 1129-1270). There a hit that is too imprecise has raised `possible` already and the next format is tried, and a double of unexpected length goes on to FOUND without a search.
- `examples/unknown.c`: Picat output, logging, file names, and 32-bit overflow of sizes and offsets, which are unbounded here.
- FieldTable.SolveObject: the list of fields ends where the source has a field with code 0.
- Handles.Candidates: handles are numbers below 2 to the 32nd; parsing their hexadecimal text is not modelled.
- CQuote.CQuote: asks for room for the quoted text and its terminator; what happens without it is not modelled, only when there is enough (`CQuote.RoomInBuffer`).
- CQuote.RoundTrip: octal and hexadecimal escapes are not read, as quoting writes none; trigraphs are taken for what they are.
- `examples/compare_dxfb.py`: the comparison and its printing. A float64 stays its eight bytes, latin-1 decoding is the identity on bytes, and the order of dictionary entries is not modelled.
- `programs/getopt.c`: the two messages it prints; `opterr` is kept as a variable.
- `examples/dwgadd.c`: number syntax and locale. A number is one token of the text, coordinates and face indices are integers, and the wrap-around of 16-bit indices is not modelled.
- `examples/dwgadd.c`: which command `sscanf` recognises at the cursor is an arbitrary function of the text from there on; whether an API call succeeds, a name is valid or a field exists is part of the command.
- Interpreter.StepAdvances: the objects an API call adds besides the one it returns (block headers, vertices, table controls) are not modelled, nor are coordinates and field values.
- ListScanner.EmptyScan: takes an allocation of no points to succeed; where it gives NULL the scanners exit.
- InterpreterMachine.Machine.DwgAddDat: whether the patterns behind the lists of `spline` and `leader` match is part of the command, so nothing is claimed about when such lines add an entity. (They start with a parenthesis that the scanner has already used up.)
- InterpreterProofs.EveryRun: the two exit statuses of an aborted run are not told apart, and an adding call that fails adds nothing; in the library some of them (`dwg_add_RAY` on an old drawing) leave an unused object behind, which the final count includes.
- InterpreterVersions.OldVersions: some adding calls make their own test of the drawing's version and fail; that is part of whether a call succeeds.
- `programs/dwg2SVG.c`: escaping, and everything but the comment loop; `examples/llvmfuzz.c`: what the selected encoders do; `examples/dwgfuzz.c`: a looser copy of the script interpreter.
