# AfterStep crash self-diagnosis and MyStyle property, in Dafny

This project models two self-contained parts of AfterStep and proves
properties about them.

**Crash self-diagnosis** (`libAfterBase/selfdiag.c`). When AfterStep
receives a signal, it prints what it can learn about itself. It:

- loads its own ELF dynamic-section tables into `_ptabs`;
- lists the loaded libraries;
- walks the i386 frame-pointer chain and resolves each return address to
  the tightest enclosing `STT_FUNC` symbol;
- or, without a signal context, prints the return addresses that
  `__builtin_return_address` captured.

A static `level` counter makes a second SIGSEGV exit at once.

Memory is a map from byte addresses to 32-bit words. The dynamic array is
a sequence of `(tag, value)` entries, and the symbol table is a sequence of
records in one of two layouts. Printed output is a list of `Line` records,
not formatted text.

**MyStyle property** (`lib/mystyle_property.c`).
`mystyle_set_property` flattens the style list into `unsigned long`
words, version `(1 << 8) + 2`. Each record is a 16-word header followed by
4 words per gradient point. `mystyle_get_property` walks those words with
the same stride and updates or creates the style each record names. It
then rewrites the flags:

- the gradient flag moves from the inherited to the user flags;
- the pixmap flags are cleared when no usable pixmap exists.

Style words are `bv64`, so the flag tests are bit operations.

Modules, one per file:

| file | module | what |
|---|---|---|
| wrappers.dfy | Wrappers | `Option` |
| machine.dfy | Machine | 32-bit words, memory, build switches |
| loader.dfy | Loader | `get_proc_tables` |
| resolver.dfy | Resolver | `find_func_symbol` |
| report.dfy | Report | output line records, attribution of an address |
| callcapture.dfy | CallCapture | `get_call_list`, `print_simple_backtrace` |
| stackwalker.dfy | StackWalker | `print_my_backtrace` |
| handler.dfy | SignalHandler | `print_lib_list`, `print_diag_info`, `sigsegv_handler` |
| seqfacts.dfy | SeqFacts | small sequence lemmas |
| stylemodel.dfy | StyleModel | style records, flag masks, atom oracle |
| pointslots.dfy | PointSlots | layout of gradient points |
| styleflags.dfy | StyleFlags | the reader's flag rewriting |
| stylewriter.dfy | StyleWriter | `mystyle_set_property` |
| stylereader.dfy | StyleReader | `mystyle_get_property` |
| styleroundtrip.dfy | StyleRoundTrip | writing then reading back |

The frame walker has no frame cap in the C code. Here it is bounded by an
explicit `fuel` argument, and a walk that uses it up ends `OutOfFuel`.
`StackWalker.IncreasingChainFinishes` shows that `WordRange - ebp` fuel is
enough on any chain whose frame addresses strictly increase.

## Model

| member | source | states |
|---|---|---|
| Machine.NextWord | libAfterBase/selfdiag.c:331 | The word after `ebp` (`ebp + 1` in C) is 4 bytes on, unless that wraps past 2^32. |
| Machine.Int32 | libAfterBase/selfdiag.c:86 | Storing an `Elf32_Word` in the `int` field `sym_ent_num` reads it as two's complement. The result is in the `int` range, is non-negative exactly when the word is below 2^31, and is congruent to the word. |
| Loader.Absorb | libAfterBase/selfdiag.c:57-84 | One `switch` step stores the entry's value in the field its tag names. Every other recorded field and `sym_ent_num` are unchanged. |
| Loader.Live | libAfterBase/selfdiag.c:56 | The entries the loop visits are a prefix of the array and hold no `DT_NULL`. When that prefix is shorter than the array, a `DT_NULL` follows it. |
| Loader.LastValue | libAfterBase/selfdiag.c:56-84 | Reference meaning of "the last occurrence wins". With no entry carrying the tag, the value is the default. Otherwise it is the value of an entry with the tag that no later entry with the tag follows. |
| Loader.Scan | libAfterBase/selfdiag.c:56-84 | After the loop, every recorded field holds the last value of its tag among the live entries, or its starting value. `sym_ent_num` is untouched. |
| Loader.GetProcTables | libAfterBase/selfdiag.c:49-89 | A build without ELF support leaves the table alone. An ELF build sets each recorded field to the last live value of its tag, or to zero (the `memset`). `sym_ent_num` is word 1 of the hash table read as an `int` when `DT_HASH` is present and non-null, and 0 otherwise. |
| Loader.OnlyLiveEntriesMatter | libAfterBase/selfdiag.c:56 | Two dynamic arrays that agree up to their first `DT_NULL` load the same table. |
| Loader.TerminatorHidesTail | libAfterBase/selfdiag.c:56 | Entries after a `DT_NULL` are not visited. |
| Loader.LaterOccurrenceWins | libAfterBase/selfdiag.c:56-84 | A live entry for a recorded tag that no later entry repeats decides the field, whatever came before it. |
| Loader.LoadIsIdempotent | libAfterBase/selfdiag.c:55-86 | Loading the table twice (as `print_diag_info` does on every report, line 424) gives the same table as loading it once. |
| Resolver.Best | libAfterBase/selfdiag.c:176-188 | The selection after the loop is empty exactly when no entry in `1 .. k-1` qualifies. A qualifying entry is an `STT_FUNC` with `st_value <= addr`, offset below `st_size` and below `0x0fffffff`. A selected entry qualifies and has the least offset. Every earlier qualifying entry has a strictly larger offset, so ties go to the earliest. |
| Resolver.ScanTables | libAfterBase/selfdiag.c:160-213 | The failure markers: no ELF support gives "unknown" and 0; a null symbol or string table gives "unknown" and -1; a layout matching neither entry size gives "unknown" and `0x0fffffff`. Otherwise the name is a string exactly when some entry in `1 .. sym_ent_num-1` qualifies, and it is then the tightest such entry's name with offset `addr - st_value`. With no qualifying entry the result is "unknown" and `0x0fffffff`. |
| Resolver.ScanAddress | libAfterBase/selfdiag.c:174-193 | The address the scan compares. The 32-bit layout takes the address modulo 2^32 (the `Elf32_Addr` cast). The 64-bit layout takes the full address. Any address below 2^32 is taken as is. |
| Resolver.FindFuncSymbol | libAfterBase/selfdiag.c:160-215 | The failure markers, then the tightest-match result of `ScanTables` for the address `ScanAddress` gives. That is the address as given in the 64-bit layout, and the address modulo 2^32 in the 32-bit layout. |
| Resolver.FindFuncSymbolAsWritten | libAfterBase/selfdiag.c:189-208 | As written, both layouts compare the address truncated to 32 bits. This agrees with `FindFuncSymbol` for 32-bit tables and for addresses below 2^32. |
| Resolver.TruncationMissesHighFunctions | libAfterBase/selfdiag.c:193 | On a 64-bit table whose only function sits at `0x7f00_0000_1000`, an address inside it resolves to "unknown" as written and to the function, offset `0x20`, when corrected. |
| Resolver.TwoFunctionScenario | libAfterBase/selfdiag.c:171-188 | Two functions: an address inside the first resolves to it with offset `0x20`. An address in neither gives "unknown" and `0x0fffffff`. |
| Resolver.UniqueEnclosingFunctionWins | libAfterBase/selfdiag.c:171-188 | When exactly one scanned entry encloses the address, it is resolved to that entry with offset `addr - st_value`. |
| CallCapture.GetCallList | libAfterBase/selfdiag.c:337-381 | Without the builtin, the buffer is returned unchanged. With it, the first null sits at an index of at most 31. The slots before it are the return addresses at depths 2, 3, ... in order. If it lies before slot 31, the depth probed there returned null. Slots after it keep their old contents. |
| CallCapture.InitialBufferTerminated | libAfterBase/selfdiag.c:342 | The static buffer starts all null, so its first null is slot 0. |
| Report.Attribute | libAfterBase/selfdiag.c:401-413 | A call or frame line shows the symbol and offset when the lookup names one. Otherwise it shows the `__backtrace_symbols` text when the build has it and the text does not start with `[`, and "[some silly code]" if not. It is never left without an attribution. |
| CallCapture.CallLines | libAfterBase/selfdiag.c:394-416 | One line per entry up to the terminator. Each line carries its index counted from 0, the address and its attribution. |
| CallCapture.PrintSimpleBacktrace | libAfterBase/selfdiag.c:382-418 | Without the builtin: no lines. With it, if entry 0 is null: no lines. Otherwise the two headers, then exactly one line per entry before the first null, in order, each attributed by `find_func_symbol`. |
| StackWalker.FrameLine | libAfterBase/selfdiag.c:305-330 | A frame line shows the frame, the saved frame pointer read from it, and the return address. It is "[program entry point]" exactly when the saved pointer is null. Any other frame carries the attribution `FrameWhere` gives. |
| StackWalker.FrameWhere | libAfterBase/selfdiag.c:313-328 | A return address that resolves gives its symbol and offset. For frame 1 with a non-null `eip`, an unresolved return address falls back to `eip`'s symbol. When no lookup resolves, the `__backtrace_symbols` text of the return address is shown if the build has it and it does not start with `[`. Otherwise the line shows "[some silly code]". |
| StackWalker.WalkCons | libAfterBase/selfdiag.c:299-332 | While the frame pointer is in range and both of its words are mapped, one loop step prints the frame's line. It continues from `ebp <- mem[ebp]`, `esp <- mem[ebp + 4]`. |
| StackWalker.WalkStops | libAfterBase/selfdiag.c:299-332 | A frame pointer that is null or at or below `0x08074000` ends the walk with no line. An unmapped frame ends it as a fault with no line. A frame whose return-address word is unmapped prints its line and then faults. |
| StackWalker.WalkFramesSaved | libAfterBase/selfdiag.c:299-333 | Every line is for a frame inside the plausible range whose saved pointer is mapped, and is the entry-point line exactly when that pointer is null. The walk prints at most one line per unit of fuel. |
| StackWalker.WalkFramesLinked | libAfterBase/selfdiag.c:331-332 | The first line is for the starting frame. Each next line is for the saved frame pointer of the previous frame, with the return address from the word after it. |
| StackWalker.WalkFramesEnd | libAfterBase/selfdiag.c:299-332 | A finished walk stopped at a frame pointer outside the range. A faulted walk stopped at an unmapped word. |
| StackWalker.PrintMyBacktrace | libAfterBase/selfdiag.c:265-335 | Non-i386 builds print nothing. A start below the floor, null included, prints the header and the corruption message. It adds one attribution of `eip` only when `eip` is not null. Otherwise the column header is followed by the walk from frame 1. |
| StackWalker.FailureWhere | libAfterBase/selfdiag.c:282-291 | The faulting `eip` shows its symbol and offset when it resolves. Otherwise it shows the `__backtrace_symbols` text when that does not start with `[`, with no `HAVE_EXECINFO_H` guard. If neither, nothing is shown, never "[some silly code]". |
| StackWalker.FailureWhereMatchesFrames | libAfterBase/selfdiag.c:282-291 | The corrupted-stack attribution is the frame attribution of a build with `__backtrace_symbols`, whatever the build, except that the placeholder becomes nothing. |
| StackWalker.CorruptStartReadsNoMemory | libAfterBase/selfdiag.c:273-296 | With a corrupted start the output does not depend on memory, and no frame line is printed. |
| StackWalker.FloorGivesNoFrames | libAfterBase/selfdiag.c:273-300 | A frame pointer exactly at `0x08074000` passes the corruption check. It prints the two headers and no frame. |
| StackWalker.EipOnlyInnermost | libAfterBase/selfdiag.c:313-315 | `eip` is consulted only for frame 1: from frame 2 on, the walk is the same whatever `eip` is. |
| StackWalker.MoreFuelSameWalk | libAfterBase/selfdiag.c:299 | A walk that did not run out of fuel is unchanged by more fuel, so the bound does not alter a completed walk. |
| StackWalker.IncreasingChainFinishes | libAfterBase/selfdiag.c:299-333 | On a chain with strictly increasing frame addresses, `WordRange - ebp` fuel is enough: the walk finishes or faults. |
| SignalHandler.Libraries | libAfterBase/selfdiag.c:226-230 | Every module with a non-zero base address and a name has a line, and every line comes from such a module. |
| SignalHandler.LibrariesOne | libAfterBase/selfdiag.c:226-230 | One module gives one line when it has a non-zero base address and a name, and none otherwise. |
| SignalHandler.LibrariesAppend | libAfterBase/selfdiag.c:226-230 | The list is walked in order. The lines of two consecutive stretches of the list are those of the first followed by those of the second. |
| SignalHandler.PrintLibList | libAfterBase/selfdiag.c:217-233 | Nothing without ELF support or without `DT_DEBUG`. Otherwise the header, then the filtered module list. |
| SignalHandler.DiagReport | libAfterBase/selfdiag.c:421-435 | With a signal context: the table is reloaded, the banner comes first, the library list for the reloaded table follows it, and the register dump comes next. The rest is the frame walk seeded from the context's registers and resolved against the reloaded table, and that walk decides how the report ends. Without a context: the call backtrace on the table as it stands. |
| SignalHandler.SigsegvHandler | libAfterBase/selfdiag.c:438-477 | A SIGSEGV while `level > 0` prints only the trap fragment and exits 1, with the state unchanged. The first SIGSEGV sets `level` to 1 and names the program. On a completed report it ends with the 8 guidance lines and exits 1. Another signal keeps `level`, prints no guidance and returns. In both reporting cases the output is the banner, then the report, then the guidance only when the process exits 1. The outcome follows from how the report ended. |
| SignalHandler.Reported | libAfterBase/selfdiag.c:458-476 | The output is the banner, the report, and the guidance lines when the outcome is exit 1. A SIGSEGV whose report completes exits with status 1. A fault in the walk refaults and a walk out of fuel is unfinished. Otherwise no guidance is added. |
| SignalHandler.ReportHasNoGuidance | libAfterBase/selfdiag.c:421-435 | The report itself never contains guidance lines. |
| SignalHandler.SecondFaultExitsImmediately | libAfterBase/selfdiag.c:445-453 | After a first SIGSEGV has been handled, a later SIGSEGV prints only the trap fragment and exits 1, whatever the image. |
| SignalHandler.LevelStaysAtMostOne | libAfterBase/selfdiag.c:445-456 | From `level <= 1`, no signal takes `level` above 1. |
| StyleWriter.EncodeStyle | lib/mystyle_property.c:55-98 | A style's record has `16 + 4 * npoints` words. |
| StyleWriter.Encode | lib/mystyle_property.c:52-101 | The property has exactly as many words as the sum of the record sizes. |
| StyleWriter.EncodeAppend | lib/mystyle_property.c:64-101 | The property of a concatenated list is the concatenation of the two properties, and sizes add. |
| StyleWriter.RecordAt | lib/mystyle_property.c:64-101 | Record `j` lies within the property, starting right after the records before it, and holds exactly that style's words. |
| StyleWriter.RecordCountAt | lib/mystyle_property.c:88 | Slot 15 of record `j` holds the style's gradient point count. |
| StyleWriter.MystyleSetProperty | lib/mystyle_property.c:45-105 | The filled buffer has the counted length and is the records of all styles in list order. The version is `(1 << 8) + 2`. |
| StyleWriter.CountWords | lib/mystyle_property.c:52-59 | The counting loop runs over the list from its head and gives the sum of `9 + 7 + 4 * npoints` over the styles. |
| StyleWriter.WriteRecord | lib/mystyle_property.c:68-99 | Filling one record advances the index by its size and leaves the record's words after those already written. |
| StyleWriter.WritePoints | lib/mystyle_property.c:89-99 | The gradient loop advances by four slots per point and writes the point words. |
| PointSlots.InterleaveLayout | lib/mystyle_property.c:91-98 | Point `j` occupies slots `4j .. 4j+3`: its colour three times, then its offset. |
| PointSlots.ReadBackWhole | lib/mystyle_property.c:200-209 | Reading colour `k` from slot `4k` and offset `k` from slot `4k+3` recovers both arrays from the written points. |
| StyleFlags.RuleSeesWrittenFlags | lib/mystyle_property.c:232-245 | The missing-pixmap rule sees the pixmap flags as written. With a usable pixmap nothing is dropped. An inherited back pixmap drops both pixmap flags. Failing that, an inherited transparent pixmap drops its own flag. |
| StyleFlags.DropSparesGradient | lib/mystyle_property.c:232-245 | The rule never clears the gradient flag. |
| StyleFlags.SetFlagsAfterRule | lib/mystyle_property.c:155-275 | The recomputed `set_flags` equal the written flags less exactly the flags the rule drops. |
| StyleFlags.KeepRestores | lib/mystyle_property.c:275 | When nothing is dropped, `set_flags` equal the written flags. |
| StyleFlags.DropPixmapClears | lib/mystyle_property.c:234-238 | A dropped back pixmap clears both pixmap flags and nothing else. |
| StyleFlags.DropTransPixmapClears | lib/mystyle_property.c:239-244 | A dropped transparent pixmap clears its own flag and nothing else. |
| StyleFlags.DropPixmapInherits | lib/mystyle_property.c:210-238 | When the back pixmap is dropped, `inherit_flags` are the written flags less the gradient flag and both pixmap flags. |
| StyleFlags.DropTransPixmapInherits | lib/mystyle_property.c:210-244 | When the transparent pixmap is dropped, `inherit_flags` are the written flags less the gradient flag and the transparent pixmap flag. |
| StyleFlags.SetAfterRuleIs | lib/mystyle_property.c:210-275 | `set_flags`, recomputed as the union of `user_flags` and `inherit_flags`, are the gradient flag (when written) rejoined to the written flags less the gradient flag and less the flags the rule dropped. |
| StyleFlags.DroppedPixmapGone | lib/mystyle_property.c:234-238 | When the rule drops the back pixmap, the recomputed `set_flags` hold neither pixmap flag. |
| StyleFlags.DroppedTransPixmapGone | lib/mystyle_property.c:239-244 | When the rule drops the transparent pixmap, the recomputed `set_flags` do not hold its flag. |
| StyleFlags.GradientMoved | lib/mystyle_property.c:194-212 | A written gradient flag ends up as the only user flag. Otherwise the user flags are 0. The inherited flags never hold it. |
| StyleReader.ApplyRecord | lib/mystyle_property.c:136-275 | One record applied to its style keeps the style's name. The set flags it leaves are the user flags joined with the inherited flags. |
| StyleReader.FieldsCopied | lib/mystyle_property.c:136-191 | The text style, the four colours, max colours, tint, alpha and the point count are copied from slots 2, 4-7, 9, 12, 13 and 15. The pixmap is slot 10 unless the server rejects it. Unless the pixmap rule drops the back pixmap, the texture type and mask are slots 8 and 11. The font is loaded from slot 3's atom when the font flag is written. Without that flag the font is the old one, emptied if the old user flags held the font flag. |
| StyleReader.GradientFlagMoved | lib/mystyle_property.c:155-211 | `user_flags` is the gradient flag when it was written, else 0. The inherited flags do not hold it. |
| StyleReader.GradientPoints | lib/mystyle_property.c:194-209 | With the gradient flag: exactly `npoints` colours and offsets, colour `k` from slot `16+4k` and offset `k` from slot `16+4k+3`. The gradient type is `mystyle_translate_grad_type` of the texture type in slot 8. Without the flag: the arrays and the type are left as they were. |
| StyleReader.FlagsPreserved | lib/mystyle_property.c:155-275 | When the pixmap rule drops nothing, `set_flags` equal slot 0 and no warning is written. |
| StyleReader.PixmapKept | lib/mystyle_property.c:232-245 | A usable pixmap, texture type 129, or no pixmap flags at all: nothing is dropped. |
| StyleReader.BackPixmapDropped | lib/mystyle_property.c:232-238 | No usable pixmap, a texture type other than 129 and an inherited back pixmap: texture type and mask become 0, silently. |
| StyleReader.BackPixmapFlags | lib/mystyle_property.c:232-238 | In that case `set_flags` are slot 0 without both pixmap flags. |
| StyleReader.BackPixmapInherits | lib/mystyle_property.c:210-238 | In that case `inherit_flags` are slot 0 without the gradient flag and both pixmap flags. |
| StyleReader.TransPixmapDropped | lib/mystyle_property.c:239-244 | No usable pixmap, a texture type other than 129, no back pixmap but a transparent pixmap: texture type and mask are kept from slots 8 and 11, and the bug warning naming the style is written. |
| StyleReader.TransPixmapFlags | lib/mystyle_property.c:239-244 | In that case `set_flags` are slot 0 without the transparent pixmap flag. |
| StyleReader.TransPixmapInherits | lib/mystyle_property.c:210-244 | In that case `inherit_flags` are slot 0 without the gradient flag and the transparent pixmap flag. |
| StyleReader.FindStyle | lib/mystyle_property.c:131 | The index found is that of the first style with the name, or the list length when there is none. |
| StyleReader.DecodeRecord | lib/mystyle_property.c:128-133 | One record keeps the list's names and places. Styles with other names are unchanged. The record's name is in the list afterwards, found or created. |
| StyleReader.DecodeRecordTarget | lib/mystyle_property.c:130-132 | The record updates the first style with its name in place, or appends a new style of that name. Every other style is untouched. |
| StyleReader.DecodeWords | lib/mystyle_property.c:124-276 | Over a property split into whole records: earlier styles keep their names and places. Styles named by no record are unchanged. The names afterwards are the old names plus every record's name. |
| StyleReader.MystyleGetProperty | lib/mystyle_property.c:107-283 | An absent property changes nothing. A version other than 1.2 changes nothing and writes the unknown-version warning. Version 1.2 decodes every record in order. |
| StyleRoundTrip.FlagSlots | lib/mystyle_property.c:68-84 | Slots 0, 8, 10 and 11 of a record are the set flags, texture type, pixmap and mask. |
| StyleRoundTrip.NameSlots | lib/mystyle_property.c:69-74 | Slots 1 and 3 are the atoms of the style's name and its font's name. |
| StyleRoundTrip.ColourSlots | lib/mystyle_property.c:70-79 | Slots 2 and 4-7 are the text style and the four colours. |
| StyleRoundTrip.CountSlots | lib/mystyle_property.c:82-98 | Slots 9, 12, 13 and 15 are max colours, tint, alpha and the point count, and the point words follow the 16 header slots. |
| StyleRoundTrip.RecordIsRecord | lib/mystyle_property.c:57-274 | The reader's stride `9 + 7 + 4 * slot15` over a written record is exactly the writer's record length. |
| StyleRoundTrip.EncodeFramed | lib/mystyle_property.c:64-274 | Walking the written property with the reader's stride visits records exactly at the writer's record boundaries and ends at its end. |
| StyleRoundTrip.StyleReadBack | lib/mystyle_property.c:68-275 | A style whose record the reader can rebuild is rebuilt with every field equal. The set flags are split into the gradient flag (user) and the rest (inherited), and no warning is written. |
| StyleRoundTrip.FlagsReadBack | lib/mystyle_property.c:68-275 | Such a style's set flags survive the reader unchanged. |
| StyleRoundTrip.GradientReadBack | lib/mystyle_property.c:88-212 | Such a style's gradient survives the reader. |
| StyleRoundTrip.FontReadBack | lib/mystyle_property.c:74-176 | With an injective atom oracle, such a style's font name survives the reader. |
| StyleRoundTrip.DecodeFresh | lib/mystyle_property.c:124-276 | Reading the property written for styles with distinct names not yet in the list appends their rebuilt styles in order, with no warning. |
| StyleRoundTrip.GetAfterSet | lib/mystyle_property.c:45-283 | Writing a list of such styles with distinct names and reading the property into an empty list gives back every style, rebuilt, in order. |
| StyleRoundTrip.RewriteSame | lib/mystyle_property.c:68 | The rebuilt styles write the same property again, because the writer reads only `set_flags`. |

## Left out

- Text formatting and stderr: every `fprintf` becomes a `Line` record carrying the values it prints. `print_signal_context` is one `SignalContext` line with the three registers the walk uses, not the per-architecture register dump.
- `print_elf_data`: its body is compiled out (`#if 0`), so it prints nothing.
- The `#if 0` transparent-pixmap block of `mystyle_get_property` is compiled out and is not modelled.
- `set_signal_handler` and `signal()` installation are not modelled: the handler is a function of its inputs. `exit(1)` is the terminal outcome `Exited(1)`.
- `__builtin_return_address` is an oracle sequence of 31 addresses (depths 2 to 32). `__backtrace_symbols` is an oracle from address to text, and `HAVE_EXECINFO_H` a build flag.
- A fault inside the report is the outcome `Refault`, and no second handler run is chained to it. `SecondFaultExitsImmediately` states what that run does.
- StackWalker.PrintMyBacktrace: the frame loop has no cap in the C code. The model bounds it by fuel, and a walk that uses the fuel up ends `OutOfFuel` (`Unfinished` in the handler). `MoreFuelSameWalk` and `IncreasingChainFinishes` limit what this leaves out.
- Loader.GetProcTables: requires the `DT_HASH` table word it reads to be mapped. The C code would fault on an unmapped one. The end of the dynamic sequence is treated as the end of `_DYNAMIC`.
- Resolver.Best: offsets are compared as non-negative numbers. On i386 `long curr_offset` has 32 bits, so an offset of 2^31 or more reads as negative and passes the `min_offset` test. The unsigned `st_size` test still rejects it unless the symbol is at least 2^31 bytes long, and such symbols are not modelled.
- Machine.Word: every address, pointer, dynamic-table value and call-list entry is a 32-bit word, so the model is of a 32-bit process. On a 64-bit build these values are 64 bits wide. For them only the address truncation in `find_func_symbol` is modelled (see Findings).
- StackWalker.WalkStops: an unmapped frame ends the walk with no line. The C code first prints the `0x<ebp>` fragment of that line and only then faults on the read of `*(ebp)`. That partial line is not modelled.
- Resolver.FindFuncSymbol: symbol records are two clean layouts. The `Elf32_Sym` stride of `_ptabs.symbols + 1` in the 64-bit branch (line 192) is not modelled. The entries must be mapped up to `sym_ent_num`.
- The flag values `F_FONT`, `F_BACKGRADIENT`, `F_BACKPIXMAP` and `F_BACKTRANSPIXMAP` come from mystyle.h, which is not part of this model. They are a parameter, and the flag lemmas require only that the gradient flag is one bit apart from the two pixmap flags.
- `mystyle_find` and `mystyle_new_with_name` are not part of this model. The model assumes the first returns the first style with the name. It assumes the second adds a style with every other field empty at the end of the list. StyleReader.DecodeRecordTarget and StyleRoundTrip.GetAfterSet depend on that append: if new styles went to the head of the list, the read-back order would be reversed.
- `mystyle_translate_grad_type` is not part of this model. It is an oracle from texture type to gradient type.
- X calls are not modelled beyond their results: font loading and unloading, `XFreePixmap`, `picture2asimage`, `mystyle_fix_styles`, `mystyle_set_global_gcs`, and the `set_as_property`/`get_as_property` transport. `XGetGeometry` is a validity oracle for pixmaps. The back-icon image, width and height are not in the style record.
- Floating-point gradient offsets: the word `offset * 0x1000000` is kept as it is written, without the conversion to and from `double`.
- Allocation and freeing (`safemalloc`, `NEW_ARRAY`, `free`, `XFree`) are not modelled. The release of a style's old font and gradient is shown only as those fields being emptied.
- StyleReader.MystyleGetProperty: requires a property of version 1.2 to split into whole records. The C code reads past the end of a truncated record without a check.
- StyleReader.MystyleGetProperty: every slot is read and compared at its full 64-bit width. The C code narrows slots as it stores them. Slot 8 goes into the `int` field `texture_type`, which is then compared with 129. Slot 15 goes into the `int` field `gradient.npoints`, which sets the stride `7 + npoints * 4`. A foreign property can tell the two apart: a slot 8 of `129 + 2^32` reads as 129 in C and exempts the style from the pixmap rule, and a 20-word record with slot 15 of `2^32 + 1` reads as one point in C. A property written from C styles carries `int` values sign-extended into the slot, which narrow back to themselves, so the difference does not arise for it.
- The style property code is modelled for one build: with textures (`NO_TEXTURE` undefined) and with the font written and read as an atom name (`MODULE_REUSE_LOADED_FONT` undefined, as it always is under `I18N`). Without textures a record is 9 words and slots 9 to 15 and the gradient are neither written nor read. With `MODULE_REUSE_LOADED_FONT` slot 3 holds the font id and the reader queries the font with `XQueryFont`.
- StyleRoundTrip.GetAfterSet: holds for canonical styles only. A canonical style has exact gradient arrays behind a written gradient flag and none without it, and a font name only behind the font flag. Its gradient type is the one its texture type translates to. Its pixmap is one the server accepts, and the pixmap rule has nothing to drop. Other styles are changed by the reader as the StyleReader lemmas state.
- `print_simple_backtrace` refers to `dummy`, which is declared only in `print_my_backtrace`. The model takes it as the local the `print_my_backtrace` code evidently means.

## Findings

| source | as written | input that shows it | evidently intended | confidence | as-written member | corrected member |
|---|---|---|---|---|---|---|
| libAfterBase/selfdiag.c:193 | The 64-bit branch casts the address to `unsigned int` before comparing it with 64-bit `st_value`s. | A 64-bit table whose only function starts at `0x7f00_0000_1000` with size `0x50`, and address `0x7f00_0000_1020`: as written the result is "unknown" with `0x0fffffff`. | Compare the full address, which resolves to that function with offset `0x20`. | not executed | Resolver.FindFuncSymbolAsWritten | Resolver.FindFuncSymbol |
