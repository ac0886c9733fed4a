# Verified models of the RP firmware's package loader, flash slots and FAT volume

This project models, in Dafny, the parts of the firmware whose mistakes are silent: the loader that turns a relocatable ARM object into running code, the flash slot that keeps a package across power cuts, the FAT12 volume shared with a USB host with its name, time and cache layers, the read-only FAT reader, and three small stateful cores (a package's heap, the keystroke queue, the shell's line parser). Everything is checked with `dafny verify dfyconfig.toml`.

How the pieces fit together:

- **Package slots.** `Crc32`, `Flash`, `Manifest`, `SlotFormat`, `SlotImage`, `SlotOpen`, `SlotWriter` and `SlotProtocol` model `pkgslot.cpp`. `Writer` streams a blob through a page buffer with lazy erase onto a chip that refuses to program what is not erased. `SlotProtocol.Install` is the whole install: its success characterised exactly, and its log tied to what the chip holds, so that an install that failed or was cut off past the header erase is known to leave a slot that opens as empty.
- **The loader.** `Elf`, `ElfLayout`, `Thumb` give the object, its layout and the branch encoding. `PicLayout` to `PicInstall` are `app_pic_install` (page-at-a-time emission proved equal to patching the whole blob), `PicLoad` is `app_pic_load`, `TwoStage` proves that the two together mean what `app_load` means. `PicSums` and `PicWrap` are the producer's unchecked 32-bit layout sums and what they do to the sites it records; `PicMeasure` is the decision taken before the erase, `PicStray` a package it gets wrong. `AppLayout` and `AppLoad` are `app_load` itself for sandboxed packages, and `AppMeaning` says what its relocations mean: where branches land, what pointers point at, what moves put in registers. `ThumbCode` decodes the veneers both loaders write.
- **The FAT12 volume.** `Sectors`, `PackedTable`, `FatChains`, `FatNames`, `FatDir`, `FatVolume` hold the theory of the table, the chains, the names and the directory; `FatState` says what a sound volume is; `Fat12`, `FatWrite`, `FatRead`, `FatFormat` are the operations; `FatRoundTrip` and `FatRun` are the whole-run results. `Calendar` is the FAT time stamp. `FatRo` is the read-only reader, `FatRoChain` what it reads (entries of the three widths, chains, the very files of a FAT12 volume), `BlockCache` the layer under the drive, with `BlockFlat` its flat view. `FatSpelled` reads a fresh volume's own description by offset and character.
- **Small cores.** `Arena`, `Hid` with `HidService`, `Cmdline` with `CmdScan`.

Machine integers are ranges of `int`; wherever the C++ arithmetic is 32-bit and can wrap, the wrap is written out (`% W32`). Code that changes state in place is a class or works on an array; each such method is proved against functions on sequences, and the theorems are about those.

Results where the code does not do what one would expect, with the exact condition under which it does:

- `f12_read` adds offset and length in 32 bits before comparing with the size. It returns the file's bytes exactly when the offset is past the end, the sum stays below 2^32, or the file fills its last cluster (`FatRead.ReadExact`); otherwise it runs on to the end of the cluster.
- `f12_format` sizes its table in 32-bit arithmetic. Over all 32-bit sizes it accepts exactly 11 sectors or more, and the table it settles on covers every cluster exactly outside two windows, 0x5555555D to 0x55556413 and 0xAAAAAAB3 to 0xAAAAB968 (`FatFormat.Settle`, `FatFormat.Windows`). What it writes is found again by `f12_mount` exactly when the table's size fits 16 bits (`FatFormat.MountBack`).
- `fatro_read` follows at most `clusters + 2` links per call from where it starts, so with and without a cursor the answers agree exactly up to that distance, which a file no larger than the volume never exceeds; and its position sum keeps it from ever reaching the last cluster below 4 GB (`FatRo.Reader.Read`, `FatRo.WithinVolume`).
- The measured GOT is the one the producer reserves if and only if every symbol with a GOT relocation has one against a loaded section (`PicMeasure.GotExact`). Otherwise the pre-flight can be wrong about room as well as RAM: `PicStray` is a package, accepted and produced, that is routed to a 12288-byte slot and whose body does not fit it, so the commit fails after the erase. The body bound holds exactly when growth of the initialised span between the two GOT sizes is covered by slack elsewhere (`PicMeasure.BodyExact`); it always holds if the difference is a multiple of every writable alignment (`PicMeasure.SpanKept`). The routing comparison wraps for requests within one program page of 2^32 (`PicMeasure.RouteWraps`).
- `app_pic_install` adds section sizes in 32 bits with no check, unlike `app_load`. Every pointer site it can record lies inside the RAM block it asks for if and only if every writable section of four bytes or more does, where those sums put it (`PicSums.SitesInside`, `PicWrap.RecordedInside`); `PicWrap.SiteEscapes` is an object for which it asks for 288 bytes and records a site at 0x10000004, which neither `pkgslot_open` nor `app_pic_load` checks. Sums that do not wrap are enough (`PicSums.FitsInside`), and whatever `app_load` lays out does not wrap (`PicLayout.LaidOutFits`).
- `arena_alloc`'s split test adds in 32 bits. It is right for every request exactly on arenas of at most 0xFFFFFFE8 bytes (`Arena.SplitExact`); above that it splits off a remainder too small to be a block, or puts its header past the end.
- A queued delay of more than 2^31 milliseconds is over at once; up to that it lasts exactly its time (`Hid.DelayLasts`).
- The pre-flight and the producer judge relocation types alike, except that an unknown type lying outside the read-only section it names is refused by the one and passed over by the other (`PicMeasure.ProducedSupported`).
- The shell's operator scans and its splitter do not agree about quotes: on `a&"b c"` the scans take the space for quoted and the splitter makes two words (`CmdScan.Disagree`). They agree about every character exactly on lines with no quote straight after `;`, `&`, `|` or `>` inside a word (`CmdScan.AgreeIff`).
- `app_load` enters a package at the first `app_main` defined anywhere, the slot producer at the first in a loaded read-only section; the two are the same symbol exactly when the first is in such a section (`TwoStage.SameChoice`).
- `pkgslot_open` multiplies the recipe counts in 32 bits. In a slot that opens each array lies inside the body exactly when its count does not wrap (`SlotOpen.OpenedArrays`); `SlotOpen.ClaimsOpen` is a slot of under 8 KB that opens with 2^29 GOT entries.
- The page pass needs no assumption that relocation sites are disjoint: when it succeeds the emitted blob equals the whole-blob fold (`PicPages.Pager.EmitAll`). Disjointness is needed only to say what each site denotes afterwards.

## Model

| member | source | states |
|---|---|---|
| `Crc32.Compute` | loader-spike/firmware/pkgslot.cpp:18-27 | the byte-and-bit loop computes the reflected CRC-32 of the data continued from an earlier value |
| `Crc32.UpdateSplits` | loader-spike/firmware/pkgslot.cpp:18-27 | the CRC of two pieces in turn is the CRC of their concatenation, so a page-wise running CRC equals that of the whole |
| `Crc32.Generator` | loader-spike/firmware/pkgslot.cpp:18-27 | the polynomial is that of ISO 3309, term by term |
| `Crc32.CheckValue` | loader-spike/firmware/pkgslot.cpp:18-27 | the CRC of the nine digits is the published 0xCBF43926 |
| `Crc32.OneByteShows` | loader-spike/firmware/pkgslot.cpp:18-27 | two buffers that differ in one byte have different CRCs |
| `Flash.Chip.Program` | loader-spike/firmware/pkgslot.cpp:125-139 | a program is only ever asked for on bytes erased and not programmed since; it may fail, and then the chip may hold anything inside its range |
| `Flash.Chip.Erase` | loader-spike/firmware/pkgslot.cpp:111-120 | whole sectors become erased, everything else stays; it may fail |
| `Manifest.GotsReadBack` | loader-spike/firmware/pkgslot.cpp:215-218 | the GOT recipe reads back from its packed bytes entry by entry |
| `Manifest.AbsesReadBack` | loader-spike/firmware/pkgslot.cpp:220-223 | the pointer recipe reads back from its packed bytes entry by entry |
| `SlotFormat.MetaRoundTrip` | loader-spike/firmware/pkgslot.cpp:183-240 | decoding the encoded metadata window gives every field back |
| `SlotFormat.CommitRoundTrip` | loader-spike/firmware/pkgslot.cpp:242-253 | decoding the commit page gives the commit record back |
| `SlotFormat.ErasedMagicIsEmpty` | loader-spike/firmware/pkgslot.cpp:264-274 | a slot whose first page is erased opens as empty, whatever else it holds |
| `SlotFormat.PrefixIs` | os/api.cpp:1954-1966 | the identity is the CRC of the names one after another, terminating NULs included |
| `SlotOpen.OpenedIntact` | loader-spike/firmware/pkgslot.cpp:264-293 | a slot that opens has the magic and format, and both recorded CRCs are those of the bytes they cover |
| `SlotOpen.OpenedInside` | loader-spike/firmware/pkgslot.cpp:295-309 | its blob and initialisers lie inside the recorded body, the recipe arrays are four-aligned, the entry is inside the blob, the initialisers fit the RAM block |
| `SlotOpen.OpenedArrays` | loader-spike/firmware/pkgslot.cpp:297-308 | its recipe arrays are inside the body if and only if their 32-bit byte counts do not wrap |
| `SlotOpen.OpenedFits` | loader-spike/firmware/pkgslot.cpp:311-342 | its ABI fits and its recorded identity is that of the running table's prefix, or it recorded none |
| `SlotOpen.ChangedByte` | loader-spike/firmware/pkgslot.cpp:264-293 | changing one byte of a committed slot is refused with the status of the part it is in, and makes no difference where nothing is stored |
| `SlotOpen.OtherFirmware` | loader-spike/firmware/pkgslot.cpp:311-342 | which firmware opens a committed slot, and with what status the others refuse it |
| `SlotOpen.ClaimsOpen` | loader-spike/firmware/pkgslot.cpp:297-308 | a small slot that opens although its GOT recipe runs four gigabytes past its body |
| `SlotOpen.CommitSpelled` | loader-spike/firmware/pkgslot.cpp:242-253 | the commit page word by word, zeros and erased bytes included |
| `SlotOpen.MetaSpelled` | loader-spike/firmware/pkgslot.cpp:183-240 | the metadata window field by field, by offset, erased behind the last |
| `SlotOpen.GotSpelled` | loader-spike/firmware/pkgslot.cpp:215-218 | the eight bytes of a GOT record |
| `SlotOpen.AbsSpelled` | loader-spike/firmware/pkgslot.cpp:220-223 | the twelve bytes of a pointer record |
| `SlotImage.CommittedOpens` | loader-spike/firmware/pkgslot.cpp:264-359 | a committed slot opens with the same recipe, extents and identity on this firmware and on any that only appended symbols |
| `SlotImage.CommittedContents` | loader-spike/firmware/pkgslot.cpp:293-307 | the opened view's blob, GOT recipe, pointer recipe and initialisers are the bytes that were committed |
| `SlotImage.PrefixSurvives` | os/api.cpp:1954-1966 | the identity over the recorded prefix is unchanged by appending to the symbol table |
| `SlotWriter.Writer.EraseTo` | loader-spike/firmware/pkgslot.cpp:111-120 | erases forward to cover what is needed, keeps what is stored, fails only for room or a fault |
| `SlotWriter.Writer.FlushPage` | loader-spike/firmware/pkgslot.cpp:125-139 | the stored body becomes the body padded to a page, with its CRC |
| `SlotWriter.Writer.BodyAppend` | loader-spike/firmware/pkgslot.cpp:143-153 | the body grows by exactly the data, through the page buffer |
| `SlotWriter.Writer.BodyPadTo` | loader-spike/firmware/pkgslot.cpp:157-166 | the body is padded with the erased value up to the offset |
| `SlotWriter.Writer.Sink` | loader-spike/firmware/pkgslot.cpp:168-178 | only the next offset is accepted; a refusal or failure is final |
| `SlotWriter.Writer.FinishBody` | loader-spike/firmware/pkgslot.cpp:212-231 | recipe arrays and initialisers follow the blob, each at the four-aligned offset reported; the arrays' lengths are taken in 32 bits as written |
| `SlotWriter.Writer.Commit` | loader-spike/firmware/pkgslot.cpp:180-255 | commits exactly when sizes agree, there is room and the chip does not fail. The commit record is programmed last and only after every other operation completed; if that program fails the memory is the completed run torn inside it and nowhere else; otherwise a failed commit has not attempted it |
| `SlotWriter.Begin` | loader-spike/firmware/pkgslot.cpp:89-106 | takes exactly the slots it can erase, and the header erase is its first operation |
| `SlotProtocol.CutIsEmpty` | loader-spike/firmware/pkgslot.cpp:89-106 | over any earlier contents, a cut after or inside any operation from the header erase on leaves a slot that opens as empty |
| `SlotProtocol.CutBeforeCommitIsEmpty` | loader-spike/firmware/pkgslot.cpp:168-255 | the same over the whole log of a finished install, for every cut before its last program |
| `SlotProtocol.AttemptCuts` | loader-spike/firmware/pkgslot.cpp:89-255 | whatever an attempt leaves in its log, successful or not, every cut of that log past the header erase and before the commit program opens as empty |
| `SlotProtocol.GaveUpEmpty` | loader-spike/firmware/pkgslot.cpp:89-255 | an attempt that ended before the commit program, by refusal or by a failed operation past the header erase, leaves a slot that opens as empty for every firmware |
| `SlotProtocol.SendBlob` | loader-spike/firmware/pkgslot.cpp:168-178 | however the blob is cut into chunks the body is their concatenation |
| `SlotProtocol.Install` | loader-spike/firmware/pkgslot.cpp:89-255 | a whole install succeeds if and only if the slot is usable, the sizes agree, there is room and the chip does not fail; then the slot opens with what was written. Successful or not, its log is empty, an install log or a complete one, the memory is exactly that log run (torn inside the last operation if one failed), every cut of it opens as empty, and so does a slot left without the commit program attempted; nothing outside the slot changes |
| `Elf.IndexOf` | os/api.cpp:1979-1987 | the first table entry with that name, or none |
| `AppMeaning.SymbolNames` | loader-spike/firmware/loader.cpp:856-894 | what a symbol names, by its section number: the first export of its name, a number, or a place in a loaded section |
| `Thumb.RoundTrip` | loader-spike/firmware/loader.cpp:383-413 | an even displacement in range decodes to itself after encoding, and the other instruction bits stay |
| `ElfLayout.LayoutAdd` | loader-spike/firmware/loader.cpp:334-343 | places a section exactly when its alignment is a power of two up to 4096 and it fits the image limit |
| `ElfLayout.Alignments` | loader-spike/firmware/loader.cpp:334-343 | an alignment below four counts as four; placed are powers of two up to 4096 |
| `ElfLayout.Layout` | loader-spike/firmware/loader.cpp:614-646 | succeeds exactly on the objects that fit, and gives every section its offset |
| `ElfLayout.OffDisjoint` | loader-spike/firmware/loader.cpp:614-646 | sections of one half never overlap |
| `ElfLayout.AbsoluteAlignment` | loader-spike/firmware/loader.cpp:614-646 | on a 32-aligned block a section is aligned to the smaller of its own alignment and 32 |
| `PicLayout.LaidOutFits` | loader-spike/firmware/loader.cpp:334-343 | what app_load's checked layout accepts keeps the producer's unchecked sums below their limits |
| `PicSums.AddUp` | loader-spike/firmware/loader.cpp:1540-1556 | one half's loop in 32 bits: where each section goes and where the half ends |
| `PicSums.DataSpan` | loader-spike/firmware/loader.cpp:1815-1829 | the lowest and highest initialised byte from those offsets, in 32 bits |
| `PicSums.MaskUpIs` | loader-spike/firmware/loader.cpp:1540-1556 | adding and masking in 32 bits rounds up to a power of two, modulo 2^32 |
| `PicSums.SumExact` | loader-spike/firmware/loader.cpp:1540-1556 | for power-of-two alignments the 32-bit sum is the true sum modulo 2^32, wrapped any number of times |
| `PicSums.SumsExact` | loader-spike/firmware/loader.cpp:1540-1556 | when the true sums fit, every offset, the veneer offset and the RAM size the producer has are the true ones |
| `PicSums.SitesInside` | loader-spike/firmware/loader.cpp:1550-1556 | every site that can be recorded lies in the RAM block if and only if every writable section that can hold one does |
| `PicSums.FitsInside` | loader-spike/firmware/loader.cpp:1838-1870 | sums that do not wrap put every admitted site inside the block |
| `PicWrap.RecordedAt` | loader-spike/firmware/loader.cpp:1838-1870 | each recorded pointer is at the 32-bit site of some admitted relocation |
| `PicWrap.RecordedInside` | loader-spike/firmware/loader.cpp:1838-1870 | under that section condition every recorded site is inside the block asked for |
| `PicWrap.SiteEscapes` | loader-spike/firmware/loader.cpp:1540-1556 | an object accepted by the pointer pass with a recorded site far outside its 288-byte block |
| `PicTables.PoolFits` | loader-spike/firmware/loader.cpp:1238-1253 | the veneer pool reserved as min(relocations, symbols) + 1 never fills |
| `PicTables.GotFits` | loader-spike/firmware/loader.cpp:1670-1679 | distinct recorded references are no more than the distinct symbols counted |
| `PicTables.Tables.Veneer` | loader-spike/firmware/loader.cpp:1238-1253 | finds or adds the one veneer for an export; never out of room |
| `PicTables.Tables.GotSlot` | loader-spike/firmware/loader.cpp:1670-1679 | finds or adds the one slot for a reference; never out of room |
| `PicTables.Tables.Resolve` | loader-spike/firmware/loader.cpp:1611-1666 | through the memo or not, a symbol always resolves to the same reference, and fails exactly when the symbol does |
| `PicPatch.PatchCommutes` | loader-spike/firmware/loader.cpp:1690-1695 | patches at disjoint sites commute |
| `PicPatch.FoldInsert` | loader-spike/firmware/loader.cpp:1681-1813 | applying a site's patch late equals having it in relocation order |
| `PicPatch.FoldUntouched` | loader-spike/firmware/loader.cpp:1704-1712 | bytes no patch covers are the sections' own |
| `PicPages.Pager.Visit` | loader-spike/firmware/loader.cpp:1727-1801 | one relocation on the current page: patched, left for another page, or the emit cut before it |
| `PicPages.Pager.EmitPage` | loader-spike/firmware/loader.cpp:1698-1813 | what is emitted continues the whole patched blob, and no site is split by the cut |
| `PicPages.Pager.EmitAll` | loader-spike/firmware/loader.cpp:1696-1813 | a successful pass hands the sink, in contiguous ascending ranges, exactly the blob with every site patched; it terminates |
| `PicInstall.AbsPass` | loader-spike/firmware/loader.cpp:1838-1870 | one recipe entry per pointer relocation of writable sections, in order, each with its 32-bit site and what its symbol resolves to, whether or not the layout sums wrap; every one inside its own section |
| `PicInstall.ReadData` | loader-spike/firmware/loader.cpp:1830-1837 | the initialisers are the RAM image cut to that span |
| `PicInstall.FindEntry` | loader-spike/firmware/loader.cpp:1885-1898 | the first app_main in a loaded read-only section, or none |
| `PicInstall.RodataIs` | loader-spike/firmware/loader.cpp:1558-1567 | the recorded read-only data offset is that of the first read-only section that is not code, zero without any |
| `PicInstall.Install` | loader-spike/firmware/loader.cpp:1412-1915 | on success blob and manifest are what the object means, for every object whose layout sums do not wrap; it never fails for a table it sized itself |
| `PicRam.SpanRestores` | loader-spike/firmware/loader.cpp:1937-1941 | zeroed RAM with the initialisers copied in is the RAM image of the object |
| `PicLoad.FillGot` | loader-spike/firmware/loader.cpp:1950-1952 | the loop fills the GOT words with base plus recorded value |
| `PicLoad.FixPointers` | loader-spike/firmware/loader.cpp:1957-1963 | the loop adds each recorded pointer into its word, in order |
| `PicLoad.Load` | loader-spike/firmware/loader.cpp:1917-2022 | refuses a wrong ABI or a misaligned slot, otherwise builds exactly that RAM |
| `PicLoad.GotWordHeld` | loader-spike/firmware/loader.cpp:1950-1963 | no pointer fixup overwrites a GOT word |
| `TwoStage.RefMeans` | loader-spike/firmware/loader.cpp:1632-1666 | region base plus recorded value is the address app_load's resolve gives the symbol under the same placement |
| `TwoStage.GotLoadMeans` | loader-spike/firmware/loader.cpp:998-1020 | after install and load, at any bases, the word a GOT load reads holds its symbol's address |
| `TwoStage.BranchMeans` | loader-spike/firmware/loader.cpp:1072-1115 | every baked branch lands where app_load's formula sends it |
| `TwoStage.RamMeans` | loader-spike/firmware/loader.cpp:965-988 | the RAM above the GOT is the writable sections relocated by app_load's ABS32 rule |
| `TwoStage.VeneerHolds` | loader-spike/firmware/loader.cpp:1238-1253 | a firmware symbol's address is a veneer in the blob that, run there, loads that symbol's ABI index into r12 and makes supervisor call 0 |
| `ThumbCode.VeneerCalls` | loader-spike/firmware/loader.cpp:1244-1249 | read back by the architecture's encodings, the sixteen bytes at any four-aligned address load the index word into r12, make supervisor call 0, and go no further |
| `TwoStage.EntryMeans` | loader-spike/firmware/loader.cpp:2016-2016 | the address app_pic_load enters at, Thumb bit included, is that of the first app_main of the read-only half under the placement |
| `TwoStage.SameChoice` | loader-spike/firmware/loader.cpp:1885-1898 | both loaders pick the same app_main exactly when the first defined one is in a loaded read-only section |
| `TwoStage.SameEntry` | loader-spike/firmware/loader.cpp:2016-2016 | and then both enter at the same address when its section is at the same one |
| `PicMeasure.Scan` | loader-spike/firmware/loader.cpp:1318-1372 | the bitmap pass accepts exactly the supported objects and counts distinct GOT symbols of loaded sections |
| `PicMeasure.SupportedTypes` | loader-spike/firmware/loader.cpp:1344-1358 | the types a slot takes, by their numbers |
| `PicMeasure.ProducedSupported` | loader-spike/firmware/loader.cpp:1344-1358 | whatever the producer takes the pre-flight supports, but for relocations outside the read-only section they name |
| `PicMeasure.Measure` | loader-spike/firmware/loader.cpp:1283-1410 | reports position-independent exactly when supported with at least one GOT symbol, with the cost added up in 32 bits from headers alone, for any object |
| `PicMeasure.CostExact` | loader-spike/firmware/loader.cpp:1366-1410 | when the true sums stay in 32 bits the reported cost is the true one |
| `PicMeasure.RoutedFits` | loader-spike/firmware/pkgslot.cpp:48-76 | routed to the slot, a body within the measured bound fits padded to a page |
| `PicMeasure.RouteExact` | loader-spike/firmware/pkgslot.cpp:42-76 | which way every request goes: the slot exactly when it is wanted, free and large enough in whole pages, the copy exactly when a slot is not to be had |
| `PicMeasure.RouteWraps` | loader-spike/firmware/pkgslot.cpp:42-76 | the page-rounded request keeps its value in 32 bits if and only if it is at most 0xFFFFFF00; one byte more is routed to an 8 KB slot |
| `PicMeasure.GotExact` | loader-spike/firmware/loader.cpp:1318-1335 | measured and reserved GOT sizes agree if and only if every symbol with a GOT relocation has one against a loaded section |
| `PicMeasure.RoBounded` | loader-spike/firmware/loader.cpp:1366-1398 | the produced blob is no larger than the measured read-only bound |
| `PicMeasure.BodyExact` | loader-spike/firmware/loader.cpp:1399-1409 | the length of the produced body, and exactly when the measured bound covers it: when growth of the initialised span is no more than what the other parts leave unused |
| `PicMeasure.SpanKept` | loader-spike/firmware/loader.cpp:1378-1392 | if the GOT words not measured take a multiple of every writable alignment, and always if no writable section is aligned past four, the span is the measured one |
| `PicMeasure.CostSound` | loader-spike/firmware/loader.cpp:1366-1410 | if the initialised span does not grow with the GOT the body bound dominates; the RAM size is never below the measured one, and equal when the GOT is |
| `PicMeasure.PreEraseSound` | loader-spike/firmware/pkgslot.cpp:48-76 | measured as position-independent and routed to the slot, whatever the producer makes fits, so only the chip can fail a later install, as long as the initialised span does not grow with the GOT |
| `PicStray.StrayAccepted` | loader-spike/firmware/loader.cpp:1323-1335 | a package with a stray GOT relocation that the pre-flight supports and app_load would lay out |
| `PicStray.StrayMeasured` | loader-spike/firmware/loader.cpp:1366-1410 | its measured cost in the code's own arithmetic: a span of 4096 bytes, routed to a 12288-byte slot |
| `PicStray.StrayOverflows` | loader-spike/firmware/pkgslot.cpp:48-76 | whatever is produced from it needs more RAM than measured, has a body past the bound and does not fit that slot |
| `PicStray.StrayProduced` | loader-spike/firmware/loader.cpp:1412-1915 | and it is produced: blob, manifest and patches that are what the producer promises |
| `AppLayout.InBlock` | loader-spike/firmware/loader.cpp:754-772 | a loaded section lies inside its own block, past the GOT |
| `AppLayout.Disjoint` | loader-spike/firmware/loader.cpp:614-646 | loaded sections of one block never overlap |
| `AppLayout.Aligned` | loader-spike/firmware/loader.cpp:614-646 | every loaded section is aligned to the smaller of its alignment and 32 |
| `AppMeaning.BlocksTight` | loader-spike/firmware/loader.cpp:686-688 | each block is as long as its half rounded up to a whole block, no longer |
| `AppLayout.WriteContained` | loader-spike/firmware/loader.cpp:950-954 | a write inside one section leaves every other section and the gaps as they were |
| `AppLoad.WordsFit` | loader-spike/firmware/loader.cpp:909-917 | GOT words deduplicated by address fit the room counted by symbol |
| `AppLoad.Image.VeneerEmit` | loader-spike/firmware/loader.cpp:280-305 | in sandboxed mode the one veneer for an index, its sixteen bytes written behind the others and found again by its index word; with the Thumb bit; the pool never fills |
| `AppLoad.Image.Resolve` | loader-spike/firmware/loader.cpp:856-894 | a symbol resolves exactly when it is defined in a loaded section, absolute or exported; the same symbol always to the same address |
| `AppLoad.Image.GotOffsetFor` | loader-spike/firmware/loader.cpp:909-917 | the offset of the word holding the address, added behind the others when new; never out of room; nothing above the GOT changes |
| `AppLoad.Image.ApplyRel` | loader-spike/firmware/loader.cpp:933-1121 | for every supported type the site gets what the type's formula says, and no other byte of either block above the GOT changes; a refusal has its reason: a site outside its section, a symbol that does not resolve, a type not applied, a GOT addend, or a branch no displacement can make |
| `AppLoad.Image.ApplyAll` | loader-spike/firmware/loader.cpp:919-1123 | every relocation of every loaded section was inside it; every byte no relocation patches is the file's; where no two relocations patch the same byte, every site holds what its formula makes of the file's bytes, against the final addresses and GOT |
| `AppLoad.SiteKeepsFile` | loader-spike/firmware/loader.cpp:919-1123 | a step confined to its site leaves every unpatched byte the file's |
| `AppLoad.OneFurther` | loader-spike/firmware/loader.cpp:919-1123 | one relocation applied moves its own site from the file's bytes to its formula's and keeps the state of every disjoint site |
| `AppLoad.Image.LoadSections` | loader-spike/firmware/loader.cpp:754-772 | every loaded section holds its file bytes or zeros, gaps what the heap held |
| `AppLoad.VeneersContained` | loader-spike/firmware/loader.cpp:663-676 | every veneer lies inside the veneer block past the gates with room for one more, clear of every other |
| `AppLoad.ResolvesAs` | loader-spike/firmware/loader.cpp:856-894 | what app_load's resolve returns is the target's address under its placement, the same rule the two-stage result is stated by |
| `AppLoad.Load` | loader-spike/firmware/loader.cpp:473-1147 | refuses for layout exactly when the object does not fit, never for a table it sized; any other refusal is for a missing entry or a relocation that has to be refused; every byte of a loaded section is the file's where nothing patches it and, sites being disjoint, what its relocation makes of the file's bytes where one does; the entry is the first defined app_main |
| `AppMeaning.NewBytesMean` | loader-spike/firmware/loader.cpp:965-1115 | what each type leaves, said by address: a branch lands on the symbol plus the file's addend with the pipeline's four bytes restored, opcode kept; pointers, relative words and part words are sums and differences; the moves hold the halves of the address |
| `AppMeaning.MovHolds` | loader-spike/firmware/loader.cpp:1045-1070 | sixteen bits put into a move are read back by its encoding, and no other bit changes |
| `AppMeaning.SiteMeans` | loader-spike/firmware/loader.cpp:919-1123 | in a loaded package whose sites are disjoint every relocation means what its type says, from the address its symbol has; a GOT load names a word of the GOT that holds it |
| `AppMeaning.Unblamed` | loader-spike/firmware/loader.cpp:919-1123 | a package that loads has nothing to be refused for, so the reasons given for failing are exactly right |
| `AppMeaning.LoadAll` | loader-spike/firmware/loader.cpp:473-1147 | the load and all of that together, and every veneer calls its export |
| `AppMeaning.Types` | loader-spike/firmware/loader.cpp:965-1121 | which relocations are taken, by the numbers of their types, their sites and their symbols |
| `AppMeaning.Loaded` | loader-spike/firmware/loader.cpp:754-772 | where nothing patches it, a section without file content is zero and any other is the file's bytes |
| `AppMeaning.Entered` | loader-spike/firmware/loader.cpp:1124-1140 | the package is entered at its first symbol spelled app_main that it defines, with the Thumb bit |
| `AppLoad.PoolCalls` | loader-spike/firmware/loader.cpp:280-305 | every veneer of the pool, run where it is, calls its export |
| `PackedTable.GetSet` | os/core/fat12.cpp:50-68 | storing one twelve-bit entry changes that entry and no other, shared bytes or not |
| `PackedTable.TableSet` | os/core/fat12.cpp:59-68 | the packed table behaves as an array of independent entries |
| `Sectors.RegionHit` | os/core/fat12.cpp:41-48 | rewriting part of one sector is a splice of the region it belongs to |
| `FatChains.Acyclic` | os/core/fat12.cpp:468-474 | a chain that ends never visits a cluster twice |
| `FatChains.Unique` | os/core/fat12.cpp:468-474 | what a walk visits is determined by the table and its start |
| `FatChains.Conservation` | os/core/fat12.cpp:455-474 | free clusters, live chain lengths and clusters owned by nothing here add up to the cluster count |
| `FatNames.ShortName` | os/core/fatview.cpp:494-550 | the 8.3 form: first legal characters of each half of the name split at its last dot, upper case, padded, case bits set when a half is all lower; none exactly for the names that have none |
| `FatSpelled.PlainShort` | os/core/fatview.cpp:494-550 | a plain name in one case per half, stored: upper case, padded, a bit for each half in lower case |
| `FatNames.LegalSet` | os/core/fatview.cpp:487-492 | the characters that are legal in a short name, listed |
| `FatNames.ChecksumOf` | os/core/fatview.cpp:345-353 | the checksum of a known name |
| `FatNames.ChecksumNotices` | os/core/fatview.cpp:345-353 | short names that differ in one character have different checksums |
| `FatNames.LfnGather` | os/core/fat12.cpp:210-226 | one slot's thirteen characters in place, or the name abandoned for a character that does not fit |
| `FatNames.LfnEntry` | os/core/fat12.cpp:563-585 | the slot written for one part of a long name: sequence byte, checksum, characters, terminator, padding |
| `FatNames.GatherSlot` | os/core/fat12.cpp:210-226 | reading a written slot adds exactly its characters of the name |
| `FatNames.Ieq` | os/core/fat12.cpp:282-291 | case-insensitive equality |
| `FatSpelled.Letters` | os/core/fat12.cpp:282-291 | upper and lower case pair up letters and change nothing else |
| `FatSpelled.LongSpelled` | os/core/fat12.cpp:210-226 | how a long name ends, and which characters are kept on reading |
| `FatSpelled.MarksSpelled` | os/core/fat12.cpp:293-376 | the marks of long-name slots, labels, first slots and vacant slots by their bits |
| `FatSpelled.NeverDeleted` | os/core/fatview.cpp:545-549 | no stored short name starts with the mark of a deleted entry |
| `FatDir.DeleteOne` | os/core/fat12.cpp:487-505 | deleting an entry and the long-name slots before it leaves every other entry, and its name, as it was |
| `FatDir.NameBack` | os/core/fat12.cpp:293-376 | the entry written behind a run of long-name slots is listed under the name the run was written for |
| `FatDir.AddOne` | os/core/fat12.cpp:562-589 | writing a run into free slots adds one entry and changes no other |
| `FatVolume.RawIsTable` | os/core/fat12.cpp:50-57 | on a proper volume the byte-wise lookup is the table's entry |
| `FatState.RemoveOk` | os/core/fat12.cpp:477-506 | a volume stays sound when one file goes, and every other file keeps its slot, name, chain and bytes |
| `FatState.AddOk` | os/core/fat12.cpp:508-590 | a volume stays sound when one file comes, and every other file keeps its slot, name, chain and bytes |
| `Fat12.Volume.FatByteSet` | os/core/fat12.cpp:41-48 | masked read-modify-write of one byte of the table and of nothing else |
| `Fat12.Volume.FatGet` | os/core/fat12.cpp:50-57 | the entry, or end of chain where the table cannot be read |
| `Fat12.Volume.FatSet` | os/core/fat12.cpp:59-68 | one entry of the table changes and nothing outside the table |
| `Fat12.Volume.AllocCluster` | os/core/fat12.cpp:455-466 | takes the lowest free cluster, end-marked and linked; fails exactly when none is free |
| `Fat12.Volume.FreeChain` | os/core/fat12.cpp:468-474 | frees exactly the clusters of the chain |
| `Fat12.Volume.DirWriteSlot` | os/core/fat12.cpp:109-116 | one directory slot changes and nothing outside the directory |
| `Fat12.Volume.Locate` | os/core/fat12.cpp:293-376 | the first entry answering to a name by its long or short form, or none |
| `Fat12.Volume.FreeRun` | os/core/fat12.cpp:318-343 | a run of free slots of the length asked for, and none is reported only when there is none |
| `Fat12.Volume.DeleteSlots` | os/core/fat12.cpp:487-505 | the entry and its long-name slots are marked deleted, no others |
| `Fat12.Volume.Remove` | os/core/fat12.cpp:477-506 | the file that answers to the name goes with its clusters; all others are untouched; unowned clusters stay unowned |
| `Fat12.Volume.WriteCluster` | os/core/fat12.cpp:548-558 | a cluster holds the next bytes of the source, sector by sector; fails exactly when the source runs short |
| `Fat12.Volume.WriteData` | os/core/fat12.cpp:538-560 | succeeds exactly when the source is long enough and there are enough free clusters; otherwise the table is what it was |
| `Fat12.Volume.WriteEntries` | os/core/fat12.cpp:562-589 | the run of slots for the name is written where it was found free |
| `Fat12.Dirent` | os/core/fatview.cpp:254-274 | the entry carries name, case bits, first cluster, size, and the time to the even second |
| `Fat12.Volume.Create` | os/core/fat12.cpp:517-590 | a new file under the name, or a refusal with its reason and no trace |
| `Fat12.Volume.Write` | os/core/fat12.cpp:508-590 | the name is replaced or created with the source's bytes, every other file untouched; a failed write has at most removed the old file |
| `Fat12.Finish` | os/core/fat12.cpp:538-590 | from chain filled and slots written follows a sound volume with the file stored |
| `FatRead.Read` | os/core/fat12.cpp:399-451 | on any table contents, reading through a cursor left by any earlier reads equals reading with none |
| `FatRead.ReadMany` | os/core/fat12.cpp:395-451 | any sequence of reads of any files through one reused cursor answers as reads without one |
| `FatRead.StreamIs` | os/core/fat12.cpp:438-450 | on a chain the copying loop yields the chain's data |
| `FatRead.ReadExact` | os/core/fat12.cpp:399-406 | the read is the file's bytes if and only if the length check does not wrap or does not matter |
| `FatRoundTrip.Find` | os/core/fat12.cpp:386-393 | the first entry that answers to the name |
| `FatRoundTrip.FindsIt` | os/core/fat12.cpp:508-590 | after a write, when at most one entry answered to the name, it is the new one that is found |
| `FatRoundTrip.WriteFindRead` | os/core/fat12.cpp:386-590 | write, find, read: the name, the size, the time and exactly the source's bytes at any offset and length, with the exact condition for the wrap |
| `FatRun.Run` | os/core/fat12.cpp:455-602 | after any sequence of writes and removals, failed ones included, the volume is sound and free clusters plus file lengths are what they were |
| `FatRun.FormatAndRun` | os/core/fat12.cpp:118-602 | on any volume formatted here outside those windows that sum is every cluster |
| `FatRun.FreeBytes` | os/core/fat12.cpp:596-602 | counts exactly the free clusters |
| `FatFormat.Settle` | os/core/fat12.cpp:130-142 | for every 32-bit size: accepts exactly 11 sectors or more, and the table it ends with fits and covers every cluster if and only if the size is outside two windows |
| `FatFormat.Windows` | os/core/fat12.cpp:130-141 | where the wrapped count is small enough to leave too small a table: exactly those two windows |
| `FatFormat.WideStep` | os/core/fat12.cpp:130-141 | past the wrap, each pass either settles on a table that covers exactly outside the windows or goes on to the next |
| `FatFormat.Swing` | os/core/fat12.cpp:130-141 | a pass turns a table at least as large as the last into one no larger, and the reverse, which is why an even number of passes is safe |
| `FatFormat.MountBack` | os/core/fat12.cpp:72-107 | mounting finds the formatted geometry if and only if the table's size fits 16 bits |
| `FatFormat.LayDown` | os/core/fat12.cpp:160-204 | an empty sound volume: two reserved entries, all clusters free, only the label in the directory, data sectors untouched |
| `FatSpelled.BootSpelled` | os/core/fat12.cpp:160-186 | the boot sector around its parameters, by offset and character |
| `FatSpelled.ParamsSpelled` | os/core/fat12.cpp:164-177 | the parameters by offset |
| `FatSpelled.EntrySpelled` | os/core/fat12.cpp:196-204 | the label's entry by offset: a label, no clusters, no size, made on the first FAT day |
| `FatSpelled.LabelSpelled` | os/core/fat12.cpp:181-182 | a label is cut or filled with spaces to eleven characters |
| `FatFormat.Format` | os/core/fat12.cpp:118-205 | the whole of it on any device outside the two windows |
| `FatFormat.Mount` | os/core/fat12.cpp:72-107 | an accepted geometry is FAT12 and lies on the device |
| `FatSpelled.Bounds` | os/core/fat12.cpp:72-155 | mounted or formatted, at most 4084 clusters |
| `Calendar.TimeEncode` | os/core/fatview.cpp:202-252 | the date word is the day of the epoch and the time word its seconds in two-second units; before 1980, 1980-01-01 |
| `Calendar.FatEpoch` | os/core/fat12.cpp:249-268 | the decoder computes the seconds the fields stand for |
| `Calendar.RoundTrip` | os/core/fatview.cpp:202-252 | for every 32-bit epoch, decoding what was encoded gives the epoch to the even second, or 1980 |
| `Calendar.Gregorian` | os/core/fatview.cpp:202-252 | the days before a year in closed form: every fourth year but not every hundredth but every four-hundredth |
| `Calendar.MonthsFill` | os/core/fatview.cpp:202-252 | February has 29 days exactly in years of 366, and the months fill the year |
| `Calendar.LeapDay` | os/core/fatview.cpp:202-252 | the leap day of 2000 is written as the 29th of February |
| `Calendar.OneDay` | os/core/fatview.cpp:202-252 | a date word stands for one day |
| `FatRo.Reader.FatByte` | os/core/fatro.cpp:62-70 | through the cache or not, the byte on the device |
| `FatRo.Reader.FatNext` | os/core/fatro.cpp:77-104 | for all three entry widths, the link read straight off the device; what links are is `FatRoChain`'s |
| `FatRo.Reader.SkipTo` | os/core/fatro.cpp:577-587 | arrives at the cluster holding the offset, or the chain, the budget or 32 bits end first |
| `FatRo.Reader.Read` | os/core/fatro.cpp:557-606 | the unlimited walk's answer, exactly when the offset is within the budget of where the read starts; the cursor stays right |
| `FatRo.WithinVolume` | os/core/fatro.cpp:577-582 | in a file no larger than the volume nothing is out of the budget |
| `FatRo.ReadMany` | os/core/fatro.cpp:557-606 | any sequence of reads of files within the volume through one cursor and the cache: each answer is that of a walk from the start |
| `FatRoChain.Next12` | os/core/fatro.cpp:80-88 | on FAT12 a link is the packed table's entry, end marks read as none |
| `FatRoChain.Next16` | os/core/fatro.cpp:89-95 | on FAT16 the two stored bytes, least significant first |
| `FatRoChain.Next32` | os/core/fatro.cpp:96-104 | on FAT32 the low 28 bits of the four stored bytes |
| `FatRoChain.StreamIs` | os/core/fatro.cpp:588-606 | along a chain the copying loop yields the clusters one after another, each where the volume has it |
| `FatRoChain.PlainIs` | os/core/fatro.cpp:557-606 | a read is the chain's data from the offset, no further than the size |
| `FatRoChain.ReadsFiles` | os/core/fatro.cpp:557-606 | on every sound FAT12 volume the read-only reader returns the bytes of the files f12 keeps |
| `BlockCache.Cache.Flush` | os/core/blockcache.cpp:19-27 | flash becomes the disk its users see, and the disk does not change |
| `BlockCache.Cache.Load` | os/core/blockcache.cpp:29-35 | a block that cannot be read loses no accepted write |
| `BlockCache.Cache.ReadSector` | os/core/blockcache.cpp:37-54 | the disk's bytes, held or not |
| `BlockCache.Cache.WriteSector` | os/core/blockcache.cpp:56-62 | exactly one sector of the disk changes, none when it fails |
| `BlockCache.Run` | os/core/blockcache.cpp:19-62 | after any sequence of reads, writes and flushes, reads failing at will, the disk is the old one with exactly the accepted writes of that sequence applied in order, and every accepted read answered its sector of the disk as the accepted writes before it left it, until a block write fails |
| `BlockCache.MarkedSector` | os/core/blockcache.cpp:37-62 | a sector's block number is the mark for none held only for the last 32-bit sector with one sector per block |
| `BlockFlat.Linear` | os/core/blockcache.cpp:37-62 | block and offset are the sector's place in one flat run of bytes |
| `BlockFlat.AppliedFlat` | os/core/blockcache.cpp:19-62 | the disk a run of calls leaves is the flat disk with each accepted write at its sector |
| `BlockFlat.AnswersFlat` | os/core/blockcache.cpp:37-54 | a read answers its sector of the flat disk |
| `BlockCache.Cache.Discard` | os/core/blockcache.cpp:64-67 | the disk goes back to what flash holds |
| `Arena.Heap.constructor` | os/core/arena.cpp:34-43 | one free block over the whole, or nothing when it is too small |
| `Arena.Disjoint` | os/core/arena.cpp:20-32 | payloads of different blocks never overlap |
| `Arena.FitsIff` | os/core/arena.cpp:45-101 | a request fits some block exactly when it is no more than arena_largest reports |
| `Arena.Heap.Alloc` | os/core/arena.cpp:45-65 | on arenas of at most 0xFFFFFFE8 bytes succeeds exactly when 1 <= n <= the largest reported, wrapped rounding included; first fit, split by the 32-bit test; other blocks keep their cells |
| `Arena.SplitExact` | os/core/arena.cpp:50-60 | the 32-bit split test decides as the true sum would, for every block and request of an arena, if and only if the arena is at most 0xFFFFFFE8 bytes |
| `Arena.Heap.Free` | os/core/arena.cpp:67-84 | a live block is freed and merged forward; any other pointer changes nothing |
| `Arena.Heap.UsedBytes` | os/core/arena.cpp:88-93 | the bytes of live blocks |
| `Arena.Heap.LargestBytes` | os/core/arena.cpp:95-101 | what the largest free block can hold |
| `Arena.AllocFree` | os/core/arena.cpp:45-84 | an allocation followed by its free restores what is used and does not shrink the largest |
| `Arena.Run` | os/core/arena.cpp:45-84 | after any sequence of calls, bad and double frees included, the blocks tile the arena and an allocation nobody freed is where it was with the bytes it had |
| `Arena.FreeUsed` | os/core/arena.cpp:67-93 | freeing takes exactly the block out of the count |
| `Hid.NoOverwrite` | os/usbhid.cpp:191-209 | the producer's write never touches an unread slot |
| `Hid.StepKeeps` | os/usbhid.cpp:111-209 | every single step of either task keeps the invariant |
| `Hid.AnyInterleaving` | os/usbhid.cpp:111-209 | under any interleaving consumed actions are a prefix of pushed ones, unread slots are intact, and the reports sent are what the consumed actions mean, each press released before the next action |
| `Hid.Flushed` | os/usbhid.cpp:285-292 | when flush returns without an abort everything pushed has been shown |
| `Hid.AbortLetsGo` | os/usbhid.cpp:125-133 | after an abort, one turn with the host listening leaves all keys up |
| `HidService.Keyboard.Service` | os/usbhid.cpp:111-187 | one turn of the USB task is exactly the machine's steps, with at most one report, wherever the producer is inside a push |
| `HidService.Keyboard.CheckRoom` | os/usbhid.cpp:191-209 | the first step of a push goes ahead unless aborted or full, and is the machine's |
| `HidService.Keyboard.FillSlot` | os/usbhid.cpp:191-209 | the second writes the slot |
| `HidService.Keyboard.PublishSlot` | os/usbhid.cpp:191-209 | the third hands it over |
| `HidService.Keyboard.TryPush` | os/usbhid.cpp:191-209 | one try puts the action behind the others unless aborted or full |
| `HidService.Keyboard.HeldAdd` | os/usbhid.cpp:91-95 | the held set gains the key once, if there is room |
| `HidService.Keyboard.HeldRemove` | os/usbhid.cpp:97-106 | the held set loses the key, the rest closed up in order |
| `HidService.Keyboard.ReportNow` | os/usbhid.cpp:77-83 | the held keys, at most one transient key, zeros |
| `Hid.ReportSays` | os/usbhid.cpp:77-83 | a report shows the held modifiers and keys, at most one transient key with its modifiers, and nothing else |
| `Hid.HeldKeys` | os/usbhid.cpp:86-106 | the held set never has more than five keys, none twice and none zero |
| `Hid.KeyAdded` | os/usbhid.cpp:91-95 | holding leaves exactly the key and what was held, if there is room |
| `Hid.KeyDropped` | os/usbhid.cpp:97-106 | releasing leaves exactly the others |
| `Hid.Capacity` | os/usbhid.cpp:191-209 | at most 63 actions wait, and the next finds no room exactly when that many do |
| `Hid.DelayLasts` | os/usbhid.cpp:142-146 | a delay of up to 2^31 milliseconds is over after exactly that time; a longer one at once |
| `Cmdline.SplitArgs` | os/core/cmdline.cpp:32-54 | the words in place in the buffer, the write position never past the read position |
| `Cmdline.CopyWord` | os/core/cmdline.cpp:38-51 | one word copied down without its quotes and ended, the rest of the line intact |
| `CmdScan.TokensAre` | os/core/cmdline.cpp:32-54 | the splitter's words are exactly what lies between parting spaces without its quotes; spaces, however many, never make a word |
| `Cmdline.Characters` | os/core/cmdline.cpp:13-18 | the characters the parser looks for |
| `CmdScan.NextConnector` | os/core/cmdline.cpp:56-65 | the first connector outside quotes |
| `CmdScan.NextPipe` | os/core/cmdline.cpp:67-75 | the first bar outside quotes that is left over when bars are read in pairs from the left, or none |
| `CmdScan.LastRedirect` | os/core/cmdline.cpp:84-97 | the last redirection outside quotes, rows read in pairs from the left: no plain > follows it but its own second one; none is reported exactly when there is none |
| `CmdScan.FirstRuns` | os/core/cmdline.cpp:32-54 | a word the splitter takes runs exactly to the next space outside the splitter's own quotes |
| `CmdScan.AgreeIff` | os/core/cmdline.cpp:5-30 | scans and splitter agree on the quote state at every character if and only if no quote stands straight after an operator inside a word |
| `CmdScan.Disagree` | os/core/cmdline.cpp:5-30 | an input on which they do not |
| `CmdScan.SplitQuoted` | os/core/cmdline.cpp:32-54 | splitting a quoted line gives the arguments back |
| `CmdScan.OnlySpaces` | os/core/cmdline.cpp:13-30 | in a quoted line only the spaces between arguments are outside quotes |
| `CmdScan.RoundTrip` | os/core/cmdline.cpp:13-110 | quote, scan, split: no operator found, the arguments back |

## Left out

- Byte-level ELF parsing, streaming windows and read errors of the package file: an object is modelled with its tables read.
- Allocation failure, memory accounting, error detail strings and the three veneer gates' own code.
- app_load's direct (unsandboxed) veneer mode; only the supervisor-call mode is modelled.
- AppLoad.Load: the bytes of overlapping relocation sites, which are only followed step by step (AppLoad.Image.ApplyRel).
- PicInstall.Install: objects whose layout sums wrap, or with alignments that are not powers of two; what the code then does is stated for the sums and the recorded sites (`PicSums`, `PicWrap`), not for the blob.
- PicInstall.Install: tables of at most 2^28 symbols and pointer relocations and fewer than 2^16 exports, so that counts fit the manifest's fields.
- PicLoad.Load: recorded sites outside the RAM block, where the loader would write elsewhere; `PicWrap.RecordedInside` says when the producer records none.
- Flash.Chip.Program: chips of less than 2 GB, so that slot offsets do not wrap.
- SlotProtocol.CutIsEmpty: does not cover a torn program of the commit page itself, nor CRC collisions.
- pkgslot_erase and the status and route strings.
- Transient read or write failures of the FAT12 sector interface: a sector fails exactly when it is off the device.
- FatFormat.Format: devices in the two windows where the table does not cover the clusters.
- Fat12.Volume.Write: names of up to 819 characters, 63 long-name slots; longer ones would write sequence bytes that read as flags.
- Fat12.Volume.FreeRun: a root directory of whole sectors; otherwise the unsigned difference of entries and start can wrap.
- Fat12.Volume.Write: a well-formed directory, where a long name runs unbroken into its entry and nothing follows the end mark, and a table that covers the clusters, as f12_format writes them; f12_mount checks neither.
- Fat12.Volume.Locate: the two uses of dir_scan, finding a name and finding free slots, are two methods; listing with a callback is left out.
- Calendar.FatEpoch: a month field over 12, where the source indexes past its table.
- FatRo.Reader.Read: mounting, directories, paths and free space of the read-only reader; tables at sectors up to 0xFF7FFFFF, so that no sector number is the cache's mark for nothing.
- BlockCache.Cache.ReadSector: the one sector whose block number is the mark for none held (`BlockCache.MarkedSector`); refinement holds until a block write fails, after which the held bytes are given up.
- Arena.Heap.Alloc: arenas past 0xFFFFFFE8 bytes, where the split test wraps (`Arena.SplitExact`); memory in eight-byte cells; a package that overwrites its own headers.
- Hid.AnyInterleaving: one armed session; entering and leaving the mode, and turns outside HID mode, are not modelled.
- CmdScan.LastRedirect: the file name cut out of the line and its own quotes.
- The synthesised FAT16 view, hardware wrappers, sandbox and fault handling, USB plumbing, key-code tables, and the small single-branch modules of os/core: they would only add easy members.
