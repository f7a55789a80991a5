# Tiny Wine, verified

A Dafny model of Tiny Wine, a loader for Windows PE and Linux ELF programs on x86-64 Linux, with proofs about
what lies between "the bytes are in memory" and "the call reaches the right function".

`dafny verify dfyconfig.toml` checks the whole project.

## What is modelled

Memory is a map from addresses to bytes, registers and stack are a record, and machine words wrap at 2^64 where the
C code's do. Code that changes things step by step is a method or a class, each method proved against a
specification function; the properties are lemmas about those functions, in terms of files, bytes and addresses.

- **Windows imports.** `WinImages`, `WinIat`, `WinLoader`: tables, mapping of the images, trampoline pages, the lookup
  of the callback. `WinInstall`: no store damages what another one made. `WinDispatch`: when initialisation succeeds,
  what it leaves alone, and the callback as the inverse of the page layout. `X64`, `WinCall`: the trampoline's two
  instructions fetched from memory, the callback's stack and register steps, both assembly exits, and a call from end to
  end. `WinLoads`: exactly when a program loads. `WinProgram`, `WinContents`: where the calls of a loaded program arrive
  and what is there. `PeImports`, `WinDecode`: from the bytes of an import section to the images all this is about.
  `PeRelocations`: base relocation blocks. `WinExamples`: two libraries.
- **ELF linking and lazy binding.** `ElfLink`: symbols, relocations, offset tables, stores, in the loader's order.
  `ElfLinked`: what the stores leave. `ElfLoaded`: memory after a link in terms of the files, against the System V
  psABI. `ElfLazy`, `ElfReady`: calls through the procedure linkage table, with and without caching, from the state that
  linking leaves. `ElfFiles`: slots and calls in terms of the files alone. `ElfExamples`: some small links.
- **Address space and allocation.** `MemoryRegions`, `RegionMapping`: from program headers to regions to mapped bytes.
  `PeSections`, `PeSpace`: the same for the sections of a PE image. `ArenaLists`: the arena and any number of doubling
  lists in its one byte memory.
- **Process start.** `InitialStack`: the in-place shift of the initial stack. `CommandLine`: the Windows command line.
- **Text.** `Numerals`, `Printf`, `Strings`, `StringSplit`.

## Where the code does not do what might be expected

The first lemmas named state exactly when it happens, for all inputs; the last one gives a concrete input, except where
it happens always or does no harm. The code is modelled as it is.

- A trampoline takes 7 bytes at the place of the import's hint/name entry. There is room for it exactly when the name
  has four characters or more (`WinDecode.HoldsTrampoline`), so that functions such as `pow` depend on what follows them
  (`WinDecode.LongNamesFit`, `WinDecode.ShortNameCrowded`, `WinDecode.PowIsShort`). Trampolines that overlap cannot all
  be intact, but for one coincidence at distance 4 (`WinInstall.TableInstalled`, `WinIat.OverlapDamages`,
  `WinIat.SixBytesApart`).
- The callback does not look at the library name of an import unless it is ntdll.dll: the last library that records the
  name wins, and libraries record only names the executable imports from them (`WinProgram.LoadedSlotReaches`,
  `WinProgram.MeantIsExport`, `WinProgram.ExitsWhen`, `WinExamples.OtherLibraryReached`).
- An executable without import slots puts the trampoline pages of its libraries at a low address, and the callback's
  differences are then negative (`WinDispatch.NoUnderflow`, `WinDispatch.UnderflowWithoutSlots`); the wrapped arithmetic
  gives the right result all the same (`WinDispatch.CallbackInverts`).
- rbx, rdi and rsi survive a call into libntdll.so exactly when no call is dispatched while it runs, or the last one was
  made with the same three registers (`X64.SwapPreserves`, `X64.NestedCallLoses`).
- R_X86_64_RELATIVE in a library gives A instead of B + A unless the library is at 0 (`ElfLoaded.LibraryRelative`), and a
  copied pointer misses it altogether (`ElfLoaded.CopiedPointer`, `ElfExamples.PointerExample`).
- Symbols of a position independent executable are recorded at offset 0 (`ElfLoaded.ExecutableSymbolSlot`), and its COPY
  relocations then find the executable's own symbol instead of a library's (`ElfLoaded.CopySourceIsLibrary`,
  `ElfExamples.RelocatedExample`).
- A COPY of fewer than 8 bytes overwrites its neighbours (`ElfLoaded.CopyKeepsNeighbours`,
  `ElfExamples.FourByteExample`), so that of two ints side by side the lower one must be copied first
  (`ElfLoaded.CopyArrives`, `ElfExamples.NumbersArrive`, `ElfExamples.NumberLost`).
- A memory region is extended by 0x1000 and not by the alignment (`MemoryRegions.CoversSegment`,
  `MemoryRegions.LargeAlignmentFails`); a segment of whole pages gets a page too many (`MemoryRegions.NextRegionApart`,
  `MemoryRegions.WholePageOverlaps`); the reservation for a library is too short unless its regions are contiguous from
  0 (`MemoryRegions.TilesReservation`, `MemoryRegions.HoleLeavesReservation`).
- An ELF segment is mapped from the file to its very end, and only a section named .bss is cleared: its padding is
  whatever follows in the file (`RegionMapping.PaddedSegment`, `RegionMapping.GapShowsFile`).
- An import by ordinal is not recognised: the test is for bit 31 of the lookup entry and not for bit 63, and the ordinal
  is then taken for the address of a name (`PeImports.OrdinalImports`).
- A PE section is read to its size in memory, so what should be zero padding is whatever follows in the file
  (`PeSections.PaddingFromFile`, `PeSections.NextByteRead`).
- The arena grants requests that reach 2^64 from its index on, and then moves the index back, so that later blocks
  overlap earlier ones (`ArenaLists.GrantedIsRoom`, `ArenaLists.WrapMovesBack`, `ArenaLists.BlocksOverlap`).
- `List_clone` reports failure when it has succeeded (`ArenaLists.Arena.CloneList`).
- A decimal number from 10^15 on loses its leading digit (`Numerals.DecimalRoundTrip`, `Numerals.LeadingDigitLost`), and
  a negative int is printed as its value plus 2^32 (`Printf.SignedRoundTrip`, `Printf.MinusOnePrinted`).
- `%p` prints the low half of a pointer (`Printf.PointerRoundTrip`, `Printf.HighPointerPrinted`).

## Model

| member | source | states |
|---|---|---|
| WinIat.FindRuntimeObject | src/loader/windows/win_loader_lib.c:14-24 | the loop returns the first object with the name |
| WinIat.ObjectNamedIsFirst | src/loader/windows/win_loader_lib.c:14-24 | first means that no earlier object carries the name |
| WinIat.FindWinSymbol | src/loader/windows/win_loader_lib.c:26-36 | the loop returns the first symbol with the name |
| WinIat.SymbolNamedIsFirst | src/loader/windows/win_loader_lib.c:26-36 | first means that no earlier symbol has the name |
| WinIat.GetRuntimeImportAddressTable | src/loader/windows/win_loader_lib.c:38-116 | the runtime table has one entry per import, with the runtime slot address and value of function and variable imports; it fails just when some entry has no runtime value |
| WinIat.TrampolineImmediate | src/loader/windows/win_loader_lib.c:123-175 | the immediate of the trampoline is the callback address exactly when that fits 32 bits |
| WinIat.OverlapDamages | src/loader/windows/win_loader_lib.c:167-180 | in memory, a trampoline written less than 7 bytes from an intact one leaves it intact exactly in one coincidence of callback bytes at distance 4 |
| WinIat.SixBytesApart | src/loader/windows/win_loader_lib.c:167-180 | two trampolines 6 bytes apart for a callback at 0x400000: the last byte of the first is lost |
| WinLoader.RecordExports | src/loader/windows/win_loader_main.c:586-611 | a library records, for each name the executable imports from it, the address of the last export of that name, or the load fails |
| WinLoader.PlaceTrampolines | src/loader/windows/win_loader_main.c:613-635 | the loop moves the page cursor to the first page boundary, counted from itself, above the page just placed |
| WinLoader.LoadDll | src/loader/windows/win_loader_main.c:533-644 | one library: memory with its sections mapped, read and .bss cleared, its recorded exports, its trampoline page, or failure of any of these |
| WinLoader.Loader.LoadDlls | src/loader/windows/win_loader_main.c:525-648 | memory with all libraries mapped one after the other and their list in import order, or failure |
| WinLoader.Loader.MapExecutable | src/loader/windows/win_loader_main.c:736-782 | memory with the header region and all sections of the executable mapped, read and .bss cleared, or failure |
| WinLoader.Loader.MapImportAddressTable | src/loader/windows/win_loader_lib.c:118-184 | memory after the page is mapped and all slots and trampolines are stored in order, or failure for a wide callback, a long table, an unaligned or occupied page |
| WinLoader.Loader.InitializeImportAddressTable | src/loader/windows/win_loader_main.c:650-682 | both steps for one image |
| WinLoader.Loader.InitializeTables | src/loader/windows/win_loader_main.c:842-863 | the executable, then every library in order, up to the first failure; ntdll.dll itself is refused |
| WinLoader.Loader.Load | src/loader/windows/win_loader_main.c:791-863 | the loader's whole state after reserving the region, mapping the libraries, giving the region back and initialising all images |
| WinLoads.StartsThere | src/loader/windows/win_loader_main.c:791-840 | the memory in which the tables are initialised holds what was mapped before and the libraries, nothing of the reserved region, with every byte from before unchanged |
| WinLoads.LoadSucceeds | src/loader/windows/win_loader_main.c:791-863 | a load succeeds exactly when every DLL has a file, is not ntdll.dll and exports the imported names, all sections fit into memory apart from each other and from the region, and every table has an aligned import section, values for its entries and room in a page that is free outside the region |
| WinLoads.ExeMapsWhen | src/loader/windows/win_loader_main.c:736-782 | the executable can be mapped exactly when its headers fit a page, its header page and sections are free and aligned, and they keep apart |
| PeSpace.ImageMapsWhen | src/loader/windows/win_loader_main.c:548-573 | an image can be mapped exactly when its sections are not empty, start on pages, are free and keep apart |
| PeSpace.ImageAddresses | src/loader/windows/win_loader_main.c:548-584 | a mapped image takes the pages of its sections and headers and no other address |
| WinLoader.FindKey | src/loader/windows/win_loader_main.c:164-173 | the key of the first entry with the value, 0 without one |
| WinLoader.FindImport | src/loader/windows/win_loader_main.c:214-227 | library and name of the last import with the address |
| WinLoader.Loader.FindFunction | src/loader/windows/win_loader_main.c:238-265 | the value of the first libntdll symbol of the name, 0 without one, or what the last library recording the name records |
| WinLoader.Loader.LookUp | src/loader/windows/win_loader_main.c:147-268 | the whole lookup, in unsigned arithmetic, from return address to function or exit |
| WinInstall.TableInstalled | src/loader/windows/win_loader_lib.c:145-181 | with the slots apart from each other and from the trampolines, every slot and every trampoline of a table holds its bytes at the end exactly when no two trampolines overlap, but for the coincidence |
| WinInstall.ImageInstalled | src/loader/windows/win_loader_main.c:650-682 | the same for a well-formed image, in terms of its own import table |
| WinInstall.ImageKept | src/loader/windows/win_loader_main.c:842-863 | initialising one image leaves the installed slots and trampolines of another one installed |
| WinInstall.AllInstalled | src/loader/windows/win_loader_main.c:842-863 | after all images are initialised every slot of every image holds its intended value and every trampoline its 7 bytes |
| WinDispatch.PagesInOrder | src/loader/windows/win_loader_main.c:613-635 | trampoline pages are aligned, increasing and disjoint, and the search ends exactly one page above the last one placed |
| WinDispatch.LoadPlaces | src/loader/windows/win_loader_main.c:791-823 | page-aligned import sections are all that the page layout needs |
| WinDispatch.InitSucceeds | src/loader/windows/win_loader_main.c:842-863 | initialisation succeeds exactly when every image passes the loader's own checks and its page is free and apart from those of the others |
| WinDispatch.MapsOnlyThePage | src/loader/windows/win_loader_lib.c:133-143 | initialising an image maps its page and nothing else |
| WinDispatch.InitFrame | src/loader/windows/win_loader_lib.c:145-181 | a mapped byte outside every slot keeps its value through the whole initialisation |
| WinDispatch.CallbackInverts | src/loader/windows/win_loader_main.c:147-200 | from a trampoline's return address the callback recovers the image and the import value |
| WinDispatch.NoUnderflow | src/loader/windows/win_loader_main.c:147-187 | when the executable has import slots none of the subtractions in between wraps |
| WinDispatch.UnderflowWithoutSlots | src/loader/windows/win_loader_main.c:147-187 | when it has none, the difference for the first library with slots is negative exactly for a reserved region above the first page |
| WinDispatch.TrampolinesDistinct | src/loader/windows/win_loader_main.c:613-635 | different function slots of all images have trampolines apart from each other |
| WinDispatch.LastImportIs | src/loader/windows/win_loader_main.c:214-227 | with distinct addresses the last match is the import itself |
| WinDispatch.TargetOfEntry | src/loader/windows/win_loader_main.c:164-268 | the callback finds the names that the entry was annotated with |
| WinDispatch.RecordedNames | src/loader/windows/win_loader_main.c:586-611 | a library records the names the executable imports from it and no others |
| WinDispatch.ExportNamedIsLast | src/loader/windows/win_loader_main.c:593-606 | the export a library records for a name is its last one of that name |
| WinDispatch.ReachesNamedExport | src/loader/windows/win_loader_main.c:252-265 | an import reaches the export of a library exactly when the executable imports that name from it and from no later library |
| WinDispatch.TargetIsExport | src/loader/windows/win_loader_main.c:252-268 | so a dispatched call arrives at image base plus export address exactly under that condition |
| WinDecode.HoldsTrampoline | src/loader/windows/win_loader_lib.c:167-180 | a hint/name entry has room for a trampoline exactly when its name has four characters or more |
| WinDecode.LongNamesFit | src/loader/windows/win_loader_lib.c:167-180 | hint/name entries that share no bytes leave room for all trampolines when the function names have four characters or more |
| WinDecode.ShortNameCrowded | src/loader/windows/win_loader_lib.c:167-180 | a function of a shorter name has no room when the next entry, of a function too, follows at once |
| WinDecode.PowIsShort | src/programs/windows/win_dynamic/win_dynamic_main.c:49 | `pow` has such a name |
| WinDecode.DecodedAnnotated | src/loader/windows/pe_tools.c:262-285 | a decoded import address table carries the names that the import directory gives for its values |
| WinDecode.DecodedApart | src/loader/windows/pe_tools.c:262-285 | function imports with addresses 7 apart in the first page give trampolines apart in the decoded table, whatever their names, and variables need no room |
| WinDecode.DecodedImageReady | src/loader/windows/pe_tools.c:152-287 | an unbound import section encoded byte by byte, with function imports 7 apart in the first page, decodes to an image as initialisation and dispatch require it |
| X64.Cpu.Step | src/loader/windows/win_loader_lib.c:7-8 | the two instructions of a trampoline, decoded from memory |
| X64.Cpu.EnterCallback | src/loader/windows/win_loader_main.c:124-141 | the frame of the callback after the alignment stub |
| X64.Cpu.ResumeLinux | src/loader/linux/lin_loader_main.c:88-127 | the exit of the Linux callback restores the registers, drops the two pushed words and jumps |
| X64.Cpu.ResumeWindows | src/loader/windows/win_loader_main.c:362-403 | the exit to a DLL function restores the registers, drops frame, alignment word and return address, and jumps |
| X64.Cpu.SwapToLinux | src/loader/windows/win_loader_main.c:299-331 | the first half of the swap, to the entry of the Linux function |
| X64.Cpu.SwapToWindows | src/loader/windows/win_loader_main.c:333-341 | the second half, back to the caller |
| X64.Cpu.LeaveToWindows | src/loader/windows/win_loader_main.c:361-403 | the DLL function is entered as by a direct call |
| X64.Cpu.LeaveToFunction | src/loader/linux/lin_loader_main.c:88-127 | the same for a function of a Linux object |
| X64.Cpu.LeaveToLinux | src/loader/windows/win_loader_main.c:290-360 | the Linux function is entered with p1 to p8 in their System V places, and control returns to the caller with rsp, rbp, r12 to r15 restored, whatever the function does to the stack |
| X64.SwapPreserves | src/loader/windows/win_loader_main.c:290-341 | the stack stays aligned, and rbx, rdi and rsi are restored exactly when the function dispatches no call or the last one was made with the same three registers |
| X64.SwapAfterIsLast | src/loader/windows/win_loader_main.c:290-298 | the swap state is that of the last call dispatched, at whatever depth |
| X64.Cpu.RunDispatches | src/loader/windows/win_loader_main.c:290-341 | every dispatched call stores its own registers, nested ones after it |
| X64.NestedCallLoses | src/loader/windows/win_loader_main.c:290-341 | a function that calls back into code holding 7, 8, 9 returns those to a caller that held 1, 2, 3 |
| WinCall.RunTrampoline | src/loader/windows/win_loader_lib.c:167-180 | the trampoline in memory calls the callback and pushes the address behind itself |
| WinCall.DynamicCallbackWindows | src/loader/windows/win_loader_main.c:124-404 | from the trampoline's call to the imported function, or to the loader's exit |
| WinCall.SlotLeadsTo | src/loader/windows/win_loader_main.c:136-268 | the word in an initialised slot is the address of an intact trampoline from which the callback finds what the slot imports |
| WinCall.CallImport | src/loader/windows/win_loader_main.c:136-404 | a call through any function slot of any image reaches what the callback looks up for its name, with registers and stack as in a direct call, or through the swap and back for ntdll.dll, or exits when there is nothing |
| WinProgram.LoadedWellPlaced | src/loader/windows/win_loader_main.c:736-863 | because all mappings succeeded, no two images overlap, all slots are mapped, and the trampoline pages are placed |
| WinProgram.LoadMakesReady | src/loader/windows/win_loader_main.c:736-863 | a successful load of well-formed files leaves every image installed |
| WinProgram.LoadedSlotReaches | src/loader/windows/win_loader_main.c:136-268 | in a loaded program the word in any function slot of any image leads to what the import means: for ntdll.dll libntdll's first symbol of the name, otherwise image base plus export address of the last library the executable itself imports the name from |
| WinProgram.NtdllReached | src/loader/windows/win_loader_main.c:238-268 | when symbol n of libntdll is the first of its name, an ntdll.dll import of the name reaches its value, or exits when that is 0 |
| WinProgram.MeantIsExport | src/loader/windows/win_loader_main.c:252-268 | a library's export is what an import means exactly when the executable imports the name from that library and from no later one |
| WinProgram.ExitsWhen | src/loader/windows/win_loader_main.c:238-268 | an import means nothing, and the call ends the program, exactly when the executable imports the name from no library, or libntdll's first symbol of it is at 0 or missing |
| WinProgram.LoadedRecords | src/loader/windows/win_loader_main.c:586-611 | a library of a loaded program records exactly the names the executable imports from it, at the nonzero addresses of its exports |
| WinLoads.LoadProgram | src/loader/windows/win_loader_main.c:736-863 | mapping the executable, loading libntdll.so, which leaves what is mapped alone, mapping the libraries and initialising the tables succeeds exactly when the program can be loaded, and gives a loaded program |
| WinProgram.CallLoaded | src/loader/windows/win_loader_main.c:124-404 | a call through any function slot enters the meant export as a direct call would, or runs the meant function of libntdll with its parameters in place and goes on in the caller, or exits when nothing is meant |
| WinContents.LoadedContents | src/loader/windows/win_loader_main.c:736-863 | in a loaded program every byte of every section of every image is that of its file, or zero in .bss, except in the slots of that image |
| WinContents.ReachedByte | src/loader/windows/win_loader_main.c:548-611 | so the first byte of a reached export is the one in its library's file |
| WinContents.LoadedHeader | src/loader/windows/win_loader_main.c:742-768 | the header page of a loaded program shows the first bytes of the executable's file |
| WinContents.LoadedVariable | src/loader/windows/win_loader_lib.c:70-108 | the slot of a variable import holds image base plus section plus value of the first symbol of its name in the first library of its name |
| WinExamples.OtherLibraryReached | src/loader/windows/win_loader_main.c:252-265 | two libraries export f and the executable imports it from both: a call of the first one arrives in the second; a name only a library imports arrives nowhere |
| PeImports.ReadImports | src/loader/windows/pe_tools.c:186-235 | the inner loop reads the imports of one DLL up to the null entry or the array limit |
| PeImports.OrdinalImports | src/loader/windows/pe_tools.c:217-229 | an entry with bit 31 is imported by ordinal; one with the format's own flag, bit 63, is taken for the address of a name |
| PeImports.ReadImportDirectory | src/loader/windows/pe_tools.c:166-244 | the outer loop reads the directory up to the empty entry or the array limit |
| PeImports.DirectoryRoundTrip | src/loader/windows/pe_tools.c:166-244 | a directory encoded byte by byte, bound or not, with entries of 20 bytes, tables of 8-byte words and null-terminated names, is read back as it is, in order, exactly when its tables fit the array limit |
| SectionBytes.WordRead | src/loader/windows/pe_tools.c:200-209 | a word is read from its own eight bytes, least significant first |
| SectionBytes.NameRead | src/loader/windows/pe_tools.c:181-184 | a null-terminated name is read back |
| PeImports.FindImportEntry | src/loader/windows/pe_tools.c:8-29 | library and name of the first import with the value |
| PeImports.ReadIat | src/loader/windows/pe_tools.c:248-286 | every word of the table but the last, with its slot address and its names; a size of 1 to 7 bytes has no meaning |
| PeImports.AnnotatesOwn | src/loader/windows/pe_tools.c:262-285 | every word is annotated with its own library and name, a separating null with nothing |
| PeImports.IatIsFlat | src/loader/windows/pe_tools.c:248-286 | from a table encoded as the tables of the DLLs one after the other with their nulls, the annotated table is read word by word, but for the last null |
| PeRelocations.ReadRelocations | src/loader/windows/pe_tools.c:419-447 | the loop runs on the bytes remaining and collects the entries block by block; no result for a block shorter than its header |
| PeRelocations.RelocationsRoundTrip | src/loader/windows/pe_tools.c:419-447 | decoding any chain of encoded blocks gives every entry of every block in order, each with its own page |
| ElfLink.FindRuntimeSymbol | src/loader/linux/loader_lib.c:33-65 | the first symbol of the name whose value is neither 0 nor the one to ignore |
| ElfLink.FindSymbols | src/loader/linux/loader_lib.c:146-166 | every symbol, moved by the offset unless it is undefined |
| ElfLink.ElfLoader.CollectSymbols | src/loader/linux/lin_loader_main.c:260-269 | all symbols in the order executable, libraries |
| ElfLink.ElfLoader.CollectRelocations | src/loader/linux/lin_loader_main.c:271-329 | all variable relocations, the executable's first |
| ElfLink.ElfLoader.ResolveRelocations | src/loader/linux/lin_loader_main.c:331-364 | the value of every relocation, or failure for an unknown type or name |
| ElfLink.ElfLoader.GetRuntimeGot | src/loader/linux/loader_lib.c:168-199 | the runtime entries of one offset table |
| ElfLink.ElfLoader.CollectGots | src/loader/linux/lin_loader_main.c:366-392 | the entries of all offset tables, each object with its own cell |
| ElfLink.ElfLoader.FindGotEntry | src/loader/linux/loader_lib.c:67-89 | the first entry at the address |
| ElfLink.ElfLoader.PatchGot | src/loader/linux/lin_loader_main.c:394-414 | GLOB_DAT values replace the values of their entries, or failure without an entry |
| ElfLink.ElfLoader.InitVariables | src/loader/linux/lin_loader_main.c:446-475 | the RELATIVE and COPY stores in order; no result when a variable has no definition or more than 8 bytes |
| ElfLink.ElfLoader.InitializeDynamicData | src/loader/linux/lin_loader_main.c:260-478 | memory and symbols after linking, or failure |
| ElfLinked.FindSymbolIs | src/loader/linux/loader_lib.c:50-62 | the symbol found is the first match |
| ElfLinked.ExecutableSymbolAddress | src/loader/linux/lin_loader_main.c:588-591 | a symbol of the executable is recorded at its run-time address exactly when the executable is not relocated, whatever the libraries are |
| ElfLinked.GotAfterLoad | src/loader/linux/lin_loader_main.c:427-444 | every entry of every offset table and every object cell still holds its value when the load is complete |
| ElfLinked.GlobDatHolds | src/loader/linux/lin_loader_main.c:345-414 | every GLOB_DAT slot holds the first nonzero symbol of its name in the order executable, libraries |
| ElfLinked.CopyHolds | src/loader/linux/lin_loader_main.c:456-474 | a COPY slot holds the bytes that the symbol found has once .bss is cleared, whatever its size, unless an earlier store meets the source or a later one the slot |
| ElfLinked.RelativeHolds | src/loader/linux/lin_loader_main.c:341-343 | a RELATIVE slot holds recorded value plus addend after the load |
| ElfLinked.RelativeValue | src/loader/linux/lin_loader_main.c:309-343 | that is B + A for the executable, and for a library exactly when its base is 0 |
| ElfLinked.LinkFrame | src/loader/linux/lin_loader_main.c:416-475 | bytes outside offset tables, cells, .bss and variables are unchanged |
| ElfLoaded.GlobDatSlot | src/loader/linux/lin_loader_main.c:345-414 | after a successful link a GLOB_DAT slot holds the first nonzero symbol of its name in the order executable, libraries |
| ElfFiles.SymbolPlace | src/loader/linux/lin_loader_main.c:260-269 | symbol t of object k stands behind all symbols of the earlier objects, the executable first and then the libraries in order |
| ElfFiles.RelocationPlace | src/loader/linux/lin_loader_main.c:271-329 | so does every relocation, with place, type, addend and name of the file |
| ElfFiles.FirstIsFound | src/loader/linux/loader_lib.c:33-65 | the search finds the first definition of the files |
| ElfFiles.GlobDatOfFiles | src/loader/linux/lin_loader_main.c:260-414 | the slot of a GLOB_DAT relocation of any object holds the address of the first definition of its name: the executable's before the first library's that has one |
| ElfExamples.FirstLibraryWins | src/loader/linux/lin_loader_main.c:262-269 | two libraries define f: the slot holds the address in the first |
| ElfLoaded.LinkSucceeds | src/loader/linux/lin_loader_main.c:260-478 | a link succeeds exactly when every relocation has a known type and a definition, GLOB_DAT also an offset table entry at its place and COPY a source of at most 8 bytes; memory plays no part |
| ElfLoaded.ObjectsAgree | src/loader/linux/lin_loader_main.c:345-414 | so all objects agree on the address behind a name |
| ElfLoaded.ExecutableSymbolSlot | src/loader/linux/lin_loader_main.c:588-591 | a slot for a symbol of the executable holds its run-time address exactly when the executable is not relocated |
| ElfLoaded.Frame | src/loader/linux/lin_loader_main.c:416-475 | bytes outside offset tables, cells, .bss and variables are unchanged, in terms of the files |
| ElfLoaded.LibraryRelative | src/loader/linux/lin_loader_main.c:309-343 | the slot of a RELATIVE relocation of a library holds A, which is B + A exactly when the library is at 0 |
| ElfLoaded.ExecutableRelative | src/loader/linux/lin_loader_main.c:309-343 | in the executable it holds B + A |
| ElfLoaded.CopySlot | src/loader/linux/lin_loader_main.c:456-474 | a copied variable holds after the load what its source holds once the libraries' .bss is cleared |
| ElfLoaded.ClearedByte | src/loader/linux/lin_loader_main.c:416-424 | clearing puts zeros into the .bss sections and changes nothing else |
| ElfLoaded.CopyOfBss | src/loader/linux/lin_loader_main.c:416-474 | a variable of a library's .bss arrives as zeros |
| ElfLoaded.CopyOfData | src/loader/linux/lin_loader_main.c:456-474 | a variable outside .bss arrives with its bytes from before the link |
| ElfLoaded.CopyArrives | src/loader/linux/lin_loader_main.c:446-475 | among variables that do not overlap one keeps its initial value, whatever the uninitialised local holds, exactly when no later 8-byte store meets it |
| ElfLoaded.CopySourceIsLibrary | src/loader/linux/lin_loader_main.c:456-474 | when the slot is the executable's only definition of the name, the source is the first library definition exactly when the executable is not relocated; otherwise it is the executable's symbol at its unrelocated address |
| ElfFiles.CopySourceOfFiles | src/loader/linux/lin_loader_main.c:456-467 | a COPY relocation takes the first definition whose address is not the slot's |
| ElfFiles.CopiesFromLibrary | src/loader/linux/lin_loader_main.c:456-474 | the same as above with the library, the symbol and the slot named by the files |
| ElfLoaded.CopyLeavesTail | src/loader/linux/lin_loader_main.c:469-474 | a shorter variable is followed by the bytes of the uninitialised local |
| ElfLoaded.CopyKeepsNeighbours | src/loader/linux/lin_loader_main.c:469-474 | the bytes behind the variable survive the load, whatever that local holds, exactly when the variable has 8 bytes |
| ElfLoaded.CopiedPointer | src/loader/linux/lin_loader_main.c:446-475 | a copied pointer agrees with the library's own one, which is relocated later, exactly when it held the relocated value before, .bss being cleared |
| ElfExamples.PointerExample | src/loader/linux/lin_loader_main.c:446-475 | a library's pointer holds its addend without the base, and its copy holds 0 |
| ElfExamples.FourByteExample | src/loader/linux/lin_loader_main.c:469-474 | the byte behind a four-byte variable turns from 0 to 0xff |
| ElfExamples.NumbersArrive | src/programs/linux/dynamic/dynamic_lib.c:13-14 | two ints side by side, one in .data and one in .bss: copied upwards they arrive as 12345 and 0 |
| ElfExamples.NumberLost | src/loader/linux/lin_loader_main.c:469-474 | copied downwards the upper one is overwritten |
| ElfExamples.RelocatedExample | src/loader/linux/lin_loader_main.c:588-591 | an executable at 0x70000000 whose COPY relocation finds its own symbol at 0x4000 |
| ElfLazy.GetFunctionRelocations | src/loader/linux/loader_lib.c:117-144 | the function relocations of an object at run time, in the order of the file |
| ElfReady.CollectedRelocations | src/loader/linux/loader_lib.c:117-144 | relocation i has the slot and the symbol name of relocation i of the file |
| ElfLazy.LazyLinker.SelectRelocation | src/loader/linux/lin_loader_main.c:31-53 | the relocation that the pushed words select; none for a null identity, an index out of range, or an offset of no object |
| ElfLazy.LazyLinker.Resolve | src/loader/linux/lin_loader_main.c:29-71 | the address found and, with caching, the slot rewritten |
| ElfLazy.SelectsOwn | src/loader/linux/lin_loader_main.c:39-53 | the words an object pushes select that object's own relocation, also for the executable at offset 0 |
| ElfLazy.NtdllAlone | src/loader/windows/win_loader_main.c:25-71 | the Windows loader's resolver does for libntdll.so what the Linux one does with caching |
| ElfLazy.NtdllLinker.Resolve | src/loader/windows/win_loader_main.c:25-71 | the address found, always cached in the slot, or exit |
| ElfLazy.CallArrives | src/loader/linux/lin_loader_main.c:29-127 | one call through the linkage table, cached or not, arrives at the symbol's address and keeps the invariant |
| ElfLazy.RunArrives | src/loader/linux/lin_loader_main.c:29-127 | so does every call of every finite run, from any objects in any order |
| ElfLazy.CachingRefines | src/loader/linux/lin_loader_main.c:69-71 | caching in the offset table changes no callee of any run |
| ElfLazy.LazyLinker.CallThroughPlt | src/loader/linux/lin_loader_main.c:18-128 | such a call on the processor model, through the resolver word in memory: the function is entered as by a direct call |
| ElfReady.LinkingMakesReady | src/loader/linux/lin_loader_main.c:366-444 | after linking every object's pushed words identify it and every function slot holds its own stub |
| ElfReady.LinkedMakesReady | src/loader/linux/lin_loader_main.c:260-478 | the same for every successful link, in terms of the files |
| ElfReady.LinkedRunArrives | src/loader/linux/lin_loader_main.c:29-478 | in every linked program every run of calls through the linkage tables, cached or not, arrives at the addresses the symbol search gives |
| ElfFiles.CallsOfFiles | src/loader/linux/lin_loader_main.c:29-478 | in every linked program every run of calls, cached or not, arrives at the first definitions of the names that the files give for the calls, and ends with the first name without one |
| ElfFiles.CachesInSlot | src/loader/linux/lin_loader_main.c:62-71 | a cached address is left in the slot that the file gives for the call, and nothing else changes |
| MemoryRegions.GetMemoryRegions | src/loader/linux/loader_lib.c:200-256 | one region per loadable segment, in order; an alignment of 0 is divided by |
| MemoryRegions.RegionFields | src/loader/linux/loader_lib.c:243-249 | a region takes over the permissions of its header, and is mapped from the file when there are file bytes |
| MemoryRegions.CoversSegment | src/loader/linux/loader_lib.c:227-241 | a region covers its segment exactly when the overflow past the first end is at most 0x1000, always so up to page alignment, and then overshoots by at most a page |
| MemoryRegions.LargeAlignmentFails | src/loader/linux/loader_lib.c:238-241 | a segment of alignment 0x8000 that is not covered |
| MemoryRegions.MapsFile | src/loader/linux/loader_lib.c:225-246 | every file byte is mapped from its place exactly when address and offset agree modulo the alignment |
| MemoryRegions.NextRegionApart | src/loader/linux/loader_lib.c:227-241 | segments on pages of their own get regions apart, except next to a segment of whole pages |
| MemoryRegions.WholePageOverlaps | src/loader/linux/loader_lib.c:227-241 | two one-page segments in a row: the first region ends a page late |
| MemoryRegions.ReserveRegionSpace | src/loader/memory_map.c:41-79 | every region is moved by the reserved address, in place, or none is |
| MemoryRegions.MovesOnly | src/loader/memory_map.c:71-76 | moving a region keeps its length and everything but its ends, and can be undone, even around the end of the address space |
| MemoryRegions.TilesReservation | src/loader/memory_map.c:41-79 | ordered regions stay inside the reservation exactly when they are contiguous from 0, and then tile it exactly |
| MemoryRegions.HoleLeavesReservation | src/loader/memory_map.c:41-79 | two pages with a hole of two between them: the second one is moved behind the reservation |
| MemoryRegions.RebasingKeepsLayout | src/loader/memory_map.c:71-76 | moving the regions keeps their order, distances and extent |
| RegionMapping.MapMemoryRegions | src/loader/memory_map.c:81-127 | memory after mapping all regions, or failure at the first one the kernel refuses |
| RegionMapping.MapSucceeds | src/loader/memory_map.c:81-127 | mapping succeeds exactly when every region could be mapped alone and no two overlap |
| RegionMapping.UnalignedRefused | src/loader/memory_map.c:99-118 | a file mapping at an offset that is no multiple of the page is refused |
| RegionMapping.MapKeeps | src/loader/memory_map.c:101-113 | what was mapped before is unchanged |
| RegionMapping.MapShows | src/loader/memory_map.c:99-113 | every mapped region shows its file bytes, or zeros |
| RegionMapping.SegmentLoaded | src/loader/linux/loader_lib.c:200-256 | from program header to memory, at any base: byte k of a page-aligned segment is that of the file, up to its size in memory |
| RegionMapping.PaddedSegment | src/loader/linux/loader_lib.c:200-256 | the part of a segment behind its file bytes is zero exactly when the file has zeros wherever it is outside .bss, or the segment has no file bytes |
| RegionMapping.GapShowsFile | src/loader/linux/loader_lib.c:200-256 | a byte between the file part and .bss shows the next byte of the file |
| PeSections.GetMemoryRegionsWin | src/loader/windows/win_loader_lib.c:186-219 | one region of whole pages per section |
| PeSections.PermissionFlags | src/loader/windows/win_loader_lib.c:198-202 | read, write and execute follow the three memory flags of the section |
| PeSections.MapMemoryRegionsWin | src/loader/windows/win_loader_lib.c:221-257 | memory after mapping all regions and reading the file into them |
| PeSections.SectionsLoaded | src/loader/windows/win_loader_lib.c:236-254 | after that every region shows its own file bytes and then zeros, untouched by the other sections |
| PeSections.SectionRegionsApart | src/loader/windows/win_loader_lib.c:192-215 | page-aligned sections without overlap get regions without overlap, each less than a page too long |
| PeSections.PaddingFromFile | src/loader/windows/win_loader_lib.c:204-213 | a section is padded with zeros exactly when zeros follow it in the file |
| PeSections.NextByteRead | src/loader/windows/win_loader_lib.c:204-213 | a section of one byte in the file and two in memory: the second is the next byte of the file |
| PeSections.MapImage | src/loader/windows/win_loader_main.c:548-584 | memory with an image mapped, read and its .bss cleared, or failure |
| PeSections.ImageMaps | src/loader/windows/win_loader_main.c:548-584 | a mapped image has all its sections in memory, at addresses that were free |
| PeSections.ImageMapKeeps | src/loader/windows/win_loader_main.c:548-584 | mapping an image, clearing its .bss included, changes nothing that was there |
| PeSections.ImageShows | src/loader/windows/win_loader_main.c:548-584 | every section but .bss shows its own file bytes, untouched by the other sections and the clearing |
| PeSections.BssShows | src/loader/windows/win_loader_main.c:575-584 | .bss is zero |
| PeSections.SectionNamedIsFirst | src/loader/windows/pe_tools.c:472-485 | the section found by name is the first one of that name |
| ArenaLists.GrantedIsRoom | src/loader/memory_map.c:27-34 | the bound check means that there is room exactly as long as the sums do not wrap |
| ArenaLists.WrapMovesBack | src/loader/memory_map.c:27-34 | a request that reaches 2^64 from the index on is granted and moves the index back, the last seven sizes excepted, which leave it |
| ArenaLists.BlocksOverlap | src/loader/memory_map.c:27-38 | after such a request the next block lies inside the first one |
| ArenaLists.Arena.Malloc | src/loader/memory_map.c:11-39 | the address and the new index for every request; unless the sums wrap, room means success and all blocks so far stay aligned, in bounds and apart |
| ArenaLists.Arena.Add | include/list.h:17-36 | the list grows by the element, no other list changes, or the allocation was refused |
| ArenaLists.Arena.Grow | include/list.h:21-33 | a full list moves to a larger block with all its bytes |
| ArenaLists.Arena.Element | include/list.h:41-42 | an element is read from memory as it was appended |
| ArenaLists.Arena.CloneList | include/list.h:38-46 | all elements are appended to the other list, and false is returned all the same; a nonempty list cloned onto itself exhausts the arena |
| ArenaLists.Arena.Perform | include/list.h:17-46 | any interleaving of additions and clones on any lists leaves each list equal to what was appended to it |
| ArenaLists.Amortised | include/list.h:21-33 | n additions request at most max(16, 4n) slots in all and copy fewer than 2n |
| InitialStack.ScanStops | src/loader/linux/lin_loader_main.c:613-620 | the word-wise scan stops at the terminator, or one word earlier when the last value is 0 |
| InitialStack.ShiftStack | src/loader/linux/lin_loader_main.c:605-631 | in place, the stack becomes that of the same process without its first argument, and nothing behind it changes |
| InitialStack.StartupReads | src/programs/linux/linux_runtime.c:7-23 | the program's startup finds count, arguments, environment and auxiliary vector in such a stack |
| CommandLine.JoinCommandLine | src/loader/windows/win_loader_main.c:897-915 | the buffer holds the widened arguments joined by spaces; a long line is noticed only afterwards |
| CommandLine.WidensValue | src/loader/windows/win_loader_main.c:904 | a character is widened to the one with the same signed value |
| CommandLine.ToCharPointer | src/dlls/twlibc_win.c:11-20 | the characters before the null, narrowed |
| CommandLine.StrChrNul | src/dlls/twlibc.c:377-385 | the first position of the character, or the end |
| CommandLine.GetMainArgs | src/dlls/twlibc_win.c:49-84 | the pieces between spaces, or failure beyond 100 |
| CommandLine.PassArguments | src/loader/windows/win_loader_main.c:897-930 | through both programs exactly the space-free lists that fit the line and the array arrive unchanged |
| Strings.SplitUndoesJoin | src/dlls/twlibc_win.c:56-78 | splitting undoes joining exactly when no piece contains the separator; empty pieces are kept |
| Strings.JoinUndoesSplit | src/dlls/twlibc_win.c:56-78 | joining undoes splitting, always |
| Numerals.PrintNumberDecimal | src/dlls/twlibc.c:205-227 | the digits of the number from the first nonzero one behind the very first, or one digit |
| Numerals.PrintNumberHex | src/dlls/twlibc.c:182-203 | the 16 hexadecimal digits without leading zeros |
| Numerals.AtolLen | src/programs/linux/dynamic/dynamic_lib.c:25-43 | the value of a text of digits, 0 for any other text, and no result when a sum does not fit 63 bits |
| Numerals.ShortTextFits | src/programs/linux/dynamic/dynamic_lib.c:25-43 | which never happens up to 18 characters |
| Numerals.DecimalRoundTrip | src/dlls/twlibc.c:205-227 | reading a printed number gives the number back exactly below 10^15, and its text has no leading zeros |
| Numerals.LeadingDigitLost | src/dlls/twlibc.c:205-227 | 10^15 and 10^15 + 1 are both printed as 1 |
| Numerals.CanonicalShortest | src/dlls/twlibc.c:182-227 | a numeral without leading zeros is the shortest of its value, and the only one |
| Numerals.HexShortest | src/dlls/twlibc.c:182-203 | for every 64-bit value the hexadecimal text is its unique shortest numeral |
| Printf.FprintfInternal | src/dlls/twlibc.c:236-318 | both passes: text and arguments used, or failure when the item array or the format is overrun |
| Printf.PrintItems | src/dlls/twlibc.c:277-315 | the second pass replays the collected items in order |
| Printf.CollectFits | src/dlls/twlibc.c:239-275 | collecting succeeds exactly when no directive is cut off and two items for each and one more fit the array |
| Printf.TwoPassesAreOne | src/dlls/twlibc.c:236-318 | with at most 63 directives the two passes are a one-pass interpreter; with more the array overflows |
| Printf.ReadsItsArguments | src/dlls/twlibc.c:277-313 | exactly as many arguments are read as there are s, c, p, x and d directives, and no later one matters |
| Printf.FormatMeans | src/dlls/twlibc.c:239-315 | a format written from pieces prints every piece in its place, texts, characters, numbers of both widths and unknown letters, and reads the slots of its arguments and no more |
| Printf.SignedRoundTrip | src/dlls/twlibc.c:303-309 | a printed signed argument reads back as itself exactly when it is not negative and, if large, below 10^15 |
| Printf.MinusOnePrinted | src/dlls/twlibc.c:303-309 | -1 is printed as 2^32 - 1 |
| Printf.PointerRoundTrip | src/dlls/twlibc.c:295-302 | a printed pointer or hexadecimal number reads back as the argument exactly when the directive is a large one or the argument is below 2^32 |
| Printf.HighPointerPrinted | src/dlls/twlibc.c:295-302 | 0x7fff00001000 is printed as a number of value 0x1000 |
| StringSplit.StringSplit | src/programs/linux/dynamic/dynamic_lib.c:98-130 | the pieces, or failure from the hundredth piece on |
| StringSplit.SplitConserves | src/programs/linux/dynamic/dynamic_lib.c:98-130 | joining the pieces gives the input back, and a separator is left at most as the last byte of the last piece |
| StringSplit.SplitOfJoin | src/programs/linux/dynamic/dynamic_lib.c:98-130 | a joined list comes back exactly when it has that shape |

## Left out

- File access, system calls and process start-up: files are byte sequences or parsed tables, and the kernel is taken to
  refuse a fixed mapping that overlaps another one, as it does from version 5 on. That a mapping fails beyond user
  space or for lack of memory is not modelled.
- The parsing of ELF files (`src/loader/linux/elf_tools.c`): the tables are taken as given.
- Compiled code around the assembly: rbp[0] is taken to be the saved frame pointer, the snapshot macro to copy the
  registers, and the register with the function address not to be overwritten. Of the vector registers only xmm0 and
  xmm1 are kept; rax, r10 and r11 are scratch on entry.
- Faults: a read of unmapped memory gives 0 in the model and a store maps its bytes; the main results ask for mapped
  ranges where it matters. `strcmp` on a null name counts as a failed load.
- `preserved_swap_state` in a run with several threads.
- WinIat.GetRuntimeImportAddressTable: an index past the section headers reads 0, for nothing is known about what is
  there.
- PeImports.ReadImports: the ordinal test is modelled with the shift count reduced as the processor does it; the round
  trip is for imports by name.
- PeImports.ReadIat: a table size between 1 and 7 bytes makes the count wrap around to 2^64 - 1; that has no result in
  the model.
- MemoryRegions.CoversSegment: for segments within the 64-bit address space; for others the wrapped sums are modelled but
  nothing is claimed about them. The same holds for the regions of `MemoryRegions.TilesReservation`.
- X64.Cpu.LeaveToLinux: register contents are unbounded integers; the stack register is taken to stay away from both ends
  of the address space.
- ElfLink.ElfLoader.InitVariables: a variable of more than 8 bytes overruns a local of the loader; that has no result
  in the model.
- ElfLazy.LazyLinker.SelectRelocation: an offset of no object, for which the original uses an uninitialised pointer, and
  an index past the executable's array have no result in the model.
- PeRelocations.ReadRelocations: a block shorter than its header, whose entry count wraps around, has no result in the
  model.
- RegionMapping.SegmentLoaded: for page-aligned segments whose address and offset agree modulo the page, as the kernel
  can map them; bytes beyond the last page of the file count as zero, where a read would fault.
- ArenaLists.Arena.Malloc: the buffer is mapped at the first call in the original and can fail to be.
- PeSections.MapMemoryRegionsWin: memory protection is not part of the memory, so a store into a read-only section
  succeeds.
- WinLoads.LoadProgram: loading libntdll.so is a parameter, a function that may add memory and may fail.
- 32-bit PE images, COFF symbol tables, export tables, thread and process blocks beyond the command line, logging,
  `malloc`, `strstr`, `getenv` and the other library functions, and the sample programs.
