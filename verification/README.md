# Model of the UEFI diagnostic applications

The applications of this repository mostly print firmware tables. Some of them contain real algorithms over data of any size:
they fill growing tables from a recursive bus scan, cut strings in place, walk self-sized records in raw memory, follow linked
rings, and drive a device by polling. This project models those algorithms in Dafny, in the form the C code has (objects with
fields, loops, arrays written in place), and proves what they compute. Printing is dropped; where the order of a dump matters,
the method returns what it shows. Check everything with `dafny verify dfyconfig.toml`.

| files | what they model |
|---|---|
| `PciConfig`, `PciTree`, `VtdUnits`, `VtdFill`, `VtdTable`, `DmarTable`, `DmarDevices`, `DmarEncoding`, `Dmar` | VT-d remapping units: PCI bus scan, device registration, DRHD and device scopes (sections 8.3 and 8.3.1 of the Intel VT-d specification) |
| `AsciiRuns`, `Tokenizer`, `InPlaceSplit`, `GuidLines`, `GuidNames`, `GuidXref`, `GuidTable` | the two destructive tokenizers and their nested use on Guid.xref |
| `EventLog`, `EventHeader`, `EventReplay`, `LogFormats` | the TCG 2 event log (section 10.2.2 of the TCG PC Client Platform Firmware Profile) and the replay of PCR values |
| `DataDeltas`, `DeltaEncoding`, `SkuDatabase`, `SkuEncoding`, `NvStore`, `NvStoreEncoding`, `NvStoreDump`, `FfsSections` | per-SKU PCD deltas, the NV store default buffer, section selection (volume 3 of the PI Specification) |
| `LinkRing` | lists with an unknown head in the DXE core |
| `AtaPio` | the ATA PIO data-in protocol |
| `Microcode` | microcode checksums |
| `GetOpt`, `HexString` | option scanning and hexadecimal strings |
| `BootOrder`, `LoadOption` | adding and dumping boot options |
| `MemoryTypes` | memory type sizing |
| `Memory`, `Options` | bytes, little-endian fields, raw memory, option values |

Raw memory is a total function from addresses to bytes, so the walkers are proved for every content. A walker that steps by a
stored length needs that no length on its way is zero, since the C loop would not end; the NV store walkers and the event log
walk need no such condition. The bus scan recurses through bridges, so it needs that the buses it is to scan do not lead back to
themselves, which is exactly when its depth is bounded (`PciConfig.ScanEndsExactlyWhen`); nothing is asked of other buses and
segments. Which allocations fail is a parameter. In the VT-d tables each allocation may fail or succeed on its own; for the
copies of the NV store dump and the hash contexts of the replay it is a function of the request, so the same request is not
granted once and refused later. The theorems about PCR values assume room for the contexts of the very extends they are about.

What the walkers find is tied to what was written. For DMAR tables, cross-reference texts, event logs, delta blocks, NV store
buffers, firmware sections, microcode updates and boot options there is a description of the data and of its bytes, with the
numbers of the formats written out, and the theorems say that the data is read back from memory that holds these bytes. For PCI
topologies there is a tree of buses, devices and bridges and the registers that present it.

## What the proofs found in the code

- `GetNewBootIndex` compares the candidate with the loop index and not with the entry, so it always takes the count of entries.
  `BootOrder.NewExactlyWhen` says when that number is new, and `BootOrder.NotNew` gives an order for which it is not.
- With `-E` and no PCR given, the loop over the PCRs runs on the requested index itself, so a second readable log format is
  replayed for one PCR only, one past the last (`LogFormats.AllPcrsOnlyForFirstFormat`,
  `LogFormats.SecondFormatMissed`).
- The GUID table has an entry for each line feed and one more, but lone carriage returns end lines, too. When there are
  more names than entries the last ones are dropped, as for any two GUID lines with a lone carriage return between them
  (`GuidXref.DroppedName`), and a debug build fails an assertion. `GuidNames.NothingDroppedExactlyWhen` and
  `GuidLines.LinesFitExactlyWhen` say when there is room.
- When the device array of a unit cannot grow for a device scope entry that is not a PCI device, `ProcessDhrd` goes on and may
  report success with the device missing (`DmarTable.LostSpecialDevice`). `Dmar.SuccessfulRun` says exactly when the units of a
  successful run are complete; `Dmar.RunIsSound` holds for every run.
- A bank that the log's header lists and `mHashInfo` lacks (all but SHA1 and SHA256) is replayed, too: after the first
  measurement its value is 0xFF in every byte (`EventReplay.ReplayOfUnsupportedBank`).
- The length of a file path is cut to 16 bits when a boot option is added (`LoadOption.WholePathExactlyWhen`, `LoadOption.LongPath`).
- The sizing heuristic can allot too few pages when 32-bit sums overflow (`MemoryTypes.EnoughPages`, `MemoryTypes.TooFewPages`).
- `HexStringToBuffer` accepts characters that are no digits (`HexString.PrintOfDecode`, `HexString.NotADigit`).
- How the last `DRQClear` in `AtaPioDataIn` ends is ignored: once the data are there, success rests on the error bits alone
  (`AtaPio.IdeDev.AtaPioDataIn`, `AtaPio.TimeoutIsIgnored`).

## Model

| member | source | states |
|---|---|---|
| PciConfig.ScanEndsExactlyWhen | AppSrc/VtdDump/VtdDump.c:2038-2050 | the depth of the recursive scan of a bus is bounded if and only if neither that bus nor any bus behind it leads back to itself; then 256 levels are enough |
| PciConfig.LoopFreeBehind | AppSrc/VtdDump/VtdDump.c:2038-2050 | behind a bridge there is no loop either, and there are strictly fewer buses: what the recursion descends on |
| PciConfig.IncreasingBusesAreLoopFree | AppSrc/VtdDump/VtdDump.c:1999-2055 | numbering every bridge's secondary bus above its own bus excludes loops |
| PciConfig.ScanReachesOnly | AppSrc/VtdDump/VtdDump.c:1999-2055 | everything a scan visits can be reached from the scanned bus by a route of present PCI-PCI bridges with a nonzero secondary bus |
| PciConfig.ScanReachesAll | AppSrc/VtdDump/VtdDump.c:1999-2055 | the end of every such route is visited |
| PciConfig.ScanOrderIsReachability | AppSrc/VtdDump/VtdDump.c:1999-2055 | visited if and only if reachable, for every bus and function |
| PciTree.ScanIsPreorder | AppSrc/VtdDump/VtdDump.c:1999-2055 | if configuration space presents, in its registers, a tree of buses, single- and multi-function devices and bridges, the bus is free of loops and the scan visits the tree in preorder: the functions in ascending order, what is behind a bridge right after it |
| PciTree.TreeOf | AppSrc/VtdDump/VtdDump.c:1999-2055 | every bus without a loop presents such a tree |
| PciTree.OwnBusIsScanned | AppSrc/VtdDump/VtdDump.c:2019-2029 | of the functions on the scanned bus exactly those are visited that do not read as all ones: function 0 of every device, and 1 to 7 if bit 7 of the header type of function 0 is set |
| VtdUnits.RegisterSeparated | AppSrc/VtdDump/VtdDump.c:1837-1940 | registering any device keeps ids unique in each unit and an INCLUDE_PCI_ALL unit disjoint from the earlier units of its segment |
| VtdUnits.RegisterAllSeparated | AppSrc/VtdDump/VtdDump.c:1837-1940 | the same over any run of registrations |
| VtdUnits.RegisterAllExtends | AppSrc/VtdDump/VtdDump.c:1868-1930 | a run of registrations changes one unit only and appends to its table: every earlier entry keeps its index and contents |
| VtdUnits.RegisterAllAddsExactly | AppSrc/VtdDump/VtdDump.c:1854-1940 | a run of registrations adds to the unit exactly the listed ids that no earlier unit of the segment claims, and loses none |
| VtdUnits.ScanAddsExactly | AppSrc/VtdDump/VtdDump.c:1955-2055 | with room for all, a bus scan adds exactly the reachable functions that neither this unit nor an earlier one of the segment holds |
| VtdUnits.DistinctBounded | AppSrc/VtdDump/VtdDump.c:1797-1820 | unique 16-bit source ids bound a unit's table to 65536 entries |
| VtdTable.Unit.Grow | AppSrc/VtdDump/VtdDump.c:1878-1887 | growing moves every entry to the same index of an array larger by 256; a failed allocation changes nothing |
| VtdTable.Table.AddDevice | AppSrc/VtdDump/VtdDump.c:1874-1930 | an allocation is tried exactly when the array is full; if it is refused nothing is added and the error is reported, otherwise the device is appended |
| VtdTable.Unit.Append | AppSrc/VtdDump/VtdDump.c:1892-1930 | the next free slot is filled and counted; the other entries stay |
| VtdTable.Table.GetPciDataIndex | AppSrc/VtdDump/VtdDump.c:1797-1820 | -1 exactly if the unit is of another segment or lacks the id; otherwise the first index that has it |
| VtdTable.Table.RegisteredEarlier | AppSrc/VtdDump/VtdDump.c:1854-1866 | whether some earlier unit of the segment has the device |
| VtdTable.Table.RegisterPciDevice | AppSrc/VtdDump/VtdDump.c:1837-1940 | for every pool: the new contents, capacity, number of allocations and status on every path; the out-of-memory error exactly when the device is neither claimed nor there and its allocation is refused |
| VtdTable.Table.ScanBusCallbackRegisterPciDevice | AppSrc/VtdDump/VtdDump.c:1955-1985 | registers a scanned function as bridge or endpoint by its class, never failing on one that is there already |
| VtdTable.Table.ScanPciBus | AppSrc/VtdDump/VtdDump.c:1999-2055 | without a loop among the buses it gets to, the recursive scan ends and is, for every pool, the registration of the preorder of the tree that configuration space presents, up to the first refused allocation |
| VtdTable.Table.ScanDevice | AppSrc/VtdDump/VtdDump.c:2019-2051 | one device, function 0 only or all eight if its header type says so: what is done and what is left make up the scan from this device on |
| VtdTable.Table.ScanFunction | AppSrc/VtdDump/VtdDump.c:2025-2050 | one function: absent ones are skipped, bridges are descended into right after they are registered, and a refused allocation stops at exactly that point |
| VtdFill.RegisterInExactly | AppSrc/VtdDump/VtdDump.c:1868-1937 | registering a device gives it to the unit exactly if no earlier unit claims it and its allocation, if one is needed, is not refused |
| VtdFill.ScanInAppend | AppSrc/VtdDump/VtdDump.c:2019-2051 | scanning two lists one after the other is scanning their concatenation, the second only if the first met no refusal |
| VtdFill.ScanInIsPrefix | AppSrc/VtdDump/VtdDump.c:2031-2034 | a scan registers its functions in order: all of them exactly on success, otherwise those before the one that found no room |
| VtdFill.ScanInExactly | AppSrc/VtdDump/VtdDump.c:1999-2055 | for every pool a bus scan adds only reachable functions that no earlier unit claims, and all of them if it succeeds |
| DmarTable.ScopesInAdd | AppSrc/VtdDump/VtdDump.c:2189-2253 | for every pool the scope entries add only what they assign, and if none fails exactly what they keep: PCI devices, what is behind bridges, and special devices that found room |
| DmarTable.KeptOrRefused | AppSrc/VtdDump/VtdDump.c:2228-2238 | what a DRHD keeps it assigns; what it assigns and does not keep was named by special entries only, each time with a full array and a refused allocation |
| DmarTable.DrhdInAdds | AppSrc/VtdDump/VtdDump.c:2155-2256 | a DRHD adds only what it assigns to a blank unit, and on success leaves exactly what it keeps and no earlier unit claims |
| DmarTable.DrhdInKeepsSeparation | AppSrc/VtdDump/VtdDump.c:2155-2256 | whatever fails in a DRHD, ids stay unique, INCLUDE_PCI_ALL units disjoint from earlier ones, and later units blank |
| DmarTable.DrhdsInKeepEarlier | AppSrc/VtdDump/VtdDump.c:2344-2360 | processing a list of DRHDs leaves the units of earlier ones alone |
| DmarTable.DrhdsInHold | AppSrc/VtdDump/VtdDump.c:2320-2367 | after any run every unit holds only what its DRHD assigns; after an error-free one each, not only the last, holds exactly what its DRHD keeps |
| DmarTable.EarlierUnitsAreFinal | AppSrc/VtdDump/VtdDump.c:2344-2360 | in an error-free run the units of earlier DRHDs have their final contents when a DRHD is processed |
| DmarTable.ExactExactlyWhen | AppSrc/VtdDump/VtdDump.c:2229-2238 | a unit of an error-free run holds exactly what its DRHD assigns if and only if, from where its processing started, no special device is lost to a refused allocation |
| DmarTable.PlentifulLosesNothing | AppSrc/VtdDump/VtdDump.c:2229-2238 | with a pool that never refuses nothing is lost |
| DmarTable.LostSpecialDevice | AppSrc/VtdDump/VtdDump.c:2229-2238 | a table with one I/O APIC, and room for the unit but not for its array: success, and the device is missing |
| DmarDevices.ReadIsDescribed | AppSrc/VtdDump/VtdDump.c:1892-1930 | an entry has copies of the registers its type asks for: vendor, device and revision of PCI devices, subsystem ids of endpoints |
| DmarDevices.DrhdInMakesEntries | AppSrc/VtdDump/VtdDump.c:2155-2256 | for every pool each entry of a unit is such a description, and its type is that of a scope entry that names the device, or its class |
| DmarDevices.RejectedExactlyWhen | AppSrc/VtdDump/VtdDump.c:2228-2238 | with memory for every array a DRHD is rejected as already registered if and only if one of its entries names a PCI device that no earlier unit claims and that the scan of the segment, or an entry before it, has assigned to the unit |
| DmarEncoding.ScopeDecode | AppSrc/VtdDump/VtdDump.c:2105-2143 | a scope entry that was written is read back: its type, its length, and the device at the end of its path, each element of which but the last leads to its secondary bus |
| DmarEncoding.ScopesDecode | AppSrc/VtdDump/VtdDump.c:2189-2255 | so is a list of them: the walk finds exactly the entries, in order |
| DmarEncoding.DrhdDecode | AppSrc/VtdDump/VtdDump.c:2155-2190 | a DRHD that was written is read back: length, INCLUDE_PCI_ALL flag, segment, base address and scope entries |
| DmarEncoding.AssignedDecode | AppSrc/VtdDump/VtdDump.c:2155-2256 | what a DRHD in memory assigns is what was written: the whole segment if the flag is set, the devices its entries name, and what is behind its bridges |
| DmarEncoding.TableDecode | AppSrc/VtdDump/VtdDump.c:2342-2361 | in memory that holds a table exactly its DRHDs are found, in order, whatever structures are between them |
| Dmar.GetVtdEngineNumber | AppSrc/VtdDump/VtdDump.c:1764-1786 | the number of DRHD structures in the table |
| Dmar.GetPciBusDeviceFunction | AppSrc/VtdDump/VtdDump.c:2105-2143 | the device at the end of a scope path, each hop read from the bridge before it; special devices have no hops; for an entry that was written, the device it names |
| Dmar.ProcessScope | AppSrc/VtdDump/VtdDump.c:2192-2250 | one scope entry, for every pool: an error counts for PCI devices only, so a refused allocation for a special device is passed over |
| Dmar.ProcessScopes | AppSrc/VtdDump/VtdDump.c:2189-2255 | all entries in order up to the first error that counts, for every pool |
| Dmar.ScanSegment | AppSrc/VtdDump/VtdDump.c:2174-2187 | INCLUDE_PCI_ALL scans from bus 0; other units are left empty |
| Dmar.ProcessDhrd | AppSrc/VtdDump/VtdDump.c:2155-2256 | header, scan of the segment if asked for, then the scope entries, for every pool |
| Dmar.ProcessDrhds | AppSrc/VtdDump/VtdDump.c:2342-2361 | one unit for each DRHD in table order, up to the first error, for every pool |
| Dmar.RunIsSound | AppSrc/VtdDump/VtdDump.c:2320-2367 | for every pool and status: units separated, at most 65536 devices each, no unit holds a device that its DRHD does not assign or that an earlier unit claims, and every entry describes its device |
| Dmar.SuccessfulRun | AppSrc/VtdDump/VtdDump.c:2320-2367 | after success every unit holds exactly what its DRHD keeps, which is exactly what it assigns if and only if no special device was lost; a pool that never refuses loses none |
| Dmar.WrittenTable | AppSrc/VtdDump/VtdDump.c:2320-2367 | a table that was written becomes, after an error-free run with room for everything, one unit for each DRHD, with its base, segment and flag, and exactly the devices the DRHD is about that no earlier unit of the segment has |
| Dmar.ParseDmarAcpiTableDrhd | AppSrc/VtdDump/VtdDump.c:2320-2367 | for every table and every pool: status and contents are those of the run over its DRHDs, with the soundness of every run and the if-and-only-if for exactness after success |
| AsciiRuns.RunsAreTheSplit | AppSrc/EdkiiCoreDatabaseDump/DxeCoreDump/SupportString.c:113-247 | the left-to-right runs are the only sequence of maximal delimiter-free pieces in order that covers every non-delimiter |
| Tokenizer.RunsSkip | AppSrc/EdkiiCoreDatabaseDump/DxeCoreDump/SupportString.c:195-199 | leading delimiters do not change the split |
| Tokenizer.CutFirstRun | AppSrc/EdkiiCoreDatabaseDump/DxeCoreDump/SupportString.c:201-208 | cutting behind the first run leaves exactly the other runs to be found behind the cut |
| Tokenizer.Tokenizer.AsciiStrSpn | AppSrc/EdkiiCoreDatabaseDump/DxeCoreDump/SupportString.c:113-142 | the length of the leading delimiters |
| Tokenizer.Tokenizer.AsciiStrBrk | AppSrc/EdkiiCoreDatabaseDump/DxeCoreDump/SupportString.c:151-170 | the first delimiter before the terminator, if there is one |
| Tokenizer.Tokenizer.AsciiStrTokenLine | AppSrc/EdkiiCoreDatabaseDump/DxeCoreDump/SupportString.c:181-210 | the token is the first run left; only the delimiter behind it is overwritten; the saved cursor leaves the other runs |
| Tokenizer.Tokenizer.AsciiStrTokenField | AppSrc/EdkiiCoreDatabaseDump/DxeCoreDump/SupportString.c:221-249 | the text up to the first delimiter, possibly empty, is cut off, and the cursor is behind it |
| Tokenizer.Tokenizer.AsciiStrGetTokenLine | AppSrc/EdkiiCoreDatabaseDump/DxeCoreDump/SupportString.c:262-307 | the new/next wrappers of the line tokenizer return the first run left |
| Tokenizer.Tokenizer.AsciiStrGetTokenField | AppSrc/EdkiiCoreDatabaseDump/DxeCoreDump/SupportString.c:320-365 | so do those of the field tokenizer, which pass empty fields; all delimiters passed are overwritten |
| InPlaceSplit.AllLines | AppSrc/EdkiiCoreDatabaseDump/DxeCoreDump/SupportString.c:262-307 | repeated line tokens are the texts of all runs of the original string, and only the bytes right behind them are overwritten |
| InPlaceSplit.AllFields | AppSrc/EdkiiCoreDatabaseDump/DxeCoreDump/SupportString.c:320-365 | repeated field tokens are the same texts, and exactly the delimiters are overwritten |
| GuidTable.TwoFields | AppSrc/EdkiiCoreDatabaseDump/DxeCoreDump/SupportGuid.c:97-102 | two field calls on a cut-off line find its first two space-separated texts and write only inside that line |
| GuidTable.TailKept | AppSrc/EdkiiCoreDatabaseDump/DxeCoreDump/SupportGuid.c:96-104 | work inside a cut-off line leaves the lines behind it to be found as before |
| GuidLines.LinesFit | AppSrc/EdkiiCoreDatabaseDump/DxeCoreDump/SupportGuid.c:84-90 | if every carriage return is followed by a line feed there are no more lines than entries allocated |
| GuidLines.LinesFitExactlyWhen | AppSrc/EdkiiCoreDatabaseDump/DxeCoreDump/SupportGuid.c:84-90 | there are no more lines than entries if and only if the breaks between lines that hold no line feed are no more than the line feeds beyond the first of each break |
| GuidLines.FileLinesFitExactlyWhen | AppSrc/EdkiiCoreDatabaseDump/DxeCoreDump/SupportGuid.c:84-104 | the same for a file, whose line feeds behind the end of the text count as well |
| GuidLines.LoneReturnsOverflow | AppSrc/EdkiiCoreDatabaseDump/DxeCoreDump/SupportGuid.c:84-90 | a lone carriage return makes a line without making room for it: two lines, one entry |
| GuidNames.TableIsPrefix | AppSrc/EdkiiCoreDatabaseDump/DxeCoreDump/SupportGuid.c:45-63 | a table of max entries has exactly the first max names of the text |
| GuidNames.NothingDroppedExactlyWhen | AppSrc/EdkiiCoreDatabaseDump/DxeCoreDump/SupportGuid.c:45-48 | the capacity check drops no name if and only if no more than max lines give one |
| GuidNames.NamesComeFrom | AppSrc/EdkiiCoreDatabaseDump/DxeCoreDump/SupportGuid.c:50-63 | every name kept comes from a line: its GUID is that of the first field, its string the second field, or the first 63 characters of it, or the name of the zero GUID |
| GuidXref.XrefIsRead | AppSrc/EdkiiCoreDatabaseDump/DxeCoreDump/SupportGuid.c:84-104 | of a text that was written, with any line ends and anything behind the two words of a line, the names are those of its lines, in order |
| GuidXref.XrefTable | AppSrc/EdkiiCoreDatabaseDump/DxeCoreDump/SupportGuid.c:84-104 | the table of such a text has its first names, one more than there are line feeds at most |
| GuidXref.XrefRoundTrip | AppSrc/EdkiiCoreDatabaseDump/DxeCoreDump/SupportGuid.c:84-104 | with a line feed in every line end but the last the table has every name that was written, and no other |
| GuidXref.DroppedName | AppSrc/EdkiiCoreDatabaseDump/DxeCoreDump/SupportGuid.c:45-48 | a family of files for which it drops one: any two lines of a GUID and a name, with a lone carriage return between them |
| GuidTable.NameTable.AddGuidName | AppSrc/EdkiiCoreDatabaseDump/DxeCoreDump/SupportGuid.c:37-64 | appends the parsed GUID with its name, cut to 63 characters; nothing if the table is full or the GUID does not parse; the zero GUID gets its own name |
| GuidTable.NameTable.Find | AppSrc/EdkiiCoreDatabaseDump/DxeCoreDump/SupportGuid.c:114-129 | the first entry with the GUID, or none |
| GuidTable.AddLine | AppSrc/EdkiiCoreDatabaseDump/DxeCoreDump/SupportGuid.c:97-101 | a line adds its first two fields, or nothing |
| GuidTable.AllocateNames | AppSrc/EdkiiCoreDatabaseDump/DxeCoreDump/SupportGuid.c:84-94 | one entry for each line feed of the file and one more |
| GuidTable.ReadLines | AppSrc/EdkiiCoreDatabaseDump/DxeCoreDump/SupportGuid.c:96-104 | although fields are cut in the line buffer, the table is that of the lines of the original text |
| GuidTable.InitGuid | AppSrc/EdkiiCoreDatabaseDump/DxeCoreDump/SupportGuid.c:67-109 | for every file the table has the first names of its text, all of them if and only if the lines that give one are no more than the line feeds plus one, each from the two fields of a line; for a text that was written, the first of the names that were written |
| EventLog.GetPcrEvent2Size | AppSrc/Tcg2DumpLog/Tcg2DumpLog.c:750-779 | the size of an event, for any bytes and any digest count including zero |
| EventLog.GetDigestFromPcrEvent2 | AppSrc/Tcg2DumpLog/Tcg2DumpLog.c:782-810 | the first digest of the algorithm, or none |
| EventLog.DigestsDecode | AppSrc/Tcg2DumpLog/Tcg2DumpLog.c:795-809 | on an encoded digest list the search finds the digest's bytes exactly if the list has one, and stepping ends behind the list |
| EventLog.EventDecode | AppSrc/Tcg2DumpLog/Tcg2DumpLog.c:750-810 | parsing an encoded event gives back its PCR, type, digest and exact size |
| EventReplay.WalkVisitsEveryEvent | AppSrc/Tcg2DumpLog/Tcg2DumpLog.c:900-907 | any bound from the start of the last event to the last byte of the log makes the walk visit exactly the events, once each, and stop |
| EventReplay.CountVisitsEveryEvent | AppSrc/Tcg2DumpLog/Tcg2DumpLog.c:916-923 | the final-events table, walked by count, visits exactly its events |
| EventReplay.LastStartBounds | AppSrc/Tcg2DumpLog/Tcg2DumpLog.c:1714-1717 | the last entry's address plus its parsed size is the end of the log |
| EventHeader.HeaderInCopy | AppSrc/Tcg2DumpLog/Tcg2DumpLog.c:682-696 | in a copy of the log the header event is as long as in the original, whatever its bytes are |
| EventHeader.HeaderDecode | AppSrc/Tcg2DumpLog/Tcg2DumpLog.c:682-696 | in memory that holds a header event, with its list of banks and its vendor bytes, the banks are those and the first event is right behind it |
| EventReplay.BinFileIsTheLog | AppSrc/Tcg2DumpLog/Tcg2DumpLog.c:1714-1717 | of a log that was written the live dump visits exactly the events, and the file that -BIN writes is the log, no more and no less |
| EventReplay.FinalsDecode | AppSrc/Tcg2DumpLog/Tcg2DumpLog.c:982-993 | a final-events table that was written is walked over exactly its events |
| EventReplay.BinFileParsesAlike | AppSrc/Tcg2DumpLog/Tcg2DumpLog.c:1635-1641 | the bytes written, read to any other address, are the log there, and with the last byte as bound exactly the events of the live dump are visited, at the same distances |
| EventReplay.ExtendEvent | AppSrc/Tcg2DumpLog/Tcg2DumpLog.c:219-247 | in place: hash of old value and digest for a supported algorithm, 0xFF otherwise or without room for a context; bytes behind the digest stay |
| EventReplay.ReplayEvent | AppSrc/Tcg2DumpLog/Tcg2DumpLog.c:973-978 | only an event of the PCR that is not EV_NO_ACTION and has a digest for the bank extends |
| EventReplay.ReplayMainLog | AppSrc/Tcg2DumpLog/Tcg2DumpLog.c:971-980 | the accumulator after the log is the replay over the visited events |
| EventReplay.ReplayFinalEvents | AppSrc/Tcg2DumpLog/Tcg2DumpLog.c:982-993 | and then over the final-events table |
| EventReplay.ExpectedPcr | AppSrc/Tcg2DumpLog/Tcg2DumpLog.c:968-993 | for one bank, starting from zero |
| EventReplay.ExpectedPcrs | AppSrc/Tcg2DumpLog/Tcg2DumpLog.c:961-1003 | for every bank the header event lists, in its order; for a log that was written, the PCR values of its banks |
| EventReplay.ShowMainLog | AppSrc/Tcg2DumpLog/Tcg2DumpLog.c:895-907 | the plain dump shows exactly the events of the requested PCR, or all, in log order |
| EventReplay.ShownOfLog | AppSrc/Tcg2DumpLog/Tcg2DumpLog.c:902-906 | of a log that was written exactly the events of the PCR are shown |
| EventReplay.ReplayOfLog | AppSrc/Tcg2DumpLog/Tcg2DumpLog.c:971-980 | on an encoded log the raw replay is the fold of extend over the measured digests |
| EventReplay.ExtendAllIsPcrValue | AppSrc/Tcg2DumpLog/Tcg2DumpLog.c:219-247 | in a supported bank that fold, cut to the digest size, is the PCR value, the hash chain from zero, as long as no extend is refused its context |
| EventReplay.UnmeasuredEventsIgnored | AppSrc/Tcg2DumpLog/Tcg2DumpLog.c:973-974 | an event of another PCR, EV_NO_ACTION, or without a digest for the bank can stand anywhere without changing the measurements |
| EventReplay.UnsupportedBankIsFilled | AppSrc/Tcg2DumpLog/Tcg2DumpLog.c:228-234 | in a bank that mHashInfo lacks the first measurement fills the digest with 0xFF and no later one changes it |
| EventReplay.ReplayIsExtendAll | AppSrc/Tcg2DumpLog/Tcg2DumpLog.c:961-1003 | what is computed from memory holding any log, with or without a final-events table, is the fold over the measurements of both, in every bank |
| EventReplay.ReplayOfUnsupportedBank | AppSrc/Tcg2DumpLog/Tcg2DumpLog.c:228-234 | the value computed for such a bank is zero without measurements, otherwise 0xFF in every byte |
| EventReplay.ReplayGivesPcrValue | AppSrc/Tcg2DumpLog/Tcg2DumpLog.c:961-1003 | what is computed from memory holding any log, with or without a final-events table, is the PCR extended by the measurements of the log, then of the table, and zeros behind it, as long as none of these extends is refused its hash context |
| LogFormats.DumpFormats | AppSrc/Tcg2DumpLog/Tcg2DumpLog.c:1685-1745 | the PCRs each readable format is replayed for; the requested index is itself the loop variable |
| LogFormats.AllPcrsOnlyForFirstFormat | AppSrc/Tcg2DumpLog/Tcg2DumpLog.c:1737-1740 | -E for all PCRs covers every readable format if and only if no second format is readable |
| LogFormats.OneCallEach | AppSrc/Tcg2DumpLog/Tcg2DumpLog.c:1685-1745 | without -E, or for a given PCR, there is one call for each readable format, in their order, for what was requested |
| LogFormats.SecondFormatMissed | AppSrc/Tcg2DumpLog/Tcg2DumpLog.c:1737-1740 | with two readable formats the second is replayed for one PCR only, one past the last |
| DataDeltas.OverlayLastWins | AppSrc/PcdDump/PcdDump.c:449-457 | every byte of the overlaid data is what the last delta for it says, or the original; bytes behind the data stay |
| DataDeltas.OverlayAppend | AppSrc/PcdDump/PcdDump.c:449-457 | overlaying two lists one after the other is overlaying their concatenation |
| DataDeltas.UntouchedOverlay | AppSrc/PcdDump/PcdDump.c:452-457 | deltas out of range change nothing |
| DataDeltas.ApplyDeltas | AppSrc/PcdDump/PcdDump.c:449-457 | the loop over one block's deltas: exact buffer, whether any was in range, and where it stops |
| DataDeltas.FindDelta | AppSrc/PcdDump/PcdDump.c:177-184 | whether one of a block's deltas is in range |
| SkuDatabase.CopySkuPcdData | AppSrc/PcdDump/PcdDump.c:425-466 | the buffer is overlaid with exactly the SKU's deltas of all blocks in order; TRUE exactly if one was in range; no write leaves the data's copy |
| SkuDatabase.CopyBlocks | AppSrc/PcdDump/PcdDump.c:444-463 | the same for the loop from any block on |
| SkuDatabase.IsSkuPcd | AppSrc/PcdDump/PcdDump.c:158-192 | TRUE exactly if some SKU's copy would report a delta |
| SkuDatabase.FindInBlocks | AppSrc/PcdDump/PcdDump.c:174-190 | the same for the loop from any block on |
| SkuDatabase.NotSkuPcdMeansSameCopies | AppSrc/PcdDump/PcdDump.c:158-192 | it is FALSE exactly when every SKU's copy is the data itself and reports nothing |
| SkuEncoding.DatabaseDecode | AppSrc/PcdDump/PcdDump.c:437-463 | in memory that holds a database with blocks of deltas that were written, the walk never stalls and the deltas of every SKU are those that were written for it, in order |
| NvStore.LinesExist | AppSrc/PcdDump/PcdDump.c:1638-1700 | there is a line for the data exactly if some delta of some block is in range; refused copies are the matter of DumpAllSkuData |
| NvStoreEncoding.VariablesDecode | AppSrc/PcdDump/PcdDump.c:1568-1584 | of variables that were written the walk finds exactly these, with their data, and ends behind the last |
| NvStoreEncoding.BlocksDecode | AppSrc/PcdDump/PcdDump.c:1612-1632 | of delta blocks that were written the walk finds exactly these, with their SKUs, stores and deltas |
| NvStoreEncoding.BufferVariables | AppSrc/PcdDump/PcdDump.c:1547-1592 | in a buffer that was written, of either variable format, the variables are found where they are, and the delta blocks start behind them |
| NvStoreEncoding.BufferBlocks | AppSrc/PcdDump/PcdDump.c:1594-1635 | and the blocks are those that were written |
| NvStoreEncoding.BufferLines | AppSrc/PcdDump/PcdDump.c:1637-1700 | the lines for a variable are its data as each block with a delta for it changes it, for that block's SKU and store |
| NvStoreDump.SkipVariables | AppSrc/PcdDump/PcdDump.c:1568-1584 | the loop over the variables ends, whatever the header fields say, at the offset the other walkers compute |
| NvStoreDump.GetSkuDataFromNvStore | AppSrc/PcdDump/PcdDump.c:1547-1592 | the first delta block, if the buffer has the signature and its length leaves room for one; in a buffer that was written it is right behind the variables |
| NvStoreDump.HasSkuData | AppSrc/PcdDump/PcdDump.c:1594-1635 | TRUE exactly if some block has a delta for the data |
| NvStoreDump.FindInBlock | AppSrc/PcdDump/PcdDump.c:1618-1631 | whether the block has a delta for the data, and where the next block starts |
| NvStoreDump.DumpBlock | AppSrc/PcdDump/PcdDump.c:1663-1696 | the line of a block: the data with its deltas over a fresh copy, printed exactly if one was in range |
| NvStoreDump.DumpAllSkuData | AppSrc/PcdDump/PcdDump.c:1637-1700 | one line for each block with a delta for the data, in order, up to the first block for which the copy is refused |
| NvStoreDump.AllCopied | AppSrc/PcdDump/PcdDump.c:1667-1670 | with room for every copy no block is left out |
| NvStoreDump.DumpVariable | AppSrc/PcdDump/PcdDump.c:1771-1784 | the default marker is printed exactly if some block has a delta for the variable's data, and only then SKU lines follow |
| NvStoreDump.DumpVariables | AppSrc/PcdDump/PcdDump.c:1758-1823 | every variable of the store once, for either header format |
| NvStoreDump.DumpBlocks | AppSrc/PcdDump/PcdDump.c:1826-1851 | every delta block once, with all its deltas |
| NvStoreDump.DumpNvStore | AppSrc/PcdDump/PcdDump.c:1702-1852 | the blocks dumped are those the SKU lines come from; of a buffer that was written every variable is shown with its data and its lines, and every block with its SKU and deltas |
| FfsSections.GetSectionByType | AppSrc/PcdDump/PcdDump.c:1030-1084 | instance k is the k-th section of the type; FALSE exactly if there are not so many |
| FfsSections.GetImagePcdDb | AppSrc/PcdDump/PcdDump.c:1232-1256 | the loop over the instances ends and returns the first raw section that is a PCD database, or none |
| FfsSections.DecodeSection | AppSrc/PcdDump/PcdDump.c:1054-1058 | a section in memory, with plain or extended header, is read back: type, size, data |
| FfsSections.WalkOfStream | AppSrc/PcdDump/PcdDump.c:1053-1081 | on a well-formed stream the walk never stalls and meets exactly its sections, in order |
| FfsSections.SearchOfStream | AppSrc/PcdDump/PcdDump.c:1232-1256 | on a well-formed stream the body handed out is that of the first section that is a raw PCD database, or there is none |
| LinkRing.FindHead | AppSrc/EdkiiCoreDatabaseDump/DxeCoreDump/DxeCoreDump.c:613-634 | from any entry the search ends, at the first other entry that is not a record, or finds none |
| LinkRing.HeadIsFound | AppSrc/EdkiiCoreDatabaseDump/DxeCoreDump/DxeCoreDump.c:792-813 | in a ring with one head the search from a record finds it |
| LinkRing.DumpForward | AppSrc/EdkiiCoreDatabaseDump/DxeCoreDump/DxeCoreDump.c:593-611 | following the forward links from the head meets every other entry once, in ring order |
| LinkRing.DumpBackward | AppSrc/EdkiiCoreDatabaseDump/DxeCoreDump/DxeCoreDump.c:840-852 | following the back links meets them in the reverse order |
| LinkRing.OnlyRecordsAreDumped | AppSrc/EdkiiCoreDatabaseDump/DxeCoreDump/DxeCoreDump.c:613-634 | from any record: the dump from the entry that the search finds meets only records if and only if the ring has no second entry that is not one |
| LinkRing.DumpIsComplete | AppSrc/EdkiiCoreDatabaseDump/DxeCoreDump/DxeCoreDump.c:593-611 | either dump shows each record of the ring exactly once and nothing else |
| LinkRing.StartDoesNotMatter | AppSrc/EdkiiCoreDatabaseDump/DxeCoreDump/DxeCoreDump.c:613-634 | whichever record the search starts from, the dump is the same |
| LinkRing.DxeCore.GetHandleList | AppSrc/EdkiiCoreDatabaseDump/DxeCoreDump/DxeCoreDump.c:613-634 | sets the handle list head, if one is found |
| LinkRing.DxeCore.GetEventSignalQueue | AppSrc/EdkiiCoreDatabaseDump/DxeCoreDump/DxeCoreDump.c:792-813 | sets the head of the event signal queue, if one is found |
| LinkRing.DxeCore.GetTimerList | AppSrc/EdkiiCoreDatabaseDump/DxeCoreDump/DxeCoreDump.c:816-838 | sets the head of the timer list, if one is found |
| LinkRing.CloseEvent | AppSrc/EdkiiCoreDatabaseDump/DxeCoreDump/DxeCoreDump.c:994 | taking an entry out of the ring leaves a ring of the others in the same order |
| LinkRing.DxeCore.DumpHandles | AppSrc/EdkiiCoreDatabaseDump/DxeCoreDump/DxeCoreDump.c:947-963 | from any handle: the head is found and every handle is shown once, forward |
| LinkRing.DxeCore.DumpSignalQueue | AppSrc/EdkiiCoreDatabaseDump/DxeCoreDump/DxeCoreDump.c:992-999 | the search from the tool's dummy event finds the head; once the dummy is closed, every other event of the queue is shown once, backward |
| LinkRing.DxeCore.DumpTimerList | AppSrc/EdkiiCoreDatabaseDump/DxeCoreDump/DxeCoreDump.c:1015-1023 | the same for the timer list |
| AtaPio.IdeDev.Poll | AppSrc/AtaInfo/AtaInfo.c:1785-1811 | a poll ends after at most DELAY rounds: success exactly with the wanted bits in the last read, none before it, abort exactly on a reported abort, a timeout only after all DELAY rounds failed; where aborts are looked at, the error register is read after every status that shows an error |
| AtaPio.IdeDev.DRQClear | AppSrc/AtaInfo/AtaInfo.c:1639-1677 | success exactly with BSY and DRQ clear in the last read of the status register, an abort exactly if the error register showed one, a timeout after DELAY rounds |
| AtaPio.IdeDev.DRQClear2 | AppSrc/AtaInfo/AtaInfo.c:1680-1719 | the same in the alternate status register |
| AtaPio.IdeDev.DRQReady2 | AppSrc/AtaInfo/AtaInfo.c:1769-1812 | the same for BSY clear and DRQ set |
| AtaPio.IdeDev.DRDYReady | AppSrc/AtaInfo/AtaInfo.c:1815-1856 | the same for BSY clear and DRDY set in the status register |
| AtaPio.IdeDev.WaitForBSYClear | AppSrc/AtaInfo/AtaInfo.c:1899-1924 | success exactly with BSY clear in the last read of the status register, otherwise a timeout after DELAY rounds; never an abort |
| AtaPio.IdeDev.CheckErrorStatus | AppSrc/AtaInfo/AtaInfo.c:1928-1946 | success exactly if ERR, DWF and CORR are clear |
| AtaPio.IdeDev.IssueCommand | AppSrc/AtaInfo/AtaInfo.c:1469-1519 | the command is written only after the drive was selected while not busy, seen ready if it is a hard disk, and seen idle right before the parameters; on failure, which needs an abort or a timeout, it is not written at all |
| AtaPio.IdeDev.ReadBlock | AppSrc/AtaInfo/AtaInfo.c:1539-1565 | a block is read right after an observed BSY=0/DRQ=1 and an error-free status, and lands at its place in the buffer |
| AtaPio.IdeDev.ReadBlocks | AppSrc/AtaInfo/AtaInfo.c:1535-1569 | what was received is stored in order from the start; a failure leaves whole 256-word blocks and follows one poll that failed or one error |
| AtaPio.IdeDev.AtaPioDataIn | AppSrc/AtaInfo/AtaInfo.c:1440-1574 | for every device behaviour: ends within a bounded number of stalls; what was received is a prefix of whole blocks or everything, stored in order, and the rest of the buffer stays; an earlier exit follows a poll that itself was aborted or ran all its rounds, or an error; once everything is received the result is success if and only if the final error bits are clear, whatever the last wait gave |
| AtaPio.TimeoutIsIgnored | AppSrc/AtaInfo/AtaInfo.c:1571-1573 | a device on which every transfer succeeds although the last wait times out |
| AtaPio.RegisterBits | AppSrc/AtaInfo/AtaInfo.c:1639-1677 | which bits of the status and error registers a wait and the error check look at |
| AtaPio.HeadRegisterBits | AppSrc/AtaInfo/AtaInfo.c:1478-1481 | the head register selects the drive by bit 4, with bits 5 to 7 set and the head in bits 0 to 3 |
| AtaPio.CommandedIsProgrammed | AppSrc/AtaInfo/AtaInfo.c:1478-1513 | when the command is written every parameter is in its register, and the drive is selected |
| AtaPio.ReceivedConcat | AppSrc/AtaInfo/AtaInfo.c:1558-1568 | the words of consecutive transfers are one stream |
| Microcode.SumUpdate | AppSrc/PatchMicrocode/PatchMicrocode.c:466-469 | replacing one word changes the sum by the difference |
| Microcode.WrapThree | AppSrc/PatchMicrocode/PatchMicrocode.c:467-473 | three wrapping subtractions or additions of 32-bit words are one modulo 2^32 |
| Microcode.CompletedSum | AppSrc/PatchMicrocode/PatchMicrocode.c:497-500 | the incomplete sum plus an entry's three words is, modulo 2^32, the sum of the whole image with those words in it |
| Microcode.CalculateSum32 | AppSrc/PatchMicrocode/PatchMicrocode.c:466 | the wrapping sum of the words of a buffer |
| Microcode.DumpEntries | AppSrc/PatchMicrocode/PatchMicrocode.c:492-502 | every entry's printed checksum is that of the image with the entry in it |
| Microcode.DumpMicrocode | AppSrc/PatchMicrocode/PatchMicrocode.c:433-503 | the main checksum is the plain sum; an extended table is shown exactly if the sizes leave one, with its own sum and one checksum for each of its entries |
| Microcode.UpdateReported | AppSrc/PatchMicrocode/PatchMicrocode.c:433-503 | for an update that was written, with or without a table: the sums of the words that were written, and for each entry that of the update with the entry's signature, flags and checksum |
| GetOpt.Context.GetOpt | Library/AppUtilsLib/Utils.c:61-126 | the new state on every path: operand, lone dash, option without and with an argument, attached, separate or missing; the index advances on success and never passes Argc |
| GetOpt.Context.Scan | Library/AppUtilsLib/Utils.c:61-126 | scanning until there is no more option ends, with the items and the index of the specification |
| GetOpt.OneOption | Library/AppUtilsLib/Utils.c:84-124 | one printed option is read back and exactly its words are consumed, whichever way its argument is written |
| GetOpt.ScanOfPrinted | Library/AppUtilsLib/Utils.c:61-126 | for every list of options and operands the scan of the printed command line gives the options back in order and stops at the first operand, or behind a lone dash |
| HexString.HexStringToBuffer | Library/AppUtilsLib/Utils.c:34-59 | fills the whole buffer if the string has two characters for each byte; otherwise an error and no write |
| HexString.DecodeOfPrint | Library/AppUtilsLib/Utils.c:34-59 | decoding inverts two-digit printing of every buffer |
| HexString.PrintOfDecode | Library/AppUtilsLib/Utils.c:20-59 | printing the decoded bytes gives the string back, up to case, if and only if all its characters are hexadecimal digits |
| HexString.NotADigit | Library/AppUtilsLib/Utils.c:31 | a string with a character that is no digit, which is decoded all the same |
| BootOrder.Variables.GetNewBootIndex | AppSrc/BootOption/BootOption.c:120-193 | the number is the count of entries, put in front of the order; at the limit 0xFFFF is returned and the order stays |
| BootOrder.Variables.AddBootOption | AppSrc/BootOption/BootOption.c:195-240 | writes the option under that number and no other variable |
| BootOrder.Variables.AddAll | AppSrc/BootOption/BootOption.c:195-240 | a run of adds |
| BootOrder.RunFromAbsent | AppSrc/BootOption/BootOption.c:120-193 | k adds to an absent BootOrder give the order k-1, ..., 0, for every k up to 0xFFFF |
| BootOrder.RunKeepsAll | AppSrc/BootOption/BootOption.c:195-240 | in such a run no name is written twice: every option added is there in the end, and options numbered k and up are untouched |
| BootOrder.PermutationKept | AppSrc/BootOption/BootOption.c:160-187 | an add to a permutation of 0, ..., n-1 takes a new number and gives a permutation of 0, ..., n |
| BootOrder.PermutationKeptTimes | AppSrc/BootOption/BootOption.c:160-187 | the same over runs |
| BootOrder.NewExactlyWhen | AppSrc/BootOption/BootOption.c:160-187 | an add puts a new number into the order if and only if the count of entries is below 0xFFFF and not itself an entry |
| BootOrder.NotNew | AppSrc/BootOption/BootOption.c:163 | it does not for the order [1]: the number 1 is given again and the option there is overwritten |
| BootOrder.EntriesPrepend | AppSrc/BootOption/BootOption.c:168-172 | the stored bytes of the new order are the new number in front of the old bytes |
| LoadOption.DumpBootOption | AppSrc/BootOption/BootOption.c:70-83 | if memory holds any option that was added, the parts are its attributes, description and file path, cut to 64 KB, and the rest of the path as optional data |
| LoadOption.TextIsReadBack | AppSrc/BootOption/BootOption.c:72-74 | a stored string ends where it was ended and is read back |
| LoadOption.OptionIsReadBack | AppSrc/BootOption/BootOption.c:214-225 | the dump finds the attributes, description and file path that an add wrote |
| LoadOption.WholePathExactlyWhen | AppSrc/BootOption/BootOption.c:223 | it shows the whole path and no optional data if and only if the path is shorter than 64 KB; the rest is shown as optional data |
| LoadOption.LongPath | AppSrc/BootOption/BootOption.c:223 | a path of 64 KB is shown as optional data altogether |
| MemoryTypes.Find | AppSrc/MemoryTypeInfo/MemoryTypeInfo.c:99-106 | the pages needed for the type, if the table has it before its end |
| MemoryTypes.Adjust | AppSrc/MemoryTypeInfo/MemoryTypeInfo.c:97-146 | one pass in place: exact table, and whether it differs from before |
| MemoryTypes.EntryAdjusted | AppSrc/MemoryTypeInfo/MemoryTypeInfo.c:97-139 | every entry before the table's end gets what the heuristic says or, if its type is not needed, stays; what follows the end stays |
| MemoryTypes.NextExactly | AppSrc/MemoryTypeInfo/MemoryTypeInfo.c:122-131 | without overflow: a quarter more than needed if there were too few pages, or with defaults more than half as many again as needed; otherwise what there was; and at least four pages unless none |
| MemoryTypes.FoundIsFirst | AppSrc/MemoryTypeInfo/MemoryTypeInfo.c:103-121 | the pages of a type are those of its first entry before the end of the table |
| MemoryTypes.EnoughPages | AppSrc/MemoryTypeInfo/MemoryTypeInfo.c:122-131 | the next size covers the need, except exactly when 125% of it overflow where they are used, or an overflow of the 150% hides a shortage |
| MemoryTypes.NeedsAreMet | AppSrc/MemoryTypeInfo/MemoryTypeInfo.c:97-139 | without overflow every needed type has enough pages after one pass |
| MemoryTypes.TooFewPages | AppSrc/MemoryTypeInfo/MemoryTypeInfo.c:122-131 | a need for which it fails |
| MemoryTypes.NextIsStable | AppSrc/MemoryTypeInfo/MemoryTypeInfo.c:122-131 | an adjusted size stays, for all 32-bit numbers, overflow or not |
| MemoryTypes.SecondPass | AppSrc/MemoryTypeInfo/MemoryTypeInfo.c:97-139 | a second pass changes nothing |

## Left out

- Every `Print`, `DEBUG` and usage text, and the number of digest bytes that the event log dump prints from the replayed value.
- UEFI protocols, shell and variable services, file reading and writing: foreign calls. A file is its contents, a variable its bytes, and writing a variable succeeds.
- Hash functions, `GetHashSizeFromAlgo`, `AsciiStrToGuid`, PCI configuration reads and port reads: parameters or arbitrary values. `CalculateSum32` is modelled as the wrapping sum its name says. Configuration space does not change during a scan.
- Header layouts that are not in the repository (`PCD_DATABASE_INIT`, `PCD_DATABASE_SKU_DELTA`, `PCD_NV_STORE_DEFAULT_BUFFER_HEADER`, variable headers, the PCD database GUID) are parameters; Guid/PcdDataBaseSignatureGuid.h is not part of this model.
- Wrap-around of addresses: pointers are natural numbers. Where the code subtracts unsigned sizes, the wrap of a 64-bit build is modelled.
- The order and aliasing of the freed and reallocated device arrays: a freed array is simply dropped.
- The TCG 1.2 log format, whose loops are the simple case of the TCG 2 ones, the printing of the final-events table, and `ParseEventData`.
- `ExistInRmrr`, `ExistInIoMmuMap` and the page table checks of the VT-d dump: their range tests never reject, so there is no containment to prove. RMRR processing and the DMAR printing functions.
- `GetFfsByName` and the firmware volume search in front of the section selection, and the variant that reads sections through the firmware volume protocol.
- `GetDxeCoreProtocolDatabase`, which looks for a start record through two more rings and then searches like the others. `CloseEvent` is not part of this repository; it is modelled as the unlinking of the event. `GetIoMmuMapList` in AppSrc/VtdDump/VtdDump.c is the search of `LinkRing.FindHead` over another record type.
- The ATAPI functions and the polling functions that `AtaPioDataIn` does not use.
- `GetShellArgcArgv`, and the device path text in `AddBootOption`: the file path is an arbitrary byte string.
- The ACPI, SCSI, USB, FMP and HSTI dumpers and the samples: field by field printing.
