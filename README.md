# Library link order from object symbols

A Dafny model of the library link-order resolver of the oovBuilder tool. The
resolver is `ObjSymbols` in `source/oovBuilder/ObjSymbols.cpp`.

For a *clump* of static libraries that are linked together, the resolver works like this:

1. It reads the symbol dump of each library (the output of an `nm`-like tool,
   cached in a symbol directory).
2. It records the defined and undefined symbols in two name-ordered tables,
   together with the file index of the library that first recorded it.
   The type letters `D` (data) and `T` (text) are meant as defined and `U`
   as undefined. As written, the address skip also swallows the letter `D`,
   a hex digit, so a `D` line with an address is never recorded as `D`.
   The model reads the dumps as written; the intended classifier is stated
   beside it (see "## Findings").
3. It resolves each undefined symbol against the defined table, which adds
   the dependency "client library uses supplier library".
4. It orders the libraries so that clients come before their suppliers
   (libraries caught in a cycle lead the order).
5. It writes three files:
   - `LibSym-<clump>-Def.txt` and `LibSym-<clump>-Undef.txt` hold the two
     tables;
   - `LibSym-<clump>-Dep.txt` holds the library paths (`f:` lines), the
     dependency map (`d:` lines) and the link order (one `o:` line).

A later reader turns the `Dep.txt` file back into the ordered list of
library paths.

The modules follow the source's classes:

| module | file | what it models |
|---|---|---|
| `Text` | `text.dfy` | character classes of `isspace`/`isxdigit`/`isdigit`; the pointer-skipping loops; `fgets` lines; `%d` printing and reading |
| `SymbolTable` | `symbol_table.dfy` | `FileSymbol`; `FileSymbols`, a `std::set` ordered by name, as a class over a sorted sequence with an owner view (name to file index); `writeSymbols` |
| `SymbolDump` | `symbol_dump.dfy` | the per-line classification of a symbol dump in `readRawSymbolFile` |
| `Dependencies` | `dependencies.dfy` | `FileDependencies`, a map from client index to a set of supplier indices, as a class |
| `LinkOrder` | `order.dfy` | `FileIndices` as a class; `orderDependencies` and its specification `Placement` |
| `LinkOrderFacts` | `order_facts.dfy` | what the order means: a permutation; uniquely determined; clients before suppliers; complete for acyclic maps; two worked examples |
| `DepFile` | `dep_file.dfy` | `FileList::writeFile`, `writeDepFileInfo` and `appendOrderedLibFileNames`, with the round trip from writer to reader |
| `Clump` | `clump.dfy` | `ClumpSymbols` as a class; `makeObjectSymbols` and `makeClumpSymbols` over an `Environment` of file names, dates, tool runs and file contents |

The source's mutable objects are Dafny classes whose methods modify their
fields:
- `FileSymbols`, `FileDependencies`, `FileIndices` and `ClumpSymbols`;
- the loops of `findValue`, `removeValue`, `removeEmptyClient`,
  `orderDependencies`, `readRawSymbolFile`, `resolveUndefinedSymbols`,
  `makeObjectSymbols` and `appendOrderedLibFileNames`.

Each method is proved against a specification function, and the properties
that matter are lemmas about those functions.

## Model

| member | source | states |
|---|---|---|
| Text.SkipWhile | source/oovBuilder/ObjSymbols.cpp:259-269 | the position a skip loop stops at: every character skipped is in the class, and the one it stops at is not (or is the end of the line) |
| Text.SkipWhileIs | source/oovBuilder/ObjSymbols.cpp:259-269 | a position with those two properties is the one the skip loop stops at |
| Text.Skip | source/oovBuilder/ObjSymbols.cpp:259-269 | the pointer-walking loop stops where `SkipWhile` says |
| Text.LineEnd | source/oovBuilder/ObjSymbols.cpp:257 | an `fgets` line ends just after the first newline, or at the end of the text |
| Text.LinesOfConcat | source/oovBuilder/ObjSymbols.cpp:257 | splitting the concatenation of newline-terminated lines with `fgets` gives those lines back |
| Text.ConcatAppend | source/oovBuilder/ObjSymbols.cpp:194-209 | writing two groups of lines one after the other writes their concatenation |
| Text.Decimal | source/oovBuilder/ObjSymbols.cpp:110 | `%d` of a non-negative number is a non-empty run of digits |
| Text.DecimalRoundTrip | source/oovBuilder/ObjSymbols.cpp:508 | reading back the digits `%d` printed gives the number |
| Text.DigitRunLength | source/oovBuilder/ObjSymbols.cpp:511-512 | the digit-skipping loop stops at the first non-digit |
| Text.DigitRunLengthOfDigits | source/oovBuilder/ObjSymbols.cpp:511-512 | after a printed number followed by a non-digit, the loop stops exactly at the end of the number |
| Text.DigitRunsOfDecimal | source/oovBuilder/ObjSymbols.cpp:503-517 | scanning a printed number and then a separator reads that number first |
| SymbolTable.NameLessIrreflexive | source/oovBuilder/ObjSymbols.cpp:22-23 | no name is before itself in the table's order |
| SymbolTable.NameLessTransitive | source/oovBuilder/ObjSymbols.cpp:22-23 | the name order is transitive |
| SymbolTable.NameLessTrichotomy | source/oovBuilder/ObjSymbols.cpp:22-23 | of two different names, one is before the other, so the order is total |
| SymbolTable.SortedUnique | source/oovBuilder/ObjSymbols.cpp:90 | two name-ordered tables with the same entries are the same sequence, so a set is determined by its elements |
| SymbolTable.LowerBound | source/oovBuilder/ObjSymbols.cpp:93-98 | the insertion/search position: every entry before it has a smaller name, every entry from it on does not |
| SymbolTable.Insert | source/oovBuilder/ObjSymbols.cpp:93-94 | `std::set::insert`: the table stays name-ordered; a name already present leaves it unchanged; a new name adds exactly the new entry; the names gain the new name |
| SymbolTable.EraseElements | source/oovBuilder/ObjSymbols.cpp:299 | erasing one entry of an ordered table keeps it ordered and removes exactly that entry and its name |
| SymbolTable.OwnersOfSorted | source/oovBuilder/ObjSymbols.cpp:90 | in an ordered table, an entry is present exactly when the owner view maps its name to its file index |
| SymbolTable.OwnersDetermine | source/oovBuilder/ObjSymbols.cpp:90 | the owner view loses nothing: two ordered tables with the same view are equal |
| SymbolTable.EraseOwners | source/oovBuilder/ObjSymbols.cpp:299 | erasing an entry removes its name from the owner view and changes nothing else |
| SymbolTable.InsertOwners | source/oovBuilder/ObjSymbols.cpp:93-94 | in the owner view, `insert` adds a name with its index only if the name is absent: the first owner stays |
| SymbolTable.InsertedEntry | source/oovBuilder/ObjSymbols.cpp:93-94 | inserting a new name into an ordered table adds only the new entry: an entry with that name is the new one, any other was there before |
| SymbolTable.OwnerEntry | source/oovBuilder/ObjSymbols.cpp:90 | every name in an ordered table has an entry, the one holding the owner the owner view gives |
| SymbolTable.OwnerOfEntry | source/oovBuilder/ObjSymbols.cpp:90 | every entry of an ordered table is what the owner view says for its name |
| SymbolTable.SymbolLineRoundTrip | source/oovBuilder/ObjSymbols.cpp:110 | a `<name> <index>` line of a name without white space reads back as that entry |
| SymbolTable.SymbolsTextRoundTrip | source/oovBuilder/ObjSymbols.cpp:103-115 | the written table has one line per entry, in table order, and each reads back as its entry |
| SymbolTable.SymbolLineShape | source/oovBuilder/ObjSymbols.cpp:110 | a `<name> <index>` line is one newline-terminated line |
| SymbolTable.SplitAtSpace | source/oovBuilder/ObjSymbols.cpp:110 | in such a line the first space ends the name, and what follows it is the rest of the line |
| SymbolTable.FileSymbols.Add | source/oovBuilder/ObjSymbols.cpp:93-94 | the table becomes `Insert` of the new entry, and its owner view gains the name only if it was absent |
| SymbolTable.FileSymbols.FindName | source/oovBuilder/ObjSymbols.cpp:95-99 | `find` by name: the position of the only entry with that name, or the end exactly when no entry has it |
| SymbolTable.FileSymbols.Erase | source/oovBuilder/ObjSymbols.cpp:299 | the entry is removed; the entries, names and owner view lose exactly it; the table stays ordered |
| SymbolTable.FileSymbols.WriteSymbols | source/oovBuilder/ObjSymbols.cpp:103-115 | the file written has one line per entry, in name order, each reading back as its entry |
| SymbolDump.KindOf | source/oovBuilder/ObjSymbols.cpp:270-279 | `D` and `T` are defined symbols, `U` is undefined, and every other letter is ignored |
| SymbolDump.EntryAt | source/oovBuilder/ObjSymbols.cpp:265-269 | a recorded name never holds white space, with the classifier as written and as corrected (both read the name through it) |
| SymbolDump.ClassifyNmLine | source/oovBuilder/ObjSymbols.cpp:259-279 | an `nm` line `<address> <letter> <name>` is classified by its letter and records its name, for any hex address or a blank one (as for `U` lines) |
| SymbolDump.AsWrittenRecords | source/oovBuilder/ObjSymbols.cpp:259-279 | as written, the type letter is the first character that is neither space nor hex digit |
| SymbolDump.AsWrittenMissesDataSymbol | source/oovBuilder/ObjSymbols.cpp:260-261 | as written, a data symbol line (type `D`) records nothing |
| SymbolDump.AsWrittenSkipsLetter | source/oovBuilder/ObjSymbols.cpp:260-261 | as written, when a `D` line's name starts with a hex digit, the address skip runs through the type letter and that digit and stops at the second character of the name |
| SymbolDump.ClassifyReadsDataSymbol | source/oovBuilder/ObjSymbols.cpp:259-279 | corrected, that data symbol line records a defined symbol |
| SymbolDump.ScanLine | source/oovBuilder/ObjSymbols.cpp:259-279 | the pointer walk over one line, with the single `isspace || isxdigit` skip as written, gives the classification as written |
| Dependencies.Without | source/oovBuilder/ObjSymbols.cpp:63-72 | after removing a file, exactly the edges to other suppliers remain, and no client is left without a supplier |
| Dependencies.EdgesAdded | source/oovBuilder/ObjSymbols.cpp:43-56 | a map that differs by one new edge has exactly that pair added |
| Dependencies.ClientHasSupplier | source/oovBuilder/ObjSymbols.cpp:58-61 | a listed client of a map without empty sets has a supplier |
| Dependencies.FileDependencies.constructor | source/oovBuilder/ObjSymbols.cpp:154 | the clump's map starts empty |
| Dependencies.FileDependencies.Copy | source/oovBuilder/ObjSymbols.cpp:218 | the working copy holds the same map |
| Dependencies.FileDependencies.AddDependency | source/oovBuilder/ObjSymbols.cpp:43-56 | the client's supplier set gains the supplier, a new client getting a set of just it; no other edge changes; no empty set appears |
| Dependencies.FileDependencies.DependentOnAny | source/oovBuilder/ObjSymbols.cpp:58-61 | in a map without empty sets, a file is a key exactly when it depends on some file |
| Dependencies.FileDependencies.RemoveEmptyClient | source/oovBuilder/ObjSymbols.cpp:74-87 | removes the smallest client with an empty set, telling whether there was one, and otherwise leaves the map alone |
| Dependencies.FileDependencies.RemoveValue | source/oovBuilder/ObjSymbols.cpp:63-72 | the map becomes `Without` the file |
| Dependencies.FileDependencies.EraseSupplier | source/oovBuilder/ObjSymbols.cpp:65-68 | the file leaves every supplier set, and every client stays listed |
| Dependencies.FileDependencies.DropEmptyClients | source/oovBuilder/ObjSymbols.cpp:69-71 | after the file has left every set, dropping the clients left without a supplier gives `Without` the file |
| LinkOrder.Reverse | source/oovBuilder/ObjSymbols.cpp:236 | inserting at the front one by one lists the items in reverse |
| LinkOrder.ReverseAppend | source/oovBuilder/ObjSymbols.cpp:247 | one more insertion at the front puts that item first |
| LinkOrder.FirstIndex | source/oovBuilder/ObjSymbols.cpp:170-182 | the first position holding the value, or the end exactly when it is absent |
| LinkOrder.FileIndices.constructor | source/oovBuilder/ObjSymbols.cpp:219 | a list of indices starts empty |
| LinkOrder.FileIndices.FindValue | source/oovBuilder/ObjSymbols.cpp:170-182 | the loop returns the first position of the value |
| LinkOrder.FileIndices.RemoveValue | source/oovBuilder/ObjSymbols.cpp:163-168 | erases the first occurrence of the value, if any, and nothing else |
| LinkOrder.IncreasingBelow | source/oovBuilder/ObjSymbols.cpp:163-168 | in an increasing list a smaller value sits earlier, and a value sits at only one position |
| LinkOrder.IncreasingFirstIndex | source/oovBuilder/ObjSymbols.cpp:170-182 | in an increasing list the search for a value finds the position it is at |
| LinkOrder.TrimNone | source/oovBuilder/ObjSymbols.cpp:218 | before anything is placed, the working map is the clump's map |
| LinkOrder.TrimStep | source/oovBuilder/ObjSymbols.cpp:238 | removing the file just placed from the working map gives the map trimmed by one more placed file |
| LinkOrder.PlacedPrefixExtend | source/oovBuilder/ObjSymbols.cpp:231-240 | placing the smallest free file extends a valid run |
| LinkOrder.EraseIncreasing | source/oovBuilder/ObjSymbols.cpp:237 | erasing from the increasing list of remaining files leaves it increasing and removes exactly that file |
| LinkOrder.PlaceStep | source/oovBuilder/ObjSymbols.cpp:231-240 | one turn of the outer loop: the first free file of the remaining list is placed, and the remaining list stays the increasing list of the unplaced files |
| LinkOrder.PlaceFirstFree | source/oovBuilder/ObjSymbols.cpp:231-241 | one scan either places the first free remaining file at the front of the order, or finds every remaining file blocked and changes nothing |
| LinkOrder.PlaceAt | source/oovBuilder/ObjSymbols.cpp:233-239 | placing the first free file appends it to the run, puts it at the front of the order and keeps the working state that of the longer run |
| LinkOrder.AllFiles | source/oovBuilder/ObjSymbols.cpp:219-223 | the remaining list starts as `0 .. numFiles-1` in increasing order |
| LinkOrder.PrependAll | source/oovBuilder/ObjSymbols.cpp:244-248 | the files left over are put in front of the order one by one, so they lead it in reverse |
| LinkOrder.OrderDependencies | source/oovBuilder/ObjSymbols.cpp:215-249 | the run is the unique `Placement` of the map, the order gains `LinkOrderOf` that placement in front, and the clump's map is unchanged |
| LinkOrderFacts.ReverseMembers | source/oovBuilder/ObjSymbols.cpp:236 | front insertion keeps exactly the same files |
| LinkOrderFacts.ReverseDistinct | source/oovBuilder/ObjSymbols.cpp:236 | front insertion of distinct files gives distinct files |
| LinkOrderFacts.LinkOrderIsPermutation | source/oovBuilder/ObjSymbols.cpp:215-249 | the order lists every file index of the clump exactly once |
| LinkOrderFacts.PlacementUnique | source/oovBuilder/ObjSymbols.cpp:225-248 | the order is determined by the map: two placements of the same map are equal |
| LinkOrderFacts.PlacedBeforeSuppliers | source/oovBuilder/ObjSymbols.cpp:231-240 | every placed library comes before each library it depends on |
| LinkOrderFacts.AcyclicOrder | source/oovBuilder/ObjSymbols.cpp:225-248 | for a map without cycles (shown by a rank), nothing is left over and every client comes before each of its suppliers |
| LinkOrderFacts.LeftoversLead | source/oovBuilder/ObjSymbols.cpp:243-248 | libraries caught in a cycle come first, in decreasing index order |
| LinkOrderFacts.ChainExample | source/oovBuilder/ObjSymbols.cpp:215-249 | 2 uses 1 and 1 uses 0: the order is 2, 1, 0 |
| LinkOrderFacts.CycleExample | source/oovBuilder/ObjSymbols.cpp:243-248 | 0 and 1 use each other and 2 is free: the order is 1, 0, 2 |
| LinkOrderFacts.ChainOrder | source/oovBuilder/ObjSymbols.cpp:215-249 | for the chain 2 uses 1 uses 0, the placement 0, 1, 2 gives the order 2, 1, 0 |
| LinkOrderFacts.CycleOrder | source/oovBuilder/ObjSymbols.cpp:243-248 | with 2 placed and 0, 1 left over, the leftovers lead the order: 1, 0, 2 |
| DepFile.Minimum | source/oovBuilder/ObjSymbols.cpp:195 | a non-empty set of indices has a least element |
| DepFile.Ascending | source/oovBuilder/ObjSymbols.cpp:195-201 | map keys and set elements are visited in increasing order, each exactly once |
| DepFile.LastIndexOf | source/oovBuilder/ObjSymbols.cpp:495 | `rfind`: the last position of the character, or none when it does not occur |
| DepFile.EmptyPathAsWritten | source/oovBuilder/ObjSymbols.cpp:494-497 | as written, the `f:` line of an empty path reads back as a newline; corrected, it reads back as an empty path |
| DepFile.FileNamesAppend | source/oovBuilder/ObjSymbols.cpp:490-519 | reading two groups of lines collects the paths and indices of the first group, then those of the second |
| DepFile.FileNamesOfAppend | source/oovBuilder/ObjSymbols.cpp:490-499 | the paths read from two groups of lines are those of the first, then those of the second |
| DepFile.IndicesOfAppend | source/oovBuilder/ObjSymbols.cpp:500-518 | the indices read from two groups of lines are those of the first, then those of the second |
| DepFile.ReadOneMore | source/oovBuilder/ObjSymbols.cpp:492-518 | one more `f:` line adds its path, cut as written; one more `o:` line adds its numbers; any other line adds nothing |
| DepFile.AppendOrderedLibFileNames | source/oovBuilder/ObjSymbols.cpp:484-525 | a missing file leaves the list alone; a file present appends the path of each `o:` index, in order, with the paths cut as written |
| DepFile.ReadDepLines | source/oovBuilder/ObjSymbols.cpp:490-519 | the line loop collects exactly the `f:` paths, cut as written, and the `o:` numbers of the file, in order |
| DepFile.AppendSelected | source/oovBuilder/ObjSymbols.cpp:520-523 | appends the path of each index, in order |
| DepFile.ReadIndices | source/oovBuilder/ObjSymbols.cpp:502-517 | the scan of an `o:` line reads each run of digits as one number, in order |
| DepFile.DecimalNoNewline | source/oovBuilder/ObjSymbols.cpp:197 | a printed number holds no newline |
| DepFile.NumbersChars | source/oovBuilder/ObjSymbols.cpp:200 | a `%d ` list holds only digits and spaces |
| DepFile.NumbersRoundTrip | source/oovBuilder/ObjSymbols.cpp:204-209 | scanning a `%d ` list ended by a newline gives back the numbers |
| DepFile.FileLineRoundTrip | source/oovBuilder/ObjSymbols.cpp:128 | corrected, the `f:` line of any path without a newline, the empty path included, is one readable line that reads back as the path |
| DepFile.FileLineAsWritten | source/oovBuilder/ObjSymbols.cpp:494-497 | as written, the `f:` line of a non-empty path without a newline reads back as that path |
| DepFile.PathsAgree | source/oovBuilder/ObjSymbols.cpp:494-497 | the cut as written and the corrected cut agree unless the newline is the first character after the tag |
| DepFile.OrderLineRoundTrip | source/oovBuilder/ObjSymbols.cpp:204-209 | the `o:` line is one readable line whose numbers are the order |
| DepFile.DepLineShape | source/oovBuilder/ObjSymbols.cpp:197-202 | each `d:` line is one readable line the order reader skips |
| DepFile.UntaggedLines | source/oovBuilder/ObjSymbols.cpp:492-518 | `d:` lines contribute no paths and no indices |
| DepFile.FileLinesRoundTrip | source/oovBuilder/ObjSymbols.cpp:124-130 | the `f:` lines of non-empty one-line paths read back as the paths, in order, with no indices |
| DepFile.DepLinesShape | source/oovBuilder/ObjSymbols.cpp:195-203 | every `d:` line of the map is a readable line the reader skips |
| DepFile.WrittenLines | source/oovBuilder/ObjSymbols.cpp:188-213 | the file splits back into its `f:` lines, its `d:` lines and its `o:` line |
| DepFile.HeaderLines | source/oovBuilder/ObjSymbols.cpp:188-203 | the `f:` and `d:` lines are readable and read back as the paths, with no indices |
| DepFile.OrderLineRead | source/oovBuilder/ObjSymbols.cpp:204-209 | the `o:` line is readable and reads back as no path and exactly the order |
| DepFile.DepFileRoundTrip | source/oovBuilder/ObjSymbols.cpp:188-213 | for non-empty one-line paths, the written file is readable, and reading it selects the paths the order names, in order |
| Clump.DataSymbolNotDefined | source/oovBuilder/ObjSymbols.cpp:259-279 | as written, reading the line `0000000000000010 D counter` leaves the defined table as it was |
| Clump.RecordedMeans | source/oovBuilder/ObjSymbols.cpp:257-279 | a dump records a name of a kind exactly when one of its lines classifies as that name of that kind |
| Clump.RecordedSource | source/oovBuilder/ObjSymbols.cpp:257-279 | a recorded name comes from a line that classifies as it |
| Clump.RecordedAt | source/oovBuilder/ObjSymbols.cpp:257-279 | a line that classifies as a name of a kind records that name |
| Clump.LineNamesMeans | source/oovBuilder/ObjSymbols.cpp:259-279 | one line records a name of a kind exactly when it classifies as that name of that kind |
| Clump.IngestLinesEffect | source/oovBuilder/ObjSymbols.cpp:257-280 | reading a dump keeps every name already present with its owner, and gives each newly recorded name to this library |
| Clump.AddEntryEffect | source/oovBuilder/ObjSymbols.cpp:270-279 | one more classified line keeps the names present with their owners and gives its name, if new, to this library |
| Clump.IngestTextEffect | source/oovBuilder/ObjSymbols.cpp:253-282 | the same for a dump file, which adds nothing when it cannot be opened |
| Clump.AllNamesHas | source/oovBuilder/ObjSymbols.cpp:418-445 | every dump's names are among all names read |
| Clump.FirstOwnerWins | source/oovBuilder/ObjSymbols.cpp:304-311 | after reading several dumps in order, a name already present keeps its owner, the table gains exactly the names the dumps record, and each new name belongs to the first dump that records it |
| Clump.FirstOwnerLast | source/oovBuilder/ObjSymbols.cpp:304-311 | reading the last dump keeps the first-owner property of the dumps before it |
| Clump.FirstOwnerStep | source/oovBuilder/ObjSymbols.cpp:304-311 | a table that adds the last dump's new names under its index keeps the first-owner property |
| Clump.EarlierRecorder | source/oovBuilder/ObjSymbols.cpp:304-311 | one more dump does not change who first recorded a name |
| Clump.NewLastOwner | source/oovBuilder/ObjSymbols.cpp:304-311 | a name only the last dump records belongs to the last dump |
| Clump.NoSelfEdge | source/oovBuilder/ObjSymbols.cpp:295-298 | resolution never makes a library depend on itself |
| Clump.ResolvedEdgesStep | source/oovBuilder/ObjSymbols.cpp:287-301 | resolving one more defined name adds at most the edge from its undefined owner to its defined owner, and only when they differ |
| Clump.PrefixStep | source/oovBuilder/ObjSymbols.cpp:287 | walking the ordered defined table meets each name once |
| Clump.ClumpSymbols.constructor | source/oovBuilder/ObjSymbols.cpp:141-160 | a new clump has empty tables, map, order and file list |
| Clump.ClumpSymbols.ReadRawSymbolFile | source/oovBuilder/ObjSymbols.cpp:251-283 | each table's owner view becomes the dump read into it: the defined names and the undefined names the dump records are added under this file index, and names already present keep their owners |
| Clump.ClumpSymbols.ReadSymbolLine | source/oovBuilder/ObjSymbols.cpp:259-279 | one dump line adds its defined or undefined name, if new, under this library's index |
| Clump.ClumpSymbols.ReadEntry | source/oovBuilder/ObjSymbols.cpp:270-279 | a classified entry goes to the table of its kind; none adds nothing |
| Clump.ClumpSymbols.AddDefined | source/oovBuilder/ObjSymbols.cpp:273 | the defined owner view gains the name only if absent; the undefined table is unchanged |
| Clump.ClumpSymbols.AddUndefined | source/oovBuilder/ObjSymbols.cpp:278 | the undefined owner view gains the name only if absent; the defined table is unchanged |
| Clump.ClumpSymbols.AddSymbols | source/oovBuilder/ObjSymbols.cpp:304-311 | the library's path is appended, and its dump is read under its new file index (the number of libraries before it) |
| Clump.ClumpSymbols.ReadDump | source/oovBuilder/ObjSymbols.cpp:304-311 | reading one more dump extends what has been read by that dump |
| Clump.ClumpSymbols.ResolveSymbol | source/oovBuilder/ObjSymbols.cpp:289-300 | one defined name: its undefined entry is erased, and its edge is added when the two owners differ |
| Clump.ClumpSymbols.AddSupplier | source/oovBuilder/ObjSymbols.cpp:295-298 | the edges gain the client/supplier pair when the two differ, and nothing otherwise |
| Clump.ClumpSymbols.ResolveUndefinedSymbols | source/oovBuilder/ObjSymbols.cpp:285-302 | the defined table is unchanged; exactly the defined names leave the undefined table; the edges gain one pair per resolved name whose two owners differ |
| Clump.ClumpSymbols.WriteClumpFiles | source/oovBuilder/ObjSymbols.cpp:313-337 | resolves, orders the libraries by the unique placement of the resolved map, and writes the two tables and the dependency file under the three names; each table file reads back line by line as its entries, in name order |
| SymbolTable.InsertClean | source/oovBuilder/ObjSymbols.cpp:93-94 | adding a name without white space keeps every name of the table free of white space, so the clump's tables always can be written and read back |
| Clump.ClumpFileNamesDistinct | source/oovBuilder/ObjSymbols.cpp:319-332 | the three clump files have three different names |
| Clump.ClumpFiles | source/oovBuilder/ObjSymbols.cpp:333-336 | exactly the three clump files are written, each with its own text |
| Clump.Ingestion | source/oovBuilder/ObjSymbols.cpp:418-445 | the bound only: no more dumps are read than there are libraries (which dumps they are is `Clump.IngestionSelects`) |
| Clump.IngestionSelects | source/oovBuilder/ObjSymbols.cpp:418-445 | the dumps read are exactly the libraries whose cache is current or whose tool run succeeds, in library order, each with the text of its cache file |
| Clump.SelectsStep | source/oovBuilder/ObjSymbols.cpp:420-444 | one more library is added at the end of the dumps exactly when it is read |
| Clump.IngestionAll | source/oovBuilder/ObjSymbols.cpp:418-445 | when every tool run succeeds, every library is read once, in order |
| Clump.IngestionFromLibraries | source/oovBuilder/ObjSymbols.cpp:418-445 | every dump read belongs to a library of the clump |
| Clump.ReadLibraries | source/oovBuilder/ObjSymbols.cpp:418-445 | the loop over the libraries reads exactly the dumps `Ingestion` lists, in library order |
| Clump.MakeLibFileNames | source/oovBuilder/ObjSymbols.cpp:377-408 | one entry per library with its cache file and staleness; generated exactly when some cache is stale |
| Clump.ReadLibrary | source/oovBuilder/ObjSymbols.cpp:420-444 | a library with a current cache is read; a stale one only when its tool run succeeds |
| Clump.MakeObjectSymbols | source/oovBuilder/ObjSymbols.cpp:358-452 | returns whether some cache is stale; if none is, nothing is read; otherwise the libraries read are appended in order and their dumps are read under consecutive file indices |
| Clump.MakeClumpSymbols | source/oovBuilder/ObjSymbols.cpp:454-472 | always succeeds; writes nothing when no cache is stale; otherwise writes exactly the three files, and for non-empty one-line library paths the dependency file reads back as the libraries read, with an order naming each exactly once |
| Clump.DepFileReadsBack | source/oovBuilder/ObjSymbols.cpp:333-336 | the dependency file of a placement reads back as the libraries, with an order naming each exactly once |

## Left out

- Concurrency (the mutex, the task queue and `ObjTaskListener`): with several threads, a stale library gets its file index when its tool run completes. The model reads the libraries one after another in library order, as the single-threaded branch does. It keeps the rule that a library is added only when its tool run succeeds (lines 350-353).
- Running the symbol tool (`OovProcessChildArgs`, `quoteCommandLinePath`, `ProcessArgs`, `ComponentBuilder::runProcess`) is left out. Its outcome is the `Environment.runTool` parameter.
- File I/O is left out. Files read are the `Environment.readFile` parameter (`None` when `fopen` fails), and files written are returned as a map from name to text.
- The `bool` results of `writeSymbols` and `writeDepFileInfo` are not modelled. `writeClumpFiles` ignores them, and a failed `fopen` writes nothing.
- `FilePath`, `discardDirectory`, `discardExtension`, `ensureLastPathSep` and `ensurePathExists` are not modelled. The cache file name is the `Environment.cacheFileName` parameter.
- The file dates behind `FileStat::isOutputOld` are not modelled. Staleness is the `Environment.isOutputOld` parameter.
- `ObjSymbols::appendOrderedLibs` (lines 528-543) is not modelled: it only splits each path into a name and a directory with `FilePath`, which is not part of this model.
- The fixed `fgets` buffers (2000 and 500 bytes) are not modelled: every line is taken whole. A longer line would be split into pieces, and an `f:` piece without a newline would reach `resize(npos)`. An `o:` line of 500 bytes or more is split as well: its continuation pieces start with a digit or a space, not `o`, so the reader skips them and their indices are lost, and a number cut at the boundary is read as two numbers. `DepFile.DepFileRoundTrip` and the read-back clause of `Clump.MakeClumpSymbols` therefore hold only for files whose lines fit the buffers.
- NUL characters inside a line are not modelled.
- `readRawSymbolFile` walks past the end of a line in three cases that the model does not follow. The model reads no further than the end of the line:
  - a line whose name runs to the end of the buffer without trailing white space: the name scan leaves the line. The model ends the name at the end of the line;
  - a line whose type letter is followed only by white space (`0010 T \n`, `0010 U\n`): the skip at line 265 crosses the newline to the terminating NUL, and the name scan at lines 267-268 then walks through stale bytes of the buffer, so the source records a garbage name. The model records the empty name;
  - a line of white space and hex digits only (`\n`, `0010\n`): the skip at lines 260-261 stops at the NUL, which is taken as the type, and `p++` at line 264 steps past it. Neither the source nor the model records anything, but the source reads beyond the line.
- `sscanf("%d")` overflow on very long digit runs is not modelled: indices are unbounded naturals.
- File indices and symbol table indices are modelled as `nat`, not `int`; the source only produces non-negative ones.
- `FileSymbols::findName` builds a probe entry with index -1; the model searches by name directly.
- DepFile.AppendOrderedLibFileNames: requires that every line is readable and that every `o:` index names an `f:` path. The source indexes `filenames` unchecked, and `DepFile.DepFileRoundTrip` shows that every file the writer produces meets this requirement.
- The `#else` single-threaded branch of `makeObjectSymbols` (lines 433-438) does not compile as written (it names undeclared variables). The model follows its sequential meaning.
- `makeClumpSymbols` writes nothing when no cache is stale, even when the clump files are missing: the `fileExists` test is commented out (line 466), and the model does the same.
- `writeClumpFiles` uses the output path as given, while `appendOrderedLibFileNames` adds a path separator first (`ensureLastPathSep`). The model's writer names the files with the path as given; its reader builds no file name at all and takes the text of the file it opens (`content`, `None` when `fopen` fails).
- DepFile.DepFileRoundTrip: requires non-empty paths. As written, the `f:` line of an empty path reads back as a newline (see "## Findings"), so the round trip fails for it; `DepFile.FileLineRoundTrip` states it for every path with the corrected cut.
- Clump.MakeClumpSymbols: the dependency file is promised to read back only when every library path is non-empty and has no newline, for the same reason.
- DepFile.ReadableLine: an `f:` line without a newline after the tag (`f:abc` at the end of the file, or `f\n`) makes `rfind` return `npos` and `fn.resize(npos)` throw. The model does not model the exception: such a line is not readable, and the reader requires readable lines. A one-character `o` line at the end of the file (no newline) is excluded too: there `&buf[2]` starts past the terminating NUL and the scan reads stale bytes of the buffer.
- Nothing in `ObjSymbols.cpp` reads the `Def.txt` and `Undef.txt` tables back. `SymbolTable.ParseSymbolLine` is a reader defined only to state their round trip.

## Findings

| source | as written | input that shows it | evidently intended | confidence | as-written member | corrected member |
|---|---|---|---|---|---|---|
| source/oovBuilder/ObjSymbols.cpp:260-261 | the address is skipped with `while(isspace(*p) \|\| isxdigit(*p))`, which also swallows the type letter `D`, a hex digit; a later character is then taken as the type | the `nm` line `0000000000000010 D counter\n` records nothing, so a data symbol is never defined and its users never depend on its library | skip white space, then hex digits, then white space, and take the next character as the type | high, not executed | SymbolDump.ClassifyAsWritten, SymbolDump.AsWrittenMissesDataSymbol | SymbolDump.Classify, SymbolDump.ClassifyReadsDataSymbol, SymbolDump.ClassifyNmLine |
| source/oovBuilder/ObjSymbols.cpp:495-497 | `if(pos)` reads a newline at position 0 as "no newline", so the newline is not cut off | the line `f:\n` (an empty path) reads back as the path `"\n"` | cut at the newline whenever `rfind` finds one (`pos != npos`) | medium, not executed | DepFile.PathOfAsWritten, DepFile.EmptyPathAsWritten | DepFile.PathOf, DepFile.FileLineRoundTrip |
