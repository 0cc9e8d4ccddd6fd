/** The clump of libraries linked together (`ClumpSymbols`) and the two
    entry points that fill it and write its files
    (`ObjSymbols::makeObjectSymbols`, `ObjSymbols::makeClumpSymbols`).
    Every library a clump reads gets the next file index; its defined
    symbols go to one table, its undefined symbols to the other, and the
    first library to record a name owns it. */
module Clump {
  import opened Text
  import opened SymbolTable
  import opened SymbolDump
  import opened Dependencies
  import opened LinkOrder
  import LinkOrderFacts
  import opened DepFile

  // ---------------------------------------------------------------------
  // Reading one symbol dump

  /** The names of kind `k` one line records. */
  function LineNames(line: string, k: Kind): set<string> {
    EntryNames(ClassifyAsWritten(line), k)
  }

  /** As written, reading the data symbol line of `SymbolDump` adds
      nothing to the defined table. */
  lemma DataSymbolNotDefined(m: map<string, nat>, owner: nat)
    ensures AddLine(m, DataSymbolLine, Defined, owner) == m
    ensures LineNames(DataSymbolLine, Defined) == {}
  {
    AsWrittenMissesDataSymbol();
  }

  /** The names of kind `k` one classified line records. */
  function EntryNames(entry: Option<Entry>, k: Kind): set<string> {
    match entry
    case Some(e) => if e.kind == k then {e.name} else {}
    case None => {}
  }

  /** The names of kind `k` the lines record, read one after another. */
  function Recorded(lines: seq<string>, k: Kind): set<string>
  {
    if lines == [] then {}
    else Recorded(lines[..|lines| - 1], k) + LineNames(lines[|lines| - 1], k)
  }

  /** A name is recorded exactly when some line classifies as that name of
      that kind. */
  lemma {:induction false} RecordedMeans(lines: seq<string>, k: Kind, name: string)
    ensures name in Recorded(lines, k) <==>
      exists i :: 0 <= i < |lines| && ClassifyAsWritten(lines[i]) == Some(Entry(k, name))
  {
    if name in Recorded(lines, k) {
      var i := RecordedSource(lines, k, name);
    }
    if i :| 0 <= i < |lines| && ClassifyAsWritten(lines[i]) == Some(Entry(k, name)) {
      RecordedAt(lines, k, name, i);
    }
  }

  /** A recorded name comes from some line. */
  lemma {:induction false} RecordedSource(lines: seq<string>, k: Kind, name: string) returns (i: nat)
    requires name in Recorded(lines, k)
    ensures i < |lines| && ClassifyAsWritten(lines[i]) == Some(Entry(k, name))
    decreases |lines|
  {
    var init := lines[..|lines| - 1];
    if name in Recorded(init, k) {
      i := RecordedSource(init, k, name);
      assert init[i] == lines[i];
    } else {
      i := |lines| - 1;
      LineNamesMeans(lines[i], k, name);
    }
  }

  /** The name of every line of kind `k` is recorded. */
  lemma {:induction false} RecordedAt(lines: seq<string>, k: Kind, name: string, i: nat)
    requires i < |lines| && ClassifyAsWritten(lines[i]) == Some(Entry(k, name))
    ensures name in Recorded(lines, k)
    decreases |lines|
  {
    var init := lines[..|lines| - 1];
    if i == |lines| - 1 {
      LineNamesMeans(lines[i], k, name);
    } else {
      assert init[i] == lines[i];
      RecordedAt(init, k, name, i);
    }
  }

  lemma LineNamesMeans(line: string, k: Kind, name: string)
    ensures name in LineNames(line, k) <==> ClassifyAsWritten(line) == Some(Entry(k, name))
  {
  }

  /** A table's owner view after one line: its entry, if of kind `k`,
      is added with owner `owner`. */
  function AddLine(m: map<string, nat>, line: string, k: Kind, owner: nat): map<string, nat> {
    AddEntry(m, ClassifyAsWritten(line), k, owner)
  }

  /** A table's owner view after one classified line. */
  function AddEntry(m: map<string, nat>, entry: Option<Entry>, k: Kind, owner: nat): map<string, nat> {
    match entry
    case Some(e) => if e.kind == k then AddName(m, e.name, owner) else m
    case None => m
  }

  /** The owner view after the lines of one dump, owned by library
      `owner`, have been added one after another. */
  function IngestLines(m: map<string, nat>, lines: seq<string>, k: Kind, owner: nat): map<string, nat> {
    if lines == [] then m
    else AddLine(IngestLines(m, lines[..|lines| - 1], k, owner), lines[|lines| - 1], k, owner)
  }

  /** The lines up to `i` are one more line than those before it. */
  lemma IngestLinesSnoc(m: map<string, nat>, lines: seq<string>, i: nat, k: Kind, owner: nat)
    requires i < |lines|
    ensures IngestLines(m, lines[..i + 1], k, owner) == AddLine(IngestLines(m, lines[..i], k, owner), lines[i], k, owner)
  {
    assert lines[..i + 1][..i] == lines[..i];
  }

  /** `r` is `m` with the names `names` added, each new one owned by
      `owner`, and every name already there kept with its owner. */
  ghost predicate AddsNames(m: map<string, nat>, r: map<string, nat>, names: set<string>, owner: nat) {
    && r.Keys == m.Keys + names
    && (forall n :: n in m ==> r[n] == m[n])
    && (forall n :: n in r && n !in m ==> r[n] == owner)
  }

  /** One dump keeps every name already present with its owner (the
      first owner wins) and adds each newly recorded name with the dump's
      library as owner. */
  lemma {:induction false} IngestLinesEffect(m: map<string, nat>, lines: seq<string>, k: Kind, owner: nat)
    ensures AddsNames(m, IngestLines(m, lines, k, owner), Recorded(lines, k), owner)
  {
    if lines != [] {
      var init := lines[..|lines| - 1];
      IngestLinesEffect(m, init, k, owner);
      AddEntryEffect(m, IngestLines(m, init, k, owner), Recorded(init, k), ClassifyAsWritten(lines[|lines| - 1]), k, owner);
    }
  }

  /** One classified line adds its name, if of kind `k`, to what has
      been added so far. */
  lemma AddEntryEffect(m: map<string, nat>, r: map<string, nat>, names: set<string>,
                       entry: Option<Entry>, k: Kind, owner: nat)
    requires AddsNames(m, r, names, owner)
    ensures AddsNames(m, AddEntry(r, entry, k, owner), names + EntryNames(entry, k), owner)
  {
  }

  /** The owner view after one symbol dump; `None` when it cannot be
      opened. */
  function IngestText(m: map<string, nat>, rawText: Option<string>, k: Kind, owner: nat): map<string, nat> {
    match rawText
    case None => m
    case Some(text) => IngestLines(m, Lines(text), k, owner)
  }

  /** The names of kind `k` a dump records: none when it cannot be opened. */
  function DumpNames(rawText: Option<string>, k: Kind): set<string> {
    match rawText
    case None => {}
    case Some(text) => Recorded(Lines(text), k)
  }

  lemma IngestTextEffect(m: map<string, nat>, rawText: Option<string>, k: Kind, owner: nat)
    ensures AddsNames(m, IngestText(m, rawText, k, owner), DumpNames(rawText, k), owner)
  {
    if rawText.Some? {
      IngestLinesEffect(m, Lines(rawText.value), k, owner);
    }
  }

  // ---------------------------------------------------------------------
  // Reading the dumps of several libraries

  /** A library handed to `addSymbols`: its path and the text of its
      symbol dump (`None` when the dump cannot be opened). */
  datatype Dump = Dump(libFilePath: string, rawText: Option<string>)

  function PathsOf(dumps: seq<Dump>): (paths: seq<string>)
    ensures |paths| == |dumps|
    ensures forall j :: 0 <= j < |dumps| ==> paths[j] == dumps[j].libFilePath
  {
    seq(|dumps|, j requires 0 <= j < |dumps| => dumps[j].libFilePath)
  }

  /** The owner view after the dumps have been read in order, the `j`-th
      owned by file index `firstIndex + j`. */
  function IngestDumps(m: map<string, nat>, dumps: seq<Dump>, k: Kind, firstIndex: nat): map<string, nat> {
    if dumps == [] then m
    else
      IngestText(IngestDumps(m, dumps[..|dumps| - 1], k, firstIndex), dumps[|dumps| - 1].rawText, k,
                 firstIndex + |dumps| - 1)
  }

  /** The names of kind `k` some dump records. */
  function AllNames(dumps: seq<Dump>, k: Kind): set<string> {
    if dumps == [] then {}
    else AllNames(dumps[..|dumps| - 1], k) + DumpNames(dumps[|dumps| - 1].rawText, k)
  }

  /** Every dump's names are among all the names. */
  lemma {:induction false} AllNamesHas(dumps: seq<Dump>, k: Kind, j: nat)
    requires j < |dumps|
    ensures DumpNames(dumps[j].rawText, k) <= AllNames(dumps, k)
  {
    var n := |dumps| - 1;
    var init := dumps[..n];
    if j < n {
      AllNamesHas(init, k, j);
      assert init[j] == dumps[j];
    }
    InUnion(DumpNames(dumps[j].rawText, k), AllNames(init, k), DumpNames(dumps[n].rawText, k));
  }

  lemma InUnion(s: set<string>, a: set<string>, b: set<string>)
    requires s <= a || s == b
    ensures s <= a + b
  {
  }

  /** `owner` is the file index of the first dump that records `name`. */
  ghost predicate FirstRecorder(dumps: seq<Dump>, k: Kind, firstIndex: nat, name: string, owner: nat) {
    && firstIndex <= owner < firstIndex + |dumps|
    && name in DumpNames(dumps[owner - firstIndex].rawText, k)
    && forall j :: 0 <= j < owner - firstIndex ==> name !in DumpNames(dumps[j].rawText, k)
  }

  /** `r` is `m` with every name already there kept with its owner and
      exactly the names the dumps record added, each new one owned by the
      first dump that records it. */
  ghost predicate FirstOwners(m: map<string, nat>, r: map<string, nat>, dumps: seq<Dump>, k: Kind, firstIndex: nat) {
    && r.Keys == m.Keys + AllNames(dumps, k)
    && (forall n :: n in m ==> r[n] == m[n])
    && (forall n :: n in r && n !in m ==> FirstRecorder(dumps, k, firstIndex, n, r[n]))
  }

  /** Reading several dumps one after another keeps every name already
      present with its owner, adds exactly the names the dumps record, and
      gives each new name to the FIRST dump that records it: ingestion
      order decides the owners. */
  lemma {:induction false} FirstOwnerWins(m: map<string, nat>, dumps: seq<Dump>, k: Kind, firstIndex: nat)
    ensures FirstOwners(m, IngestDumps(m, dumps, k, firstIndex), dumps, k, firstIndex)
  {
    if dumps != [] {
      var last := |dumps| - 1;
      var init := dumps[..last];
      FirstOwnerWins(m, init, k, firstIndex);
      FirstOwnerLast(m, IngestDumps(m, init, k, firstIndex), dumps, k, firstIndex);
    }
  }

  /** The step of `FirstOwnerWins`: reading the last dump after the
      others. */
  lemma FirstOwnerLast(m: map<string, nat>, t: map<string, nat>, dumps: seq<Dump>, k: Kind, firstIndex: nat)
    requires dumps != []
    requires FirstOwners(m, t, dumps[..|dumps| - 1], k, firstIndex)
    ensures FirstOwners(m, IngestText(t, dumps[|dumps| - 1].rawText, k, firstIndex + |dumps| - 1),
                        dumps, k, firstIndex)
  {
    var d := dumps[|dumps| - 1];
    IngestTextEffect(t, d.rawText, k, firstIndex + |dumps| - 1);
    FirstOwnerStep(m, t, IngestText(t, d.rawText, k, firstIndex + |dumps| - 1), dumps, k, firstIndex);
  }

  /** The step of `FirstOwnerWins` for the last dump, on the maps alone:
      `t` is the view after all dumps but the last, `r` the view after
      the last as well. */
  lemma FirstOwnerStep(m: map<string, nat>, t: map<string, nat>, r: map<string, nat>,
                       dumps: seq<Dump>, k: Kind, firstIndex: nat)
    requires dumps != []
    requires FirstOwners(m, t, dumps[..|dumps| - 1], k, firstIndex)
    requires AddsNames(t, r, DumpNames(dumps[|dumps| - 1].rawText, k), firstIndex + |dumps| - 1)
    ensures FirstOwners(m, r, dumps, k, firstIndex)
  {
    forall n | n in r && n !in m ensures FirstRecorder(dumps, k, firstIndex, n, r[n]) {
      if n in t {
        EarlierRecorder(dumps, k, firstIndex, n, t[n]);
      } else {
        NewLastOwner(dumps, k, firstIndex, n);
      }
    }
  }

  /** A name added before the last dump keeps its first recorder. */
  lemma EarlierRecorder(dumps: seq<Dump>, k: Kind, firstIndex: nat, name: string, owner: nat)
    requires dumps != []
    requires FirstRecorder(dumps[..|dumps| - 1], k, firstIndex, name, owner)
    ensures FirstRecorder(dumps, k, firstIndex, name, owner)
  {
    var init := dumps[..|dumps| - 1];
    assert init[owner - firstIndex] == dumps[owner - firstIndex];
    assert forall j :: 0 <= j < owner - firstIndex ==> init[j] == dumps[j];
  }

  /** A name only the last dump records belongs to the last dump. */
  lemma NewLastOwner(dumps: seq<Dump>, k: Kind, firstIndex: nat, name: string)
    requires dumps != []
    requires name !in AllNames(dumps[..|dumps| - 1], k)
    requires name in DumpNames(dumps[|dumps| - 1].rawText, k)
    ensures FirstRecorder(dumps, k, firstIndex, name, firstIndex + |dumps| - 1)
  {
    var init := dumps[..|dumps| - 1];
    forall j | 0 <= j < |init| ensures name !in DumpNames(dumps[j].rawText, k) {
      assert init[j] == dumps[j];
      AllNamesHas(init, k, j);
    }
  }

  // ---------------------------------------------------------------------
  // Resolution

  /** The edges resolution adds: from the owner of each undefined name to
      the owner of the defined entry of that name, when the two differ. */
  function ResolvedEdges(undefs: map<string, nat>, defs: map<string, nat>): set<(nat, nat)> {
    set n | n in undefs && n in defs && undefs[n] != defs[n] :: (undefs[n], defs[n])
  }

  /** Resolution never makes a library depend on itself. */
  lemma NoSelfEdge(undefs: map<string, nat>, defs: map<string, nat>, c: nat)
    ensures (c, c) !in ResolvedEdges(undefs, defs)
  {
  }

  /** Resolving one more defined name adds at most the edge for it. */
  lemma ResolvedEdgesStep(undefs: map<string, nat>, defs: map<string, nat>, name: string, owner: nat)
    requires name !in defs
    ensures ResolvedEdges(undefs, defs[name := owner]) == ResolvedEdges(undefs, defs) +
      (if name in undefs && undefs[name] != owner then {(undefs[name], owner)} else {})
  {
    var defs' := defs[name := owner];
    forall p | p in ResolvedEdges(undefs, defs')
      ensures p in ResolvedEdges(undefs, defs) +
        (if name in undefs && undefs[name] != owner then {(undefs[name], owner)} else {})
    {
      var n :| n in undefs && n in defs' && undefs[n] != defs'[n] && p == (undefs[n], defs'[n]);
      if n != name {
        assert p in ResolvedEdges(undefs, defs);
      }
    }
    forall p | p in ResolvedEdges(undefs, defs) ensures p in ResolvedEdges(undefs, defs') {
      var n :| n in undefs && n in defs && undefs[n] != defs[n] && p == (undefs[n], defs[n]);
      assert n != name && defs'[n] == defs[n];
    }
    if name in undefs && undefs[name] != owner {
      assert (undefs[name], defs'[name]) in ResolvedEdges(undefs, defs');
    }
  }

  /** The prefix of a sorted table grows by a new name at each step. */
  lemma PrefixStep(s: seq<FileSymbol>, i: nat)
    requires Sorted(s) && i < |s|
    ensures s[i].symbolName !in NamesOf(s[..i])
    ensures OwnersOf(s[..i + 1]) == OwnersOf(s[..i])[s[i].symbolName := s[i].fileIndex]
    ensures NamesOf(s[..i + 1]) == NamesOf(s[..i]) + {s[i].symbolName}
  {
    if s[i].symbolName in NamesOf(s[..i]) {
      var e :| e in s[..i] && e.symbolName == s[i].symbolName;
      var j :| 0 <= j < i && s[..i][j] == e;
      SortedNamesUnique(s, j, i);
      assert false;
    }
    assert s[..i + 1] == s[..i] + [s[i]];
    OwnersOfAppend(s[..i], s[i]);
  }

  // ---------------------------------------------------------------------
  // The clump

  /** `ClumpSymbols`: the defined and undefined symbol tables, the
      library paths in file-index order, the dependencies between the
      libraries and the link order computed from them. */
  class ClumpSymbols {
    const definedSymbols: FileSymbols
    const undefinedSymbols: FileSymbols
    const fileDependencies: FileDependencies
    const orderedDependencies: FileIndices
    var fileIndices: seq<string>

    ghost predicate Valid()
      reads this, definedSymbols, undefinedSymbols, fileDependencies
    {
      && definedSymbols != undefinedSymbols
      && definedSymbols.Valid() && undefinedSymbols.Valid() && fileDependencies.Valid()
      && NamesClean(definedSymbols.symbols) && NamesClean(undefinedSymbols.symbols)
    }

    /** Starting from the paths `f0` and the owner views `d0` and `u0`,
        the clump has read `dumps`, in order. */
    ghost predicate HasRead(f0: seq<string>, d0: map<string, nat>, u0: map<string, nat>, dumps: seq<Dump>)
      reads this, definedSymbols, undefinedSymbols
    {
      && fileIndices == f0 + PathsOf(dumps)
      && definedSymbols.Owners() == IngestDumps(d0, dumps, Defined, |f0|)
      && undefinedSymbols.Owners() == IngestDumps(u0, dumps, Undefined, |f0|)
    }

    constructor ()
      ensures Valid()
      ensures fresh(definedSymbols) && fresh(undefinedSymbols)
      ensures fresh(fileDependencies) && fresh(orderedDependencies)
      ensures definedSymbols.symbols == [] && undefinedSymbols.symbols == []
      ensures fileDependencies.deps == map[] && orderedDependencies.items == []
      ensures fileIndices == []
    {
      definedSymbols := new FileSymbols();
      undefinedSymbols := new FileSymbols();
      fileDependencies := new FileDependencies();
      orderedDependencies := new FileIndices();
      fileIndices := [];
    }

    /** `readRawSymbolFile`: every line of the dump goes through the
        classifier as written; defined names are added to one table and undefined
        names to the other, owned by `fileIndex`. A dump that cannot be
        opened adds nothing. */
    method ReadRawSymbolFile(rawText: Option<string>, fileIndex: nat)
      requires Valid()
      modifies definedSymbols, undefinedSymbols
      ensures Valid()
      ensures definedSymbols.Owners() ==
        IngestText(old(definedSymbols.Owners()), rawText, Defined, fileIndex)
      ensures undefinedSymbols.Owners() ==
        IngestText(old(undefinedSymbols.Owners()), rawText, Undefined, fileIndex)
    {
      if rawText.None? {
        return;
      }
      var lines := Lines(rawText.value);
      for i := 0 to |lines|
        invariant Valid()
        invariant definedSymbols.Owners() ==
          IngestLines(old(definedSymbols.Owners()), lines[..i], Defined, fileIndex)
        invariant undefinedSymbols.Owners() ==
          IngestLines(old(undefinedSymbols.Owners()), lines[..i], Undefined, fileIndex)
      {
        IngestLinesSnoc(old(definedSymbols.Owners()), lines, i, Defined, fileIndex);
        IngestLinesSnoc(old(undefinedSymbols.Owners()), lines, i, Undefined, fileIndex);
        ReadSymbolLine(lines[i], fileIndex);
      }
      assert lines[..|lines|] == lines;
    }

    /** One line of `readRawSymbolFile`: its entry, if any, goes to the
        table of its kind. */
    method ReadSymbolLine(line: string, fileIndex: nat)
      requires Valid()
      modifies definedSymbols, undefinedSymbols
      ensures Valid()
      ensures definedSymbols.Owners() == AddLine(old(definedSymbols.Owners()), line, Defined, fileIndex)
      ensures undefinedSymbols.Owners() == AddLine(old(undefinedSymbols.Owners()), line, Undefined, fileIndex)
    {
      var entry := ScanLine(line);
      ReadEntry(entry, fileIndex);
    }

    /** The table update for one classified line. */
    method ReadEntry(entry: Option<Entry>, fileIndex: nat)
      requires Valid()
      requires entry.Some? ==> NoWhitespace(entry.value.name)
      modifies definedSymbols, undefinedSymbols
      ensures Valid()
      ensures definedSymbols.Owners() == AddEntry(old(definedSymbols.Owners()), entry, Defined, fileIndex)
      ensures undefinedSymbols.Owners() == AddEntry(old(undefinedSymbols.Owners()), entry, Undefined, fileIndex)
    {
      if entry.Some? {
        if entry.value.kind == Defined {
          AddDefined(entry.value.name, fileIndex);
        } else {
          AddUndefined(entry.value.name, fileIndex);
        }
      }
    }

    /** `mDefinedSymbols.add`; the undefined table is left alone. */
    method AddDefined(name: string, fileIndex: nat)
      requires Valid() && NoWhitespace(name)
      modifies definedSymbols
      ensures Valid()
      ensures definedSymbols.Owners() == AddName(old(definedSymbols.Owners()), name, fileIndex)
      ensures undefinedSymbols.symbols == old(undefinedSymbols.symbols)
    {
      InsertClean(definedSymbols.symbols, FileSymbol(name, fileIndex));
      definedSymbols.Add(name, fileIndex);
    }

    /** `mUndefinedSymbols.add`; the defined table is left alone. */
    method AddUndefined(name: string, fileIndex: nat)
      requires Valid() && NoWhitespace(name)
      modifies undefinedSymbols
      ensures Valid()
      ensures undefinedSymbols.Owners() == AddName(old(undefinedSymbols.Owners()), name, fileIndex)
      ensures definedSymbols.symbols == old(definedSymbols.symbols)
    {
      InsertClean(undefinedSymbols.symbols, FileSymbol(name, fileIndex));
      undefinedSymbols.Add(name, fileIndex);
    }

    /** `addSymbols`: the library gets the next file index, then its dump
        is read. */
    method AddSymbols(libFilePath: string, rawText: Option<string>)
      requires Valid()
      modifies this, definedSymbols, undefinedSymbols
      ensures Valid()
      ensures fileIndices == old(fileIndices) + [libFilePath]
      ensures definedSymbols.Owners() ==
        IngestText(old(definedSymbols.Owners()), rawText, Defined, |old(fileIndices)|)
      ensures undefinedSymbols.Owners() ==
        IngestText(old(undefinedSymbols.Owners()), rawText, Undefined, |old(fileIndices)|)
    {
      fileIndices := fileIndices + [libFilePath];
      ReadRawSymbolFile(rawText, |fileIndices| - 1);
    }

    /** `addSymbols` of one more dump, in terms of all the dumps read. */
    method ReadDump(libFilePath: string, rawText: Option<string>,
                    ghost f0: seq<string>, ghost d0: map<string, nat>, ghost u0: map<string, nat>,
                    ghost done: seq<Dump>)
      requires Valid()
      requires HasRead(f0, d0, u0, done)
      modifies this, definedSymbols, undefinedSymbols
      ensures Valid()
      ensures HasRead(f0, d0, u0, done + [Dump(libFilePath, rawText)])
    {
      ghost var f := fileIndices;
      ghost var dv := definedSymbols.Owners();
      ghost var uv := undefinedSymbols.Owners();
      AddSymbols(libFilePath, rawText);
      ReadDumpStep(f0, d0, u0, done, Dump(libFilePath, rawText), f, dv, uv);
    }

    /** `resolveUndefinedSymbols`: walks the defined table in name order;
        an undefined entry of the same name is erased, after recording
        that its library depends on the defining one when they differ. */
    method ResolveUndefinedSymbols()
      requires Valid()
      modifies undefinedSymbols, fileDependencies
      ensures Valid()
      ensures definedSymbols.symbols == old(definedSymbols.symbols)
      ensures undefinedSymbols.Owners() == old(undefinedSymbols.Owners()) - NamesOf(definedSymbols.symbols)
      ensures NamesOf(undefinedSymbols.symbols) !! NamesOf(definedSymbols.symbols)
      ensures Edges(fileDependencies.deps) ==
        old(Edges(fileDependencies.deps)) + ResolvedEdges(old(undefinedSymbols.Owners()), definedSymbols.Owners())
    {
      ghost var u0 := undefinedSymbols.Owners();
      ghost var e0 := Edges(fileDependencies.deps);
      var defined := definedSymbols.symbols;
      for i := 0 to |defined|
        invariant undefinedSymbols.Valid() && fileDependencies.Valid() && NamesClean(undefinedSymbols.symbols)
        invariant undefinedSymbols.Owners() == u0 - NamesOf(defined[..i])
        invariant Edges(fileDependencies.deps) == e0 + ResolvedEdges(u0, OwnersOf(defined[..i]))
      {
        PrefixStep(defined, i);
        ResolveSymbol(defined[i], u0, OwnersOf(defined[..i]), e0);
      }
      assert defined[..|defined|] == defined;
    }

    /** `writeClumpFiles`: resolves the undefined symbols, orders the
        libraries, and writes the two tables and the dependency file. The
        result maps each file name to the text written to it. */
    method WriteClumpFiles(clumpName: string, outPath: string)
      returns (written: map<string, string>, ghost placed: seq<nat>, ghost leftover: seq<nat>)
      requires Valid()
      modifies undefinedSymbols, fileDependencies, orderedDependencies
      ensures Valid()
      ensures definedSymbols.symbols == old(definedSymbols.symbols)
      ensures undefinedSymbols.Owners() == old(undefinedSymbols.Owners()) - NamesOf(definedSymbols.symbols)
      ensures Edges(fileDependencies.deps) ==
        old(Edges(fileDependencies.deps)) + ResolvedEdges(old(undefinedSymbols.Owners()), definedSymbols.Owners())
      ensures Placement(fileDependencies.deps, |fileIndices|, placed, leftover)
      ensures orderedDependencies.items == LinkOrderOf(placed, leftover) + old(orderedDependencies.items)
      ensures written == ClumpFiles(outPath, clumpName, definedSymbols.WriteSymbols(),
        undefinedSymbols.WriteSymbols(),
        WriteDepFileInfo(fileIndices, fileDependencies.deps, orderedDependencies.items))
      ensures ReadsAsTable(written[DefFileName(outPath, clumpName)], definedSymbols.symbols)
      ensures ReadsAsTable(written[UndefFileName(outPath, clumpName)], undefinedSymbols.symbols)
    {
      ResolveUndefinedSymbols();
      placed, leftover := OrderDependencies(|fileIndices|, fileDependencies, orderedDependencies);
      var defText := definedSymbols.WriteSymbols();
      var undefText := undefinedSymbols.WriteSymbols();
      var depText := WriteDepFileInfo(fileIndices, fileDependencies.deps, orderedDependencies.items);
      written := ClumpFiles(outPath, clumpName, defText, undefText, depText);
    }

    /** One step of `resolveUndefinedSymbols`, for the defined entry
        `sym`, after the defined names in `done` have been resolved. */
    method ResolveSymbol(sym: FileSymbol, ghost u0: map<string, nat>, ghost done: map<string, nat>,
                         ghost e0: set<(nat, nat)>)
      requires undefinedSymbols.Valid() && fileDependencies.Valid() && NamesClean(undefinedSymbols.symbols)
      requires sym.symbolName !in done
      requires undefinedSymbols.Owners() == u0 - done.Keys
      requires Edges(fileDependencies.deps) == e0 + ResolvedEdges(u0, done)
      modifies undefinedSymbols, fileDependencies
      ensures undefinedSymbols.Valid() && fileDependencies.Valid() && NamesClean(undefinedSymbols.symbols)
      ensures undefinedSymbols.Owners() == u0 - (done.Keys + {sym.symbolName})
      ensures Edges(fileDependencies.deps) ==
        e0 + ResolvedEdges(u0, done[sym.symbolName := sym.fileIndex])
    {
      ResolvedEdgesStep(u0, done, sym.symbolName, sym.fileIndex);
      MinusStep(u0, done.Keys, sym.symbolName);
      var pos := undefinedSymbols.FindName(sym.symbolName);
      if pos != |undefinedSymbols.symbols| {
        var undef := undefinedSymbols.symbols[pos];
        OwnerOfEntry(undefinedSymbols.symbols, undef);
        assert undef.symbolName in u0 && u0[undef.symbolName] == undef.fileIndex;
        AddSupplier(undef.fileIndex, sym.fileIndex);
        undefinedSymbols.Erase(pos);
      }
    }

    /** The dependency `resolveUndefinedSymbols` records for a resolved
        name: from the library that uses it to the one that defines it,
        unless they are the same library. */
    method AddSupplier(client: nat, supplier: nat)
      requires fileDependencies.Valid()
      modifies fileDependencies
      ensures fileDependencies.Valid()
      ensures Edges(fileDependencies.deps) ==
        old(Edges(fileDependencies.deps)) + (if client != supplier then {(client, supplier)} else {})
    {
      if client != supplier {
        ghost var before := fileDependencies.deps;
        fileDependencies.AddDependency(client, supplier);
        EdgesAdded(before, fileDependencies.deps, client, supplier);
      }
    }
  }

  /** A table file read back: one line per entry, each parsing as its
      entry, in table order. */
  predicate ReadsAsTable(text: string, symbols: seq<FileSymbol>) {
    && |Lines(text)| == |symbols|
    && forall i :: 0 <= i < |symbols| ==> ParseSymbolLine(Lines(text)[i]) == symbols[i]
  }

  /** Removing one more name from a map. */
  lemma MinusStep(m: map<string, nat>, names: set<string>, name: string)
    ensures (m - names) - {name} == m - (names + {name})
    ensures name !in m ==> m - (names + {name}) == m - names
  {
  }

  // ---------------------------------------------------------------------
  // Clump file names

  /** The name of one clump file: `<outPath>LibSym-<clumpName><suffix>`. */
  function ClumpFileName(outPath: string, clumpName: string, suffix: string): string {
    outPath + "LibSym-" + clumpName + suffix
  }

  function DefFileName(outPath: string, clumpName: string): string {
    ClumpFileName(outPath, clumpName, "-Def.txt")
  }

  function UndefFileName(outPath: string, clumpName: string): string {
    ClumpFileName(outPath, clumpName, "-Undef.txt")
  }

  function DepFileName(outPath: string, clumpName: string): string {
    ClumpFileName(outPath, clumpName, "-Dep.txt")
  }

  /** The three clump files have three different names, so none of them
      overwrites another. */
  lemma ClumpFileNamesDistinct(outPath: string, clumpName: string)
    ensures DefFileName(outPath, clumpName) != UndefFileName(outPath, clumpName)
    ensures DefFileName(outPath, clumpName) != DepFileName(outPath, clumpName)
    ensures UndefFileName(outPath, clumpName) != DepFileName(outPath, clumpName)
  {
    var pre := outPath + "LibSym-" + clumpName;
    assert |DefFileName(outPath, clumpName)| == |pre| + 8;
    assert |UndefFileName(outPath, clumpName)| == |pre| + 10;
    assert |DepFileName(outPath, clumpName)| == |pre| + 8;
    assert DefFileName(outPath, clumpName)[|pre| + 3] == 'f';
    assert DepFileName(outPath, clumpName)[|pre| + 3] == 'p';
  }

  /** The files `writeClumpFiles` writes, each with its own text. */
  function ClumpFiles(outPath: string, clumpName: string, defText: string, undefText: string,
                      depText: string): (files: map<string, string>)
    ensures files.Keys ==
      {DefFileName(outPath, clumpName), UndefFileName(outPath, clumpName), DepFileName(outPath, clumpName)}
    ensures files[DefFileName(outPath, clumpName)] == defText
    ensures files[UndefFileName(outPath, clumpName)] == undefText
    ensures files[DepFileName(outPath, clumpName)] == depText
  {
    ClumpFileNamesDistinct(outPath, clumpName);
    map[DefFileName(outPath, clumpName) := defText,
        UndefFileName(outPath, clumpName) := undefText,
        DepFileName(outPath, clumpName) := depText]
  }

  // ---------------------------------------------------------------------
  // Building a clump

  /** What building a clump needs from outside: file names, file dates,
      the symbol tool, and file contents. */
  datatype Environment = Environment(
    /** The cache file of a library in the symbol directory: the library
        name without directory and extension, followed by `.txt`. */
    cacheFileName: (string, string) -> string,
    /** `FileStat::isOutputOld(output, input)` */
    isOutputOld: (string, string) -> bool,
    /** Whether the symbol tool, run on the library, succeeds. */
    runTool: string -> bool,
    /** The text of a file once the tools have run; `None` when it cannot
        be opened. */
    readFile: string -> Option<string>)

  /** The cache file of the library is older than the library. */
  predicate IsStale(env: Environment, outSymPath: string, libFilePath: string) {
    env.isOutputOld(env.cacheFileName(outSymPath, libFilePath), libFilePath)
  }

  predicate AnyStale(libFiles: seq<string>, outSymPath: string, env: Environment) {
    exists i :: 0 <= i < |libFiles| && IsStale(env, outSymPath, libFiles[i])
  }

  /** One library as `makeObjectSymbols` sees it: its cache file and
      whether that file must be generated. */
  datatype LibFileNames = LibFileNames(libFilePath: string, libSymFileName: string, genSymbolFile: bool)

  function CacheEntry(outSymPath: string, env: Environment, libFilePath: string): LibFileNames {
    LibFileNames(libFilePath, env.cacheFileName(outSymPath, libFilePath), IsStale(env, outSymPath, libFilePath))
  }

  /** The dumps read, in library order: a library whose cache is current
      is read from its cache; a stale one only when the tool run that
      regenerates its cache succeeds. */
  function Ingestion(libFiles: seq<string>, outSymPath: string, env: Environment): (dumps: seq<Dump>)
    ensures |dumps| <= |libFiles|
  {
    if libFiles == [] then []
    else
      var lib := libFiles[|libFiles| - 1];
      var rest := Ingestion(libFiles[..|libFiles| - 1], outSymPath, env);
      if IsStale(env, outSymPath, lib) && !env.runTool(lib) then rest
      else rest + [Dump(lib, env.readFile(env.cacheFileName(outSymPath, lib)))]
  }

  /** Every dump read comes from one of the libraries. */
  lemma {:induction false} IngestionFromLibraries(libFiles: seq<string>, outSymPath: string, env: Environment)
    ensures var paths := PathsOf(Ingestion(libFiles, outSymPath, env));
      forall j :: 0 <= j < |paths| ==> paths[j] in libFiles
  {
    if libFiles != [] {
      var init := libFiles[..|libFiles| - 1];
      var lib := libFiles[|libFiles| - 1];
      IngestionFromLibraries(init, outSymPath, env);
      IngestionStep(init, lib, outSymPath, env);
      assert init + [lib] == libFiles;
      var rest := Ingestion(init, outSymPath, env);
      IngestDumpsAppend(map[], rest, Dump(lib, env.readFile(env.cacheFileName(outSymPath, lib))), Defined, 0);
      assert forall x :: x in init ==> x in libFiles;
    }
  }

  /** A library `makeObjectSymbols` reads: its cache is current, or the
      tool run that regenerates it succeeds. */
  predicate IsRead(env: Environment, outSymPath: string, lib: string) {
    !IsStale(env, outSymPath, lib) || env.runTool(lib)
  }

  /** `dumps` are the libraries of `libFiles` that are read, in library
      order, each with the text of its cache file: `idx` gives the
      position in `libFiles` of the library behind each dump. */
  ghost predicate SelectsRead(libFiles: seq<string>, outSymPath: string, env: Environment,
                              dumps: seq<Dump>, idx: seq<nat>) {
    && |idx| == |dumps|
    && Increasing(idx)
    && (forall j :: 0 <= j < |idx| ==> idx[j] < |libFiles|)
    && (forall j :: 0 <= j < |idx| ==>
          dumps[j] == Dump(libFiles[idx[j]], env.readFile(env.cacheFileName(outSymPath, libFiles[idx[j]]))))
    && (forall i :: 0 <= i < |libFiles| ==> (i in idx <==> IsRead(env, outSymPath, libFiles[i])))
  }

  /** The dumps read are exactly the libraries that are read, in library
      order, each with the text of its cache file. */
  lemma {:induction false} IngestionSelects(libFiles: seq<string>, outSymPath: string, env: Environment)
    returns (idx: seq<nat>)
    ensures SelectsRead(libFiles, outSymPath, env, Ingestion(libFiles, outSymPath, env), idx)
  {
    if libFiles == [] {
      idx := [];
    } else {
      var n := |libFiles| - 1;
      var init, lib := libFiles[..n], libFiles[n];
      var before := IngestionSelects(init, outSymPath, env);
      IngestionStep(init, lib, outSymPath, env);
      assert init + [lib] == libFiles;
      idx := SelectsStep(init, lib, outSymPath, env, Ingestion(init, outSymPath, env), before);
    }
  }

  /** One more library keeps `SelectsRead`: it is added at the end exactly
      when it is read. */
  lemma SelectsStep(init: seq<string>, lib: string, outSymPath: string, env: Environment,
                    dumps: seq<Dump>, before: seq<nat>) returns (idx: seq<nat>)
    requires SelectsRead(init, outSymPath, env, dumps, before)
    ensures SelectsRead(init + [lib], outSymPath, env,
      if IsRead(env, outSymPath, lib) then dumps + [Dump(lib, env.readFile(env.cacheFileName(outSymPath, lib)))]
      else dumps, idx)
  {
    var libFiles := init + [lib];
    var n := |init|;
    assert forall i :: 0 <= i < n ==> libFiles[i] == init[i];
    if IsRead(env, outSymPath, lib) {
      idx := before + [n];
      var d := dumps + [Dump(lib, env.readFile(env.cacheFileName(outSymPath, lib)))];
      forall j | 0 <= j < |idx|
        ensures idx[j] < |libFiles|
        ensures d[j] == Dump(libFiles[idx[j]], env.readFile(env.cacheFileName(outSymPath, libFiles[idx[j]])))
      {
        if j < |before| {
          assert idx[j] == before[j] && d[j] == dumps[j];
        }
      }
      forall i | 0 <= i < |libFiles| ensures i in idx <==> IsRead(env, outSymPath, libFiles[i]) {
        if i < n {
          assert i in idx <==> i in before;
        }
      }
    } else {
      idx := before;
      forall i | 0 <= i < |libFiles| ensures i in idx <==> IsRead(env, outSymPath, libFiles[i]) {
        if i == n {
          assert n !in before;
        }
      }
    }
  }

  /** When every tool run succeeds, every library is read, in order. */
  lemma {:induction false} IngestionAll(libFiles: seq<string>, outSymPath: string, env: Environment)
    requires forall i :: 0 <= i < |libFiles| ==> env.runTool(libFiles[i])
    ensures PathsOf(Ingestion(libFiles, outSymPath, env)) == libFiles
  {
    if libFiles != [] {
      var init := libFiles[..|libFiles| - 1];
      IngestionAll(init, outSymPath, env);
      assert init + [libFiles[|libFiles| - 1]] == libFiles;
    }
  }

  lemma IngestDumpsAppend(m: map<string, nat>, dumps: seq<Dump>, d: Dump, k: Kind, firstIndex: nat)
    ensures IngestDumps(m, dumps + [d], k, firstIndex) ==
      IngestText(IngestDumps(m, dumps, k, firstIndex), d.rawText, k, firstIndex + |dumps|)
    ensures PathsOf(dumps + [d]) == PathsOf(dumps) + [d.libFilePath]
  {
    assert (dumps + [d])[..|dumps|] == dumps;
  }

  /** The first loop of `makeObjectSymbols`: the cache file of each
      library, whether it is stale, and whether any is. */
  method MakeLibFileNames(libFiles: seq<string>, outSymPath: string, env: Environment)
    returns (libFileNames: seq<LibFileNames>, generatedSymbols: bool)
    ensures |libFileNames| == |libFiles|
    ensures forall i :: 0 <= i < |libFiles| ==> libFileNames[i] == CacheEntry(outSymPath, env, libFiles[i])
    ensures generatedSymbols <==> AnyStale(libFiles, outSymPath, env)
  {
    generatedSymbols := false;
    libFileNames := [];
    for i := 0 to |libFiles|
      invariant |libFileNames| == i
      invariant forall j :: 0 <= j < i ==> libFileNames[j] == CacheEntry(outSymPath, env, libFiles[j])
      invariant generatedSymbols <==> exists j :: 0 <= j < i && IsStale(env, outSymPath, libFiles[j])
    {
      var libFilePath := libFiles[i];
      var outSymRawFileName := env.cacheFileName(outSymPath, libFilePath);
      if env.isOutputOld(outSymRawFileName, libFilePath) {
        libFileNames := libFileNames + [LibFileNames(libFilePath, outSymRawFileName, true)];
        generatedSymbols := true;
      } else {
        libFileNames := libFileNames + [LibFileNames(libFilePath, outSymRawFileName, false)];
      }
    }
  }

  /** `makeObjectSymbols`: when some library's cache is stale, reads every
      library into the clump in order, regenerating the stale caches
      first; otherwise reads nothing. Tells whether any cache was stale. */
  method MakeObjectSymbols(libFiles: seq<string>, outSymPath: string, env: Environment,
                           clumpSymbols: ClumpSymbols)
    returns (generatedSymbols: bool)
    requires clumpSymbols.Valid()
    modifies clumpSymbols, clumpSymbols.definedSymbols, clumpSymbols.undefinedSymbols
    ensures clumpSymbols.Valid()
    ensures generatedSymbols <==> AnyStale(libFiles, outSymPath, env)
    ensures !generatedSymbols ==>
      && clumpSymbols.fileIndices == old(clumpSymbols.fileIndices)
      && clumpSymbols.definedSymbols.symbols == old(clumpSymbols.definedSymbols.symbols)
      && clumpSymbols.undefinedSymbols.symbols == old(clumpSymbols.undefinedSymbols.symbols)
    ensures generatedSymbols ==>
      var dumps := Ingestion(libFiles, outSymPath, env);
      && clumpSymbols.fileIndices == old(clumpSymbols.fileIndices) + PathsOf(dumps)
      && clumpSymbols.definedSymbols.Owners() ==
           IngestDumps(old(clumpSymbols.definedSymbols.Owners()), dumps, Defined, |old(clumpSymbols.fileIndices)|)
      && clumpSymbols.undefinedSymbols.Owners() ==
           IngestDumps(old(clumpSymbols.undefinedSymbols.Owners()), dumps, Undefined, |old(clumpSymbols.fileIndices)|)
  {
    var libFileNames;
    libFileNames, generatedSymbols := MakeLibFileNames(libFiles, outSymPath, env);
    if generatedSymbols {
      ReadLibraries(libFiles, libFileNames, outSymPath, env, clumpSymbols);
    }
  }

  /** The second loop of `makeObjectSymbols`: the libraries, in order. */
  method ReadLibraries(libFiles: seq<string>, libFileNames: seq<LibFileNames>, outSymPath: string,
                       env: Environment, clumpSymbols: ClumpSymbols)
    requires clumpSymbols.Valid()
    requires |libFileNames| == |libFiles|
    requires forall i :: 0 <= i < |libFiles| ==> libFileNames[i] == CacheEntry(outSymPath, env, libFiles[i])
    modifies clumpSymbols, clumpSymbols.definedSymbols, clumpSymbols.undefinedSymbols
    ensures clumpSymbols.Valid()
    ensures clumpSymbols.HasRead(old(clumpSymbols.fileIndices), old(clumpSymbols.definedSymbols.Owners()),
                                 old(clumpSymbols.undefinedSymbols.Owners()), Ingestion(libFiles, outSymPath, env))
  {
    ghost var f0 := clumpSymbols.fileIndices;
    ghost var d0 := clumpSymbols.definedSymbols.Owners();
    ghost var u0 := clumpSymbols.undefinedSymbols.Owners();
    for i := 0 to |libFileNames|
      invariant clumpSymbols.Valid()
      invariant clumpSymbols.HasRead(f0, d0, u0, Ingestion(libFiles[..i], outSymPath, env))
    {
      ghost var before := libFiles[..i];
      assert libFileNames[i].libFilePath == libFiles[i];
      assert libFiles[..i + 1] == before + [libFiles[i]];
      ReadLibrary(libFileNames[i], env, clumpSymbols, f0, d0, u0, before, outSymPath);
    }
    assert libFiles[..|libFileNames|] == libFiles;
  }

  /** One turn of the second loop of `makeObjectSymbols`: a library with
      a current cache is read from it; a stale one is read only when the
      tool run that regenerates its cache succeeds. */
  method ReadLibrary(libFn: LibFileNames, env: Environment, clumpSymbols: ClumpSymbols,
                     ghost f0: seq<string>, ghost d0: map<string, nat>, ghost u0: map<string, nat>,
                     ghost before: seq<string>, ghost outSymPath: string)
    requires clumpSymbols.Valid()
    requires clumpSymbols.HasRead(f0, d0, u0, Ingestion(before, outSymPath, env))
    requires libFn == CacheEntry(outSymPath, env, libFn.libFilePath)
    modifies clumpSymbols, clumpSymbols.definedSymbols, clumpSymbols.undefinedSymbols
    ensures clumpSymbols.Valid()
    ensures clumpSymbols.HasRead(f0, d0, u0, Ingestion(before + [libFn.libFilePath], outSymPath, env))
  {
    IngestionStep(before, libFn.libFilePath, outSymPath, env);
    if libFn.genSymbolFile {
      var success := env.runTool(libFn.libFilePath);
      if success {
        clumpSymbols.ReadDump(libFn.libFilePath, env.readFile(libFn.libSymFileName), f0, d0, u0,
                              Ingestion(before, outSymPath, env));
      }
    } else {
      clumpSymbols.ReadDump(libFn.libFilePath, env.readFile(libFn.libSymFileName), f0, d0, u0,
                            Ingestion(before, outSymPath, env));
    }
  }

  /** What one more dump does to the paths and the two owner views read
      so far. */
  lemma ReadDumpStep(f0: seq<string>, d0: map<string, nat>, u0: map<string, nat>, done: seq<Dump>, d: Dump,
                     f: seq<string>, dv: map<string, nat>, uv: map<string, nat>)
    requires f == f0 + PathsOf(done)
    requires dv == IngestDumps(d0, done, Defined, |f0|)
    requires uv == IngestDumps(u0, done, Undefined, |f0|)
    ensures f + [d.libFilePath] == f0 + PathsOf(done + [d])
    ensures IngestText(dv, d.rawText, Defined, |f|) == IngestDumps(d0, done + [d], Defined, |f0|)
    ensures IngestText(uv, d.rawText, Undefined, |f|) == IngestDumps(u0, done + [d], Undefined, |f0|)
  {
    IngestDumpsAppend(d0, done, d, Defined, |f0|);
    IngestDumpsAppend(u0, done, d, Undefined, |f0|);
  }

  /** One more library in `Ingestion`: a stale library whose tool run
      fails is skipped; any other is read from its cache file. */
  lemma IngestionStep(before: seq<string>, lib: string, outSymPath: string, env: Environment)
    ensures Ingestion(before + [lib], outSymPath, env) ==
      if IsStale(env, outSymPath, lib) && !env.runTool(lib) then Ingestion(before, outSymPath, env)
      else Ingestion(before, outSymPath, env) + [Dump(lib, env.readFile(env.cacheFileName(outSymPath, lib)))]
  {
    assert (before + [lib])[..|before|] == before;
  }

  predicate AllOneLine(paths: seq<string>) {
    forall i :: 0 <= i < |paths| ==> OneLinePath(paths[i])
  }

  /** The dependency file read back: its paths are `files` and its order
      line names each of them exactly once. */
  ghost predicate ReadsAsLinkOrder(text: string, files: seq<string>) {
    var lines := Lines(text);
    && ReadableDepFile(text)
    && FileNamesOf(lines) == files
    && |IndicesOf(lines)| == |files|
    && Distinct(IndicesOf(lines))
    && forall x: nat :: x in IndicesOf(lines) <==> x < |files|
  }

  /** The dependency file of a placement reads back as a link order of
      the libraries. */
  lemma DepFileReadsBack(files: seq<string>, deps: DepMap, placed: seq<nat>, leftover: seq<nat>)
    requires AllOneLine(files)
    requires Placement(deps, |files|, placed, leftover)
    ensures ReadsAsLinkOrder(WriteDepFileInfo(files, deps, LinkOrderOf(placed, leftover)), files)
  {
    var order := LinkOrderOf(placed, leftover);
    LinkOrderFacts.LinkOrderIsPermutation(deps, |files|, placed, leftover);
    assert forall k :: 0 <= k < |order| ==> order[k] in order;
    DepFileRoundTrip(files, deps, order);
  }

  /** `makeClumpSymbols`: builds a new clump and, when some cache was
      stale, writes its three files. It always reports success. */
  method MakeClumpSymbols(clumpName: string, libFiles: seq<string>, outSymPath: string, env: Environment)
    returns (success: bool, written: map<string, string>)
    ensures success
    ensures !AnyStale(libFiles, outSymPath, env) ==> written == map[]
    ensures AnyStale(libFiles, outSymPath, env) ==>
      written.Keys == {DefFileName(outSymPath, clumpName), UndefFileName(outSymPath, clumpName),
                       DepFileName(outSymPath, clumpName)}
    ensures AnyStale(libFiles, outSymPath, env) && AllOneLine(libFiles) ==>
      ReadsAsLinkOrder(written[DepFileName(outSymPath, clumpName)],
                       PathsOf(Ingestion(libFiles, outSymPath, env)))
  {
    success := true;
    var clumpSymbols := new ClumpSymbols();
    var generated := MakeObjectSymbols(libFiles, outSymPath, env, clumpSymbols);
    written := map[];
    if generated {
      ghost var placed, leftover;
      written, placed, leftover := clumpSymbols.WriteClumpFiles(clumpName, outSymPath);
      ghost var files := clumpSymbols.fileIndices;
      assert clumpSymbols.orderedDependencies.items == LinkOrderOf(placed, leftover);
      if AllOneLine(libFiles) {
        IngestionFromLibraries(libFiles, outSymPath, env);
        assert forall j :: 0 <= j < |files| ==> files[j] in libFiles;
        DepFileReadsBack(files, clumpSymbols.fileDependencies.deps, placed, leftover);
      }
    }
  }
}
