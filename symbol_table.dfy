/** The defined and undefined symbol tables (`FileSymbol`, `FileSymbols`).
    A table is a `std::set<FileSymbol>` whose order compares the symbol
    name only, so a name occurs at most once and the first owner to add it
    keeps it. The model holds the set as its iteration sequence: strictly
    increasing by name. */
module SymbolTable {
  import opened Text

  /** One symbol and the index of the library it was read from. */
  datatype FileSymbol = FileSymbol(symbolName: string, fileIndex: nat)

  /** `std::string::operator<`: lexicographic by character code, a proper
      prefix before its extensions. */
  predicate NameLess(a: string, b: string)
    decreases |a|
  {
    if a == [] then b != []
    else if b == [] then false
    else if a[0] == b[0] then NameLess(a[1..], b[1..])
    else a[0] < b[0]
  }

  lemma {:induction false} NameLessIrreflexive(a: string)
    ensures !NameLess(a, a)
  {
    if a != [] {
      NameLessIrreflexive(a[1..]);
    }
  }

  lemma {:induction false} NameLessTransitive(a: string, b: string, c: string)
    requires NameLess(a, b) && NameLess(b, c)
    ensures NameLess(a, c)
    decreases |a|
  {
    if a != [] && b != [] && c != [] && a[0] == b[0] && b[0] == c[0] {
      NameLessTransitive(a[1..], b[1..], c[1..]);
    }
  }

  /** Any two names are equal or ordered one way, and never both ways. */
  lemma {:induction false} NameLessTrichotomy(a: string, b: string)
    ensures a == b || NameLess(a, b) || NameLess(b, a)
    ensures !(NameLess(a, b) && NameLess(b, a))
    decreases |a|
  {
    if a != [] && b != [] && a[0] == b[0] {
      NameLessTrichotomy(a[1..], b[1..]);
      if a[1..] == b[1..] {
        assert a == [a[0]] + a[1..] && b == [b[0]] + b[1..];
      }
    }
  }

  /** The iteration order of a `std::set<FileSymbol>`. */
  ghost predicate Sorted(s: seq<FileSymbol>) {
    forall i, j :: 0 <= i < j < |s| ==> NameLess(s[i].symbolName, s[j].symbolName)
  }

  function ElementsOf(s: seq<FileSymbol>): set<FileSymbol> {
    set e | e in s
  }

  function NamesOf(s: seq<FileSymbol>): set<string> {
    set e | e in s :: e.symbolName
  }

  /** In a name-sorted table two entries with one name are the same entry. */
  lemma SortedNamesUnique(s: seq<FileSymbol>, i: nat, j: nat)
    requires Sorted(s) && i < |s| && j < |s|
    requires s[i].symbolName == s[j].symbolName
    ensures i == j
  {
    NameLessIrreflexive(s[i].symbolName);
  }

  lemma ElementsEmpty(a: seq<FileSymbol>)
    ensures ElementsOf(a) == {} <==> a == []
  {
    if a != [] {
      assert a[0] in a;
      assert a[0] in ElementsOf(a);
    }
  }

  /** The first entry of a sorted table has the least name. */
  lemma HeadIsLeast(a: seq<FileSymbol>, e: FileSymbol)
    requires Sorted(a) && e in a && e != a[0]
    ensures NameLess(a[0].symbolName, e.symbolName)
  {
    var k :| 0 <= k < |a| && a[k] == e;
  }

  lemma TailElements(a: seq<FileSymbol>)
    requires Sorted(a) && a != []
    ensures ElementsOf(a[1..]) == ElementsOf(a) - {a[0]}
  {
    NameLessIrreflexive(a[0].symbolName);
    assert a == [a[0]] + a[1..];
  }

  /** A name-sorted table is determined by its set of entries, so the
      model may state a table's new contents as a set. */
  lemma {:induction false} SortedUnique(a: seq<FileSymbol>, b: seq<FileSymbol>)
    requires Sorted(a) && Sorted(b)
    requires ElementsOf(a) == ElementsOf(b)
    ensures a == b
    decreases |a|
  {
    ElementsEmpty(a);
    ElementsEmpty(b);
    if a != [] {
      assert a[0] in a && b[0] in b;
      assert a[0] in ElementsOf(b) && b[0] in ElementsOf(a);
      if a[0] != b[0] {
        HeadIsLeast(a, b[0]);
        HeadIsLeast(b, a[0]);
        NameLessTrichotomy(a[0].symbolName, b[0].symbolName);
      }
      TailElements(a);
      TailElements(b);
      SortedUnique(a[1..], b[1..]);
      assert a == [a[0]] + a[1..] && b == [b[0]] + b[1..];
    }
  }

  /** Position of the entry named `name`, or `|s|` (the set's `end()`). */
  function Find(s: seq<FileSymbol>, name: string): (pos: nat)
    ensures pos <= |s|
    ensures pos < |s| ==> s[pos].symbolName == name
    ensures pos == |s| <==> name !in NamesOf(s)
  {
    if s == [] then 0
    else if s[0].symbolName == name then 0
    else
      assert NamesOf(s) == {s[0].symbolName} + NamesOf(s[1..]);
      1 + Find(s[1..], name)
  }

  lemma NoneBelow(s: seq<FileSymbol>, name: string)
    requires Sorted(s) && s != [] && !NameLess(s[0].symbolName, name)
    ensures forall j :: 0 <= j < |s| ==> !NameLess(s[j].symbolName, name)
  {
    forall j | 0 < j < |s| ensures !NameLess(s[j].symbolName, name) {
      if NameLess(s[j].symbolName, name) {
        NameLessTransitive(s[0].symbolName, s[j].symbolName, name);
      }
    }
  }

  /** Where `std::set::insert` puts a new entry named `name`: after every
      smaller name, before every other one. */
  function LowerBound(s: seq<FileSymbol>, name: string): (i: nat)
    requires Sorted(s)
    ensures i <= |s|
    ensures forall j :: 0 <= j < i ==> NameLess(s[j].symbolName, name)
    ensures forall j :: i <= j < |s| ==> !NameLess(s[j].symbolName, name)
  {
    if s == [] then 0
    else if !NameLess(s[0].symbolName, name) then NoneBelow(s, name); 0
    else 1 + LowerBound(s[1..], name)
  }

  /** Inserting at the lower bound of a name that is not at that position
      keeps the table sorted and adds exactly the new entry. */
  lemma InsertAtLowerBound(t: seq<FileSymbol>, i: nat, e: FileSymbol)
    requires Sorted(t) && i == LowerBound(t, e.symbolName)
    requires !(i < |t| && t[i].symbolName == e.symbolName)
    ensures e.symbolName !in NamesOf(t)
    ensures Sorted(t[..i] + [e] + t[i..])
    ensures ElementsOf(t[..i] + [e] + t[i..]) == ElementsOf(t) + {e}
    ensures NamesOf(t[..i] + [e] + t[i..]) == NamesOf(t) + {e.symbolName}
  {
    var name := e.symbolName;
    NameLessIrreflexive(name);
    if i < |t| {
      NameLessTrichotomy(name, t[i].symbolName);
      AboveLowerBound(t, i, name);
    }
    InsertSorted(t, i, e);
    InsertElements(t, i, e);
  }

  lemma InsertSorted(t: seq<FileSymbol>, i: nat, e: FileSymbol)
    requires Sorted(t) && i <= |t|
    requires forall j :: 0 <= j < i ==> NameLess(t[j].symbolName, e.symbolName)
    requires forall j :: i <= j < |t| ==> NameLess(e.symbolName, t[j].symbolName)
    ensures Sorted(t[..i] + [e] + t[i..])
  {
    var s := t[..i] + [e] + t[i..];
    assert forall j :: 0 <= j < i ==> s[j] == t[j];
    assert forall j :: i < j < |s| ==> s[j] == t[j - 1];
    forall j, k | 0 <= j < k < |s| ensures NameLess(s[j].symbolName, s[k].symbolName) {
      if j < i && k > i {
        NameLessTransitive(s[j].symbolName, e.symbolName, s[k].symbolName);
      }
    }
  }

  lemma InsertElements(t: seq<FileSymbol>, i: nat, e: FileSymbol)
    requires i <= |t|
    ensures ElementsOf(t[..i] + [e] + t[i..]) == ElementsOf(t) + {e}
    ensures NamesOf(t[..i] + [e] + t[i..]) == NamesOf(t) + {e.symbolName}
  {
    assert t == t[..i] + t[i..];
  }

  /** Every entry from position `i` on is above `name` once the entry at
      `i` is. */
  lemma AboveLowerBound(t: seq<FileSymbol>, i: nat, name: string)
    requires Sorted(t) && i < |t| && NameLess(name, t[i].symbolName)
    ensures forall j :: i <= j < |t| ==> NameLess(name, t[j].symbolName)
  {
    forall j | i < j < |t| ensures NameLess(name, t[j].symbolName) {
      NameLessTransitive(name, t[i].symbolName, t[j].symbolName);
    }
  }

  /** `std::set::insert` of `e` into a name-ordered table: a name already
      present keeps its entry, a new name is placed at its lower bound. */
  function Insert(s: seq<FileSymbol>, e: FileSymbol): (r: seq<FileSymbol>)
    requires Sorted(s)
    ensures Sorted(r)
    ensures e.symbolName in NamesOf(s) ==> r == s
    ensures e.symbolName !in NamesOf(s) ==> ElementsOf(r) == ElementsOf(s) + {e}
    ensures NamesOf(r) == NamesOf(s) + {e.symbolName}
  {
    var i := LowerBound(s, e.symbolName);
    if i < |s| && s[i].symbolName == e.symbolName then
      assert s[i] in s;
      s
    else
      InsertAtLowerBound(s, i, e);
      s[..i] + [e] + s[i..]
  }

  /** Erasing one entry of a sorted table removes that entry and its name
      and nothing else. */
  lemma EraseElements(s: seq<FileSymbol>, pos: nat)
    requires Sorted(s) && pos < |s|
    ensures Sorted(s[..pos] + s[pos + 1..])
    ensures ElementsOf(s[..pos] + s[pos + 1..]) == ElementsOf(s) - {s[pos]}
    ensures NamesOf(s[..pos] + s[pos + 1..]) == NamesOf(s) - {s[pos].symbolName}
  {
    var t := s[..pos] + s[pos + 1..];
    assert forall j :: 0 <= j < pos ==> t[j] == s[j];
    assert forall j :: pos <= j < |t| ==> t[j] == s[j + 1];
    assert s == s[..pos] + [s[pos]] + s[pos + 1..];
    forall k | 0 <= k < |s| && k != pos ensures s[k].symbolName != s[pos].symbolName {
      if s[k].symbolName == s[pos].symbolName {
        SortedNamesUnique(s, k, pos);
      }
    }
    forall e | e in t ensures e.symbolName != s[pos].symbolName {
      var j :| 0 <= j < |t| && t[j] == e;
      if j < pos { assert e == s[j]; } else { assert e == s[j + 1]; }
    }
  }

  /** A table seen as what it records: the owner of each name. */
  ghost function OwnersOf(s: seq<FileSymbol>): (m: map<string, nat>)
    ensures m.Keys == NamesOf(s)
  {
    map n | n in NamesOf(s) :: s[Find(s, n)].fileIndex
  }

  /** `add` on the owner view: a name already present keeps its owner. */
  function AddName(m: map<string, nat>, name: string, owner: nat): map<string, nat> {
    if name in m then m else m[name := owner]
  }

  /** In a name-sorted table an entry is present exactly when the owner
      view maps its name to its file index. */
  lemma OwnersOfSorted(s: seq<FileSymbol>)
    requires Sorted(s)
    ensures forall e :: e in s <==>
      e.symbolName in OwnersOf(s) && OwnersOf(s)[e.symbolName] == e.fileIndex
  {
    forall e | e in s
      ensures e.symbolName in OwnersOf(s) && OwnersOf(s)[e.symbolName] == e.fileIndex
    {
      var k :| 0 <= k < |s| && s[k] == e;
      var p := Find(s, e.symbolName);
      SortedNamesUnique(s, k, p);
    }
  }

  /** The owner view loses nothing: two sorted tables with the same view
      are the same table. */
  lemma OwnersDetermine(a: seq<FileSymbol>, b: seq<FileSymbol>)
    requires Sorted(a) && Sorted(b) && OwnersOf(a) == OwnersOf(b)
    ensures a == b
  {
    OwnersOfSorted(a);
    OwnersOfSorted(b);
    assert ElementsOf(a) == ElementsOf(b);
    SortedUnique(a, b);
  }

  /** Erasing an entry of a sorted table drops its name from the owner
      view. */
  lemma EraseOwners(s: seq<FileSymbol>, pos: nat)
    requires Sorted(s) && pos < |s|
    ensures OwnersOf(s[..pos] + s[pos + 1..]) == OwnersOf(s) - {s[pos].symbolName}
  {
    var t := s[..pos] + s[pos + 1..];
    EraseElements(s, pos);
    OwnersOfSorted(s);
    OwnersOfSorted(t);
    forall n | n in OwnersOf(t) ensures OwnersOf(t)[n] == OwnersOf(s)[n] {
      assert FileSymbol(n, OwnersOf(t)[n]) in ElementsOf(t);
    }
  }

  /** Appending an entry with a new name to a table adds that name to its
      owner view. */
  lemma {:induction false} OwnersOfAppend(s: seq<FileSymbol>, e: FileSymbol)
    requires e.symbolName !in NamesOf(s)
    ensures OwnersOf(s + [e]) == OwnersOf(s)[e.symbolName := e.fileIndex]
  {
    assert NamesOf(s + [e]) == NamesOf(s) + {e.symbolName};
    forall n | n in NamesOf(s) ensures Find(s + [e], n) == Find(s, n) {
      FindAppend(s, e, n);
    }
    assert Find(s + [e], e.symbolName) == |s| by {
      FindAppend(s, e, e.symbolName);
    }
  }

  lemma {:induction false} FindAppend(s: seq<FileSymbol>, e: FileSymbol, n: string)
    ensures n in NamesOf(s) ==> Find(s + [e], n) == Find(s, n)
    ensures n !in NamesOf(s) && n == e.symbolName ==> Find(s + [e], n) == |s|
  {
    if s != [] {
      assert (s + [e])[1..] == s[1..] + [e];
      FindAppend(s[1..], e, n);
      assert NamesOf(s) == {s[0].symbolName} + NamesOf(s[1..]);
    }
  }

  /** `std::set::insert` is `AddName` on the owner view. */
  lemma InsertOwners(s: seq<FileSymbol>, e: FileSymbol)
    requires Sorted(s)
    ensures OwnersOf(Insert(s, e)) == AddName(OwnersOf(s), e.symbolName, e.fileIndex)
  {
    var r := Insert(s, e);
    if e.symbolName !in NamesOf(s) {
      var m, m' := OwnersOf(s), OwnersOf(r);
      var m2 := m[e.symbolName := e.fileIndex];
      forall n | n in m' ensures n in m2 && m'[n] == m2[n] {
        var x := OwnerEntry(r, n);
        InsertedEntry(s, e, x);
        if n != e.symbolName {
          OwnerOfEntry(s, x);
        }
      }
      assert m'.Keys == m2.Keys;
    }
  }

  /** An entry of the table after inserting a new name is the inserted
      one or an old one with another name. */
  lemma InsertedEntry(s: seq<FileSymbol>, e: FileSymbol, x: FileSymbol)
    requires Sorted(s) && e.symbolName !in NamesOf(s)
    requires x in Insert(s, e)
    ensures x.symbolName == e.symbolName ==> x == e
    ensures x.symbolName != e.symbolName ==> x in s
  {
    assert x in ElementsOf(Insert(s, e));
    assert x in ElementsOf(s) + {e};
    if x != e {
      assert x in ElementsOf(s);
      assert x in s;
      assert x.symbolName in NamesOf(s);
    }
  }

  /** The entry a name of a sorted table names in its owner view. */
  lemma OwnerEntry(s: seq<FileSymbol>, n: string) returns (x: FileSymbol)
    requires Sorted(s) && n in NamesOf(s)
    ensures x == FileSymbol(n, OwnersOf(s)[n]) && x in s
  {
    x := FileSymbol(n, OwnersOf(s)[n]);
    assert s[Find(s, n)] == x;
  }

  /** Each entry of a sorted table is its name's owner. */
  lemma OwnerOfEntry(s: seq<FileSymbol>, x: FileSymbol)
    requires Sorted(s) && x in s
    ensures x.symbolName in OwnersOf(s) && OwnersOf(s)[x.symbolName] == x.fileIndex
  {
    var k :| 0 <= k < |s| && s[k] == x;
    SortedNamesUnique(s, k, Find(s, x.symbolName));
  }

  /** One line of a symbol file: `"<name> <index>\n"`. */
  function SymbolLine(e: FileSymbol): string {
    e.symbolName + " " + Decimal(e.fileIndex) + "\n"
  }

  /** The whole symbol file, one line per entry in table order. */
  function SymbolsText(s: seq<FileSymbol>): string {
    if s == [] then [] else SymbolLine(s[0]) + SymbolsText(s[1..])
  }

  /** Reads one symbol line back: the name up to the first space, then the
      number in the digits that follow. */
  function ParseSymbolLine(l: string): (e: FileSymbol)
  {
    var sp := SkipWhile(l, 0, Except(' '));
    var rest := if sp < |l| then l[sp + 1..] else [];
    var k := DigitRunLength(rest);
    FileSymbol(l[..sp], DecimalValue(rest[..k]))
  }

  predicate NoWhitespace(name: string) {
    forall k :: 0 <= k < |name| ==> !IsSpace(name[k])
  }

  /** No name in the table holds white space. */
  predicate NamesClean(s: seq<FileSymbol>) {
    forall e :: e in s ==> NoWhitespace(e.symbolName)
  }

  /** Inserting a name without white space keeps the names clean. */
  lemma InsertClean(s: seq<FileSymbol>, e: FileSymbol)
    requires Sorted(s) && NamesClean(s) && NoWhitespace(e.symbolName)
    ensures NamesClean(Insert(s, e))
  {
    if e.symbolName !in NamesOf(s) {
      forall x | x in Insert(s, e) ensures NoWhitespace(x.symbolName) {
        assert x in ElementsOf(Insert(s, e));
      }
    }
  }

  lemma SymbolLineRoundTrip(e: FileSymbol)
    requires NoWhitespace(e.symbolName)
    ensures IsLine(SymbolLine(e))
    ensures ParseSymbolLine(SymbolLine(e)) == e
  {
    var n, d := e.symbolName, Decimal(e.fileIndex);
    SymbolLineShape(n, d);
    SplitAtSpace(n, d + "\n");
    DigitRunLengthOfDigits(d, "\n");
    assert (d + "\n")[..|d|] == d;
    DecimalRoundTrip(e.fileIndex);
  }

  /** A name without whitespace, a space and a number make one line. */
  lemma SymbolLineShape(n: string, d: string)
    requires NoWhitespace(n) && AllDigits(d)
    ensures IsLine(n + " " + d + "\n") && n + " " + d + "\n" == n + " " + (d + "\n")
  {
    var body := n + " " + d;
    forall k | 0 <= k < |body| ensures body[k] != '\n' {
      if k < |n| {
        assert body[k] == n[k];
      } else if k > |n| {
        assert body[k] == d[k - |n| - 1];
      }
    }
    EndsLine(body + "\n", body);
  }

  /** The first field of `n + " " + t` is `n` when `n` has no blank. */
  lemma SplitAtSpace(n: string, t: string)
    requires NoWhitespace(n)
    ensures var l := n + " " + t;
      && SkipWhile(l, 0, Except(' ')) == |n| && |n| < |l|
      && l[..|n|] == n && l[|n| + 1..] == t
  {
    var l := n + " " + t;
    assert forall k :: 0 <= k < |n| ==> l[k] == n[k];
    assert l[|n|] == ' ';
    SkipWhileIs(l, 0, Except(' '), |n|);
    assert l[..|n|] == n;
    assert l[|n| + 1..] == t;
  }

  /** The text `writeSymbols` produces splits into exactly one line per
      entry, and each line reads back as its entry, in table order. */
  lemma {:induction false} SymbolsTextRoundTrip(s: seq<FileSymbol>)
    requires NamesClean(s)
    ensures |Lines(SymbolsText(s))| == |s|
    ensures forall i :: 0 <= i < |s| ==> ParseSymbolLine(Lines(SymbolsText(s))[i]) == s[i]
  {
    var ls := seq(|s|, i requires 0 <= i < |s| => SymbolLine(s[i]));
    forall i | 0 <= i < |s| ensures IsLine(ls[i]) && ParseSymbolLine(ls[i]) == s[i] {
      SymbolLineRoundTrip(s[i]);
    }
    SymbolsTextIsConcat(s);
    LinesOfConcat(ls);
  }

  lemma {:induction false} SymbolsTextIsConcat(s: seq<FileSymbol>)
    ensures SymbolsText(s) == Concat(seq(|s|, i requires 0 <= i < |s| => SymbolLine(s[i])))
  {
    var ls := seq(|s|, i requires 0 <= i < |s| => SymbolLine(s[i]));
    if s != [] {
      SymbolsTextIsConcat(s[1..]);
      assert ls[1..] == seq(|s[1..]|, i requires 0 <= i < |s[1..]| => SymbolLine(s[1..][i]));
    }
  }

  /** A symbol table: `FileSymbols`, a `std::set<FileSymbol>` ordered by
      name alone. */
  class FileSymbols {
    var symbols: seq<FileSymbol>

    ghost predicate Valid()
      reads this
    {
      Sorted(symbols)
    }

    ghost function Elements(): set<FileSymbol>
      reads this
    {
      ElementsOf(symbols)
    }

    /** The table as the owner of each name. */
    ghost function Owners(): map<string, nat>
      reads this
    {
      OwnersOf(symbols)
    }

    constructor ()
      ensures Valid() && symbols == []
    {
      symbols := [];
    }

    /** `add`: inserts the entry unless an entry with that name is already
        there, whatever its owner (the first owner wins). */
    method Add(symbolName: string, fileIndex: nat)
      requires Valid()
      modifies this
      ensures Valid()
      ensures symbols == Insert(old(symbols), FileSymbol(symbolName, fileIndex))
      ensures Owners() == AddName(old(Owners()), symbolName, fileIndex)
    {
      InsertOwners(symbols, FileSymbol(symbolName, fileIndex));
      var i := LowerBound(symbols, symbolName);
      if i < |symbols| && symbols[i].symbolName == symbolName {
        return;
      }
      InsertAtLowerBound(symbols, i, FileSymbol(symbolName, fileIndex));
      symbols := symbols[..i] + [FileSymbol(symbolName, fileIndex)] + symbols[i..];
    }

    /** `findName`: looks the name up, ignoring owners; `|symbols|` is `end()`. */
    function FindName(symbolName: string): (pos: nat)
      reads this
      requires Valid()
      ensures pos <= |symbols|
      ensures pos < |symbols| ==> symbols[pos].symbolName == symbolName
      ensures pos == |symbols| <==> symbolName !in NamesOf(symbols)
      ensures forall k :: 0 <= k < |symbols| && symbols[k].symbolName == symbolName ==> k == pos
    {
      var pos := Find(symbols, symbolName);
      assert forall k :: 0 <= k < |symbols| && symbols[k].symbolName == symbolName ==> symbols[k] in symbols;
      if pos < |symbols| then
        assert forall k :: 0 <= k < |symbols| && symbols[k].symbolName == symbolName ==> k == pos by {
          forall k | 0 <= k < |symbols| && symbols[k].symbolName == symbolName ensures k == pos {
            SortedNamesUnique(symbols, k, pos);
          }
        }
        pos
      else pos
    }

    /** `erase(pos)` */
    method Erase(pos: nat)
      requires Valid() && pos < |symbols|
      modifies this
      ensures Valid()
      ensures symbols == old(symbols[..pos] + symbols[pos + 1..])
      ensures Elements() == old(Elements()) - {old(symbols[pos])}
      ensures NamesOf(symbols) == old(NamesOf(symbols)) - {old(symbols[pos]).symbolName}
      ensures Owners() == old(Owners()) - {old(symbols[pos]).symbolName}
    {
      EraseElements(symbols, pos);
      EraseOwners(symbols, pos);
      symbols := symbols[..pos] + symbols[pos + 1..];
    }

    /** `writeSymbols`: the file's text, `"<name> <index>\n"` per entry in
        name order. */
    function WriteSymbols(): (text: string)
      reads this
      ensures NamesClean(symbols) ==>
        |Lines(text)| == |symbols| &&
        forall i :: 0 <= i < |symbols| ==> ParseSymbolLine(Lines(text)[i]) == symbols[i]
    {
      if NamesClean(symbols) then
        SymbolsTextRoundTrip(symbols);
        SymbolsText(symbols)
      else SymbolsText(symbols)
    }
  }
}
