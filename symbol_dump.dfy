/** Classification of one line of a symbol dump (the text `nm` writes for a
    library): `ClumpSymbols::readRawSymbolFile` reads an address field, a
    one-letter symbol type and the symbol name, and is meant to record `D`
    (data) and `T` (text) symbols as defined and `U` symbols as undefined.
    `ClassifyAsWritten` is what the code does, and what the clump reads
    dumps with; `Classify` is the intended scan. */
module SymbolDump {
  import opened Text

  datatype Kind = Defined | Undefined

  /** What one line contributes to the tables. */
  datatype Entry = Entry(kind: Kind, name: string)

  /** The table a symbol type letter selects, if any. */
  function KindOf(symType: char): (k: Option<Kind>)
    ensures k == Some(Defined) <==> symType == 'D' || symType == 'T'
    ensures k == Some(Undefined) <==> symType == 'U'
  {
    if symType == 'D' || symType == 'T' then Some(Defined)
    else if symType == 'U' then Some(Undefined)
    else None
  }

  /** What a line records once its type letter has been found at `p`:
      the letter's table and the run of non-whitespace after the blanks
      that follow the letter; nothing at the end of the line or for any
      other letter. */
  function EntryAt(line: string, p: nat): (r: Option<Entry>)
    requires p <= |line|
    ensures r.Some? ==> forall k :: 0 <= k < |r.value.name| ==> !IsSpace(r.value.name[k])
  {
    if p == |line| then None
    else
      var start := SkipWhile(line, p + 1, Space);
      var end := SkipWhile(line, start, NotSpace);
      assert forall k :: 0 <= k < end - start ==> line[start..end][k] == line[start + k];
      match KindOf(line[p])
      case None => None
      case Some(k) => Some(Entry(k, line[start..end]))
  }

  /** The classifier as written: one loop skips whitespace and hex digits
      together, so it also swallows a `D` type letter (a hex digit)
      together with the address. Reaching the end of the line where the
      source would read past its terminator stops the scan instead. */
  function ClassifyAsWritten(line: string): Option<Entry> {
    EntryAt(line, SkipWhile(line, 0, SpaceOrXDigit))
  }

  /** Where the intended scan finds the type letter: after leading
      whitespace, the hexadecimal address and whitespace. */
  function LetterPos(line: string): (p: nat)
    ensures p <= |line|
  {
    SkipWhile(line, SkipWhile(line, SkipWhile(line, 0, Space), XDigit), Space)
  }

  /** The classifier as intended: the type letter is read at `LetterPos`;
      every other step is the one written. */
  function Classify(line: string): Option<Entry> {
    EntryAt(line, LetterPos(line))
  }

  predicate AllHex(s: string) {
    forall k :: 0 <= k < |s| ==> IsXDigit(s[k])
  }

  predicate AllSpace(s: string) {
    forall k :: 0 <= k < |s| ==> IsSpace(s[k])
  }

  /** One line as `nm` prints it: the address column (hex digits, or
      blanks for a symbol without an address), a space, the type letter, a
      space, the name. */
  function NmLine(address: string, symType: char, name: string): string {
    address + " " + [symType] + " " + name + "\n"
  }

  /** The intended classifier reads back every `nm` line: its type and its
      name, whether the address is a number or blank. */
  lemma {:induction false} ClassifyNmLine(address: string, symType: char, name: string)
    requires (address != [] && AllHex(address)) || (AllSpace(address) && !IsXDigit(symType))
    requires !IsSpace(symType)
    requires forall k :: 0 <= k < |name| ==> !IsSpace(name[k])
    ensures Classify(NmLine(address, symType, name)) ==
      match KindOf(symType)
      case None => None
      case Some(k) => Some(Entry(k, name))
  {
    var line := NmLine(address, symType, name);
    NmLineLetter(address, symType, name);
    NmLineToken(address, symType, name);
    ClassifyAt(line, |address| + 1, name);
  }

  /** The intended skips stop at the type letter of an `nm` line. */
  lemma {:induction false} NmLineLetter(address: string, symType: char, name: string)
    requires (address != [] && AllHex(address)) || (AllSpace(address) && !IsXDigit(symType))
    requires !IsSpace(symType)
    ensures var line := NmLine(address, symType, name);
      && |address| + 1 < |line| && line[|address| + 1] == symType
      && LetterPos(line) == |address| + 1
  {
    var line := NmLine(address, symType, name);
    var n := |address|;
    assert forall k :: 0 <= k < n ==> line[k] == address[k];
    assert line[n] == ' ' && line[n + 1] == symType;
    var p0 := SkipWhile(line, 0, Space);
    var p1 := SkipWhile(line, p0, XDigit);
    if address != [] && AllHex(address) {
      assert !IsSpace(address[0]);
      SkipWhileIs(line, 0, Space, 0);
      SkipWhileIs(line, 0, XDigit, n);
    } else {
      SkipWhileIs(line, 0, Space, n + 1);
      SkipWhileIs(line, n + 1, XDigit, n + 1);
    }
    SkipWhileIs(line, p1, Space, n + 1);
  }

  /** The token after the type letter of an `nm` line is its name. */
  lemma {:induction false} NmLineToken(address: string, symType: char, name: string)
    requires forall k :: 0 <= k < |name| ==> !IsSpace(name[k])
    ensures var line := NmLine(address, symType, name);
      var start := SkipWhile(line, |address| + 2, Space);
      line[start..SkipWhile(line, start, NotSpace)] == name
  {
    var pre := address + " " + [symType] + " ";
    assert pre + name + "\n" == NmLine(address, symType, name);
    TokenAt(pre, name);
  }

  /** After a blank that ends `pre`, the token of `pre + name + "\n"` is
      `name`. */
  lemma {:induction false} TokenAt(pre: string, name: string)
    requires pre != [] && IsSpace(pre[|pre| - 1])
    requires forall k :: 0 <= k < |name| ==> !IsSpace(name[k])
    ensures var line := pre + name + "\n";
      var start := SkipWhile(line, |pre| - 1, Space);
      line[start..SkipWhile(line, start, NotSpace)] == name
  {
    var line := pre + name + "\n";
    var b := |pre| - 1;
    assert line[b] == pre[b];
    assert line[|line| - 1] == '\n';
    if name == [] {
      SkipWhileIs(line, b, Space, |line|);
    } else {
      assert line[b + 1] == name[0];
      SkipWhileIs(line, b, Space, b + 1);
      forall k | b + 1 <= k < b + 1 + |name| ensures In(line[k], NotSpace) {
        assert line[k] == name[k - b - 1];
      }
      SkipWhileIs(line, b + 1, NotSpace, b + 1 + |name|);
      assert line[b + 1..b + 1 + |name|] == name;
    }
  }

  /** `Classify` once the type letter has been found at `p` and the token
      after it is known. */
  lemma {:induction false} ClassifyAt(line: string, p: nat, name: string)
    requires p < |line|
    requires LetterPos(line) == p
    requires var start := SkipWhile(line, p + 1, Space);
      line[start..SkipWhile(line, start, NotSpace)] == name
    ensures Classify(line) == match KindOf(line[p])
      case None => None
      case Some(k) => Some(Entry(k, name))
  {
  }

  /** The line `nm` prints for a data symbol at address 0x10. */
  const DataSymbolLine: string := NmLine("0000000000000010", 'D', "counter")

  /** As written, a data symbol (`D`) with an address is never recorded:
      the letter is taken for part of the address, and so is the `c` of
      the name; the scan stops at `o`, which is no type letter. */
  lemma {:induction false} AsWrittenMissesDataSymbol()
    ensures ClassifyAsWritten(DataSymbolLine) == None
  {
    assert AllHex("0000000000000010");
    AsWrittenSkipsLetter("0000000000000010", "counter");
  }

  /** As written, on an `nm` line with an address and the type letter `D`,
      the skip runs through the letter and on through a leading hex digit
      of the name. */
  lemma {:induction false} AsWrittenSkipsLetter(address: string, name: string)
    requires AllHex(address)
    requires 2 <= |name| && IsXDigit(name[0]) && !In(name[1], SpaceOrXDigit)
    ensures var line := NmLine(address, 'D', name);
      SkipWhile(line, 0, SpaceOrXDigit) == |address| + 4 && line[|address| + 4] == name[1]
  {
    var line := NmLine(address, 'D', name);
    var n := |address|;
    assert forall k :: 0 <= k < n ==> line[k] == address[k];
    assert line[n] == ' ' && line[n + 1] == 'D' && line[n + 2] == ' ';
    assert line[n + 3] == name[0] && line[n + 4] == name[1];
    assert IsXDigit('D');
    SkipWhileIs(line, 0, SpaceOrXDigit, n + 4);
  }

  /** The intended classifier records the same line as the defined
      symbol `counter`. */
  lemma {:induction false} ClassifyReadsDataSymbol()
    ensures Classify(DataSymbolLine) == Some(Entry(Defined, "counter"))
  {
    assert AllHex("0000000000000010");
    ClassifyNmLine("0000000000000010", 'D', "counter");
  }

  /** As written, the type letter is never `D`: a line is recorded only
      when the first character after the run of whitespace and hex digits
      is `T` (defined) or `U` (undefined), and the name is the run of
      non-whitespace after the letter and the blanks that follow it. */
  lemma {:induction false} AsWrittenRecords(line: string)
    ensures var p := SkipWhile(line, 0, SpaceOrXDigit);
      && (ClassifyAsWritten(line).Some? <==> p < |line| && (line[p] == 'T' || line[p] == 'U'))
      && (ClassifyAsWritten(line).Some? ==>
            var start := SkipWhile(line, p + 1, Space);
            && ClassifyAsWritten(line).value.kind == (if line[p] == 'T' then Defined else Undefined)
            && ClassifyAsWritten(line).value.name == line[start..SkipWhile(line, start, NotSpace)])
  {
  }

  /** `readRawSymbolFile`'s scan of one line, pointer by pointer, as
      written: one loop skips whitespace and hex digits together. */
  method ScanLine(line: string) returns (r: Option<Entry>)
    ensures r == ClassifyAsWritten(line)
  {
    var p := Skip(line, 0, SpaceOrXDigit);
    if p == |line| {
      return None;
    }
    var symType := line[p];
    p := Skip(line, p + 1, Space);
    var endP := Skip(line, p, NotSpace);
    if symType == 'D' || symType == 'T' {
      r := Some(Entry(Defined, line[p..endP]));
    } else if symType == 'U' {
      r := Some(Entry(Undefined, line[p..endP]));
    } else {
      r := None;
    }
  }
}
