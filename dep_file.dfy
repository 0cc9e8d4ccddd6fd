/** The `LibSym-<clump>-Dep.txt` file: the library paths as `f:` lines (the
    first is file index 0), the dependency map as `d:` lines and the link
    order as one `o:` line; and the reader that turns it back into the
    ordered list of library paths. */
module DepFile {
  import opened Text
  import opened Dependencies
  import opened LinkOrder

  // ---------------------------------------------------------------------
  // Sets in increasing order, as the map and its sets iterate

  lemma {:induction false} LeastElement(s: set<nat>) returns (least: nat)
    requires s != {}
    ensures least in s && forall y :: y in s ==> least <= y
    decreases |s|
  {
    var x :| x in s;
    var r := s - {x};
    least := x;
    if r != {} {
      var m := LeastElement(r);
      if m < x {
        least := m;
      }
    }
    forall y | y in s ensures least <= y {
      if y != x {
        assert y in r;
      }
    }
  }

  lemma HasMinimum(s: set<nat>)
    requires s != {}
    ensures exists m :: m in s && forall y :: y in s ==> m <= y
  {
    var m := LeastElement(s);
  }

  function Minimum(s: set<nat>): (m: nat)
    requires s != {}
    ensures m in s && forall y :: y in s ==> m <= y
  {
    HasMinimum(s);
    var m :| m in s && forall y :: y in s ==> m <= y;
    m
  }

  /** The elements of `s` in increasing order. */
  function Ascending(s: set<nat>): (r: seq<nat>)
    ensures Increasing(r)
    ensures forall x :: x in r <==> x in s
    decreases |s|
  {
    if s == {} then []
    else
      var m := Minimum(s);
      var rest := Ascending(s - {m});
      assert forall j :: 0 <= j < |rest| ==> rest[j] in s - {m};
      [m] + rest
  }

  // ---------------------------------------------------------------------
  // The writer

  /** `FileList::writeFile`: one `f:<path>` line per library. */
  function FileLines(files: seq<string>): seq<string> {
    seq(|files|, i requires 0 <= i < |files| => "f:" + files[i] + "\n")
  }

  /** `%d ` for each number. */
  function Numbers(ns: seq<nat>): string {
    if ns == [] then [] else Decimal(ns[0]) + " " + Numbers(ns[1..])
  }

  /** One `d:<client> <supplier> ...` line per client, clients and
      suppliers in increasing order. */
  function DepLines(deps: DepMap): seq<string> {
    var clients := Ascending(deps.Keys);
    seq(|clients|, i requires 0 <= i < |clients| =>
      assert clients[i] in deps.Keys;
      "d:" + Decimal(clients[i]) + " " + Numbers(Ascending(deps[clients[i]])) + "\n")
  }

  function OrderLine(order: seq<nat>): string {
    "o:" + Numbers(order) + "\n"
  }

  /** `writeDepFileInfo`: the whole file. */
  function WriteDepFileInfo(files: seq<string>, deps: DepMap, order: seq<nat>): string {
    Concat(FileLines(files) + DepLines(deps) + [OrderLine(order)])
  }

  // ---------------------------------------------------------------------
  // The reader

  /** The lines the reader can take: a tagged line has room for its
      two-character tag, and an `f:` line has a newline after the tag
      (without one, `rfind` gives `npos` and `fn.resize(npos)` throws). */
  predicate ReadableLine(l: string) {
    && l != []
    && (l[0] == 'o' ==> |l| >= 2)
    && (l[0] == 'f' ==> |l| >= 2 && '\n' in l[2..])
  }

  /** `std::string::rfind`: the position of the last `c` in `s`. */
  function LastIndexOf(s: string, c: char): (r: Option<nat>)
    ensures r.None? ==> forall k :: 0 <= k < |s| ==> s[k] != c
    ensures r.Some? ==> r.value < |s| && s[r.value] == c
    ensures r.Some? ==> forall k :: r.value < k < |s| ==> s[k] != c
  {
    if s == [] then None
    else if s[|s| - 1] == c then Some(|s| - 1)
    else LastIndexOf(s[..|s| - 1], c)
  }

  /** The path of an `f:` line as written: everything after the tag, cut
      at the last newline unless that newline is the first character left
      (`if(pos)` takes position 0 for "not found"). A line without a
      newline would be cut at `npos`, which the library rejects. */
  function PathOfAsWritten(l: string): string
    requires |l| >= 2 && LastIndexOf(l[2..], '\n').Some?
  {
    var fn := l[2..];
    var pos := LastIndexOf(fn, '\n').value;
    if pos != 0 then fn[..pos] else fn
  }

  /** The path of an `f:` line: everything after the tag, cut at the last
      newline if there is one. */
  function PathOf(l: string): string
    requires |l| >= 2
  {
    var fn := l[2..];
    match LastIndexOf(fn, '\n')
    case None => fn
    case Some(pos) => fn[..pos]
  }

  /** `rfind` finds a newline that occurs. */
  lemma NewlineFound(l: string)
    requires |l| >= 2 && '\n' in l[2..]
    ensures LastIndexOf(l[2..], '\n').Some?
  {
    var k :| 0 <= k < |l[2..]| && l[2..][k] == '\n';
  }

  /** The two cuts agree unless the newline is the first character after
      the tag, that is, unless the path is empty. */
  lemma PathsAgree(l: string)
    requires |l| >= 2 && LastIndexOf(l[2..], '\n').Some?
    requires LastIndexOf(l[2..], '\n').value != 0
    ensures PathOfAsWritten(l) == PathOf(l)
  {
  }

  /** As written, the `f:` line of an empty path reads back as a newline. */
  lemma EmptyPathAsWritten()
    ensures LastIndexOf("\n", '\n') == Some(0)
    ensures PathOfAsWritten("f:\n") == "\n"
    ensures PathOf("f:\n") == ""
  {
    assert "f:\n"[2..] == "\n";
  }

  /** The paths named by the `f:` lines, in order, cut as written. */
  function FileNamesOf(lines: seq<string>): seq<string>
    requires forall i :: 0 <= i < |lines| ==> ReadableLine(lines[i])
  {
    if lines == [] then []
    else
      assert ReadableLine(lines[0]);
      if lines[0][0] == 'f' then
        NewlineFound(lines[0]);
        [PathOfAsWritten(lines[0])] + FileNamesOf(lines[1..])
      else FileNamesOf(lines[1..])
  }

  /** The numbers on the `o:` lines, in order. */
  function IndicesOf(lines: seq<string>): seq<nat>
    requires forall i :: 0 <= i < |lines| ==> ReadableLine(lines[i])
  {
    if lines == [] then []
    else
      assert ReadableLine(lines[0]);
      (if lines[0][0] == 'o' then DigitRuns(lines[0][2..]) else []) + IndicesOf(lines[1..])
  }

  /** The text the reader accepts: readable lines, and every index names
      one of the paths. */
  predicate ReadableDepFile(text: string) {
    var lines := Lines(text);
    && (forall i :: 0 <= i < |lines| ==> ReadableLine(lines[i]))
    && (forall k :: 0 <= k < |IndicesOf(lines)| ==> IndicesOf(lines)[k] < |FileNamesOf(lines)|)
  }

  /** The paths the indices select. */
  function Selected(names: seq<string>, indices: seq<nat>): seq<string>
    requires forall k :: 0 <= k < |indices| ==> indices[k] < |names|
  {
    seq(|indices|, k requires 0 <= k < |indices| => names[indices[k]])
  }

  lemma FileNamesAppend(a: seq<string>, b: seq<string>)
    requires forall i :: 0 <= i < |a| ==> ReadableLine(a[i])
    requires forall i :: 0 <= i < |b| ==> ReadableLine(b[i])
    ensures FileNamesOf(a + b) == FileNamesOf(a) + FileNamesOf(b)
    ensures IndicesOf(a + b) == IndicesOf(a) + IndicesOf(b)
  {
    FileNamesOfAppend(a, b);
    IndicesOfAppend(a, b);
  }

  lemma {:induction false} FileNamesOfAppend(a: seq<string>, b: seq<string>)
    requires forall i :: 0 <= i < |a| ==> ReadableLine(a[i])
    requires forall i :: 0 <= i < |b| ==> ReadableLine(b[i])
    ensures FileNamesOf(a + b) == FileNamesOf(a) + FileNamesOf(b)
  {
    if a == [] {
      assert a + b == b;
    } else {
      assert (a + b)[0] == a[0];
      assert (a + b)[1..] == a[1..] + b;
      FileNamesOfAppend(a[1..], b);
    }
  }

  lemma {:induction false} IndicesOfAppend(a: seq<string>, b: seq<string>)
    requires forall i :: 0 <= i < |a| ==> ReadableLine(a[i])
    requires forall i :: 0 <= i < |b| ==> ReadableLine(b[i])
    ensures IndicesOf(a + b) == IndicesOf(a) + IndicesOf(b)
  {
    if a == [] {
      assert a + b == b;
    } else {
      assert (a + b)[0] == a[0];
      assert (a + b)[1..] == a[1..] + b;
      IndicesOfAppend(a[1..], b);
    }
  }

  /** What reading one more line adds. */
  lemma {:induction false} ReadOneMore(ls: seq<string>, l: string)
    requires forall i :: 0 <= i < |ls| ==> ReadableLine(ls[i])
    requires ReadableLine(l)
    ensures l[0] == 'f' ==> LastIndexOf(l[2..], '\n').Some?
    ensures FileNamesOf(ls + [l]) == FileNamesOf(ls) + (if l[0] == 'f' then [PathOfAsWritten(l)] else [])
    ensures IndicesOf(ls + [l]) == IndicesOf(ls) + (if l[0] == 'o' then DigitRuns(l[2..]) else [])
  {
    FileNamesAppend(ls, [l]);
    if l[0] == 'f' {
      NewlineFound(l);
    }
    assert [l][1..] == [];
  }

  /** `appendOrderedLibFileNames`: reads the dep file (absent when it
      cannot be opened) and appends the paths of the `o:` indices, in
      order, to `sortedLibFileNames`. */
  method AppendOrderedLibFileNames(content: Option<string>, sortedLibFileNames: seq<string>)
    returns (result: seq<string>)
    requires content.Some? ==> ReadableDepFile(content.value)
    ensures content.None? ==> result == sortedLibFileNames
    ensures content.Some? ==>
      result == sortedLibFileNames +
        Selected(FileNamesOf(Lines(content.value)), IndicesOf(Lines(content.value)))
  {
    result := sortedLibFileNames;
    if content.None? {
      return;
    }
    var lines := Lines(content.value);
    var filenames, indices := ReadDepLines(lines);
    result := AppendSelected(result, filenames, indices);
  }

  /** The read loop of `appendOrderedLibFileNames`: the paths of the `f:`
      lines and the numbers of the `o:` lines, each in order. */
  method ReadDepLines(lines: seq<string>) returns (filenames: seq<string>, indices: seq<nat>)
    requires forall i :: 0 <= i < |lines| ==> ReadableLine(lines[i])
    ensures filenames == FileNamesOf(lines)
    ensures indices == IndicesOf(lines)
  {
    filenames := [];
    indices := [];
    for i := 0 to |lines|
      invariant filenames == FileNamesOf(lines[..i])
      invariant indices == IndicesOf(lines[..i])
    {
      var buf := lines[i];
      assert lines[..i + 1] == lines[..i] + [buf];
      ReadOneMore(lines[..i], buf);
      if buf[0] == 'f' {
        var fn := buf[2..];
        var pos := LastIndexOf(fn, '\n').value;
        if pos != 0 {
          fn := fn[..pos];
        }
        filenames := filenames + [fn];
      } else if buf[0] == 'o' {
        var more := ReadIndices(buf);
        indices := indices + more;
      }
    }
    assert lines[..|lines|] == lines;
  }

  /** The output loop of `appendOrderedLibFileNames`: the path each index
      selects, in order, after `prefix`. */
  method AppendSelected(prefix: seq<string>, filenames: seq<string>, indices: seq<nat>)
    returns (result: seq<string>)
    requires forall k :: 0 <= k < |indices| ==> indices[k] < |filenames|
    ensures result == prefix + Selected(filenames, indices)
  {
    result := prefix;
    for k := 0 to |indices|
      invariant result == prefix + Selected(filenames, indices[..k])
    {
      result := result + [filenames[indices[k]]];
    }
    assert indices[..|indices|] == indices;
  }

  /** The scan of one `o:` line: each run of digits is read as a number
      and skipped; every other character is skipped. */
  method ReadIndices(buf: string) returns (nums: seq<nat>)
    requires |buf| >= 2
    ensures nums == DigitRuns(buf[2..])
  {
    nums := [];
    var p := 2;
    while p < |buf|
      invariant 2 <= p <= |buf|
      invariant nums + DigitRuns(buf[p..]) == DigitRuns(buf[2..])
      decreases |buf| - p
    {
      var t := buf[p..];
      if IsDigit(buf[p]) {
        // what `sscanf("%d")` reads
        var k := DigitRunLength(t);
        var num := DecimalValue(t[..k]);
        nums := nums + [num];
        var q := p;
        while q < |buf| && IsDigit(buf[q])
          invariant p <= q <= p + k
          decreases |buf| - q
        {
          q := q + 1;
        }
        assert t[k..] == buf[p + k..];
        p := q;
      } else {
        assert t[1..] == buf[p + 1..];
        p := p + 1;
      }
    }
  }

  // ---------------------------------------------------------------------
  // Reading back what was written

  predicate NoNewline(path: string) {
    forall k :: 0 <= k < |path| ==> path[k] != '\n'
  }

  /** A path the `f:` line format carries back as written: not empty (see
      `PathOfAsWritten`), and without a newline. */
  predicate OneLinePath(path: string) {
    path != [] && NoNewline(path)
  }

  lemma {:induction false} DecimalNoNewline(n: nat)
    ensures forall k :: 0 <= k < |Decimal(n)| ==> Decimal(n)[k] != '\n'
  {
  }

  /** `Numbers` writes digits and blanks only. */
  lemma {:induction false} NumbersChars(ns: seq<nat>)
    ensures forall k :: 0 <= k < |Numbers(ns)| ==> IsDigit(Numbers(ns)[k]) || Numbers(ns)[k] == ' '
  {
    if ns != [] {
      NumbersChars(ns[1..]);
      var d := Decimal(ns[0]);
      var t := Numbers(ns);
      assert t == d + " " + Numbers(ns[1..]);
      forall k | 0 <= k < |t| ensures IsDigit(t[k]) || t[k] == ' ' {
        if k < |d| {
          assert t[k] == d[k];
        } else if k > |d| {
          assert t[k] == Numbers(ns[1..])[k - |d| - 1];
        }
      }
    }
  }

  /** The numbers of the `o:` line read back as the order. */
  lemma {:induction false} NumbersRoundTrip(ns: seq<nat>)
    ensures DigitRuns(Numbers(ns) + "\n") == ns
  {
    if ns != [] {
      var rest := Numbers(ns[1..]) + "\n";
      assert Numbers(ns) + "\n" == Decimal(ns[0]) + [' '] + rest;
      DigitRunsOfDecimal(ns[0], ' ', rest);
      assert ([' '] + rest)[1..] == rest;
      NumbersRoundTrip(ns[1..]);
    } else {
      assert DigitRuns("\n") == DigitRuns("\n"[1..]);
    }
  }

  /** With the corrected cut, every path without a newline reads back,
      the empty path included. */
  lemma {:induction false} FileLineRoundTrip(path: string)
    requires NoNewline(path)
    ensures IsLine("f:" + path + "\n") && ReadableLine("f:" + path + "\n")
    ensures PathOf("f:" + path + "\n") == path
  {
    var l := "f:" + path + "\n";
    EndsLine(l, "f:" + path);
    assert l[2..] == path + "\n";
    assert LastIndexOf(path + "\n", '\n') == Some(|path|);
    assert (path + "\n")[..|path|] == path;
  }

  /** As written, the `f:` line of a non-empty path without a newline
      reads back as that path. */
  lemma FileLineAsWritten(path: string)
    requires OneLinePath(path)
    ensures ReadableLine("f:" + path + "\n")
    ensures LastIndexOf(("f:" + path + "\n")[2..], '\n').Some?
    ensures PathOfAsWritten("f:" + path + "\n") == path
  {
    var l := "f:" + path + "\n";
    FileLineRoundTrip(path);
    assert l[2..] == path + "\n";
    assert LastIndexOf(path + "\n", '\n') == Some(|path|);
    PathsAgree(l);
  }

  lemma {:induction false} OrderLineRoundTrip(order: seq<nat>)
    ensures IsLine(OrderLine(order)) && ReadableLine(OrderLine(order))
    ensures DigitRuns(OrderLine(order)[2..]) == order
  {
    var l := OrderLine(order);
    NumbersChars(order);
    EndsLine(l, "o:" + Numbers(order));
    assert l[2..] == Numbers(order) + "\n";
    NumbersRoundTrip(order);
  }

  lemma {:induction false} DepLineShape(client: nat, suppliers: seq<nat>)
    ensures var l := "d:" + Decimal(client) + " " + Numbers(suppliers) + "\n";
      IsLine(l) && ReadableLine(l) && l[0] == 'd'
  {
    var body := "d:" + Decimal(client) + " " + Numbers(suppliers);
    DecimalNoNewline(client);
    NumbersChars(suppliers);
    forall k | 0 <= k < |body| ensures body[k] != '\n' {
      if 2 <= k < 2 + |Decimal(client)| {
        assert body[k] == Decimal(client)[k - 2];
      } else if k > 2 + |Decimal(client)| {
        assert body[k] == Numbers(suppliers)[k - 3 - |Decimal(client)|];
      }
    }
    EndsLine(body + "\n", body);
  }

  /** Lines with neither tag contribute nothing to the reader. */
  lemma {:induction false} UntaggedLines(ls: seq<string>)
    requires forall i :: 0 <= i < |ls| ==> ReadableLine(ls[i]) && ls[i][0] == 'd'
    ensures FileNamesOf(ls) == [] && IndicesOf(ls) == []
  {
    if ls != [] {
      UntaggedLines(ls[1..]);
    }
  }

  lemma {:induction false} FileLinesRoundTrip(files: seq<string>)
    requires forall i :: 0 <= i < |files| ==> OneLinePath(files[i])
    ensures forall i :: 0 <= i < |files| ==> IsLine(FileLines(files)[i]) && ReadableLine(FileLines(files)[i])
    ensures FileNamesOf(FileLines(files)) == files && IndicesOf(FileLines(files)) == []
  {
    var ls := FileLines(files);
    forall i | 0 <= i < |files|
      ensures IsLine(ls[i]) && ReadableLine(ls[i]) && PathOfAsWritten(ls[i]) == files[i]
    {
      FileLineRoundTrip(files[i]);
      FileLineAsWritten(files[i]);
    }
    if files != [] {
      FileLinesRoundTrip(files[1..]);
      assert ls[1..] == FileLines(files[1..]);
    }
  }

  lemma {:induction false} DepLinesShape(deps: DepMap)
    ensures forall i :: 0 <= i < |DepLines(deps)| ==>
      IsLine(DepLines(deps)[i]) && ReadableLine(DepLines(deps)[i]) && DepLines(deps)[i][0] == 'd'
  {
    var dl := DepLines(deps);
    var clients := Ascending(deps.Keys);
    forall i | 0 <= i < |dl| ensures IsLine(dl[i]) && ReadableLine(dl[i]) && dl[i][0] == 'd' {
      assert clients[i] in deps.Keys;
      DepLineShape(clients[i], Ascending(deps[clients[i]]));
    }
  }

  /** The file splits back into the lines written. */
  lemma {:induction false} WrittenLines(files: seq<string>, deps: DepMap, order: seq<nat>)
    requires forall i :: 0 <= i < |files| ==> OneLinePath(files[i])
    ensures Lines(WriteDepFileInfo(files, deps, order)) == FileLines(files) + DepLines(deps) + [OrderLine(order)]
  {
    var fl, dl, ol := FileLines(files), DepLines(deps), [OrderLine(order)];
    FileLinesRoundTrip(files);
    OrderLineRoundTrip(order);
    DepLinesShape(deps);
    var ls := fl + dl + ol;
    forall i | 0 <= i < |ls| ensures IsLine(ls[i]) {
      if i < |fl| { assert ls[i] == fl[i]; }
      else if i < |fl| + |dl| { assert ls[i] == dl[i - |fl|]; }
      else { assert ls[i] == OrderLine(order); }
    }
    LinesOfConcat(ls);
  }

  /** Reading the dep file back: the `f:` lines give back the paths, the
      `d:` lines are skipped, and the `o:` line gives back the order, so
      the reader appends `files[order[0]], files[order[1]], ...`. */
  lemma {:induction false} DepFileRoundTrip(files: seq<string>, deps: DepMap, order: seq<nat>)
    requires forall i :: 0 <= i < |files| ==> OneLinePath(files[i])
    requires forall k :: 0 <= k < |order| ==> order[k] < |files|
    ensures ReadableDepFile(WriteDepFileInfo(files, deps, order))
    ensures var lines := Lines(WriteDepFileInfo(files, deps, order));
      && FileNamesOf(lines) == files
      && IndicesOf(lines) == order
      && Selected(FileNamesOf(lines), IndicesOf(lines)) ==
           seq(|order|, k requires 0 <= k < |order| => files[order[k]])
  {
    var h, ol := FileLines(files) + DepLines(deps), [OrderLine(order)];
    WrittenLines(files, deps, order);
    HeaderLines(files, deps);
    OrderLineRoundTrip(order);
    assert FileLines(files) + DepLines(deps) + ol == h + ol;
    assert forall i :: 0 <= i < |h + ol| ==> ReadableLine((h + ol)[i]) by {
      forall i | 0 <= i < |h + ol| ensures ReadableLine((h + ol)[i]) {
        if i < |h| {
          assert (h + ol)[i] == h[i];
        }
      }
    }
    OrderLineRead(order);
    FileNamesAppend(h, ol);
  }

  /** The order line on its own reads back as the order and no path. */
  lemma OrderLineRead(order: seq<nat>)
    ensures ReadableLine(OrderLine(order))
    ensures FileNamesOf([OrderLine(order)]) == [] && IndicesOf([OrderLine(order)]) == order
  {
    var l := OrderLine(order);
    OrderLineRoundTrip(order);
    assert l[0] == 'o';
    var ol: seq<string> := [l];
    assert ol[1..] == [];
  }

  /** The `f:` and `d:` lines before the order line: readable, naming the
      paths in order and no index. */
  lemma HeaderLines(files: seq<string>, deps: DepMap)
    requires forall i :: 0 <= i < |files| ==> OneLinePath(files[i])
    ensures var h := FileLines(files) + DepLines(deps);
      && (forall i :: 0 <= i < |h| ==> ReadableLine(h[i]))
      && FileNamesOf(h) == files && IndicesOf(h) == []
  {
    var fl, dl := FileLines(files), DepLines(deps);
    FileLinesRoundTrip(files);
    DepLinesShape(deps);
    UntaggedLines(dl);
    FileNamesAppend(fl, dl);
  }
}
