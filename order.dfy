/** The link-order solver (`orderDependencies`) and the vector of file
    indices it works with (`FileIndices`). The solver repeatedly takes the
    first remaining library that no longer depends on another remaining
    one, puts it at the front of the order, and removes it from the graph;
    libraries caught in a cycle are put at the front at the end. */
module LinkOrder {
  import opened Dependencies

  // ---------------------------------------------------------------------
  // Sequences of file indices

  function SetOf(s: seq<nat>): set<nat> {
    set x | x in s
  }

  predicate Distinct(s: seq<nat>) {
    forall i, j :: 0 <= i < j < |s| ==> s[i] != s[j]
  }

  predicate Increasing(s: seq<nat>) {
    forall i, j :: 0 <= i < j < |s| ==> s[i] < s[j]
  }

  function Reverse(s: seq<nat>): (r: seq<nat>)
    ensures |r| == |s|
    ensures forall i :: 0 <= i < |s| ==> r[i] == s[|s| - 1 - i]
  {
    if s == [] then [] else Reverse(s[1..]) + [s[0]]
  }

  lemma ReverseAppend(s: seq<nat>, x: nat)
    ensures Reverse(s + [x]) == [x] + Reverse(s)
  {
  }

  /** Position of the first occurrence of `v` in `s`, or `|s|`. */
  function FirstIndex(s: seq<nat>, v: nat): (i: nat)
    ensures i <= |s|
    ensures i < |s| ==> s[i] == v
    ensures forall j :: 0 <= j < i ==> s[j] != v
    ensures i == |s| <==> v !in s
  {
    if s == [] then 0 else if s[0] == v then 0 else 1 + FirstIndex(s[1..], v)
  }

  /** `s` without the element at `i`. */
  function EraseAt(s: seq<nat>, i: nat): seq<nat>
    requires i < |s|
  {
    s[..i] + s[i + 1..]
  }

  // ---------------------------------------------------------------------
  // The vector of file indices

  class FileIndices {
    var items: seq<nat>

    constructor ()
      ensures items == []
    {
      items := [];
    }

    /** The position of the first element equal to `val`, or the end. */
    method FindValue(val: nat) returns (pos: nat)
      ensures pos == FirstIndex(items, val)
    {
      pos := |items|;
      for i := 0 to |items|
        invariant forall j :: 0 <= j < i ==> items[j] != val
      {
        if items[i] == val {
          pos := i;
          break;
        }
      }
    }

    /** Erases the first element equal to `val`, if any. */
    method RemoveValue(val: nat)
      modifies this
      ensures val !in old(items) ==> items == old(items)
      ensures val in old(items) ==> items == EraseAt(old(items), FirstIndex(old(items), val))
    {
      var pos := FindValue(val);
      if pos != |items| {
        items := items[..pos] + items[pos + 1..];
      }
    }
  }

  // ---------------------------------------------------------------------
  // The graph as the solver sees it

  /** `x` still depends on some library outside `placed`. */
  predicate Blocked(d: DepMap, x: nat, placed: set<nat>) {
    x in d && d[x] - placed != {}
  }

  /** The working copy of the graph once the libraries in `placed` have
      been removed from it one after another. */
  function Trim(d: DepMap, placed: set<nat>): (r: DepMap)
    ensures forall x :: x in r <==> Blocked(d, x, placed)
  {
    map c | c in d && d[c] - placed != {} :: d[c] - placed
  }

  lemma TrimNone(d: DepMap)
    requires NoEmptyClient(d)
    ensures Trim(d, {}) == d
  {
    assert forall c :: c in d ==> d[c] - {} == d[c];
  }

  /** Removing one more library from the working copy. */
  lemma TrimStep(d: DepMap, placed: set<nat>, f: nat)
    ensures Without(Trim(d, placed), f) == Trim(d, placed + {f})
  {
    var a := Without(Trim(d, placed), f);
    var b := Trim(d, placed + {f});
    forall c | c in b ensures c in a && a[c] == b[c] {
      assert d[c] - placed - {f} == d[c] - (placed + {f});
    }
    forall c | c in a ensures c in b {
      assert d[c] - placed - {f} == d[c] - (placed + {f});
    }
  }

  // ---------------------------------------------------------------------
  // What the solver computes

  /** `placed` lists, in the order the solver finds them, libraries of
      `[0, n)` each of which no longer depends on a library outside those
      found before it, while every smaller index not found yet still
      does. */
  ghost predicate PlacedPrefix(d: DepMap, n: nat, placed: seq<nat>) {
    && Distinct(placed)
    && (forall t :: 0 <= t < |placed| ==> placed[t] < n)
    && (forall t :: 0 <= t < |placed| ==> !Blocked(d, placed[t], SetOf(placed[..t])))
    && (forall t, y: nat :: 0 <= t < |placed| && y < placed[t] && y !in placed[..t] ==>
          Blocked(d, y, SetOf(placed[..t])))
  }

  /** The complete run: `placed` as above and `leftover` the rest of
      `[0, n)` in increasing order, every one of which still depends on
      another leftover (the solver found none of them free). */
  ghost predicate Placement(d: DepMap, n: nat, placed: seq<nat>, leftover: seq<nat>) {
    && PlacedPrefix(d, n, placed)
    && |placed| + |leftover| == n
    && Increasing(leftover)
    && (forall x: nat :: x in leftover <==> x < n && x !in placed)
    && (forall x :: x in leftover ==> Blocked(d, x, SetOf(placed)))
  }

  /** The order the solver puts in front of the existing one. */
  function LinkOrderOf(placed: seq<nat>, leftover: seq<nat>): seq<nat> {
    Reverse(leftover) + Reverse(placed)
  }

  /** Appending a library found free keeps the run well formed. */
  lemma PlacedPrefixExtend(d: DepMap, n: nat, placed: seq<nat>, f: nat)
    requires PlacedPrefix(d, n, placed)
    requires f < n && f !in placed && !Blocked(d, f, SetOf(placed))
    requires forall y: nat :: y < f && y !in placed ==> Blocked(d, y, SetOf(placed))
    ensures PlacedPrefix(d, n, placed + [f])
  {
    var p := placed + [f];
    assert p[..|placed|] == placed;
    forall t | 0 <= t < |placed| ensures p[..t] == placed[..t] && p[t] == placed[t] {
    }
  }

  /** Erasing from an increasing sequence removes exactly that element. */
  lemma EraseIncreasing(rem: seq<nat>, i: nat)
    requires Increasing(rem) && i < |rem|
    ensures Increasing(EraseAt(rem, i))
    ensures forall x: nat :: x in EraseAt(rem, i) <==> x in rem && x != rem[i]
  {
    var e := EraseAt(rem, i);
    assert |e| == |rem| - 1;
    assert forall j :: 0 <= j < |e| ==> e[j] == rem[if j < i then j else j + 1];
    forall a, b | 0 <= a < b < |e| ensures e[a] < e[b] {
      assert e[a] == rem[if a < i then a else a + 1];
      assert e[b] == rem[if b < i then b else b + 1];
    }
    forall x: nat ensures x in e <==> x in rem && x != rem[i] {
      if x in e {
        var j :| 0 <= j < |e| && e[j] == x;
        if j < i { assert rem[j] == x; } else { assert rem[j + 1] == x; }
      }
      if x in rem && x != rem[i] {
        var j :| 0 <= j < |rem| && rem[j] == x;
        if j < i { assert e[j] == x; } else { assert j != i; assert e[j - 1] == x; }
      }
    }
  }

  /** The step that finds `rem[i]` free: `rem` is the remaining list, in
      increasing order, and every earlier element of it is blocked. */
  lemma PlaceStep(d: DepMap, n: nat, placed: seq<nat>, rem: seq<nat>, i: nat)
    requires PlacedPrefix(d, n, placed)
    requires Increasing(rem) && i < |rem|
    requires forall x: nat :: x in rem <==> x < n && x !in placed
    requires forall j :: 0 <= j < i ==> Blocked(d, rem[j], SetOf(placed))
    requires !Blocked(d, rem[i], SetOf(placed))
    ensures PlacedPrefix(d, n, placed + [rem[i]])
    ensures SetOf(placed + [rem[i]]) == SetOf(placed) + {rem[i]}
    ensures FirstIndex(rem, rem[i]) == i
    ensures Increasing(EraseAt(rem, i))
    ensures forall x: nat :: x in EraseAt(rem, i) <==> x < n && x !in placed + [rem[i]]
  {
    var f := rem[i];
    assert f in rem;
    forall y: nat | y < f && y !in placed ensures Blocked(d, y, SetOf(placed)) {
      assert y in rem;
      var j := FirstIndex(rem, y);
      IncreasingBelow(rem, j, i);
    }
    PlacedPrefixExtend(d, n, placed, f);
    EraseIncreasing(rem, i);
    IncreasingFirstIndex(rem, i);
  }

  /** In an increasing sequence a smaller element comes earlier. */
  lemma IncreasingBelow(s: seq<nat>, j: nat, i: nat)
    requires Increasing(s) && j < |s| && i < |s|
    ensures s[j] < s[i] ==> j < i
    ensures s[j] == s[i] ==> j == i
  {
    if i < j {
      assert s[i] < s[j];
    } else if j < i {
      assert s[j] < s[i];
    }
  }

  /** In an increasing sequence each element is found at its own place. */
  lemma IncreasingFirstIndex(s: seq<nat>, i: nat)
    requires Increasing(s) && i < |s|
    ensures FirstIndex(s, s[i]) == i
  {
    IncreasingBelow(s, FirstIndex(s, s[i]), i);
  }

  // ---------------------------------------------------------------------
  // The solver

  /** The solver's state between passes: the libraries found so far, the
      remaining list in increasing order, and the working copy of the graph
      with the found libraries removed. */
  ghost predicate Solving(d: DepMap, n: nat, placed: seq<nat>, remaining: seq<nat>, work: DepMap) {
    && PlacedPrefix(d, n, placed)
    && Increasing(remaining)
    && (forall x: nat :: x in remaining <==> x < n && x !in placed)
    && |placed| + |remaining| == n
    && work == Trim(d, SetOf(placed))
  }

  /** One pass of `orderDependencies`: the first remaining library that is
      no longer a client goes to the front of the order and leaves the
      remaining list and the working graph. */
  method PlaceFirstFree(ghost d: DepMap, ghost n: nat, fileDeps: FileDependencies,
                        origFiles: FileIndices, orderedDependencies: FileIndices,
                        ghost placed: seq<nat>, ghost base: seq<nat>)
    returns (found: bool, ghost placed': seq<nat>)
    requires origFiles != orderedDependencies
    requires Solving(d, n, placed, origFiles.items, fileDeps.deps)
    requires orderedDependencies.items == Reverse(placed) + base
    modifies fileDeps, origFiles, orderedDependencies
    ensures Solving(d, n, placed', origFiles.items, fileDeps.deps)
    ensures orderedDependencies.items == Reverse(placed') + base
    ensures found ==> |placed'| == |placed| + 1
    ensures !found ==> placed' == placed
    ensures !found ==> forall x :: x in origFiles.items ==> Blocked(d, x, SetOf(placed))
    ensures (forall x :: x in old(origFiles.items) ==> Blocked(d, x, SetOf(placed))) ==> !found
  {
    found := false;
    placed' := placed;
    for i := 0 to |origFiles.items|
      invariant origFiles.items == old(origFiles.items)
      invariant fileDeps.deps == old(fileDeps.deps)
      invariant orderedDependencies.items == old(orderedDependencies.items)
      invariant forall j :: 0 <= j < i ==> Blocked(d, origFiles.items[j], SetOf(placed))
    {
      var fileIndex := origFiles.items[i];
      if !fileDeps.DependentOnAny(fileIndex) {
        placed' := PlaceAt(d, n, fileDeps, origFiles, orderedDependencies, placed, base, i);
        found := true;
        break;
      }
    }
  }

  /** The body of a pass that finds `origFiles.items[i]` free: it goes to
      the front of the order and leaves the remaining list and the working
      graph. */
  method PlaceAt(ghost d: DepMap, ghost n: nat, fileDeps: FileDependencies,
                 origFiles: FileIndices, orderedDependencies: FileIndices,
                 ghost placed: seq<nat>, ghost base: seq<nat>, i: nat)
    returns (ghost placed': seq<nat>)
    requires origFiles != orderedDependencies
    requires Solving(d, n, placed, origFiles.items, fileDeps.deps)
    requires orderedDependencies.items == Reverse(placed) + base
    requires i < |origFiles.items|
    requires forall j :: 0 <= j < i ==> Blocked(d, origFiles.items[j], SetOf(placed))
    requires !Blocked(d, origFiles.items[i], SetOf(placed))
    modifies fileDeps, origFiles, orderedDependencies
    ensures placed' == placed + [old(origFiles.items[i])]
    ensures Solving(d, n, placed', origFiles.items, fileDeps.deps)
    ensures orderedDependencies.items == Reverse(placed') + base
  {
    var fileIndex := origFiles.items[i];
    PlaceStep(d, n, placed, origFiles.items, i);
    TrimStep(d, SetOf(placed), fileIndex);
    ReverseAppend(placed, fileIndex);
    orderedDependencies.items := [fileIndex] + orderedDependencies.items;
    origFiles.RemoveValue(fileIndex);
    fileDeps.RemoveValue(fileIndex);
    placed' := placed + [fileIndex];
  }

  /** The remaining list `[0, n)` the solver starts from. */
  method AllFiles(n: nat) returns (origFiles: FileIndices)
    ensures fresh(origFiles)
    ensures Increasing(origFiles.items) && |origFiles.items| == n
    ensures forall x: nat :: x in origFiles.items <==> x < n
  {
    origFiles := new FileIndices();
    for i := 0 to n
      invariant |origFiles.items| == i
      invariant forall k :: 0 <= k < i ==> origFiles.items[k] == k
    {
      origFiles.items := origFiles.items + [i];
    }
    forall x: nat | x < n ensures x in origFiles.items {
      assert origFiles.items[x] == x;
    }
  }

  /** `orderDependencies`: puts the link order of the libraries `[0,
      numFiles)` in front of `orderedDependencies`, working on a copy of
      the graph. */
  method OrderDependencies(numFiles: nat, fileDependencies: FileDependencies,
                           orderedDependencies: FileIndices)
    returns (ghost placed: seq<nat>, ghost leftover: seq<nat>)
    requires fileDependencies.Valid()
    modifies orderedDependencies
    ensures Placement(fileDependencies.deps, numFiles, placed, leftover)
    ensures orderedDependencies.items ==
      LinkOrderOf(placed, leftover) + old(orderedDependencies.items)
    ensures fileDependencies.deps == old(fileDependencies.deps)
  {
    ghost var d := fileDependencies.deps;
    ghost var base := orderedDependencies.items;
    var fileDeps := new FileDependencies.Copy(fileDependencies);
    var origFiles := AllFiles(numFiles);
    placed := [];
    TrimNone(d);
    assert SetOf(placed) == {};
    assert Reverse(placed) == [];
    for totalIter := 0 to numFiles
      invariant fresh(fileDeps) && fresh(origFiles)
      invariant Solving(d, numFiles, placed, origFiles.items, fileDeps.deps)
      invariant orderedDependencies.items == Reverse(placed) + base
      invariant totalIter <= |placed| ||
        forall x :: x in origFiles.items ==> Blocked(d, x, SetOf(placed))
    {
      if |origFiles.items| == 0 {
        break;
      }
      var found;
      found, placed := PlaceFirstFree(d, numFiles, fileDeps, origFiles, orderedDependencies,
                                      placed, base);
    }
    leftover := origFiles.items;
    PrependAll(origFiles, orderedDependencies);
  }

  /** The last loop of `orderDependencies`: each remaining library, in
      turn, goes to the front of the order. */
  method PrependAll(origFiles: FileIndices, orderedDependencies: FileIndices)
    requires origFiles != orderedDependencies
    modifies orderedDependencies
    ensures orderedDependencies.items == Reverse(origFiles.items) + old(orderedDependencies.items)
  {
    ghost var rest := orderedDependencies.items;
    for i := 0 to |origFiles.items|
      invariant orderedDependencies.items == Reverse(origFiles.items[..i]) + rest
    {
      assert origFiles.items[..i + 1] == origFiles.items[..i] + [origFiles.items[i]];
      ReverseAppend(origFiles.items[..i], origFiles.items[i]);
      orderedDependencies.items := [origFiles.items[i]] + orderedDependencies.items;
    }
    assert origFiles.items[..|origFiles.items|] == origFiles.items;
  }
}
