/** What the order `orderDependencies` produces guarantees: it is a
    permutation of the libraries, it is the only order the solver's rule
    allows, every library it could place precedes its suppliers, and on an
    acyclic graph that is every library. */
module LinkOrderFacts {
  import opened Dependencies
  import opened LinkOrder

  lemma {:induction false} ReverseMembers(s: seq<nat>)
    ensures forall x :: x in Reverse(s) <==> x in s
  {
    var r := Reverse(s);
    forall x ensures x in r <==> x in s {
      if x in r {
        var i :| 0 <= i < |r| && r[i] == x;
        assert s[|s| - 1 - i] == x;
      }
      if x in s {
        var i :| 0 <= i < |s| && s[i] == x;
        assert r[|s| - 1 - i] == x;
      }
    }
  }

  lemma {:induction false} ReverseDistinct(s: seq<nat>)
    requires Distinct(s)
    ensures Distinct(Reverse(s))
  {
    var r := Reverse(s);
    forall i, j | 0 <= i < j < |r| ensures r[i] != r[j] {
      assert r[i] == s[|s| - 1 - i] && r[j] == s[|s| - 1 - j];
    }
  }

  /** The order is a permutation of `[0, n)`. */
  lemma {:induction false} LinkOrderIsPermutation(d: DepMap, n: nat, placed: seq<nat>, leftover: seq<nat>)
    requires Placement(d, n, placed, leftover)
    ensures |LinkOrderOf(placed, leftover)| == n
    ensures Distinct(LinkOrderOf(placed, leftover))
    ensures forall x: nat :: x in LinkOrderOf(placed, leftover) <==> x < n
  {
    var rl, rp := Reverse(leftover), Reverse(placed);
    var order := rl + rp;
    ReverseMembers(leftover);
    ReverseMembers(placed);
    ReverseDistinct(placed);
    assert Distinct(leftover);
    ReverseDistinct(leftover);
    forall x: nat ensures x in order <==> x < n {
      assert x in order <==> x in rl || x in rp;
    }
    forall i, j | 0 <= i < j < |order| ensures order[i] != order[j] {
      if j < |rl| {
        assert order[i] == rl[i] && order[j] == rl[j];
      } else if i >= |rl| {
        assert order[i] == rp[i - |rl|] && order[j] == rp[j - |rl|];
      } else {
        assert order[i] == rl[i] && order[i] in leftover;
        assert order[j] == rp[j - |rl|] && order[j] in placed;
      }
    }
  }

  // ---------------------------------------------------------------------
  // The solver's rule leaves no choice

  /** Two runs that agree up to step `t` find the same library at `t`. */
  lemma {:induction false} SameStep(d: DepMap, n: nat, p1: seq<nat>, p2: seq<nat>, t: nat)
    requires PlacedPrefix(d, n, p1) && PlacedPrefix(d, n, p2)
    requires t < |p1| && t < |p2| && p1[..t] == p2[..t]
    ensures p1[t] == p2[t]
  {
    var f1, f2 := p1[t], p2[t];
    assert f1 == p1[t] && f2 == p2[t];
    assert f1 !in p1[..t] && f2 !in p2[..t];
    assert !Blocked(d, f1, SetOf(p1[..t])) && !Blocked(d, f2, SetOf(p1[..t]));
  }

  lemma {:induction false} SamePrefix(d: DepMap, n: nat, p1: seq<nat>, p2: seq<nat>, t: nat)
    requires PlacedPrefix(d, n, p1) && PlacedPrefix(d, n, p2)
    requires t <= |p1| && t <= |p2|
    ensures p1[..t] == p2[..t]
  {
    if t > 0 {
      SamePrefix(d, n, p1, p2, t - 1);
      SameStep(d, n, p1, p2, t - 1);
      assert p1[..t] == p1[..t - 1] + [p1[t - 1]];
      assert p2[..t] == p2[..t - 1] + [p2[t - 1]];
    }
  }

  /** A run whose remaining libraries are all blocked cannot be extended. */
  lemma {:induction false} NextIsLeftover(d: DepMap, n: nat, p1: seq<nat>, l1: seq<nat>, p2: seq<nat>)
    requires forall x: nat :: x in l1 <==> x < n && x !in p1
    requires PlacedPrefix(d, n, p2)
    requires |p1| < |p2| && p2[..|p1|] == p1
    ensures p2[|p1|] in l1 && !Blocked(d, p2[|p1|], SetOf(p1))
  {
    var t := |p1|;
    assert p2[t] !in p2[..t];
  }

  lemma {:induction false} NoLongerRun(d: DepMap, n: nat, p1: seq<nat>, l1: seq<nat>, p2: seq<nat>)
    requires Placement(d, n, p1, l1) && PlacedPrefix(d, n, p2)
    ensures |p2| <= |p1|
  {
    if |p2| > |p1| {
      SamePrefix(d, n, p1, p2, |p1|);
      assert p1[..|p1|] == p1;
      NextIsLeftover(d, n, p1, l1, p2);
      assert false;
    }
  }

  lemma IncreasingHead(a: seq<nat>, x: nat)
    requires Increasing(a) && x in a
    ensures a[0] <= x
  {
  }

  lemma IncreasingTail(a: seq<nat>)
    requires Increasing(a) && a != []
    ensures Increasing(a[1..])
    ensures forall x :: x in a[1..] <==> x in a && x != a[0]
  {
    assert a == [a[0]] + a[1..];
  }

  lemma {:induction false} IncreasingUnique(a: seq<nat>, b: seq<nat>)
    requires Increasing(a) && Increasing(b)
    requires forall x :: x in a <==> x in b
    ensures a == b
  {
    assert a != [] ==> a[0] in a;
    assert b != [] ==> b[0] in b;
    if a != [] {
      assert a[0] in b;
      assert b != [] && b[0] in a;
      IncreasingHead(a, b[0]);
      IncreasingHead(b, a[0]);
      IncreasingTail(a);
      IncreasingTail(b);
      IncreasingUnique(a[1..], b[1..]);
      assert a == [a[0]] + a[1..] && b == [b[0]] + b[1..];
    }
  }

  /** The solver's rule determines the run completely: the link order
      of a dependency map is unique. */
  lemma {:induction false} PlacementUnique(d: DepMap, n: nat, p1: seq<nat>, l1: seq<nat>,
                                           p2: seq<nat>, l2: seq<nat>)
    requires Placement(d, n, p1, l1) && Placement(d, n, p2, l2)
    ensures p1 == p2 && l1 == l2
  {
    NoLongerRun(d, n, p1, l1, p2);
    NoLongerRun(d, n, p2, l2, p1);
    SamePrefix(d, n, p1, p2, |p1|);
    assert p1[..|p1|] == p1 && p2[..|p2|] == p2;
    IncreasingUnique(l1, l2);
  }

  // ---------------------------------------------------------------------
  // Clients before suppliers

  /** Every library the solver placed comes before each of its suppliers
      in the link order. */
  lemma {:induction false} PlacedBeforeSuppliers(d: DepMap, n: nat, placed: seq<nat>, leftover: seq<nat>)
    requires Placement(d, n, placed, leftover)
    ensures var order := LinkOrderOf(placed, leftover);
      forall i, j :: |leftover| <= i < |order| && 0 <= j < |order| && HasEdge(d, order[i], order[j]) ==> i < j
  {
    var order := LinkOrderOf(placed, leftover);
    var c := |leftover|;
    forall i, j | c <= i < |order| && 0 <= j < |order| && HasEdge(d, order[i], order[j])
      ensures i < j
    {
      var ti := n - 1 - i;
      assert order[i] == placed[ti];
      assert !Blocked(d, placed[ti], SetOf(placed[..ti]));
      assert order[j] in d[placed[ti]];
      assert order[j] !in d[placed[ti]] - SetOf(placed[..ti]);
      assert order[j] in placed[..ti];
      var k :| 0 <= k < ti && placed[k] == order[j];
      ReverseMembers(leftover);
      assert forall m :: 0 <= m < c ==> order[m] == Reverse(leftover)[m] && order[m] in leftover;
      assert j >= c;
      assert order[j] == placed[n - 1 - j];
    }
  }

  /** `rank` orders the graph on `[0, n)`: every supplier of a library in
      `[0, n)` is in `[0, n)` and ranks strictly lower. Such a rank exists
      exactly when that part of the graph has no cycle. */
  ghost predicate Ranked(d: DepMap, n: nat, rank: seq<nat>) {
    |rank| == n &&
    forall c: nat, s: nat :: c < n && HasEdge(d, c, s) ==> s < n && rank[s] < rank[c]
  }

  lemma {:induction false} LeftoverRankBound(d: DepMap, n: nat, placed: seq<nat>, leftover: seq<nat>,
                                             rank: seq<nat>, k: nat)
    requires Placement(d, n, placed, leftover) && Ranked(d, n, rank)
    ensures forall x :: x in leftover ==> rank[x] >= k
  {
    if k > 0 {
      LeftoverRankBound(d, n, placed, leftover, rank, k - 1);
      forall x | x in leftover ensures rank[x] >= k {
        assert Blocked(d, x, SetOf(placed));
        var s :| s in d[x] - SetOf(placed);
        assert HasEdge(d, x, s);
        assert s in leftover;
      }
    }
  }

  lemma {:induction false} NoLeftover(d: DepMap, n: nat, placed: seq<nat>, leftover: seq<nat>, rank: seq<nat>)
    requires Placement(d, n, placed, leftover) && Ranked(d, n, rank)
    ensures leftover == []
  {
    if leftover != [] {
      assert leftover[0] in leftover;
      LeftoverRankBound(d, n, placed, leftover, rank, rank[leftover[0]] + 1);
      assert false;
    }
  }

  /** Without cycles, every library is placed and each client comes before
      each of its suppliers. */
  lemma {:induction false} AcyclicOrder(d: DepMap, n: nat, placed: seq<nat>, leftover: seq<nat>,
                                        rank: seq<nat>)
    requires Placement(d, n, placed, leftover) && Ranked(d, n, rank)
    ensures leftover == [] && |placed| == n
    ensures var order := LinkOrderOf(placed, leftover);
      forall i, j :: 0 <= i < |order| && 0 <= j < |order| && HasEdge(d, order[i], order[j]) ==> i < j
  {
    NoLeftover(d, n, placed, leftover, rank);
    PlacedBeforeSuppliers(d, n, placed, leftover);
  }

  /** With a cycle, the libraries caught in it lead the order, in the
      reverse of their (increasing) order in the remaining list. */
  lemma {:induction false} LeftoversLead(d: DepMap, n: nat, placed: seq<nat>, leftover: seq<nat>)
    requires Placement(d, n, placed, leftover)
    ensures var order := LinkOrderOf(placed, leftover);
      && order[..|leftover|] == Reverse(leftover)
      && (forall i, j :: 0 <= i < j < |leftover| ==> order[i] > order[j])
  {
    var order := LinkOrderOf(placed, leftover);
    assert order[..|leftover|] == Reverse(leftover);
  }

  // ---------------------------------------------------------------------
  // Worked examples

  /** 2 uses 1 and 1 uses 0. */
  const Chain: DepMap := map[1 := {0}, 2 := {1}]

  /** The run on the chain finds 0, then 1, then 2. */
  lemma ChainPlacement()
    ensures Placement(Chain, 3, [0, 1, 2], [])
  {
    ChainStep0();
    ChainStep1();
    ChainStep2();
    assert forall x: nat :: x < 3 ==> x in [0, 1, 2];
  }

  lemma ChainStep0()
    ensures PlacedPrefix(Chain, 3, [0])
  {
    assert PlacedPrefix(Chain, 3, []);
    assert SetOf([]) == {};
    PlacedPrefixExtend(Chain, 3, [], 0);
    assert [] + [0] == [0];
  }

  lemma ChainStep1()
    requires PlacedPrefix(Chain, 3, [0])
    ensures PlacedPrefix(Chain, 3, [0, 1])
  {
    assert SetOf([0]) == {0};
    assert Chain[1] - {0} == {};
    PlacedPrefixExtend(Chain, 3, [0], 1);
    assert [0] + [1] == [0, 1];
  }

  lemma ChainStep2()
    requires PlacedPrefix(Chain, 3, [0, 1])
    ensures PlacedPrefix(Chain, 3, [0, 1, 2])
  {
    assert SetOf([0, 1]) == {0, 1};
    assert Chain[2] - {0, 1} == {};
    PlacedPrefixExtend(Chain, 3, [0, 1], 2);
    assert [0, 1] + [2] == [0, 1, 2];
  }

  /** 2 uses 1 and 1 uses 0: the order is 2, 1, 0. */
  lemma {:induction false} ChainExample(placed: seq<nat>, leftover: seq<nat>)
    requires Placement(Chain, 3, placed, leftover)
    ensures LinkOrderOf(placed, leftover) == [2, 1, 0]
  {
    ChainPlacement();
    PlacementUnique(Chain, 3, placed, leftover, [0, 1, 2], []);
    ChainOrder();
  }

  lemma ChainOrder()
    ensures LinkOrderOf([0, 1, 2], []) == [2, 1, 0]
  {
    assert Reverse([0, 1, 2]) == [2, 1, 0];
  }

  /** 0 and 1 use each other; 2 uses nothing. */
  const Cycle: DepMap := map[0 := {1}, 1 := {0}]

  /** The run on the cycle finds only 2; 0 and 1 are left over. */
  lemma CyclePlacement()
    ensures Placement(Cycle, 3, [2], [0, 1])
  {
    CycleStep();
    assert SetOf([2]) == {2};
    assert 1 in Cycle[0] - {2} && 0 in Cycle[1] - {2};
    assert forall x: nat :: x in [0, 1] <==> x < 3 && x !in [2];
  }

  lemma CycleStep()
    ensures PlacedPrefix(Cycle, 3, [2])
  {
    assert PlacedPrefix(Cycle, 3, []);
    assert SetOf([]) == {};
    assert 1 in Cycle[0] - {} && 0 in Cycle[1] - {};
    PlacedPrefixExtend(Cycle, 3, [], 2);
    assert [] + [2] == [2];
  }

  /** 0 and 1 use each other and 2 is free: 2 is placed, then the cycle
      leads the order in reverse: 1, 0, 2. */
  lemma {:induction false} CycleExample(placed: seq<nat>, leftover: seq<nat>)
    requires Placement(Cycle, 3, placed, leftover)
    ensures LinkOrderOf(placed, leftover) == [1, 0, 2]
  {
    CyclePlacement();
    PlacementUnique(Cycle, 3, placed, leftover, [2], [0, 1]);
    CycleOrder();
  }

  lemma CycleOrder()
    ensures LinkOrderOf([2], [0, 1]) == [1, 0, 2]
  {
    assert Reverse([0, 1]) == [1, 0] && Reverse([2]) == [2];
  }
}
