/** The dependency map between libraries (`FileDependencies`): each client
    file index is mapped to the set of file indices of the libraries that
    supply symbols it uses. */
module Dependencies {

  type DepMap = map<nat, set<nat>>

  /** The edge client -> supplier is in the map. */
  predicate HasEdge(m: DepMap, client: nat, supplier: nat) {
    client in m && supplier in m[client]
  }

  /** Every client listed has at least one supplier. */
  ghost predicate NoEmptyClient(m: DepMap) {
    forall c :: c in m ==> m[c] != {}
  }

  /** The suppliers recorded for `client`: none when it is not a key. */
  function Suppliers(m: DepMap, client: nat): set<nat> {
    if client in m then m[client] else {}
  }

  /** The map once `f` has been erased from every supplier set and every
      client left without a supplier has been dropped. */
  function Without(m: DepMap, f: nat): (r: DepMap)
    ensures NoEmptyClient(r)
    ensures forall c: nat, s: nat :: HasEdge(r, c, s) <==> HasEdge(m, c, s) && s != f
    ensures forall c :: c in r ==> c in m
  {
    var r := map c | c in m && m[c] - {f} != {} :: m[c] - {f};
    assert forall c: nat, s: nat :: HasEdge(m, c, s) && s != f ==> s in m[c] - {f};
    r
  }

  /** The map as a set of client -> supplier pairs. */
  function Edges(m: DepMap): (r: set<(nat, nat)>)
    ensures forall c: nat, s: nat :: (c, s) in r <==> HasEdge(m, c, s)
  {
    set c, s | c in m && s in m[c] :: (c, s)
  }

  /** A map that differs from `m` by the one edge `client -> supplier`
      has that edge added to its set of pairs. */
  lemma EdgesAdded(m: DepMap, m': DepMap, client: nat, supplier: nat)
    requires HasEdge(m', client, supplier)
    requires forall c: nat, s: nat :: (c, s) != (client, supplier) ==>
      (HasEdge(m', c, s) <==> HasEdge(m, c, s))
    ensures Edges(m') == Edges(m) + {(client, supplier)}
  {
    forall p | p in Edges(m') ensures p in Edges(m) + {(client, supplier)} {
      var (c, s) := p;
      assert HasEdge(m', c, s);
    }
    forall p | p in Edges(m) + {(client, supplier)} ensures p in Edges(m') {
      var (c, s) := p;
      assert HasEdge(m', c, s);
    }
  }

  lemma ClientHasSupplier(m: DepMap, client: nat)
    ensures NoEmptyClient(m) && client in m ==> exists s :: HasEdge(m, client, s)
  {
    if NoEmptyClient(m) && client in m {
      var s :| s in m[client];
      assert HasEdge(m, client, s);
    }
  }

  class FileDependencies {
    var deps: DepMap

    ghost predicate Valid()
      reads this
    {
      NoEmptyClient(deps)
    }

    constructor ()
      ensures Valid() && deps == map[]
    {
      deps := map[];
    }

    /** The copy `orderDependencies` works on. */
    constructor Copy(other: FileDependencies)
      ensures deps == other.deps
    {
      deps := other.deps;
    }

    /** Records that `clientIndex` uses a symbol `supplierIndex` defines;
        a client seen for the first time gets a new supplier set. */
    method AddDependency(clientIndex: nat, supplierIndex: nat)
      modifies this
      ensures deps == old(deps)[clientIndex := Suppliers(old(deps), clientIndex) + {supplierIndex}]
      ensures HasEdge(deps, clientIndex, supplierIndex)
      ensures forall c: nat, s: nat :: (c, s) != (clientIndex, supplierIndex) ==>
        (HasEdge(deps, c, s) <==> HasEdge(old(deps), c, s))
      ensures old(Valid()) ==> Valid()
    {
      if clientIndex !in deps {
        assert Suppliers(deps, clientIndex) + {supplierIndex} == {supplierIndex};
        deps := deps[clientIndex := {supplierIndex}];
      } else {
        deps := deps[clientIndex := deps[clientIndex] + {supplierIndex}];
      }
    }

    /** Whether `clientIndex` is a key of the map: in a map without empty
        supplier sets, exactly when it still depends on some library. */
    function DependentOnAny(clientIndex: nat): (r: bool)
      reads this
      ensures Valid() ==> (r <==> exists s :: HasEdge(deps, clientIndex, s))
    {
      ClientHasSupplier(deps, clientIndex);
      clientIndex in deps
    }

    /** Erases the smallest client whose supplier set is empty, if there is
        one, and tells whether it did. */
    method RemoveEmptyClient() returns (removed: bool)
      modifies this
      ensures removed <==> exists c :: c in old(deps) && old(deps)[c] == {}
      ensures !removed ==> deps == old(deps)
      ensures removed ==> exists c :: (c in old(deps) && old(deps)[c] == {}
        && (forall d :: d in old(deps) && old(deps)[d] == {} ==> c <= d)
        && deps == old(deps) - {c})
      ensures removed ==> |deps| < |old(deps)|
    {
      var rest := deps.Keys;
      var first := 0;
      removed := false;
      while rest != {}
        invariant rest <= deps.Keys
        invariant removed ==> first in deps && deps[first] == {} && first !in rest
        invariant forall d :: d in deps && d !in rest && deps[d] == {} ==> removed && first <= d
        decreases |rest|
      {
        var c :| c in rest;
        if deps[c] == {} && (!removed || c < first) {
          first := c;
          removed := true;
        }
        rest := rest - {c};
      }
      if removed {
        assert deps.Keys == (deps - {first}).Keys + {first};
        deps := deps - {first};
      }
    }

    /** Erases `fileIndex` from every supplier set, then drops the clients
        left without a supplier one at a time. */
    method RemoveValue(fileIndex: nat)
      modifies this
      ensures deps == Without(old(deps), fileIndex)
      ensures Valid()
    {
      EraseSupplier(fileIndex);
      DropEmptyClients(old(deps), fileIndex);
    }

    /** The first loop of `removeValue`: `fileIndex` leaves every supplier
        set; the clients stay. */
    method EraseSupplier(fileIndex: nat)
      modifies this
      ensures deps.Keys == old(deps).Keys
      ensures forall c :: c in deps ==> deps[c] == old(deps)[c] - {fileIndex}
    {
      var rest := deps.Keys;
      while rest != {}
        invariant rest <= deps.Keys == old(deps).Keys
        invariant forall c :: c in deps ==>
          deps[c] == if c in rest then old(deps)[c] else old(deps)[c] - {fileIndex}
        decreases |rest|
      {
        var c :| c in rest;
        deps := deps[c := deps[c] - {fileIndex}];
        rest := rest - {c};
      }
    }

    /** The second loop of `removeValue`: the clients left without a
        supplier are dropped one at a time. */
    method DropEmptyClients(ghost d: DepMap, ghost fileIndex: nat)
      requires deps.Keys == d.Keys
      requires forall c :: c in deps ==> deps[c] == d[c] - {fileIndex}
      modifies this
      ensures deps == Without(d, fileIndex)
      ensures Valid()
    {
      ghost var target := Without(d, fileIndex);
      while true
        invariant target.Keys <= deps.Keys <= d.Keys
        invariant forall c :: c in deps ==> deps[c] == d[c] - {fileIndex}
        decreases |deps|
      {
        var removed := RemoveEmptyClient();
        if !removed {
          break;
        }
      }
      assert deps.Keys == target.Keys;
    }
  }
}
