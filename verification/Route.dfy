/** The route of one payment: the nodes in the order in which they were added, found by
    address as well. */
module Route {
  import opened Types
  import opened PaymentModel
  import opened Creation
  import opened Payments
  import Amounts

  predicate DistinctAddresses(route: seq<Hop>) {
    route == [] ||
    (DistinctAddresses(route[..|route| - 1]) && route[|route| - 1].address !in Addresses(route[..|route| - 1]))
  }

  /** No two nodes of the route share an address. */
  lemma {:induction false} DistinctPairwise(route: seq<Hop>)
    ensures DistinctAddresses(route)
       <==> forall i, j | 0 <= i < j < |route| :: route[i].address != route[j].address
  {
    if route != [] {
      var front, last := route[..|route| - 1], route[|route| - 1];
      DistinctPairwise(front);
      assert forall i | 0 <= i < |front| :: front[i] == route[i] && front[i] in front;
      if last.address in Addresses(front) {
        var g :| g in front && g.address == last.address;
        var i :| 0 <= i < |front| && front[i] == g;
        assert route[i].address == route[|front|].address;
      }
    }
  }

  class NodeManager {
    var nodesByAddress: map<Address, Hop>
    var nodesBySequence: seq<Hop>
    var chainComplete: bool

    ghost predicate Valid()
      reads this
    {
      && DistinctAddresses(nodesBySequence)
      && (forall h | h in nodesBySequence :: h.address in nodesByAddress && nodesByAddress[h.address] == h)
      && nodesByAddress.Keys == Addresses(nodesBySequence)
    }

    constructor ()
      ensures Valid() && nodesBySequence == [] && !chainComplete
    {
      nodesByAddress, nodesBySequence, chainComplete := map[], [], false;
    }

    method AddNode(node: Hop) returns (result: Result<()>)
      requires Valid()
      modifies this`nodesByAddress, this`nodesBySequence
      ensures Valid()
      ensures result == if node.address in Addresses(old(nodesBySequence)) then Err(DuplicateNode) else Ok(())
      ensures nodesBySequence == old(nodesBySequence) + if result.Ok? then [node] else []
    {
      if node.address in nodesByAddress {
        return Err(DuplicateNode);
      }
      OneMoreNode(nodesBySequence, node);
      nodesByAddress := nodesByAddress[node.address := node];
      nodesBySequence := nodesBySequence + [node];
      return Ok(());
    }

    method AddSourceNode(node: Hop) returns (result: Result<()>)
      requires Valid()
      modifies this`nodesByAddress, this`nodesBySequence
      ensures Valid()
      ensures result.Ok? <==> old(nodesBySequence) == []
      ensures nodesBySequence == if result.Ok? then [node] else old(nodesBySequence)
    {
      if |nodesBySequence| > 0 {
        return Err(DuplicateNode);
      }
      result := AddNode(node);
    }

    method AddChainNode(node: Hop) returns (result: Result<()>)
      requires Valid()
      modifies this`nodesByAddress, this`nodesBySequence
      ensures Valid()
      ensures result.Ok? <==> !chainComplete && node.address !in Addresses(old(nodesBySequence))
      ensures nodesBySequence == old(nodesBySequence) + if result.Ok? then [node] else []
    {
      if chainComplete {
        return Err(DuplicateNode);
      }
      result := AddNode(node);
    }

    /** Closes the chain. */
    method AddDestinationNode(node: Hop) returns (result: Result<()>)
      requires Valid()
      modifies this
      ensures Valid()
      ensures result.Ok? <==> !old(chainComplete) && node.address !in Addresses(old(nodesBySequence))
      ensures nodesBySequence == old(nodesBySequence) + if result.Ok? then [node] else []
      ensures chainComplete <==> old(chainComplete) || result.Ok?
    {
      if chainComplete {
        return Err(DuplicateNode);
      }
      result := AddNode(node);
      if result.Ok? {
        chainComplete := true;
      }
    }

    method GetNodeByAddress(a: Address) returns (node: Option<Hop>)
      requires Valid()
      ensures node.Some? <==> a in Addresses(nodesBySequence)
      ensures node.Some? ==> node.value in nodesBySequence && node.value.address == a
    {
      if a in nodesByAddress {
        return Some(nodesByAddress[a]);
      }
      return None;
    }

    /** The route must lead from the client to the service. */
    method Validate(from: Address, to: Address) returns (result: Result<()>)
      requires nodesBySequence != []
      ensures result.Ok?
         <==> nodesBySequence[0].address == from && nodesBySequence[|nodesBySequence| - 1].address == to
      ensures result.Err? ==> result.error == BadRoute
    {
      if nodesBySequence[0].address != from {
        return Err(BadRoute);
      }
      if nodesBySequence[|nodesBySequence| - 1].address != to {
        return Err(BadRoute);
      }
      return Ok(());
    }
  }

  // ----- Routes as the payment manager builds them -----

  const CHAIN_FEE: Amount := 10

  /** The source and the destination charge nothing, the nodes between them `CHAIN_FEE` each. */
  function BuiltRoute(source: Address, chain: seq<Address>, destination: Address): (route: seq<Hop>)
    ensures |route| == |chain| + 2
  {
    [Hop(source, 0)] + ChainHops(chain) + [Hop(destination, 0)]
  }

  function ChainHops(chain: seq<Address>): (hops: seq<Hop>)
    ensures |hops| == |chain|
    ensures forall i | 0 <= i < |chain| :: hops[i] == Hop(chain[i], CHAIN_FEE)
  {
    seq(|chain|, i requires 0 <= i < |chain| => Hop(chain[i], CHAIN_FEE))
  }

  /** Which is the nodes in this order, at these fees. */
  lemma BuiltHops(source: Address, chain: seq<Address>, destination: Address, i: nat)
    requires i < |chain| + 2
    ensures BuiltRoute(source, chain, destination)[i]
         == if i == 0 then Hop(source, 0) else if i <= |chain| then Hop(chain[i - 1], 10) else Hop(destination, 0)
  {
  }

  /** `paymentManagerRegestryImpl.New`: succeeds exactly when no address occurs twice. */
  method BuildRoute(source: Address, chain: seq<Address>, destination: Address) returns (result: Result<NodeManager>)
    ensures result.Ok? <==> DistinctAddresses(BuiltRoute(source, chain, destination))
    ensures result.Ok? ==>
      && fresh(result.value) && result.value.Valid() && result.value.chainComplete
      && result.value.nodesBySequence == BuiltRoute(source, chain, destination)
    ensures result.Err? ==> result.error == DuplicateNode
  {
    var manager := new NodeManager();
    var added := manager.AddSourceNode(Hop(source, 0));
    added := AddChain(manager, chain);
    if added.Err? {
      MoreNodes([Hop(source, 0)] + ChainHops(chain), [Hop(destination, 0)]);
      return Err(DuplicateNode);
    }
    OneMoreNode(manager.nodesBySequence, Hop(destination, 0));
    added := manager.AddDestinationNode(Hop(destination, 0));
    if added.Err? {
      return Err(DuplicateNode);
    }
    return Ok(manager);
  }

  method AddChain(manager: NodeManager, chain: seq<Address>) returns (result: Result<()>)
    requires manager.Valid() && !manager.chainComplete
    modifies manager`nodesByAddress, manager`nodesBySequence
    ensures manager.Valid()
    ensures result.Ok? ==> manager.nodesBySequence == old(manager.nodesBySequence) + ChainHops(chain)
    ensures result.Err? ==> !DistinctAddresses(old(manager.nodesBySequence) + ChainHops(chain))
  {
    ghost var before, hops := manager.nodesBySequence, ChainHops(chain);
    assert before + hops[..0] == before;
    for i := 0 to |chain|
      invariant manager.Valid()
      invariant manager.nodesBySequence == before + hops[..i]
    {
      NextInChain(before, hops, i);
      var added := manager.AddChainNode(Hop(chain[i], CHAIN_FEE));
      if added.Err? {
        return Err(DuplicateNode);
      }
    }
    assert hops[..|chain|] == hops;
    return Ok(());
  }

  lemma NextInChain(before: seq<Hop>, hops: seq<Hop>, i: nat)
    requires i < |hops|
    ensures before + hops[..i] + [hops[i]] == before + hops[..i + 1]
    ensures hops[i].address in Addresses(before + hops[..i]) ==> !DistinctAddresses(before + hops)
  {
    OneMoreNode(before + hops[..i], hops[i]);
    assert before + hops == before + hops[..i] + [hops[i]] + hops[i + 1..];
    if hops[i].address in Addresses(before + hops[..i]) {
      MoreNodes(before + hops[..i] + [hops[i]], hops[i + 1..]);
    }
  }

  /** A further node keeps the addresses distinct if and only if its own is new. */
  lemma OneMoreNode(route: seq<Hop>, h: Hop)
    ensures DistinctAddresses(route + [h]) <==> DistinctAddresses(route) && h.address !in Addresses(route)
    ensures Addresses(route + [h]) == Addresses(route) + {h.address}
  {
    assert (route + [h])[..|route|] == route;
  }

  lemma {:induction false} MoreNodes(route: seq<Hop>, more: seq<Hop>)
    requires !DistinctAddresses(route)
    ensures !DistinctAddresses(route + more)
  {
    if more == [] {
      assert route + more == route;
    } else {
      var front := more[..|more| - 1];
      MoreNodes(route, front);
      assert route + more == (route + front) + [more[|more| - 1]];
      OneMoreNode(route + front, more[|more| - 1]);
    }
  }

  lemma {:induction false} BuiltFees(source: Address, chain: seq<Address>, destination: Address, i: nat)
    requires 0 < i <= |chain| + 1
    ensures FeesFrom(BuiltRoute(source, chain, destination), i) == CHAIN_FEE * (|chain| + 1 - i)
    decreases |chain| - i
  {
    if i <= |chain| { BuiltFees(source, chain, destination, i + 1); }
  }

  /** Over a route built this way the client pays the amount and 10 for every node in
      between, each of which keeps 10, and the destination gets the amount. */
  lemma BuiltRouteShares(pr: PaymentRequest, source: Address, chain: seq<Address>, destination: Address, m: nat)
    requires m < |chain| + 2
    ensures
      Share(pr, BuiltRoute(source, chain, destination), 1, m)
      == if m == 0 then 0 - 10_000 * (pr.amount + 10 * |chain|)
         else if m <= |chain| then 10_000 * 10
         else 10_000 * pr.amount
  {
    BuiltFees(source, chain, destination, 1);
  }
}
