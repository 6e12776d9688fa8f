/** The nodes of the network and the ledger they share. A command sent to an address is
    carried out by the node that has it. */
module Network {
  import opened Types
  import opened LedgerModel
  import opened NodeModel
  import opened PaymentModel
  import opened Node

  class Nodes {
    const nodes: map<Address, NodeImpl>
    const ledger: Ledger

    constructor (nodes: map<Address, NodeImpl>, ledger: Ledger)
      ensures this.nodes == nodes && this.ledger == ledger
    {
      this.nodes, this.ledger := nodes, ledger;
    }

    /** Every node is found under its own address, and no two share a registry. */
    ghost predicate Valid()
      reads set a | a in nodes :: nodes[a].registry
    {
      && (forall a | a in nodes :: nodes[a].root.address == a && nodes[a].root.ledger == ledger && nodes[a].Valid())
      && (forall a, b | a in nodes && b in nodes && a != b :: nodes[a].registry != nodes[b].registry)
    }

    function World(): World
      reads ledger, (set a | a in nodes :: nodes[a].root), (set a | a in nodes :: nodes[a].registry)
    {
      PaymentModel.World(map a | a in nodes :: nodes[a].State(), ledger.State())
    }

    /** When all other nodes are as before, the world has changed at `a` and on the ledger. */
    twostate lemma OneNodeChanged(a: Address)
      requires a in nodes
      requires forall b | b in nodes && b != a :: nodes[b].State() == old(nodes[b].State())
      ensures World() == PaymentModel.World(old(World()).nodes[a := nodes[a].State()], ledger.State())
    {
    }

    method NewPaymentRequest(a: Address, session: Session, amount: Amount)
      requires Valid() && a in nodes
      modifies nodes[a].registry
      ensures Valid() && World() == RequestAt(old(World()), a, session, amount)
    {
      nodes[a].NewPaymentRequest(session, amount);
      OneNodeChanged(a);
    }

    method CreateTransaction(a: Address, request: CreateRequest) returns (result: Result<Replacing>)
      requires Valid()
      modifies if a in nodes then {nodes[a].root} else {}
      ensures Valid() && (World(), result) == CreateAt(old(World()), a, request)
    {
      if a !in nodes {
        return Err(UnknownNode);
      }
      result := nodes[a].CreateTransaction(request);
      OneNodeChanged(a);
    }

    method SignServiceTransaction(a: Address, r: Replacing) returns (result: Result<Replacing>)
      requires Valid()
      ensures result == if a !in nodes then Err(UnknownNode) else SignService(a, r)
    {
      if a !in nodes {
        return Err(UnknownNode);
      }
      result := nodes[a].SignServiceTransaction(r);
    }

    method SignChainTransaction(a: Address, credit: Replacing, debit: Replacing)
      returns (result: Result<(Replacing, Replacing)>)
      requires Valid()
      ensures a !in nodes ==> result == Err(UnknownNode)
      ensures a in nodes ==> result == SignPair(a, credit, debit)
    {
      if a !in nodes {
        return Err(UnknownNode);
      }
      result := nodes[a].SignChainTransaction(credit, debit);
    }

    /** The service's node is sent the payment request along with the transaction. */
    method CommitTransaction(a: Address, pr: PaymentRequest, r: Replacing, ghost known: set<Address>)
      returns (result: Result<()>)
      requires Valid() && a == r.pending.payee && a in known
      modifies if a in nodes then {nodes[a].registry} else {}
      ensures Valid() && (World(), result) == CommitAt(old(World()), pr, known, r)
    {
      if a !in nodes {
        return Err(UnknownNode);
      }
      if a == pr.address {
        result := nodes[a].CommitServiceTransaction(r, pr.session);
      } else {
        result := nodes[a].CommitChainTransaction(r);
      }
      OneNodeChanged(a);
    }

    method FlushTransactions(a: Address, bumpAccepted: bool, fates: seq<Fate>)
      returns (ok: bool, ghost order: seq<Entry>)
      requires Valid() && a in nodes
      modifies nodes[a].registry, ledger
      ensures Valid() && Lists(order, old(nodes[a].registry.active)) && SortedBySequence(order)
      ensures (World(), ok) == FlushAt(old(World()), a, order, bumpAccepted, fates)
    {
      ok, order := nodes[a].FlushTransactions(bumpAccepted, fates);
      OneNodeChanged(a);
    }
  }
}
