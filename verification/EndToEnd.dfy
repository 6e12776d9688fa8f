/** Any sequence of payment requests, payments over routes of any length, and flushes at
    any nodes: what every address ends up with. */
module EndToEnd {
  import opened Types
  import opened LedgerModel
  import opened NodeModel
  import opened PaymentModel
  import opened Positions
  import opened Creation
  import opened Payments
  import Draining

  datatype Operation =
    | Request(node: Address, session: Session, amount: Amount)
    | Payment(client: Address, balance: Amount, pr: PaymentRequest, route: seq<Hop>, breakOff: Option<nat>)
    | Creation(node: Address, request: CreateRequest)
    | Flushing(node: Address, order: seq<Entry>, bumpAccepted: bool, fates: seq<Fate>)

  /** Payments are made by nodes, over routes of distinct addresses, and no accumulated amount
      exceeds 32 bits. Nodes of the route need not answer, and a payment may break off after any
      number of commits. One that breaks off before, while its transactions are created or
      signed, is the creations it got done; anybody may ask any node for any others. The ledger
      may refuse any submission and any bump, and use up numbers in vain. */
  ghost predicate Possible(w: World, op: Operation) {
    match op
    case Request(node, _, _) => node in w.nodes
    case Creation(_, _) => true
    case Payment(client, _, pr, route, _) => client in w.nodes && Fits(w, pr, route)
    case Flushing(node, order, _, _) => node in w.nodes && Lists(order, w.nodes[node].active) && SortedBySequence(order)
  }

  ghost function Perform(w: World, op: Operation): World
    requires Possible(w, op)
  {
    match op
    case Request(node, session, amount) => RequestAt(w, node, session, amount)
    case Creation(node, request) => CreateAt(w, node, request).0
    case Payment(client, balance, pr, route, breakOff) => PayUntil(w, client, balance, pr, route, breakOff).0
    case Flushing(node, order, bump, fates) => FlushAt(w, node, order, bump, fates).0
  }

  /** The place of `x` on the route, from the `m`-th node on; `|route|` if there is none. */
  function PlaceOf(route: seq<Hop>, x: Address, m: nat): (k: nat)
    requires m <= |route|
    ensures m <= k <= |route|
    ensures k < |route| ==> route[k].address == x
    ensures forall j | m <= j < k :: route[j].address != x
    decreases |route| - m
  {
    if m == |route| || route[m].address == x then m else PlaceOf(route, x, m + 1)
  }

  /** What the hops from `lo` on bring address `x`. */
  function ShareAt(pr: PaymentRequest, route: seq<Hop>, lo: nat, x: Address): int
    requires 0 < lo <= |route|
  {
    var m := PlaceOf(route, x, 0);
    if lo < |route| && m < |route| then Share(pr, route, lo, m) else 0
  }

  lemma GainIsShare(pr: PaymentRequest, route: seq<Hop>, lo: nat, x: Address)
    requires 0 < lo <= |route| && DistinctNodes(route)
    ensures GainReached(pr, route, lo, x) == ShareAt(pr, route, lo, x)
  {
    var m := PlaceOf(route, x, 0);
    if lo < |route| {
      if m < |route| { PrefixLaw(pr, route, lo, m); } else { GainElsewhere(pr, route, lo, |route| - 1, x); }
    }
  }

  /** What an operation brings address `x`: its share in the hops a payment gets committed. */
  ghost function ShareOf(w: World, op: Operation, x: Address): int
    requires Possible(w, op)
  {
    match op
    case Payment(client, balance, pr, route, breakOff) =>
      if Startable(w, client, balance, pr, route)
      then ShareAt(pr, route, FirstCommitted(w, pr, route, breakOff), x)
      else 0
    case Request(_, _, _) => 0
    case Creation(_, _) => 0
    case Flushing(_, _, _, _) => 0
  }

  ghost predicate AllPossible(w: World, ops: seq<Operation>)
    decreases |ops|
  {
    ops == [] || (Possible(w, ops[0]) && AllPossible(Perform(w, ops[0]), ops[1..]))
  }

  ghost function PerformAll(w: World, ops: seq<Operation>): World
    requires AllPossible(w, ops)
    decreases |ops|
  {
    if ops == [] then w else PerformAll(Perform(w, ops[0]), ops[1..])
  }

  ghost function SharesOf(w: World, ops: seq<Operation>, x: Address): int
    requires AllPossible(w, ops)
    decreases |ops|
  {
    if ops == [] then 0 else ShareOf(w, ops[0], x) + SharesOf(Perform(w, ops[0]), ops[1..], x)
  }

  lemma RequestKeepsPosition(w: World, all: seq<Address>, node: Address, session: Session, amount: Amount, x: Address)
    requires Sound(w, all) && node in w.nodes
    ensures
      var w' := RequestAt(w, node, session, amount);
      Sound(w', all) && w'.ledger == w.ledger && Position(w', all, x) == Position(w, all, x)
  {
    var w' := RequestAt(w, node, session, amount);
    forall a, b ensures Owed(w', a, b) == Owed(w, a, b) {}
    SameDebtsSamePosition(w, w', all, x);
    forall a, p | a in w'.nodes && p in w'.nodes[a].active
      ensures HeldFor(w'.nodes[a], p, w'.nodes[a].active[p])
    {
      assert HeldFor(w.nodes[a], p, w.nodes[a].active[p]);
    }
  }

  /** What one operation keeps and moves. */
  ghost predicate Moved(w: World, w': World, all: seq<Address>, x: Address, gain: int) {
    && Sound(w', all)
    && Position(w', all, x) == Position(w, all, x) + gain
    && TotalBalance(w'.ledger.balance, all) == TotalBalance(w.ledger.balance, all)
  }

  lemma FlushMoves(w: World, all: seq<Address>, op: Operation, x: Address)
    requires Sound(w, all) && op.Flushing? && Possible(w, op)
    ensures Moved(w, Perform(w, op), all, x, 0)
  {
    FlushKeepsSound(w, all, op.node, op.order, op.bumpAccepted, op.fates);
    FlushKeepsPositions(w, all, op.node, op.order, op.bumpAccepted, op.fates, x);
  }

  lemma CreationMoves(w: World, all: seq<Address>, node: Address, request: CreateRequest, x: Address)
    requires Sound(w, all)
    ensures Moved(w, CreateAt(w, node, request).0, all, x, 0)
  {
    CreateAtNumbers(w, all, node, request);
    NumberedKeepsPosition(w, CreateAt(w, node, request).0, all, x);
  }

  lemma PaymentMoves(w: World, all: seq<Address>, op: Operation, x: Address)
    requires Sound(w, all) && op.Payment? && Possible(w, op)
    ensures Moved(w, Perform(w, op), all, x, ShareOf(w, op, x))
  {
    var _, _ := PaymentOutcome(w, all, op.client, op.balance, op.pr, op.route, op.breakOff, x);
    GainIsShare(op.pr, op.route, FirstCommitted(w, op.pr, op.route, op.breakOff), x);
  }

  lemma OneOperation(w: World, all: seq<Address>, op: Operation, x: Address)
    requires Sound(w, all) && Possible(w, op)
    ensures Moved(w, Perform(w, op), all, x, ShareOf(w, op, x))
  {
    match op
    case Request(node, session, amount) => RequestKeepsPosition(w, all, node, session, amount, x);
    case Creation(node, request) => CreationMoves(w, all, node, request, x);
    case Payment(_, _, _, _, _) => PaymentMoves(w, all, op, x);
    case Flushing(_, _, _, _) => FlushMoves(w, all, op, x);
  }

  /** Over any sequence of operations the sum of all balances is unchanged and every
      position changes by exactly its shares of the payments. */
  lemma {:induction false} PositionsFollowPayments(w: World, all: seq<Address>, ops: seq<Operation>, x: Address)
    requires Sound(w, all) && AllPossible(w, ops)
    ensures
      var w' := PerformAll(w, ops);
      && Sound(w', all)
      && Position(w', all, x) == Position(w, all, x) + SharesOf(w, ops, x)
      && TotalBalance(w'.ledger.balance, all) == TotalBalance(w.ledger.balance, all)
    decreases |ops|
  {
    if ops != [] {
      OneOperation(w, all, ops[0], x);
      PositionsFollowPayments(Perform(w, ops[0]), all, ops[1..], x);
    }
  }

  /** End-to-end conservation: starting and ending with all registries drained, every
      balance has changed by exactly its shares of the payments in between, and the sum of
      all balances has not. */
  lemma EndToEndConservation(w: World, all: seq<Address>, ops: seq<Operation>, x: Address)
    requires Sound(w, all) && Drained(w) && AllPossible(w, ops) && Drained(PerformAll(w, ops))
    ensures
      var w' := PerformAll(w, ops);
      && BalanceIn(w'.ledger.balance, x) == BalanceIn(w.ledger.balance, x) + SharesOf(w, ops, x)
      && TotalBalance(w'.ledger.balance, all) == TotalBalance(w.ledger.balance, all)
  {
    PositionsFollowPayments(w, all, ops, x);
    DrainedPosition(w, all, x);
    DrainedPosition(PerformAll(w, ops), all, x);
  }

  /** Nodes that have not done anything yet form a sound, drained world. */
  lemma FreshWorld(w: World, all: seq<Address>)
    requires Distinct(all) && SetOf(all) == w.nodes.Keys
    requires forall a | a in w.nodes :: a in w.ledger.sequence && w.ledger.sequence[a] >= 0
    requires forall a | a in w.nodes :: w.nodes[a] == NodeState(a, 0, map[], map[], map[])
    ensures Sound(w, all) && Drained(w) && NothingStale(w)
  {
  }

  // ----- What can be settled -----

  lemma {:induction false} PerformBoth(w: World, a: seq<Operation>, b: seq<Operation>)
    requires AllPossible(w, a) && AllPossible(PerformAll(w, a), b)
    ensures AllPossible(w, a + b) && PerformAll(w, a + b) == PerformAll(PerformAll(w, a), b)
    decreases |a|
  {
    if a == [] {
      assert a + b == b;
    } else {
      assert (a + b)[1..] == a[1..] + b;
      PerformBoth(Perform(w, a[0]), a[1..], b);
    }
  }

  /** A flush in which the ledger applies everything takes entries away from its node, unless
      some have gone stale, and leaves the other nodes alone. */
  lemma CleanFlush(w: World, all: seq<Address>, a: Address, order: seq<Entry>)
    requires Sound(w, all) && NothingStale(w) && a in w.nodes && w.nodes[a].active != map[]
    requires Lists(order, w.nodes[a].active) && SortedBySequence(order)
    ensures
      var w' := FlushAt(w, a, order, true, []).0;
      && Sound(w', all) && NothingStale(w') && w'.nodes == w.nodes[a := w'.nodes[a]]
      && w'.nodes[a].active.Keys < w.nodes[a].active.Keys
  {
    FlushKeepsSound(w, all, a, order, true, []);
    FlushKeepsFresh(w, all, a, order, true, []);
    CleanFlushShrinks(w.nodes[a], SequenceOf(w.ledger, a), order);
  }

  lemma CleanFlushShrinks(n: NodeState, cur: int, order: seq<Entry>)
    requires Healthy(n, cur) && n.active != map[] && Lists(order, n.active) && SortedBySequence(order)
    requires forall p | p in n.active :: cur < n.active[p].sequence
    ensures Flush(n, cur, order, true, []).node.active.Keys < n.active.Keys
  {
    HealthyListing(n, cur, order);
    var p :| p in n.active;
    assert n.active[p] in order;
    assert n.active[order[0].tx.payer] == order[0];
    assert DropStale(order, cur) == order;
    Draining.FlushSettlesOneBlock(n, cur, order, []);
    var block := order[..Draining.BlockLength(order)];
    assert block[0] == order[0] && order[0].tx.payer in PayersOf(block);
  }

  predicate OnlyFlushes(ops: seq<Operation>) {
    forall i | 0 <= i < |ops| :: ops[i].Flushing?
  }

  /** These flushes lead from `w` to `w'`. */
  ghost predicate Leads(w: World, ops: seq<Operation>, w': World) {
    AllPossible(w, ops) && OnlyFlushes(ops) && PerformAll(w, ops) == w'
  }

  lemma LeadsOn(w: World, op: Operation, rest: seq<Operation>, w': World)
    requires op.Flushing? && Possible(w, op) && Leads(Perform(w, op), rest, w')
    ensures Leads(w, [op] + rest, w')
  {
    assert ([op] + rest)[1..] == rest;
  }

  lemma LeadsBoth(w: World, first: seq<Operation>, w1: World, rest: seq<Operation>, w2: World)
    requires Leads(w, first, w1) && Leads(w1, rest, w2)
    ensures Leads(w, first + rest, w2)
  {
    PerformBoth(w, first, rest);
  }

  /** From `w` to `w'` node `a` has been emptied, and no other node has changed. */
  ghost predicate Emptied(w: World, w': World, a: Address) {
    a in w'.nodes && w'.nodes == w.nodes[a := w'.nodes[a]] && w'.nodes[a].active == map[]
  }

  /** Some flushes empty node `a`. */
  lemma {:induction false} DrainNode(w: World, all: seq<Address>, a: Address) returns (ops: seq<Operation>, w': World)
    requires Sound(w, all) && NothingStale(w) && a in w.nodes
    ensures Leads(w, ops, w') && Emptied(w, w', a) && Sound(w', all) && NothingStale(w')
    decreases w.nodes[a].active.Keys
  {
    ops, w' := [], w;
    if w.nodes[a].active == map[] {
      assert w.nodes == w.nodes[a := w.nodes[a]];
    } else {
      var op, w1 := OneCleanFlush(w, all, a);
      ops, w' := DrainNode(w1, all, a);
      LeadsOn(w, op, ops, w');
      EmptiedLater(w, w1, w', a);
      ops := [op] + ops;
    }
  }

  lemma EmptiedLater(w: World, w1: World, w2: World, a: Address)
    requires a in w1.nodes && w1.nodes == w.nodes[a := w1.nodes[a]] && Emptied(w1, w2, a)
    ensures Emptied(w, w2, a)
  {
  }

  lemma OneCleanFlush(w: World, all: seq<Address>, a: Address) returns (op: Operation, w1: World)
    requires Sound(w, all) && NothingStale(w) && a in w.nodes && w.nodes[a].active != map[]
    ensures op.Flushing? && Possible(w, op) && Perform(w, op) == w1 && Sound(w1, all) && NothingStale(w1)
    ensures a in w1.nodes && w1.nodes == w.nodes[a := w1.nodes[a]]
    ensures w1.nodes[a].active.Keys < w.nodes[a].active.Keys
  {
    HealthyIsKeyed(w.nodes[a], w.ledger.sequence[a]);
    var order := SortedListing(w.nodes[a].active);
    CleanFlush(w, all, a, order);
    op := Flushing(a, order, true, []);
    w1 := FlushAt(w, a, order, true, []).0;
  }

  lemma HealthyIsKeyed(n: NodeState, cur: int)
    requires Healthy(n, cur)
    ensures Keyed(n.active)
  {
    forall p | p in n.active ensures n.active[p].tx.payer == p {
      assert HeldFor(n, p, n.active[p]);
    }
  }

  /** From `w` to `w'` the nodes of `some` have been emptied, and none has been filled. */
  ghost predicate AllEmptied(w: World, w': World, some: seq<Address>) {
    && w'.nodes.Keys == w.nodes.Keys
    && forall a | a in w.nodes && (w.nodes[a].active == map[] || a in SetOf(some)) :: w'.nodes[a].active == map[]
  }

  lemma {:induction false} DrainNodes(w: World, all: seq<Address>, some: seq<Address>)
    returns (ops: seq<Operation>, w': World)
    requires Sound(w, all) && NothingStale(w) && SetOf(some) <= w.nodes.Keys
    ensures Leads(w, ops, w') && AllEmptied(w, w', some) && Sound(w', all)
    decreases |some|
  {
    ops, w' := [], w;
    if some != [] {
      var first, w1 := DrainNode(w, all, some[0]);
      var rest;
      rest, w' := DrainNodes(w1, all, some[1..]);
      LeadsBoth(w, first, w1, rest, w');
      EmptiedThenAll(w, w1, w', some);
      ops := first + rest;
    }
  }

  lemma EmptiedThenAll(w: World, w1: World, w2: World, some: seq<Address>)
    requires some != [] && some[0] in w.nodes && Emptied(w, w1, some[0]) && AllEmptied(w1, w2, some[1..])
    ensures AllEmptied(w, w2, some)
  {
  }

  lemma {:induction false} FlushesShareNothing(w: World, ops: seq<Operation>, x: Address)
    requires AllPossible(w, ops) && OnlyFlushes(ops)
    ensures SharesOf(w, ops, x) == 0
    decreases |ops|
  {
    if ops != [] { FlushesShareNothing(Perform(w, ops[0]), ops[1..], x); }
  }

  /** When nothing has gone stale, some flushes drain all registries, and then everyone's
      balance is what the position was. */
  lemma EverythingSettles(w: World, all: seq<Address>) returns (ops: seq<Operation>, w': World)
    requires Sound(w, all) && NothingStale(w)
    ensures Leads(w, ops, w') && Drained(w') && forall x :: BalanceIn(w'.ledger.balance, x) == Position(w, all, x)
  {
    ops, w' := DrainNodes(w, all, all);
    forall x ensures BalanceIn(w'.ledger.balance, x) == Position(w, all, x) {
      PositionsFollowPayments(w, all, ops, x);
      FlushesShareNothing(w, ops, x);
      DrainedPosition(w', all, x);
    }
  }

  /** `p`'s pending transaction at `a` has gone stale. */
  ghost predicate StaleAt(w: World, a: Address, p: Address) {
    a in w.nodes && p in w.nodes[a].active && w.nodes[a].active[p].sequence <= SequenceOf(w.ledger, a)
  }

  lemma SoundIsKeyed(w: World, all: seq<Address>, a: Address)
    requires Sound(w, all) && a in w.nodes
    ensures Keyed(w.nodes[a].active) && a in w.ledger.sequence
  {
    HealthyIsKeyed(w.nodes[a], w.ledger.sequence[a]);
  }

  /** A stale transaction outlives every flush. */
  lemma StaleOutlivesFlush(w: World, a: Address, p: Address, op: Operation)
    requires op.Flushing? && Possible(w, op) && StaleAt(w, a, p) && Keyed(w.nodes[a].active)
    ensures StaleAt(Perform(w, op), a, p)
  {
    if op.node == a {
      StaleStays(w.nodes[a], SequenceOf(w.ledger, a), op.order, op.bumpAccepted, op.fates, p);
    }
  }

  /** Whatever every flush keeps, all flushes keep. */
  lemma {:induction false} FlushesKeep(inv: World -> bool, w: World, ops: seq<Operation>)
    requires inv(w) && AllPossible(w, ops) && OnlyFlushes(ops)
    requires forall v: World, op: Operation | inv(v) && op.Flushing? && Possible(v, op) :: inv(Perform(v, op))
    ensures inv(PerformAll(w, ops))
    decreases |ops|
  {
    if ops != [] { FlushesKeep(inv, Perform(w, ops[0]), ops[1..]); }
  }

  ghost function SoundAndStale(all: seq<Address>, a: Address, p: Address): World -> bool {
    (w: World) => Sound(w, all) && StaleAt(w, a, p)
  }

  lemma StaleOutlivesAll(w: World, all: seq<Address>, ops: seq<Operation>, a: Address, p: Address)
    requires Sound(w, all) && AllPossible(w, ops) && OnlyFlushes(ops) && StaleAt(w, a, p)
    ensures StaleAt(PerformAll(w, ops), a, p)
  {
    forall v: World, op: Operation | SoundAndStale(all, a, p)(v) && op.Flushing? && Possible(v, op)
      ensures SoundAndStale(all, a, p)(Perform(v, op))
    {
      StaysStale(v, all, op, a, p);
    }
    FlushesKeep(SoundAndStale(all, a, p), w, ops);
  }

  lemma StaysStale(w: World, all: seq<Address>, op: Operation, a: Address, p: Address)
    requires Sound(w, all) && op.Flushing? && Possible(w, op) && StaleAt(w, a, p)
    ensures Sound(Perform(w, op), all) && StaleAt(Perform(w, op), a, p)
  {
    SoundIsKeyed(w, all, a);
    StaleOutlivesFlush(w, a, p, op);
    FlushKeepsSound(w, all, op.node, op.order, op.bumpAccepted, op.fates);
  }

  /** All registries can be drained if and only if nothing has gone stale. */
  lemma DrainableExactly(w: World, all: seq<Address>)
    requires Sound(w, all)
    ensures (exists ops, w' :: Leads(w, ops, w') && Drained(w')) <==> NothingStale(w)
  {
    if NothingStale(w) {
      var ops, w' := EverythingSettles(w, all);
    } else {
      var a, p :| a in w.nodes && p in w.nodes[a].active && !(SequenceOf(w.ledger, a) < w.nodes[a].active[p].sequence);
      forall ops, w' | Leads(w, ops, w') ensures !Drained(w') {
        StaleOutlivesAll(w, all, ops, a, p);
      }
    }
  }
}
