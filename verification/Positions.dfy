/** What an address is worth: its balance, plus what nodes' active entries will bring it,
    minus what they will cost it. Settling entries does not change it. */
module Positions {
  import opened Types
  import opened LedgerModel
  import opened NodeModel
  import opened PaymentModel
  import Amounts

  // ----- Sums over all addresses -----

  function Sum(all: seq<Address>, f: Address -> int): int {
    if all == [] then 0 else f(all[0]) + Sum(all[1..], f)
  }

  function SetOf(all: seq<Address>): set<Address> {
    if all == [] then {} else {all[0]} + SetOf(all[1..])
  }

  predicate Distinct(all: seq<Address>) {
    all == [] || (all[0] !in SetOf(all[1..]) && Distinct(all[1..]))
  }

  lemma {:induction false} SumSame(all: seq<Address>, f: Address -> int, g: Address -> int)
    requires forall a | a in SetOf(all) :: f(a) == g(a)
    ensures Sum(all, f) == Sum(all, g)
  {
    if all != [] { SumSame(all[1..], f, g); }
  }

  /** Two summands that agree everywhere but at `k`. */
  lemma {:induction false} SumChange(all: seq<Address>, f: Address -> int, g: Address -> int, k: Address)
    requires Distinct(all) && k in SetOf(all)
    requires forall a | a != k :: f(a) == g(a)
    ensures Sum(all, g) == Sum(all, f) + g(k) - f(k)
  {
    if all[0] == k { SumSame(all[1..], f, g); } else { SumChange(all[1..], f, g, k); }
  }

  // ----- Positions -----

  /** What payer `p` still owes node `y`, in stroops: the amount of the active entry. */
  function Owed(w: World, y: Address, p: Address): int {
    if y in w.nodes && p in w.nodes[y].active && w.nodes[y].active[p].tx.xdr.Some?
    then w.nodes[y].active[p].tx.xdr.value.stroops
    else 0
  }

  function Receivable(w: World, all: seq<Address>, x: Address): int {
    Sum(all, p => Owed(w, x, p))
  }

  function Payable(w: World, all: seq<Address>, x: Address): int {
    Sum(all, y => Owed(w, y, x))
  }

  function Position(w: World, all: seq<Address>, x: Address): int {
    BalanceIn(w.ledger.balance, x) + Receivable(w, all, x) - Payable(w, all, x)
  }

  function TotalBalance(balance: map<Address, int>, all: seq<Address>): int {
    Sum(all, x => BalanceIn(balance, x))
  }

  function At(x: Address, a: Address, amount: int): int {
    if x == a then amount else 0
  }

  ghost predicate SameDebtsBut(w: World, w': World, y: Address, p: Address) {
    forall a, b | a != y || b != p :: Owed(w', a, b) == Owed(w, a, b)
  }

  /** Changing one debt moves the position of its two parties in opposite directions. */
  lemma OneDebtChanges(w: World, w': World, all: seq<Address>, y: Address, p: Address, x: Address)
    requires Distinct(all) && y in SetOf(all) && p in SetOf(all)
    requires SameDebtsBut(w, w', y, p)
    ensures
      var change := Owed(w', y, p) - Owed(w, y, p);
      && Receivable(w', all, x) == Receivable(w, all, x) + At(x, y, change)
      && Payable(w', all, x) == Payable(w, all, x) + At(x, p, change)
  {
    var f, g := (q: Address) => Owed(w, x, q), (q: Address) => Owed(w', x, q);
    if x == y { SumChange(all, f, g, p); } else { SumSame(all, f, g); }
    var h, k := (q: Address) => Owed(w, q, x), (q: Address) => Owed(w', q, x);
    if x == p { SumChange(all, h, k, y); } else { SumSame(all, h, k); }
  }

  /** A new entry in payer `p`'s slot at node `y` moves the difference between them. */
  lemma SlotTaken(w: World, w': World, all: seq<Address>, y: Address, p: Address, e: Entry, x: Address)
    requires Distinct(all) && y in SetOf(all) && p in SetOf(all) && y in w.nodes && y in w'.nodes
    requires w'.ledger == w.ledger && w'.nodes == w.nodes[y := w'.nodes[y]]
    requires w'.nodes[y].active == w.nodes[y].active[p := e] && e.tx.xdr.Some?
    ensures
      var change := e.tx.xdr.value.stroops - Owed(w, y, p);
      Position(w', all, x) == Position(w, all, x) + At(x, y, change) - At(x, p, change)
  {
    assert SameDebtsBut(w, w', y, p);
    OneDebtChanges(w, w', all, y, p, x);
  }

  lemma SameDebtsSamePosition(w: World, w': World, all: seq<Address>, x: Address)
    requires forall a, b :: Owed(w', a, b) == Owed(w, a, b)
    requires w'.ledger.balance == w.ledger.balance
    ensures Position(w', all, x) == Position(w, all, x)
  {
    SumSame(all, (q: Address) => Owed(w, x, q), (q: Address) => Owed(w', x, q));
    SumSame(all, (q: Address) => Owed(w, q, x), (q: Address) => Owed(w', q, x));
  }

  // ----- Settling -----

  lemma TransferMoves(balance: map<Address, int>, e: Envelope, x: Address)
    ensures BalanceIn(Transfer(balance, e), x)
         == BalanceIn(balance, x) - At(x, e.payer, e.stroops) + At(x, e.payee, e.stroops)
  {
  }

  lemma TransferKeepsTotal(balance: map<Address, int>, e: Envelope, all: seq<Address>)
    requires Distinct(all) && e.payer in SetOf(all) && e.payee in SetOf(all)
    ensures TotalBalance(Transfer(balance, e), all) == TotalBalance(balance, all)
  {
    var paid := balance[e.payer := BalanceIn(balance, e.payer) - e.stroops];
    var f, g, h := (x: Address) => BalanceIn(balance, x), (x: Address) => BalanceIn(paid, x),
                   (x: Address) => BalanceIn(Transfer(balance, e), x);
    SumChange(all, f, g, e.payer);
    SumChange(all, g, h, e.payee);
  }

  /** An entry that sits in its payer's slot at `a`, paying `a`. */
  predicate Settleable(w: World, a: Address, e: Entry) {
    && a in w.nodes
    && e.tx.payer in w.nodes[a].active && w.nodes[a].active[e.tx.payer] == e
    && e.tx.xdr.Some? && e.tx.xdr.value.payer == e.tx.payer && e.tx.xdr.value.payee == a
  }

  function Settle(w: World, a: Address, e: Entry): World
    requires Settleable(w, a, e)
  {
    World(w.nodes[a := Complete(w.nodes[a], e)], w.ledger.(balance := Transfer(w.ledger.balance, e.tx.xdr.value)))
  }

  lemma SettleKeepsPosition(w: World, a: Address, e: Entry, all: seq<Address>, x: Address)
    requires Settleable(w, a, e) && Distinct(all) && a in SetOf(all) && e.tx.payer in SetOf(all)
    ensures Position(Settle(w, a, e), all, x) == Position(w, all, x)
  {
    var w' := Settle(w, a, e);
    assert SameDebtsBut(w, w', a, e.tx.payer);
    OneDebtChanges(w, w', all, a, e.tx.payer, x);
    TransferMoves(w.ledger.balance, e.tx.xdr.value, x);
  }

  /** Settling a list of entries of one node, one after the other. */
  lemma {:induction false} SettlingKeepsPositions(w: World, a: Address, settled: seq<Entry>, all: seq<Address>,
      x: Address)
    requires a in w.nodes && Distinct(all) && a in SetOf(all)
    requires forall i | 0 <= i < |settled| :: Settleable(w, a, settled[i]) && settled[i].tx.payer in SetOf(all)
    requires forall i, j | 0 <= i < j < |settled| :: settled[i].tx.payer != settled[j].tx.payer
    ensures
      var w' := World(w.nodes[a := CompleteAll(w.nodes[a], settled)],
                      w.ledger.(balance := TransferAll(w.ledger.balance, settled)));
      && Position(w', all, x) == Position(w, all, x)
      && TotalBalance(w'.ledger.balance, all) == TotalBalance(w.ledger.balance, all)
    decreases |settled|
  {
    if settled == [] {
      assert w.nodes[a := w.nodes[a]] == w.nodes;
    } else {
      var e, rest := settled[0], settled[1..];
      var w1 := Settle(w, a, e);
      SettleKeepsPosition(w, a, e, all, x);
      TransferKeepsTotal(w.ledger.balance, e.tx.xdr.value, all);
      forall i | 0 <= i < |rest| ensures Settleable(w1, a, rest[i]) {
        assert Settleable(w, a, settled[i + 1]);
      }
      SettlingKeepsPositions(w1, a, rest, all, x);
      assert w1.nodes[a := CompleteAll(w1.nodes[a], rest)] == w.nodes[a := CompleteAll(w.nodes[a], settled)];
    }
  }

  // ----- Sound worlds -----

  /** An entry a node holds for payer `p`: made by the node for `p`, for the amount it says. */
  predicate HeldFor(n: NodeState, p: Address, e: Entry) {
    && e.tx.payer == p != n.address
    && e.tx.payee == n.address
    && e.tx.amountOut <= e.tx.amountIn
    && e.tx.xdr.Some?
    && (var x := e.tx.xdr.value;
        && x.payer == p && x.payee == x.source == n.address
        && x.stroops == Amounts.Stroops(e.tx.amountIn)
        && e.sequence == x.sequence
        && x.sequence <= n.last)
  }

  ghost predicate Healthy(n: NodeState, cur: int) {
    && cur >= 0 && n.last >= 0
    && (n.last != 0 ==> cur <= n.last)
    && (forall p | p in n.active :: HeldFor(n, p, n.active[p]))
    && (forall p, q | p in n.active && q in n.active && p != q :: n.active[p].sequence != n.active[q].sequence)
  }

  /** `all` lists the nodes, each once; every node has an account and is healthy; every
      payer is a node. */
  ghost predicate Sound(w: World, all: seq<Address>) {
    && Distinct(all) && SetOf(all) == w.nodes.Keys
    && (forall a | a in w.nodes :: SoundAt(w, a))
  }

  ghost predicate SoundAt(w: World, a: Address)
    requires a in w.nodes
  {
    && w.nodes[a].address == a && a in w.ledger.sequence
    && Healthy(w.nodes[a], w.ledger.sequence[a])
    && (forall p | p in w.nodes[a].active :: p in w.nodes)
  }

  lemma StaysSoundAt(w: World, w': World, a: Address)
    requires a in w.nodes && a in w'.nodes && SoundAt(w, a) && w'.nodes[a] == w.nodes[a]
    requires w'.nodes.Keys == w.nodes.Keys
    requires a in w'.ledger.sequence && w'.ledger.sequence[a] == w.ledger.sequence[a]
    ensures SoundAt(w', a)
  {
  }

  /** A change at one node that leaves it healthy. */
  lemma OneNodeSound(w: World, w': World, all: seq<Address>, y: Address)
    requires Sound(w, all) && y in w.nodes && y in w'.nodes
    requires w'.ledger == w.ledger && w'.nodes == w.nodes[y := w'.nodes[y]] && w'.nodes[y].address == y
    requires Healthy(w'.nodes[y], w.ledger.sequence[y])
    requires forall p | p in w'.nodes[y].active :: p in w.nodes
    ensures Sound(w', all)
  {
  }

  /** No pending transaction has gone stale. */
  ghost predicate NothingStale(w: World) {
    forall a, p | a in w.nodes && p in w.nodes[a].active ::
      SequenceOf(w.ledger, a) < w.nodes[a].active[p].sequence
  }

  ghost predicate Drained(w: World) {
    forall a | a in w.nodes :: w.nodes[a].active == map[]
  }

  lemma DrainedPosition(w: World, all: seq<Address>, x: Address)
    requires Drained(w)
    ensures Position(w, all, x) == BalanceIn(w.ledger.balance, x)
  {
    var zero := (q: Address) => 0;
    SumSame(all, (q: Address) => Owed(w, x, q), zero);
    SumSame(all, (q: Address) => Owed(w, q, x), zero);
  }

  lemma HealthyListing(n: NodeState, cur: int, order: seq<Entry>)
    requires Healthy(n, cur) && Lists(order, n.active) && SortedBySequence(order)
    ensures Keyed(n.active) && StrictlySorted(order)
    ensures forall i | 0 <= i < |order| :: order[i].sequence <= n.last
  {
    forall i | 0 <= i < |order| ensures order[i].sequence <= n.last {
      assert HeldFor(n, order[i].tx.payer, order[i]);
    }
  }

  /** Every flush leaves the node healthy. */
  lemma FlushKeepsHealthy(n: NodeState, cur: int, order: seq<Entry>, bump: bool, fates: seq<Fate>)
    requires Healthy(n, cur) && Lists(order, n.active) && SortedBySequence(order)
    ensures
      var f := Flush(n, cur, order, bump, fates);
      && Healthy(f.node, f.cur) && f.node.address == n.address
      && (forall p | p in f.node.active :: p in n.active)
  {
    var f := Flush(n, cur, order, bump, fates);
    HealthyListing(n, cur, order);
    FlushRemoves(n, cur, order, bump, fates);
    FlushNumbers(n, cur, order, bump, fates);
    forall p | p in f.node.active ensures HeldFor(f.node, p, f.node.active[p]) {
      assert HeldFor(n, p, n.active[p]);
    }
  }

  lemma SettledAreSettleable(w: World, all: seq<Address>, a: Address, order: seq<Entry>, bump: bool, fates: seq<Fate>)
    requires Sound(w, all) && a in w.nodes
    requires Lists(order, w.nodes[a].active) && SortedBySequence(order)
    ensures
      var settled := Flush(w.nodes[a], w.ledger.sequence[a], order, bump, fates).settled;
      && (forall i | 0 <= i < |settled| :: Settleable(w, a, settled[i]) && settled[i].tx.payer in SetOf(all))
      && (forall i, j | 0 <= i < j < |settled| :: settled[i].tx.payer != settled[j].tx.payer)
  {
    var n, cur := w.nodes[a], w.ledger.sequence[a];
    var f := Flush(n, cur, order, bump, fates);
    HealthyListing(n, cur, order);
    FlushRemoves(n, cur, order, bump, fates);
    FlushNumbers(n, cur, order, bump, fates);
    forall i | 0 <= i < |f.settled| ensures Settleable(w, a, f.settled[i]) && f.settled[i].tx.payer in SetOf(all) {
      assert f.settled[i] in f.settled;
      assert HeldFor(n, f.settled[i].tx.payer, f.settled[i]);
    }
    forall i, j | 0 <= i < j < |f.settled| ensures f.settled[i].tx.payer != f.settled[j].tx.payer {
      assert f.settled[i] in f.settled && f.settled[j] in f.settled;
    }
  }

  lemma FlushKeepsSoundAt(w: World, a: Address, order: seq<Entry>, bump: bool, fates: seq<Fate>)
    requires a in w.nodes && SoundAt(w, a)
    requires Lists(order, w.nodes[a].active) && SortedBySequence(order)
    ensures SoundAt(FlushAt(w, a, order, bump, fates).0, a)
  {
    FlushKeepsHealthy(w.nodes[a], w.ledger.sequence[a], order, bump, fates);
  }

  lemma FlushKeepsSound(w: World, all: seq<Address>, a: Address, order: seq<Entry>, bump: bool, fates: seq<Fate>)
    requires Sound(w, all) && a in w.nodes
    requires Lists(order, w.nodes[a].active) && SortedBySequence(order)
    ensures Sound(FlushAt(w, a, order, bump, fates).0, all)
  {
    var w' := FlushAt(w, a, order, bump, fates).0;
    assert SoundAt(w, a);
    forall b | b in w'.nodes ensures SoundAt(w', b) {
      if b == a { FlushKeepsSoundAt(w, a, order, bump, fates); } else { StaysSoundAt(w, w', b); }
    }
  }

  lemma FlushLeavesFresh(n: NodeState, cur: int, order: seq<Entry>, bump: bool, fates: seq<Fate>, p: Address)
    requires Healthy(n, cur) && Lists(order, n.active) && SortedBySequence(order) && Consumed !in fates
    requires p in n.active && cur < n.active[p].sequence
    ensures
      var f := Flush(n, cur, order, bump, fates);
      p in f.node.active ==> f.cur < f.node.active[p].sequence
  {
    HealthyListing(n, cur, order);
    FlushRemoves(n, cur, order, bump, fates);
    FlushLeavesNoneStale(n, cur, order, bump, fates, n.active[p]);
  }

  /** And nothing goes stale, as long as no number is used up in vain. */
  lemma FlushKeepsFresh(w: World, all: seq<Address>, a: Address, order: seq<Entry>, bump: bool, fates: seq<Fate>)
    requires Sound(w, all) && NothingStale(w) && a in w.nodes && Consumed !in fates
    requires Lists(order, w.nodes[a].active) && SortedBySequence(order)
    ensures NothingStale(FlushAt(w, a, order, bump, fates).0)
  {
    assert SoundAt(w, a);
    var n, cur := w.nodes[a], w.ledger.sequence[a];
    FlushKeepsHealthy(n, cur, order, bump, fates);
    forall p | p in n.active { FlushLeavesFresh(n, cur, order, bump, fates, p); }
  }

  /** Flushing any node, with refusals and failed bumps wherever they occur, keeps every
      position and the sum of all balances. */
  lemma FlushKeepsPositions(w: World, all: seq<Address>, a: Address, order: seq<Entry>, bump: bool, fates: seq<Fate>,
      x: Address)
    requires Sound(w, all) && a in w.nodes
    requires Lists(order, w.nodes[a].active) && SortedBySequence(order)
    ensures
      var w' := FlushAt(w, a, order, bump, fates).0;
      && Position(w', all, x) == Position(w, all, x)
      && TotalBalance(w'.ledger.balance, all) == TotalBalance(w.ledger.balance, all)
  {
    var f := Flush(w.nodes[a], w.ledger.sequence[a], order, bump, fates);
    var w' := FlushAt(w, a, order, bump, fates).0;
    SettledAreSettleable(w, all, a, order, bump, fates);
    SettlingKeepsPositions(w, a, f.settled, all, x);
    FlushCompletes(w.nodes[a], w.ledger.sequence[a], order, bump, fates);
    var settled := World(w.nodes[a := f.node], w.ledger.(balance := TransferAll(w.ledger.balance, f.settled)));
    assert w'.nodes == settled.nodes;
    SameDebtsSamePosition(settled, w', all, x);
  }

  lemma FlushCompletes(n: NodeState, cur: int, order: seq<Entry>, bump: bool, fates: seq<Fate>)
    ensures Flush(n, cur, order, bump, fates).node == CompleteAll(n, Flush(n, cur, order, bump, fates).settled)
  {
  }
}
