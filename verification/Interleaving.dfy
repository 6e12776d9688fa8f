/** All nodes at once, step by step: creations, commits and flushes of any number of payments,
    at any nodes, in any order. What every balance ends up with, and what is lost on the way when
    commits do not accumulate upon what is active at that moment. */
module Interleaving {
  import opened Types
  import opened LedgerModel
  import opened NodeModel
  import opened PaymentModel
  import opened Positions
  import opened Creation
  import opened Payments
  import NodeRuns
  import NodeLaws
  import EndToEnd
  import Amounts

  type Run = NodeRuns.Run

  /** The runs of all nodes, and the balances on the ledger. */
  datatype Net = Net(runs: map<Address, Run>, balance: map<Address, int>)

  datatype NetStep = NetStep(node: Address, step: NodeRuns.Step)

  /** A node does any step of its own; payers are nodes. */
  ghost predicate Enabled(net: Net, s: NetStep) {
    && s.node in net.runs && NodeRuns.Enabled(net.runs[s.node], s.step)
    && (s.step.Create? ==> s.step.request.payer in net.runs)
  }

  function NewlySettled(before: Run, after: Run): seq<Entry> {
    if |before.settled| <= |after.settled| then after.settled[|before.settled|..] else []
  }

  /** What a node newly settles is transferred on the ledger. */
  ghost function Next(net: Net, s: NetStep): Net
    requires Enabled(net, s)
  {
    var before := net.runs[s.node];
    var after := NodeRuns.Next(before, s.step);
    Net(net.runs[s.node := after], TransferAll(net.balance, NewlySettled(before, after)))
  }

  ghost predicate Allowed(net: Net, steps: seq<NetStep>)
    decreases |steps|
  {
    steps == [] || (Enabled(net, steps[0]) && Allowed(Next(net, steps[0]), steps[1..]))
  }

  ghost function After(net: Net, steps: seq<NetStep>): Net
    requires Allowed(net, steps)
    decreases |steps|
  {
    if steps == [] then net else After(Next(net, steps[0]), steps[1..])
  }

  /** Every commit that is accepted accumulates upon the amount active then, within 32 bits. */
  ghost predicate AllAccumulate(net: Net, steps: seq<NetStep>)
    requires Allowed(net, steps)
    decreases |steps|
  {
    steps == [] ||
    (&& (forall p :: NodeLaws.Accumulates(net.runs[steps[0].node], steps[0].step, p))
     && AllAccumulate(Next(net, steps[0]), steps[1..]))
  }

  /** What the steps lose of what node `a` is to get from `p`. */
  ghost function LostAt(net: Net, steps: seq<NetStep>, a: Address, p: Address): int
    requires Allowed(net, steps)
    decreases |steps|
  {
    if steps == [] then 0
    else
      (if a == steps[0].node then NodeLaws.Loss(net.runs[a], steps[0].step, p) else 0)
      + LostAt(Next(net, steps[0]), steps[1..], a, p)
  }

  /** All nodes have just started. */
  predicate Started(net: Net) {
    forall a | a in net.runs :: net.runs[a].cur >= 0 && net.runs[a] == NodeRuns.Initial(a, net.runs[a].cur)
  }

  ghost predicate Inv(net: Net, all: seq<Address>) {
    && Distinct(all) && SetOf(all) == net.runs.Keys
    && (forall a | a in net.runs :: NodeInv(net, a))
  }

  ghost predicate NodeInv(net: Net, a: Address)
    requires a in net.runs
  {
    && NodeRuns.Inv(net.runs[a]) && net.runs[a].node.address == a
    && (forall i | 0 <= i < |net.runs[a].issued| :: net.runs[a].issued[i].request.payer in net.runs)
  }

  // ----- Flows between nodes -----

  /** What flows to `a` from `p`, for every `a` and `p`. */
  type Flow = (Address, Address) -> int

  /** What `x` gains by it. */
  function NetFlow(all: seq<Address>, flow: Flow, x: Address): int {
    Sum(all, p => flow(x, p)) - Sum(all, a => flow(a, x))
  }

  function Cell(a: Address, p: Address, y: Address, q: Address, v: int): int {
    if a == y && p == q then v else 0
  }

  lemma OneCell(all: seq<Address>, flow: Flow, flow': Flow, y: Address, q: Address, v: int, x: Address)
    requires Distinct(all) && y in SetOf(all) && q in SetOf(all)
    requires forall a, p :: flow'(a, p) == flow(a, p) + Cell(a, p, y, q, v)
    ensures NetFlow(all, flow', x) == NetFlow(all, flow, x) + At(x, y, v) - At(x, q, v)
  {
    var f, g := (p: Address) => flow(x, p), (p: Address) => flow'(x, p);
    if x == y { SumChange(all, f, g, q); } else { SumSame(all, f, g); }
    var h, k := (a: Address) => flow(a, x), (a: Address) => flow'(a, x);
    if x == q { SumChange(all, h, k, y); } else { SumSame(all, h, k); }
  }

  lemma FlowsAdd(all: seq<Address>, f: Flow, g: Flow, h: Flow, x: Address)
    requires forall a, p :: h(a, p) == f(a, p) + g(a, p)
    ensures NetFlow(all, h, x) == NetFlow(all, f, x) + NetFlow(all, g, x)
  {
    SumPlus(all, (p: Address) => f(x, p), (p: Address) => g(x, p), (p: Address) => h(x, p));
    SumPlus(all, (a: Address) => f(a, x), (a: Address) => g(a, x), (a: Address) => h(a, x));
  }

  function Settled(net: Net): Flow {
    (a, p) => if a in net.runs then NodeLaws.SettledFor(net.runs[a].settled, p) else 0
  }

  function Active(net: Net): Flow {
    (a, p) => if a in net.runs then ActiveAmount(net.runs[a].node, p) else 0
  }

  function Accepted(net: Net): Flow {
    (a, p) => if a in net.runs then NodeLaws.AcceptedFor(net.runs[a].accepted, p) else 0
  }

  ghost function Lost(net: Net, steps: seq<NetStep>): Flow
    requires Allowed(net, steps)
  {
    (a, p) => LostAt(net, steps, a, p)
  }

  // ----- Settling moves balances -----

  /** An entry that pays node `a` the amount it says. */
  predicate Pays(e: Entry, a: Address) {
    && e.tx.xdr.Some?
    && e.tx.xdr.value.payer == e.tx.payer && e.tx.xdr.value.payee == a
    && e.tx.xdr.value.stroops == Amounts.Stroops(e.tx.amountIn)
  }

  lemma {:induction false} SettlingMoves(
    balance: map<Address, int>, settled: seq<Entry>, a: Address, all: seq<Address>, flow: Flow, flow': Flow, x: Address)
    requires Distinct(all) && a in SetOf(all)
    requires forall i | 0 <= i < |settled| :: Pays(settled[i], a) && settled[i].tx.payer in SetOf(all)
    requires forall b, p :: flow'(b, p) == flow(b, p) + if b == a then NodeLaws.SettledFor(settled, p) else 0
    ensures BalanceIn(TransferAll(balance, settled), x)
         == BalanceIn(balance, x) + 10_000 * (NetFlow(all, flow', x) - NetFlow(all, flow, x))
    decreases |settled|
  {
    if settled == [] {
      FlowsSameEverywhere(all, flow, flow', x);
    } else {
      var e, rest := settled[0], settled[1..];
      var v: int := e.tx.amountIn;
      var flow1: Flow := (b, p) => flow(b, p) + Cell(b, p, a, e.tx.payer, v);
      OneCell(all, flow, flow1, a, e.tx.payer, v, x);
      TransferMoves(balance, e.tx.xdr.value, x);
      forall b, p ensures flow'(b, p) == flow1(b, p) + if b == a then NodeLaws.SettledFor(rest, p) else 0 {
        FirstSettled(settled, p);
      }
      SettlingMoves(Transfer(balance, e.tx.xdr.value), rest, a, all, flow1, flow', x);
    }
  }

  lemma FlowsSameEverywhere(all: seq<Address>, f: Flow, g: Flow, x: Address)
    requires forall a, p :: f(a, p) == g(a, p)
    ensures NetFlow(all, f, x) == NetFlow(all, g, x)
  {
    SumSame(all, (p: Address) => f(x, p), (p: Address) => g(x, p));
    SumSame(all, (a: Address) => f(a, x), (a: Address) => g(a, x));
  }

  lemma FirstSettled(settled: seq<Entry>, p: Address)
    requires settled != []
    ensures NodeLaws.SettledFor(settled, p)
         == (if settled[0].tx.payer == p then settled[0].tx.amountIn else 0) + NodeLaws.SettledFor(settled[1..], p)
  {
    assert settled == [settled[0]] + settled[1..];
    NodeLaws.SettledForAppends([settled[0]], settled[1..], p);
    assert [settled[0]][..0] == [];
    assert NodeLaws.SettledFor([settled[0]], p) == if settled[0].tx.payer == p then settled[0].tx.amountIn else 0;
  }

  /** What a flush settles pays its node, and comes from payers that are nodes. */
  lemma FlushPays(net: Net, all: seq<Address>, s: NetStep, e: Entry)
    requires Inv(net, all) && Enabled(net, s) && s.step.Flush?
    requires e in NewlySettled(net.runs[s.node], NodeRuns.Next(net.runs[s.node], s.step))
    ensures Pays(e, s.node) && e.tx.payer in SetOf(all)
  {
    var run := net.runs[s.node];
    assert NodeInv(net, s.node);
    var f := NodeModel.Flush(run.node, run.cur, s.step.order, s.step.bumpAccepted, s.step.fates);
    assert NewlySettled(run, NodeRuns.Next(run, s.step)) == f.settled;
    FlushRemoves(run.node, run.cur, s.step.order, s.step.bumpAccepted, s.step.fates);
    var k :| 0 <= k < |run.issued| && SameBody(e.tx, run.issued[k].made.pending);
    assert NodeRuns.WellMade(run.node, run.issued[k]);
  }

  lemma StepKeepsNodeInv(net: Net, s: NetStep)
    requires Enabled(net, s) && NodeInv(net, s.node)
    ensures NodeInv(Next(net, s), s.node)
  {
    NodeRuns.StepKeepsInv(net.runs[s.node], s.step);
    NodeLaws.NextGrows(net.runs[s.node], s.step);
  }

  lemma StepKeepsInv(net: Net, all: seq<Address>, s: NetStep)
    requires Inv(net, all) && Enabled(net, s)
    ensures Inv(Next(net, s), all)
  {
    var net' := Next(net, s);
    assert NodeInv(net, s.node);
    StepKeepsNodeInv(net, s);
    forall a | a in net'.runs ensures NodeInv(net', a) {
      if a != s.node { OtherNodeInv(net, net', s.node, a); }
    }
  }

  lemma OtherNodeInv(net: Net, net': Net, b: Address, a: Address)
    requires a in net.runs && a != b && NodeInv(net, a)
    requires b in net'.runs && net'.runs == net.runs[b := net'.runs[b]]
    ensures NodeInv(net', a)
  {
  }

  /** A step changes what has settled only by what it newly settles, and every balance by
      exactly what that moves. */
  lemma StepMoves(net: Net, all: seq<Address>, s: NetStep, x: Address)
    requires Inv(net, all) && Enabled(net, s)
    ensures
      var net' := Next(net, s);
      BalanceIn(net'.balance, x) - BalanceIn(net.balance, x)
      == 10_000 * (NetFlow(all, Settled(net'), x) - NetFlow(all, Settled(net), x))
  {
    var run, net' := net.runs[s.node], Next(net, s);
    var latest := NewlySettled(run, net'.runs[s.node]);
    NodeLaws.NextGrows(run, s.step);
    assert net'.runs[s.node].settled == run.settled + latest;
    forall i | 0 <= i < |latest| ensures Pays(latest[i], s.node) && latest[i].tx.payer in SetOf(all) {
      assert latest[i] in latest;
      FlushPays(net, all, s, latest[i]);
    }
    forall b, p
        ensures Settled(net')(b, p) == Settled(net)(b, p) + if b == s.node then NodeLaws.SettledFor(latest, p) else 0 {
      NodeLaws.SettledForAppends(run.settled, latest, p);
    }
    SettlingMoves(net.balance, latest, s.node, all, Settled(net), Settled(net'), x);
  }

  lemma {:induction false} RunMoves(net: Net, all: seq<Address>, steps: seq<NetStep>, x: Address)
    requires Inv(net, all) && Allowed(net, steps)
    ensures
      var net' := After(net, steps);
      && Inv(net', all)
      && BalanceIn(net'.balance, x) - BalanceIn(net.balance, x)
         == 10_000 * (NetFlow(all, Settled(net'), x) - NetFlow(all, Settled(net), x))
    decreases |steps|
  {
    if steps != [] {
      StepKeepsInv(net, all, steps[0]);
      StepMoves(net, all, steps[0], x);
      RunMoves(Next(net, steps[0]), all, steps[1..], x);
    }
  }

  // ----- Accumulation at every node -----

  /** Every node's payments are accounted for, whatever the other nodes do in between. */
  lemma {:induction false} EachLoses(net: Net, all: seq<Address>, steps: seq<NetStep>, a: Address, p: Address)
    requires Inv(net, all) && Allowed(net, steps) && a in net.runs
    ensures a in After(net, steps).runs
    ensures NodeLaws.Missing(After(net, steps).runs[a], p)
         == NodeLaws.Missing(net.runs[a], p) + LostAt(net, steps, a, p)
    decreases |steps|
  {
    if steps != [] {
      assert NodeInv(net, a);
      StepKeepsInv(net, all, steps[0]);
      if steps[0].node == a { NodeLaws.StepLoses(net.runs[a], steps[0].step, p); }
      EachLoses(Next(net, steps[0]), all, steps[1..], a, p);
    }
  }

  lemma {:induction false} NothingLost(net: Net, all: seq<Address>, steps: seq<NetStep>, a: Address, p: Address)
    requires Inv(net, all) && Allowed(net, steps) && AllAccumulate(net, steps)
    ensures LostAt(net, steps, a, p) == 0
    decreases |steps|
  {
    if steps != [] {
      var s := steps[0];
      assert NodeInv(net, s.node);
      StepKeepsInv(net, all, s);
      NodeLaws.NoLossExactly(net.runs[s.node], s.step, p);
      NothingLost(Next(net, s), all, steps[1..], a, p);
    }
  }

  lemma AcceptedSomewhere(net: Net, all: seq<Address>, steps: seq<NetStep>, a: Address, p: Address)
    requires Inv(net, all) && Allowed(net, steps)
    requires a in net.runs ==> NodeLaws.AddsUp(net.runs[a], p)
    ensures
      var net' := After(net, steps);
      Accepted(net')(a, p) == Settled(net')(a, p) + Active(net')(a, p) + Lost(net, steps)(a, p)
  {
    SameNodes(net, steps);
    if a in net.runs { EachLoses(net, all, steps, a, p); } else { LostNowhere(net, steps, a, p); }
  }

  lemma AcceptedFlow(net: Net, all: seq<Address>, steps: seq<NetStep>, x: Address)
    requires Inv(net, all) && Allowed(net, steps)
    requires forall a, p | a in net.runs :: NodeLaws.AddsUp(net.runs[a], p)
    ensures
      var net' := After(net, steps);
      NetFlow(all, Accepted(net'), x)
      == NetFlow(all, Settled(net'), x) + NetFlow(all, Active(net'), x) + NetFlow(all, Lost(net, steps), x)
  {
    forall a, p { AcceptedSomewhere(net, all, steps, a, p); }
    ThreeFlowsAdd(all, Settled(After(net, steps)), Active(After(net, steps)), Lost(net, steps),
        Accepted(After(net, steps)), x);
  }

  lemma ThreeFlowsAdd(all: seq<Address>, f: Flow, g: Flow, h: Flow, sum: Flow, x: Address)
    requires forall a, p :: sum(a, p) == f(a, p) + g(a, p) + h(a, p)
    ensures NetFlow(all, sum, x) == NetFlow(all, f, x) + NetFlow(all, g, x) + NetFlow(all, h, x)
  {
    var both: Flow := (a, p) => f(a, p) + g(a, p);
    FlowsAdd(all, f, g, both, x);
    FlowsAdd(all, both, h, sum, x);
  }

  lemma {:induction false} LostNowhere(net: Net, steps: seq<NetStep>, a: Address, p: Address)
    requires Allowed(net, steps) && a !in net.runs
    ensures LostAt(net, steps, a, p) == 0
    decreases |steps|
  {
    if steps != [] { LostNowhere(Next(net, steps[0]), steps[1..], a, p); }
  }

  /** Every run from the start is accounted for, under any interleaving and however the ledger
      behaves: a balance together with what is still pending and what commits have lost has
      changed by exactly what has been committed. */
  lemma InterleavedAccounting(net: Net, all: seq<Address>, steps: seq<NetStep>, x: Address)
    requires Distinct(all) && SetOf(all) == net.runs.Keys && Started(net) && Allowed(net, steps)
    ensures
      var net' := After(net, steps);
      BalanceIn(net'.balance, x) + 10_000 * NetFlow(all, Active(net'), x) + 10_000 * NetFlow(all, Lost(net, steps), x)
      == BalanceIn(net.balance, x) + 10_000 * NetFlow(all, Accepted(net'), x)
  {
    StartedInv(net, all);
    RunMoves(net, all, steps, x);
    NoFlow(all, Settled(net), x);
    AcceptedFlow(net, all, steps, x);
  }

  /** Conservation: nothing is lost when every commit accumulates upon the amount then active. */
  lemma InterleavedConservation(net: Net, all: seq<Address>, steps: seq<NetStep>, x: Address)
    requires Distinct(all) && SetOf(all) == net.runs.Keys && Started(net)
    requires Allowed(net, steps) && AllAccumulate(net, steps)
    ensures
      var net' := After(net, steps);
      BalanceIn(net'.balance, x) + 10_000 * NetFlow(all, Active(net'), x)
      == BalanceIn(net.balance, x) + 10_000 * NetFlow(all, Accepted(net'), x)
  {
    StartedInv(net, all);
    InterleavedAccounting(net, all, steps, x);
    forall a, p ensures Lost(net, steps)(a, p) == 0 { NothingLost(net, all, steps, a, p); }
    NoFlow(all, Lost(net, steps), x);
  }

  lemma StartedInv(net: Net, all: seq<Address>)
    requires Distinct(all) && SetOf(all) == net.runs.Keys && Started(net)
    ensures Inv(net, all)
    ensures forall a, p | a in net.runs :: NodeLaws.AddsUp(net.runs[a], p)
    ensures forall a, p :: Settled(net)(a, p) == 0
  {
  }

  lemma {:induction false} SameNodes(net: Net, steps: seq<NetStep>)
    requires Allowed(net, steps)
    ensures After(net, steps).runs.Keys == net.runs.Keys
    decreases |steps|
  {
    if steps != [] { SameNodes(Next(net, steps[0]), steps[1..]); }
  }

  lemma NoFlow(all: seq<Address>, flow: Flow, x: Address)
    requires forall a, p :: flow(a, p) == 0
    ensures NetFlow(all, flow, x) == 0
  {
    SumZero(all);
    SumSame(all, (p: Address) => flow(x, p), (p: Address) => 0);
    SumSame(all, (a: Address) => flow(a, x), (a: Address) => 0);
  }

  // ----- Whole payments, interleaved -----

  /** A payment of which the hops from `lo` to the service have been committed. */
  datatype Carried = Carried(pr: PaymentRequest, route: seq<Hop>, lo: nat)

  predicate Proper(c: Carried) {
    0 < c.lo <= |c.route|
  }

  predicate AreProper(cs: seq<Carried>) {
    forall i | 0 <= i < |cs| :: Proper(cs[i])
  }

  predicate OverNodes(c: Carried, nodes: set<Address>) {
    && Proper(c) && DistinctNodes(c.route)
    && (forall i | 0 <= i < |c.route| :: c.route[i].address in nodes)
  }

  predicate AllOver(cs: seq<Carried>, nodes: set<Address>) {
    forall i | 0 <= i < |cs| :: OverNodes(cs[i], nodes)
  }

  /** What the hops from `lo` to `hi` of a payment carry to `a` from `p`. */
  function HopsCarry(pr: PaymentRequest, route: seq<Hop>, lo: nat, hi: nat, a: Address, p: Address): int
    requires 0 < lo && hi < |route|
    decreases hi
  {
    if hi < lo then 0
    else
      var own := Cell(a, p, route[hi].address, route[hi - 1].address, HopIn(pr, route, hi));
      own + HopsCarry(pr, route, lo, hi - 1, a, p)
  }

  function Carry(c: Carried): Flow
    requires Proper(c)
  {
    (a, p) => HopsCarry(c.pr, c.route, c.lo, |c.route| - 1, a, p)
  }

  function CarryAll(cs: seq<Carried>): Flow
    requires AreProper(cs)
  {
    if cs == [] then (a, p) => 0
    else
      var first, rest := Carry(cs[0]), CarryAll(cs[1..]);
      (a, p) => first(a, p) + rest(a, p)
  }

  lemma {:induction false} HopsFlow(pr: PaymentRequest, route: seq<Hop>, lo: nat, hi: nat, all: seq<Address>,
      x: Address)
    requires 0 < lo && hi < |route| && Distinct(all)
    requires forall i | 0 <= i < |route| :: route[i].address in SetOf(all)
    ensures 10_000 * NetFlow(all, (a, p) => HopsCarry(pr, route, lo, hi, a, p), x) == Gain(pr, route, lo, hi, x)
    decreases hi
  {
    var flow: Flow := (a, p) => HopsCarry(pr, route, lo, hi, a, p);
    if hi < lo {
      NoFlow(all, flow, x);
    } else {
      var rest: Flow := (a, p) => HopsCarry(pr, route, lo, hi - 1, a, p);
      HopsFlow(pr, route, lo, hi - 1, all, x);
      OneCell(all, rest, flow, route[hi].address, route[hi - 1].address, HopIn(pr, route, hi), x);
    }
  }

  /** What payments bring address `x`. */
  function SharesIn(cs: seq<Carried>, x: Address): int
    requires AreProper(cs)
  {
    if cs == [] then 0
    else
      assert Proper(cs[0]);
      EndToEnd.ShareAt(cs[0].pr, cs[0].route, cs[0].lo, x) + SharesIn(cs[1..], x)
  }

  lemma CarriedFlow(c: Carried, all: seq<Address>, x: Address)
    requires Distinct(all) && OverNodes(c, SetOf(all))
    ensures 10_000 * NetFlow(all, Carry(c), x) == EndToEnd.ShareAt(c.pr, c.route, c.lo, x)
  {
    HopsFlow(c.pr, c.route, c.lo, |c.route| - 1, all, x);
    FlowsSameEverywhere(all, Carry(c), (a, p) => HopsCarry(c.pr, c.route, c.lo, |c.route| - 1, a, p), x);
    EndToEnd.GainIsShare(c.pr, c.route, c.lo, x);
  }

  lemma {:induction false} AllCarriedFlow(cs: seq<Carried>, all: seq<Address>, x: Address)
    requires Distinct(all) && AreProper(cs) && AllOver(cs, SetOf(all))
    ensures 10_000 * NetFlow(all, CarryAll(cs), x) == SharesIn(cs, x)
  {
    if cs == [] {
      NoFlow(all, CarryAll(cs), x);
    } else {
      CarriedFlow(cs[0], all, x);
      AllCarriedFlow(cs[1..], all, x);
      FlowsAdd(all, Carry(cs[0]), CarryAll(cs[1..]), CarryAll(cs), x);
    }
  }

  // ----- Which hops of which payments the commits are -----

  ghost predicate Accepts(net: Net, s: NetStep)
    requires Enabled(net, s)
  {
    NodeLaws.CommitsFor(net.runs[s.node], s.step, PayerOf(net, s))
  }

  /** The payer a commit is for. */
  function PayerOf(net: Net, s: NetStep): Address {
    if s.node in net.runs && s.step.Commit? && s.step.k < |net.runs[s.node].issued|
    then net.runs[s.node].issued[s.step.k].request.payer
    else s.node
  }

  /** The commit is of the next hop of payment `c`, counted from the service: at the hop's payee,
      for its payer and its amount. */
  ghost predicate NextHop(net: Net, s: NetStep, c: Carried)
    requires Enabled(net, s) && Accepts(net, s)
  {
    && 1 < c.lo <= |c.route|
    && s.node == c.route[c.lo - 1].address
    && (var request := net.runs[s.node].issued[s.step.k].request;
        request.payer == c.route[c.lo - 2].address && request.totalIn == HopIn(c.pr, c.route, c.lo - 1))
  }

  function OneMore(cs: seq<Carried>, j: nat): seq<Carried>
    requires j < |cs| && cs[j].lo > 0
  {
    cs[j := cs[j].(lo := cs[j].lo - 1)]
  }

  /** Every commit that is accepted is the next hop of the payment that `picks` names for it. */
  ghost predicate Serves(net: Net, steps: seq<NetStep>, picks: seq<nat>, cs: seq<Carried>)
    requires Allowed(net, steps)
    decreases |steps|
  {
    |picks| == |steps| &&
    (steps == [] ||
     if Accepts(net, steps[0])
     then
       && picks[0] < |cs| && NextHop(net, steps[0], cs[picks[0]])
       && Serves(Next(net, steps[0]), steps[1..], picks[1..], OneMore(cs, picks[0]))
     else Serves(Next(net, steps[0]), steps[1..], picks[1..], cs))
  }

  /** How far the payments have been carried then. */
  ghost function CarriedBy(net: Net, steps: seq<NetStep>, picks: seq<nat>, cs: seq<Carried>): (carried: seq<Carried>)
    requires Allowed(net, steps) && Serves(net, steps, picks, cs)
    ensures AreProper(cs) ==> AreProper(carried)
    decreases |steps|
  {
    if steps == [] then cs
    else
      CarriedBy(Next(net, steps[0]), steps[1..], picks[1..],
                if Accepts(net, steps[0]) then OneMore(cs, picks[0]) else cs)
  }

  lemma {:induction false} OneMoreHop(pr: PaymentRequest, route: seq<Hop>, lo: nat, hi: nat, a: Address, p: Address)
    requires 1 < lo && lo - 1 <= hi < |route|
    ensures HopsCarry(pr, route, lo - 1, hi, a, p)
         == HopsCarry(pr, route, lo, hi, a, p)
            + Cell(a, p, route[lo - 1].address, route[lo - 2].address, HopIn(pr, route, lo - 1))
    decreases hi
  {
    if lo <= hi { OneMoreHop(pr, route, lo, hi - 1, a, p); }
  }

  lemma {:induction false} OneMoreCarried(cs: seq<Carried>, nodes: set<Address>, j: nat, a: Address, p: Address)
    requires AreProper(cs) && AllOver(cs, nodes) && j < |cs| && cs[j].lo > 1
    ensures AreProper(OneMore(cs, j)) && AllOver(OneMore(cs, j), nodes)
    ensures
      var c := cs[j];
      CarryAll(OneMore(cs, j))(a, p)
      == CarryAll(cs)(a, p)
         + Cell(a, p, c.route[c.lo - 1].address, c.route[c.lo - 2].address, HopIn(c.pr, c.route, c.lo - 1))
  {
    var c := cs[j];
    if j == 0 {
      OneMoreHop(c.pr, c.route, c.lo, |c.route| - 1, a, p);
      assert OneMore(cs, 0)[1..] == cs[1..];
    } else {
      OneMoreCarried(cs[1..], nodes, j - 1, a, p);
      assert OneMore(cs, j)[1..] == OneMore(cs[1..], j - 1);
    }
  }

  /** What a step adds to what has been committed. */
  lemma StepAccepts(net: Net, s: NetStep, a: Address, p: Address)
    requires Enabled(net, s)
    ensures Accepted(Next(net, s))(a, p)
         == Accepted(net)(a, p)
            + if Accepts(net, s)
              then Cell(a, p, s.node, PayerOf(net, s), net.runs[s.node].issued[s.step.k].request.totalIn)
              else 0
  {
    var run, after := net.runs[s.node], Next(net, s).runs[s.node];
    if after.accepted != run.accepted { assert after.accepted[..|after.accepted| - 1] == run.accepted; }
  }

  /** So what the nodes have committed is the hops that have been carried. */
  lemma {:induction false} AcceptedIsCarried(
    net: Net, steps: seq<NetStep>, picks: seq<nat>, cs: seq<Carried>, nodes: set<Address>)
    requires Allowed(net, steps) && AreProper(cs) && AllOver(cs, nodes) && Serves(net, steps, picks, cs)
    requires forall a, p :: Accepted(net)(a, p) == CarryAll(cs)(a, p)
    ensures AllOver(CarriedBy(net, steps, picks, cs), nodes)
    ensures forall a, p :: Accepted(After(net, steps))(a, p) == CarryAll(CarriedBy(net, steps, picks, cs))(a, p)
    decreases |steps|
  {
    if steps != [] {
      var net1, cs1 := Next(net, steps[0]), if Accepts(net, steps[0]) then OneMore(cs, picks[0]) else cs;
      forall a, p ensures AreProper(cs1) && AllOver(cs1, nodes) && Accepted(net1)(a, p) == CarryAll(cs1)(a, p) {
        StepAccepts(net, steps[0], a, p);
        if Accepts(net, steps[0]) { OneMoreCarried(cs, nodes, picks[0], a, p); }
      }
      AcceptedIsCarried(net1, steps[1..], picks[1..], cs1, nodes);
    }
  }

  /** Payments over distinct nodes, of which nothing has been committed. */
  predicate Requested(cs: seq<Carried>, nodes: set<Address>) {
    AreProper(cs) && AllOver(cs, nodes) && forall i | 0 <= i < |cs| :: cs[i].lo == |cs[i].route|
  }

  lemma {:induction false} RequestedCarriesNothing(cs: seq<Carried>, nodes: set<Address>, a: Address, p: Address)
    requires Requested(cs, nodes)
    ensures CarryAll(cs)(a, p) == 0
  {
    if cs != [] { RequestedCarriesNothing(cs[1..], nodes, a, p); }
  }

  /** Any number of payments, interleaved in any way at any nodes, each carried through or
      stopped at any hop: a balance together with what is pending and what commits have lost
      has changed by exactly the shares in the hops committed. */
  lemma PaymentsAccounting(net: Net, all: seq<Address>, steps: seq<NetStep>, picks: seq<nat>, cs: seq<Carried>,
      x: Address)
    requires Distinct(all) && SetOf(all) == net.runs.Keys && Started(net) && Allowed(net, steps)
    requires Requested(cs, SetOf(all)) && Serves(net, steps, picks, cs)
    ensures
      var net' := After(net, steps);
      BalanceIn(net'.balance, x) + 10_000 * NetFlow(all, Active(net'), x) + 10_000 * NetFlow(all, Lost(net, steps), x)
      == BalanceIn(net.balance, x) + SharesIn(CarriedBy(net, steps, picks, cs), x)
  {
    forall a, p ensures Accepted(net)(a, p) == CarryAll(cs)(a, p) {
      RequestedCarriesNothing(cs, SetOf(all), a, p);
    }
    AcceptedIsCarried(net, steps, picks, cs, SetOf(all));
    InterleavedAccounting(net, all, steps, x);
    var carried := CarriedBy(net, steps, picks, cs);
    FlowsSameEverywhere(all, Accepted(After(net, steps)), CarryAll(carried), x);
    AllCarriedFlow(carried, all, x);
  }

  /** When every commit accumulates upon the amount then active and nothing is left pending,
      every balance has changed by exactly its shares in the hops committed. */
  lemma InterleavedPayments(net: Net, all: seq<Address>, steps: seq<NetStep>, picks: seq<nat>, cs: seq<Carried>,
      x: Address)
    requires Distinct(all) && SetOf(all) == net.runs.Keys && Started(net) && Allowed(net, steps)
    requires Requested(cs, SetOf(all)) && Serves(net, steps, picks, cs)
    requires AllAccumulate(net, steps)
    requires forall a | a in After(net, steps).runs :: After(net, steps).runs[a].node.active == map[]
    ensures BalanceIn(After(net, steps).balance, x)
         == BalanceIn(net.balance, x) + SharesIn(CarriedBy(net, steps, picks, cs), x)
  {
    StartedInv(net, all);
    PaymentsAccounting(net, all, steps, picks, cs, x);
    forall a, p ensures Lost(net, steps)(a, p) == 0 { NothingLost(net, all, steps, a, p); }
    NoFlow(all, Lost(net, steps), x);
    NoFlow(all, Active(After(net, steps)), x);
  }
}
