/** The first half of a payment: every hop is created, signed by its payee and its payer, and
    checked; when that succeeds, and that nothing but numbers has been handed out. */
module Creation {
  import opened Types
  import opened LedgerModel
  import opened NodeModel
  import opened PaymentModel
  import opened Positions
  import Signing
  import Amounts

  // ----- Amounts along a route -----

  /** The fees of hop `i` and of those beyond it. */
  function FeesFrom(route: seq<Hop>, i: nat): nat
    requires i <= |route|
    decreases |route| - i
  {
    if i == |route| then 0 else route[i].fee + FeesFrom(route, i + 1)
  }

  /** What hop `i` is paid: the amount, its fee, and the fees of the hops beyond it. */
  function HopIn(pr: PaymentRequest, route: seq<Hop>, i: nat): nat
    requires i <= |route|
  {
    pr.amount + FeesFrom(route, i)
  }

  /** The amount active at node `y` for payer `p`. */
  function ActiveUnits(w: World, y: Address, p: Address): nat {
    if y in w.nodes then ActiveAmount(w.nodes[y], p) else 0
  }

  // ----- What a payment needs -----

  predicate DistinctNodes(route: seq<Hop>) {
    |route| >= 2 && forall i, j | 0 <= i < j < |route| :: route[i].address != route[j].address
  }

  /** No accumulated amount exceeds 32 bits. */
  predicate AmountsFit(w: World, pr: PaymentRequest, route: seq<Hop>) {
    forall i | 0 < i < |route| ::
      ActiveUnits(w, route[i].address, route[i - 1].address) + HopIn(pr, route, i) < U32
  }

  predicate Fits(w: World, pr: PaymentRequest, route: seq<Hop>) {
    DistinctNodes(route) && AmountsFit(w, pr, route)
  }

  /** All nodes of the route answer. */
  predicate Reachable(w: World, route: seq<Hop>) {
    forall i | 0 <= i < |route| :: route[i].address in w.nodes
  }

  /** What is due on the client's own hop. */
  function Due(w: World, pr: PaymentRequest, route: seq<Hop>): nat
    requires |route| >= 2
  {
    ActiveUnits(w, route[1].address, route[0].address) + HopIn(pr, route, 1)
  }

  /** What the client asks before it commits anything: a route of nodes that answer, from it
      to the service, a reported balance that covers the amount, and an amount due that it
      can read back. */
  predicate Startable(w: World, client: Address, balance: Amount, pr: PaymentRequest, route: seq<Hop>)
    requires Fits(w, pr, route)
  {
    && Reachable(w, route)
    && route[0].address == client && route[|route| - 1].address == pr.address
    && pr.amount <= balance
    && Readable(w, pr, route)
  }

  predicate Readable(w: World, pr: PaymentRequest, route: seq<Hop>)
    requires Fits(w, pr, route)
  {
    assert ActiveUnits(w, route[1].address, route[0].address) + HopIn(pr, route, 1) < U32;
    Due(w, pr, route) <= Amounts.EXACT_BOUND || Amounts.NearMantissa(Due(w, pr, route))
  }

  // ----- One created hop -----

  /** `r` is what node `n` made to be paid `totalIn` by `p`, up to signatures: it replaces
      the active entry, adds the amounts to it, and carries a number of its own, which is the
      active one or a fresh one. */
  ghost predicate MadeBy(n: NodeState, cur: int, p: Address, totalIn: nat, totalOut: nat, r: Replacing) {
    var t := r.pending;
    && r.reference == ActiveTransaction(n, p)
    && t.payer == p && t.payee == t.source == n.address
    && t.amountIn == ActiveAmount(n, p) + totalIn
    && t.amountOut == totalOut + (if r.reference.Some? then r.reference.value.amountOut else 0)
    && t.xdr.Some?
    && (var e := t.xdr.value;
        && e.source == e.payee == n.address && e.payer == p
        && e.stroops == Amounts.Stroops(t.amountIn)
        && e.sequence <= n.last && (p !in n.active ==> cur < e.sequence)
        && NumberIsFree(n, p, e.sequence))
  }

  /** The number is the payer's active one, or no active one at all. */
  ghost predicate NumberIsFree(n: NodeState, p: Address, number: int) {
    && (p in n.active ==> n.active[p].sequence == number)
    && (forall q | q in n.active && q != p :: n.active[q].sequence != number)
  }

  /** `r` is hop `i` of the route as its payee made it. */
  ghost predicate MadeFor(w: World, pr: PaymentRequest, route: seq<Hop>, i: nat, r: Replacing)
    requires 0 < i < |route|
  {
    var y := route[i].address;
    && y in w.nodes && w.nodes[y].address == y && r.pending.session == pr.session
    && MadeBy(w.nodes[y], SequenceOf(w.ledger, y), route[i - 1].address, HopIn(pr, route, i), HopIn(pr, route, i
        + 1), r)
  }

  predicate Unsigned(r: Replacing) {
    r.pending.xdr.Some? && r.pending.xdr.value.signatures == []
  }

  /** Creation only advances the last number handed out. */
  predicate OnlyNumbered(w: World, w': World) {
    && w'.ledger == w.ledger && w'.nodes.Keys == w.nodes.Keys
    && forall a | a in w.nodes :: Numbered(w.nodes[a], w'.nodes[a])
  }

  predicate Numbered(n: NodeState, n': NodeState) {
    && n.last <= n'.last
    && n'.address == n.address && n'.active == n.active && n'.sessions == n.sessions && n'.pending == n.pending
  }

  lemma MadeForSurvives(w: World, w': World, pr: PaymentRequest, route: seq<Hop>, i: nat, r: Replacing)
    requires 0 < i < |route| && MadeFor(w, pr, route, i, r)
    requires w'.ledger.sequence == w.ledger.sequence
    requires route[i].address in w'.nodes
    requires
      var n, n' := w.nodes[route[i].address], w'.nodes[route[i].address];
      n'.active == n.active && n'.last >= n.last && n'.address == n.address
    ensures MadeFor(w', pr, route, i, r)
  {
  }

  lemma NumberedStaysSound(w: World, w': World, all: seq<Address>)
    requires Sound(w, all) && OnlyNumbered(w, w')
    requires forall a | a in w.nodes :: w'.nodes[a].last != 0 ==> w.ledger.sequence[a] <= w'.nodes[a].last
    ensures Sound(w', all)
  {
    forall a, p | a in w'.nodes && p in w'.nodes[a].active
      ensures HeldFor(w'.nodes[a], p, w'.nodes[a].active[p])
    {
      assert HeldFor(w.nodes[a], p, w.nodes[a].active[p]);
    }
  }

  /** A healthy node answers a request whose accumulated amount fits. */
  lemma CreateSucceeds(n: NodeState, cur: int, request: CreateRequest)
    requires Healthy(n, cur) && request.payer != n.address
    requires ActiveAmount(n, request.payer) + request.totalIn < U32 && request.totalOut <= request.totalIn
    ensures
      var (n', made) := NodeModel.Create(n, cur, true, request);
      && n' == n.(last := n'.last) && n.last <= n'.last && cur <= n'.last
      && made.Ok? && Unsigned(made.value) && made.value.pending.session == request.session
      && MadeBy(n', cur, request.payer, request.totalIn, request.totalOut, made.value)
  {
    var p := request.payer;
    forall q | q in n.active ensures HeldFor(n, q, n.active[q]) {}
  }

  /** Whatever it is asked for, a healthy node stays so, and only hands out a number. */
  lemma CreateNumbers(n: NodeState, cur: int, known: bool, request: CreateRequest)
    requires Healthy(n, cur)
    ensures
      var n' := NodeModel.Create(n, cur, known, request).0;
      n' == n.(last := n'.last) && n.last <= n'.last && (n'.last != 0 ==> cur <= n'.last)
  {
  }

  lemma CreateAtNumbers(w: World, all: seq<Address>, a: Address, request: CreateRequest)
    requires Sound(w, all)
    ensures
      var w' := CreateAt(w, a, request).0;
      OnlyNumbered(w, w') && Sound(w', all)
  {
    if a in w.nodes {
      CreateNumbers(w.nodes[a], w.ledger.sequence[a], request.payer in w.ledger.sequence, request);
      NumberedStaysSound(w, CreateAt(w, a, request).0, all);
    }
  }

  /** Creating hop `i` succeeds. */
  lemma CreateHop(w: World, all: seq<Address>, pr: PaymentRequest, route: seq<Hop>, i: nat, fee: Amount)
    requires Sound(w, all) && DistinctNodes(route) && Reachable(w, route) && 0 < i < |route|
    requires fee == FeesFrom(route, i + 1)
    requires ActiveUnits(w, route[i].address, route[i - 1].address) + HopIn(pr, route, i) < U32
    ensures
      var (w', made) := CreateAt(w, route[i].address, HopRequest(pr, route, i, fee));
      && made.Ok? && MadeFor(w', pr, route, i, made.value) && Unsigned(made.value)
      && OnlyNumbered(w, w') && Sound(w', all)
  {
    var y, p := route[i].address, route[i - 1].address;
    var request := HopRequest(pr, route, i, fee);
    assert request.totalIn == HopIn(pr, route, i) && request.totalOut == HopIn(pr, route, i + 1);
    CreateSucceeds(w.nodes[y], w.ledger.sequence[y], request);
    CreateAtNumbers(w, all, y, request);
  }

  // ----- The creation loop -----

  /** From the `j`-th on, `made` holds hops `|route| - 1 - j` and below. */
  ghost predicate MadeFromOn(w: World, pr: PaymentRequest, route: seq<Hop>, made: seq<Replacing>, j: nat)
    requires |made| < |route|
    decreases |made| - j
  {
    j < |made| ==> MadeFor(w, pr, route, |route| - 1 - j, made[j]) && MadeFromOn(w, pr, route, made, j + 1)
  }

  lemma {:induction false} MadeAt(w: World, pr: PaymentRequest, route: seq<Hop>, made: seq<Replacing>, j: nat, i: nat)
    requires |made| < |route| && MadeFromOn(w, pr, route, made, j) && j <= i < |made|
    ensures MadeFor(w, pr, route, |route| - 1 - i, made[i])
    decreases i - j
  {
    if j < i { MadeAt(w, pr, route, made, j + 1, i); }
  }

  lemma {:induction false} MadeByAll(w: World, pr: PaymentRequest, route: seq<Hop>, made: seq<Replacing>, j: nat)
    requires |made| < |route| && forall i | j <= i < |made| :: MadeFor(w, pr, route, |route| - 1 - i, made[i])
    ensures MadeFromOn(w, pr, route, made, j)
    decreases |made| - j
  {
    if j < |made| { MadeByAll(w, pr, route, made, j + 1); }
  }

  /** `made` holds the hops from the last one down to `i + 1`. */
  ghost predicate MadeDownTo(w: World, pr: PaymentRequest, route: seq<Hop>, i: nat, made: seq<Replacing>) {
    i < |route| && |made| == |route| - 1 - i && MadeFromOn(w, pr, route, made, 0)
  }

  predicate AllUnsigned(made: seq<Replacing>) {
    forall j | 0 <= j < |made| :: Unsigned(made[j])
  }

  lemma MadeDownToExtends(w: World, pr: PaymentRequest, route: seq<Hop>, i: nat, made: seq<Replacing>, r: Replacing)
    requires MadeDownTo(w, pr, route, i, made) && i > 0 && MadeFor(w, pr, route, i, r)
    ensures MadeDownTo(w, pr, route, i - 1, made + [r])
  {
    forall j | 0 <= j < |made + [r]| ensures MadeFor(w, pr, route, |route| - 1 - j, (made + [r])[j]) {
      if j < |made| { MadeAt(w, pr, route, made, 0, j); }
    }
    MadeByAll(w, pr, route, made + [r], 0);
  }

  lemma NumberedKeepsMade(w: World, w': World, pr: PaymentRequest, route: seq<Hop>, i: nat, made: seq<Replacing>)
    requires MadeDownTo(w, pr, route, i, made) && OnlyNumbered(w, w')
    ensures MadeDownTo(w', pr, route, i, made)
  {
    forall j | 0 <= j < |made| ensures MadeFor(w', pr, route, |route| - 1 - j, made[j]) {
      MadeAt(w, pr, route, made, 0, j);
      MadeForSurvives(w, w', pr, route, |route| - 1 - j, made[j]);
    }
    MadeByAll(w', pr, route, made, 0);
  }

  lemma NumberedKeepsFit(w: World, w': World, pr: PaymentRequest, route: seq<Hop>)
    requires OnlyNumbered(w, w')
    ensures Fits(w, pr, route) <==> Fits(w', pr, route)
    ensures Reachable(w, route) <==> Reachable(w', route)
  {
    forall i | 0 < i < |route|
      ensures ActiveUnits(w', route[i].address, route[i - 1].address)
          == ActiveUnits(w, route[i].address, route[i - 1].address)
    {
    }
  }

  lemma NumberedTwice(w: World, w1: World, w2: World)
    requires OnlyNumbered(w, w1) && OnlyNumbered(w1, w2)
    ensures OnlyNumbered(w, w2)
  {
    forall a | a in w.nodes ensures Numbered(w.nodes[a], w2.nodes[a]) {
      assert Numbered(w.nodes[a], w1.nodes[a]) && Numbered(w1.nodes[a], w2.nodes[a]);
    }
  }

  lemma NextFee(w: World, pr: PaymentRequest, route: seq<Hop>, i: nat, fee: Amount)
    requires 0 < i < |route| && AmountsFit(w, pr, route) && fee == FeesFrom(route, i + 1)
    ensures Add(fee, route[i].fee) == FeesFrom(route, i)
  {
    assert ActiveUnits(w, route[i].address, route[i - 1].address) + HopIn(pr, route, i) < U32;
  }

  lemma NextMade(w: World, w1: World, pr: PaymentRequest, route: seq<Hop>, i: nat, made: seq<Replacing>, r: Replacing)
    requires MadeDownTo(w, pr, route, i, made) && AllUnsigned(made) && OnlyNumbered(w, w1)
    requires 0 < i < |route| && MadeFor(w1, pr, route, i, r) && Unsigned(r)
    ensures MadeDownTo(w1, pr, route, i - 1, made + [r]) && AllUnsigned(made + [r])
  {
    NumberedKeepsMade(w, w1, pr, route, i, made);
    MadeDownToExtends(w1, pr, route, i, made, r);
  }

  /** What the loop has before hop `i`, and ends with. */
  ghost predicate CreatedDownTo(w: World, all: seq<Address>, pr: PaymentRequest, route: seq<Hop>, i: nat, fee: nat,
      made: seq<Replacing>)
  {
    && Sound(w, all) && i < |route| && fee == FeesFrom(route, i + 1)
    && MadeDownTo(w, pr, route, i, made) && AllUnsigned(made)
  }

  /** The loop before hop `i` of a payment that can be created. */
  ghost predicate Creating(w: World, all: seq<Address>, pr: PaymentRequest, route: seq<Hop>, i: nat, fee: nat,
      made: seq<Replacing>)
  {
    Fits(w, pr, route) && Reachable(w, route) && CreatedDownTo(w, all, pr, route, i, fee, made)
  }

  lemma OneMoreCreated(w: World, all: seq<Address>, pr: PaymentRequest, route: seq<Hop>, i: nat, fee: Amount,
      made: seq<Replacing>)
    returns (w1: World, r: Replacing)
    requires Creating(w, all, pr, route, i, fee, made) && 0 < i < |route|
    ensures Creating(w1, all, pr, route, i - 1, Add(fee, route[i].fee), made + [r]) && OnlyNumbered(w, w1)
    ensures CreateLoop(w, pr, route, i, fee, made)
         == CreateLoop(w1, pr, route, i - 1, Add(fee, route[i].fee), made + [r])
  {
    CreateHop(w, all, pr, route, i, fee);
    w1 := CreateAt(w, route[i].address, HopRequest(pr, route, i, fee)).0;
    r := CreateAt(w, route[i].address, HopRequest(pr, route, i, fee)).1.value;
    NextFee(w, pr, route, i, fee);
    NextMade(w, w1, pr, route, i, made, r);
    NumberedKeepsFit(w, w1, pr, route);
  }

  lemma {:induction false} CreatesEveryHop(
    w: World, all: seq<Address>, pr: PaymentRequest, route: seq<Hop>, i: nat, fee: Amount, made: seq<Replacing>)
    returns (w': World, created: Created)
    requires i < |route| && Creating(w, all, pr, route, i, fee, made)
    ensures CreateLoop(w, pr, route, i, fee, made) == (w', Ok(created)) && OnlyNumbered(w, w')
    ensures CreatedDownTo(w', all, pr, route, 0, created.totalFee, created.made)
    decreases i
  {
    w', created := w, Created(made, fee);
    if i > 0 {
      var w1, r := OneMoreCreated(w, all, pr, route, i, fee, made);
      w', created := CreatesEveryHop(w1, all, pr, route, i - 1, Add(fee, route[i].fee), made + [r]);
      NumberedTwice(w, w1, w');
    }
  }

  // ----- What is created can be signed and validates -----

  lemma CreatedIsLinked(w: World, pr: PaymentRequest, route: seq<Hop>, made: seq<Replacing>)
    requires MadeDownTo(w, pr, route, 0, made) && AllUnsigned(made)
    ensures Signing.Linked(Addresses(route) * w.nodes.Keys, made)
  {
    forall j | 0 <= j < |made| ensures made[j].pending.payee in Addresses(route) * w.nodes.Keys {
      MadeAt(w, pr, route, made, 0, j);
      assert route[|route| - 1 - j] in route;
    }
    forall j | 0 < j < |made| ensures made[j].pending.payee == made[j - 1].pending.payer {
      MadeAt(w, pr, route, made, 0, j);
      MadeAt(w, pr, route, made, 0, j - 1);
    }
  }

  /** The client's own check of the hop it pays: it passes exactly when the accumulated
      amount is one that survives being printed and read back. */
  lemma ClientCheckExactly(w: World, client: Address, pr: PaymentRequest, route: seq<Hop>, own: Replacing)
    requires Fits(w, pr, route) && route[0].address == client && MadeFor(w, pr, route, 1, own)
    ensures own.pending.xdr.value.stroops
         == Amounts.Stroops(ActiveUnits(w, route[1].address, client) + pr.amount + FeesFrom(route, 1))
    ensures Signing.ClientAccepts(client, pr, route, FeesFrom(route, 1), own) <==> Readable(w, pr, route)
  {
    var due := own.pending.amountIn;
    assert due == Due(w, pr, route) && own.reference == ActiveTransaction(w.nodes[route[1].address], client);
    assert own.pending.xdr.value.stroops == Amounts.Stroops(due);
    assert Signing.ClientAccepts(client, pr, route, FeesFrom(route, 1), own) <==> Readable(w, pr, route) by {
      ExpectedIsDue(due, pr, route, own);
      Amounts.RoundTripExactly(due);
    }
  }

  /** What the client expects, on top of what is replaced, is what is due. */
  lemma ExpectedIsDue(due: Amount, pr: PaymentRequest, route: seq<Hop>, own: Replacing)
    requires |route| >= 2
    requires due == HopIn(pr, route, 1) + if own.reference.Some? then own.reference.value.amountIn else 0
    ensures
      var total := Add(pr.amount, FeesFrom(route, 1));
      (if own.reference.Some? then Add(total, own.reference.value.amountIn) else total) == due
  {
  }

  /** Adjacent hops telescope: what a node is asked to pass on is what the next one asks. */
  lemma HopsTelescope(pr: PaymentRequest, route: seq<Hop>, i: nat)
    requires 0 < i < |route| - 1 && HopIn(pr, route, i) < U32
    ensures HopRequest(pr, route, i, FeesFrom(route, i + 1)).totalOut
         == HopRequest(pr, route, i + 1, FeesFrom(route, i + 2)).totalIn == HopIn(pr, route, i + 1)
  {
    assert FeesFrom(route, i) == route[i].fee + (route[i + 1].fee + FeesFrom(route, i + 2));
  }

  lemma {:induction false} MadeValidates(w: World, all: seq<Address>, pr: PaymentRequest, route: seq<Hop>, i: nat,
      r: Replacing)
    requires Sound(w, all) && DistinctNodes(route) && 0 < i < |route| && MadeFor(w, pr, route, i, r)
    ensures Validate(Signing.ByBoth(r)) == Ok(())
    ensures !PaysItself(Signing.ByBoth(r))
  {
    var y, p := route[i].address, route[i - 1].address;
    if p in w.nodes[y].active { assert HeldFor(w.nodes[y], p, w.nodes[y].active[p]); }
  }

  lemma {:induction false} AllValid(ts: seq<Replacing>, j: nat)
    ensures VerifyLoop(ts, j) == Ok(()) <==> forall i | j <= i < |ts| :: Validate(ts[i]) == Ok(())
    decreases |ts| - j
  {
    if j < |ts| { AllValid(ts, j + 1); }
  }

  /** Signing what has been created succeeds, unless the client cannot read the amount. */
  lemma CreatedIsSigned(w: World, client: Address, pr: PaymentRequest, route: seq<Hop>, created: Created)
    requires Fits(w, pr, route) && route[0].address == client
    requires MadeDownTo(w, pr, route, 0, created.made) && AllUnsigned(created.made)
    requires created.totalFee == FeesFrom(route, 1)
    ensures
      var signed := SignAll(w.nodes.Keys, client, pr, route, created);
      if Readable(w, pr, route) then signed == Ok(Signing.ByBothAll(created.made)) else signed.Err?
  {
    var k := |route| - 1;
    CreatedIsLinked(w, pr, route, created.made);
    MadeAt(w, pr, route, created.made, 0, k - 1);
    MadeAt(w, pr, route, created.made, 0, 0);
    ClientCheckExactly(w, client, pr, route, created.made[k - 1]);
    Signing.SigningIsComplete(w.nodes.Keys, client, pr, route, created);
  }

  /** What has been created and signed passes validation. */
  lemma SignedIsValid(w: World, all: seq<Address>, pr: PaymentRequest, route: seq<Hop>, made: seq<Replacing>)
    requires Sound(w, all) && DistinctNodes(route) && MadeDownTo(w, pr, route, 0, made)
    ensures VerifyLoop(Signing.ByBothAll(made), 0) == Ok(())
    ensures forall r | r in Signing.ByBothAll(made) :: !PaysItself(r)
  {
    var ts := Signing.ByBothAll(made);
    forall j | 0 <= j < |ts| ensures Validate(ts[j]) == Ok(()) && !PaysItself(ts[j]) {
      MadeAt(w, pr, route, made, 0, j);
      MadeValidates(w, all, pr, route, |route| - 1 - j, made[j]);
    }
    AllValid(ts, 0);
  }

  // ----- Initiating -----

  /** Every creation keeps `inv`. */
  ghost predicate KeptByCreation(inv: World -> bool) {
    forall v: World, a, request | inv(v) :: inv(CreateAt(v, a, request).0)
  }

  /** Whatever every creation keeps, the loop keeps. */
  lemma {:induction false} CreationKeeps(
    inv: World -> bool, w: World, pr: PaymentRequest, route: seq<Hop>, i: nat, fee: Amount, made: seq<Replacing>)
    requires i < |route| && inv(w) && KeptByCreation(inv)
    ensures inv(CreateLoop(w, pr, route, i, fee, made).0)
    decreases i
  {
    if i > 0 {
      var (w1, tr) := CreateAt(w, route[i].address, HopRequest(pr, route, i, fee));
      if tr.Ok? && !PaysItself(tr.value) {
        CreationKeeps(inv, w1, pr, route, i - 1, Add(fee, route[i].fee), made + [tr.value]);
      }
    }
  }

  /** `w` is sound and differs from `w0` only in the numbers handed out. */
  ghost function SoundlyNumbered(w0: World, all: seq<Address>): World -> bool {
    (w: World) => OnlyNumbered(w0, w) && Sound(w, all)
  }

  lemma CreateAtKeepsNumbered(w0: World, all: seq<Address>, w: World, a: Address, request: CreateRequest)
    requires SoundlyNumbered(w0, all)(w)
    ensures SoundlyNumbered(w0, all)(CreateAt(w, a, request).0)
  {
    CreateAtNumbers(w, all, a, request);
    NumberedTwice(w0, w, CreateAt(w, a, request).0);
  }

  lemma NumberedIsKept(w: World, all: seq<Address>)
    ensures KeptByCreation(SoundlyNumbered(w, all))
  {
    forall v: World, a, request | SoundlyNumbered(w, all)(v)
      ensures SoundlyNumbered(w, all)(CreateAt(v, a, request).0)
    {
      CreateAtKeepsNumbered(w, all, v, a, request);
    }
  }

  lemma NotYetNumbered(w: World, all: seq<Address>)
    requires Sound(w, all)
    ensures SoundlyNumbered(w, all)(w)
  {
  }

  /** Over an arbitrary route creation only hands out numbers. */
  lemma CreationNumbers(w: World, all: seq<Address>, pr: PaymentRequest, route: seq<Hop>)
    requires Sound(w, all) && route != []
    ensures SoundlyNumbered(w, all)(CreatedAll(w, pr, route).0)
  {
    NumberedIsKept(w, all);
    NotYetNumbered(w, all);
    CreationKeeps(SoundlyNumbered(w, all), w, pr, route, |route| - 1, 0, []);
  }

  /** And it fails if a node that is to be paid does not answer. */
  lemma {:induction false} CreationNeedsAnswers(
    w: World, pr: PaymentRequest, route: seq<Hop>, i: nat, fee: Amount, made: seq<Replacing>, m: nat)
    requires 0 < m <= i < |route| && CreateLoop(w, pr, route, i, fee, made).1.Ok?
    ensures route[m].address in w.nodes
    decreases i
  {
    if m < i {
      var (w1, tr) := CreateAt(w, route[i].address, HopRequest(pr, route, i, fee));
      CreationNeedsAnswers(w1, pr, route, i - 1, Add(fee, route[i].fee), made + [tr.value], m);
    }
  }

  lemma NothingCreated(w: World, all: seq<Address>, pr: PaymentRequest, route: seq<Hop>)
    requires Sound(w, all) && route != []
    ensures CreatedDownTo(w, all, pr, route, |route| - 1, 0, [])
  {
    assert FeesFrom(route, |route|) == 0;
  }

  lemma CreatedWholeRoute(w: World, all: seq<Address>, pr: PaymentRequest, route: seq<Hop>)
    returns (w': World, created: Created)
    requires Sound(w, all) && Fits(w, pr, route) && Reachable(w, route)
    ensures CreatedAll(w, pr, route) == (w', Ok(created)) && OnlyNumbered(w, w')
    ensures CreatedDownTo(w', all, pr, route, 0, created.totalFee, created.made)
  {
    NothingCreated(w, all, pr, route);
    w', created := CreatesEveryHop(w, all, pr, route, |route| - 1, 0, []);
  }

  /** A client that is a node itself gets an initiation through exactly when the payment is
      startable; then every hop is created, signed by its payee and payer, and passes
      validation. Either way nothing but the last numbers handed out has changed. */
  lemma InitiateOutcome(w: World, all: seq<Address>, client: Address, balance: Amount, pr: PaymentRequest,
      route: seq<Hop>)
    returns (w': World, made: seq<Replacing>)
    requires Sound(w, all) && Fits(w, pr, route) && client in w.nodes
    ensures Initiate(w, client, balance, pr, route).0 == w' && OnlyNumbered(w, w') && Sound(w', all)
    ensures Startable(w, client, balance, pr, route) ==>
      && Initiate(w, client, balance, pr, route).1 == Ok(Signing.ByBothAll(made))
      && VerifyLoop(Signing.ByBothAll(made), 0) == Ok(())
      && MadeDownTo(w', pr, route, 0, made)
    ensures !Startable(w, client, balance, pr, route) ==> Initiate(w, client, balance, pr, route).1.Err?
  {
    w', made := w, [];
    if route[0].address == client && route[|route| - 1].address == pr.address && pr.amount <= balance {
      if Reachable(w, route) {
        w', made := InitiateReachable(w, all, client, balance, pr, route);
      } else {
        w' := InitiateUnanswered(w, all, client, balance, pr, route);
      }
    }
  }

  lemma CreationUnanswered(w: World, pr: PaymentRequest, route: seq<Hop>)
    requires route != [] && route[0].address in w.nodes && !Reachable(w, route)
    ensures CreatedAll(w, pr, route).1.Err?
  {
    var m :| 0 <= m < |route| && route[m].address !in w.nodes;
    if CreatedAll(w, pr, route).1.Ok? {
      CreationNeedsAnswers(w, pr, route, |route| - 1, 0, [], m);
    }
  }

  lemma InitiateUnanswered(w: World, all: seq<Address>, client: Address, balance: Amount, pr: PaymentRequest,
      route: seq<Hop>)
    returns (w': World)
    requires Sound(w, all) && |route| >= 2 && !Reachable(w, route)
    requires route[0].address == client && route[|route| - 1].address == pr.address && pr.amount <= balance
    requires client in w.nodes
    ensures Initiate(w, client, balance, pr, route).0 == w' && OnlyNumbered(w, w') && Sound(w', all)
    ensures Initiate(w, client, balance, pr, route).1.Err?
  {
    w' := CreatedAll(w, pr, route).0;
    CreationNumbers(w, all, pr, route);
    assert SoundlyNumbered(w, all)(w');
    CreationUnanswered(w, pr, route);
  }

  lemma InitiateReachable(w: World, all: seq<Address>, client: Address, balance: Amount, pr: PaymentRequest,
      route: seq<Hop>)
    returns (w': World, made: seq<Replacing>)
    requires Sound(w, all) && Fits(w, pr, route) && Reachable(w, route)
    requires route[0].address == client && route[|route| - 1].address == pr.address && pr.amount <= balance
    ensures Initiate(w, client, balance, pr, route).0 == w' && OnlyNumbered(w, w') && Sound(w', all)
    ensures
      var result := Initiate(w, client, balance, pr, route).1;
      if Readable(w, pr, route)
      then
        && result == Ok(Signing.ByBothAll(made)) && VerifyLoop(Signing.ByBothAll(made), 0) == Ok(())
        && MadeDownTo(w', pr, route, 0, made)
      else result.Err?
  {
    var created;
    w', created := CreatedWholeRoute(w, all, pr, route);
    made := created.made;
    NumberedKeepsFit(w, w', pr, route);
    NumberedKeepsDue(w, w', pr, route);
    CreatedIsSigned(w', client, pr, route, created);
    SignedIsValid(w', all, pr, route, made);
  }

  lemma NumberedKeepsDue(w: World, w': World, pr: PaymentRequest, route: seq<Hop>)
    requires Fits(w, pr, route) && Fits(w', pr, route) && Reachable(w, route) && OnlyNumbered(w, w')
    ensures Due(w', pr, route) == Due(w, pr, route) && (Readable(w', pr, route) <==> Readable(w, pr, route))
  {
    assert Numbered(w.nodes[route[1].address], w'.nodes[route[1].address]);
  }
}
