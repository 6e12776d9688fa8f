/** The second half of a payment: how far its commits get, and what they move. */
module Payments {
  import opened Types
  import opened LedgerModel
  import opened NodeModel
  import opened PaymentModel
  import opened Positions
  import opened Creation
  import Signing
  import Amounts

  // ----- What hops move -----

  /** What hop `j` moves, for address `x`. */
  function HopGain(pr: PaymentRequest, route: seq<Hop>, j: nat, x: Address): int
    requires 0 < j < |route|
  {
    var moved := Amounts.Stroops(HopIn(pr, route, j));
    At(x, route[j].address, moved) - At(x, route[j - 1].address, moved)
  }

  /** What the hops from `lo` to `hi` move together. */
  function Gain(pr: PaymentRequest, route: seq<Hop>, lo: nat, hi: nat, x: Address): int
    requires 0 < lo && hi < |route|
    decreases hi
  {
    if hi < lo then 0 else HopGain(pr, route, hi, x) + Gain(pr, route, lo, hi - 1, x)
  }

  // ----- One commit -----

  predicate SessionKnown(w: World, pr: PaymentRequest) {
    pr.address in w.nodes && pr.session in w.nodes[pr.address].pending
  }

  /** No pending transaction of `p` at `n` has gone stale. */
  predicate SlotFresh(n: NodeState, cur: int, p: Address) {
    p in n.active ==> cur < n.active[p].sequence
  }

  predicate HopFresh(w: World, route: seq<Hop>, i: nat)
    requires 0 < i < |route|
  {
    var y := route[i].address;
    y in w.nodes ==> SlotFresh(w.nodes[y], SequenceOf(w.ledger, y), route[i - 1].address)
  }

  /** The payee accepts what it made, signed by both, unless the number has gone stale: the
      entry takes the payer's slot, and the node stays healthy. */
  lemma CommitDecides(n: NodeState, cur: int, p: Address, totalIn: nat, totalOut: nat, r: Replacing)
    requires Healthy(n, cur) && p != n.address && totalOut <= totalIn
    requires MadeBy(n, cur, p, totalIn, totalOut, r)
    ensures
      var t := Signing.ByBoth(r).pending;
      var (n', result) := Commit(n, cur, t);
      if SlotFresh(n, cur, p)
      then result == Ok(()) && Healthy(n', cur) && n' == Save(n, Entry(t, r.pending.xdr.value.sequence))
      else result == Err(StaleSequence) && n' == n
  {
    Signing.BothSignaturesSuffice(r);
    var t := Signing.ByBoth(r).pending;
    var n' := Save(n, Entry(t, r.pending.xdr.value.sequence));
    if p in n.active { assert HeldFor(n, p, n.active[p]); }
    if SlotFresh(n, cur, p) {
      forall q | q in n'.active ensures HeldFor(n', q, n'.active[q]) {
        if q in n.active { assert HeldFor(n, q, n.active[q]); }
      }
    }
  }

  /** In `w'`, node `route[i]` holds a new entry for its payer, larger by the hop's amount;
      nothing else that is owed has changed. */
  ghost predicate HopTaken(w: World, w': World, all: seq<Address>, pr: PaymentRequest, route: seq<Hop>, i: nat)
    requires 0 < i < |route|
  {
    var y, p := route[i].address, route[i - 1].address;
    && Distinct(all) && y in SetOf(all) && p in SetOf(all)
    && y in w.nodes && y in w'.nodes
    && w'.ledger == w.ledger && w'.nodes == w.nodes[y := w'.nodes[y]]
    && p in w'.nodes[y].active
    && (var e := w'.nodes[y].active[p];
        && w'.nodes[y].active == w.nodes[y].active[p := e]
        && e.tx.xdr.Some?
        && e.tx.xdr.value.stroops == Owed(w, y, p) + Amounts.Stroops(HopIn(pr, route, i)))
  }

  /** That moves the hop's amount from its payer's position to its payee's. */
  lemma TakenMoves(w: World, w': World, all: seq<Address>, pr: PaymentRequest, route: seq<Hop>, i: nat, x: Address)
    requires 0 < i < |route| && HopTaken(w, w', all, pr, route, i)
    ensures Position(w', all, x) == Position(w, all, x) + HopGain(pr, route, i, x)
  {
    var y, p := route[i].address, route[i - 1].address;
    SlotTaken(w, w', all, y, p, w'.nodes[y].active[p], x);
  }

  /** Committing hop `i` takes the payer's slot at its payee; no other entry, no other node
      and nothing on the ledger changes. It succeeds, unless it is the service's hop and the
      session is unknown to the service. When the payer's slot has gone stale, it is refused
      and nothing changes. */
  lemma CommitHop(w: World, all: seq<Address>, pr: PaymentRequest, route: seq<Hop>, i: nat, r: Replacing)
    requires Sound(w, all) && DistinctNodes(route) && Reachable(w, route) && route[|route| - 1].address == pr.address
    requires 0 < i < |route| && MadeFor(w, pr, route, i, r)
    ensures
      var (w', result) := CommitAt(w, pr, Addresses(route), Signing.ByBoth(r));
      if HopFresh(w, route, i)
      then
        && result == (if i == |route| - 1 && !SessionKnown(w, pr) then Err(UnknownSession) else Ok(()))
        && Sound(w', all) && HopTaken(w, w', all, pr, route, i)
      else result == Err(StaleSequence) && w' == w
  {
    var y, p := route[i].address, route[i - 1].address;
    assert route[i] in route;
    CommitDecides(w.nodes[y], w.ledger.sequence[y], p, HopIn(pr, route, i), HopIn(pr, route, i + 1), r);
    var n' := Commit(w.nodes[y], w.ledger.sequence[y], Signing.ByBoth(r).pending).0;
    var w' := CommitAt(w, pr, Addresses(route), Signing.ByBoth(r)).0;
    if HopFresh(w, route, i) {
      assert w'.nodes[y] == n'.(pending := w'.nodes[y].pending);
      OneNodeSound(w, w', all, y);
      assert Owed(w, y, p) == Amounts.Stroops(ActiveAmount(w.nodes[y], p)) by {
        if p in w.nodes[y].active { assert HeldFor(w.nodes[y], p, w.nodes[y].active[p]); }
      }
    } else {
      assert w.nodes[y := w.nodes[y]] == w.nodes;
    }
  }

  // ----- The commit loop -----

  /** Where the loop stands before the `j`-th transaction. */
  ghost predicate ToCommit(w: World, pr: PaymentRequest, route: seq<Hop>, made: seq<Replacing>, j: nat) {
    && DistinctNodes(route) && Reachable(w, route)
    && route[|route| - 1].address == pr.address
    && j <= |made| == |route| - 1 && MadeFromOn(w, pr, route, made, j)
  }

  ghost function Standing(pr: PaymentRequest, route: seq<Hop>, made: seq<Replacing>): (World, nat) -> bool {
    (w: World, j: nat) => ToCommit(w, pr, route, made, j)
  }

  ghost function Committing(ledger: LedgerState, all: seq<Address>, pr: PaymentRequest, route: seq<Hop>,
      made: seq<Replacing>)
    : (World, nat) -> bool
  {
    (w: World, j: nat) => w.ledger == ledger && Sound(w, all) && Standing(pr, route, made)(w, j)
  }

  /** How far commits get from hop `i` on towards the client, when at most `k` are tried: the
      last hop that is committed, and what the loop returns. */
  function CommitReach(w: World, pr: PaymentRequest, route: seq<Hop>, i: nat, k: nat): (r: (nat, Result<()>))
    requires i < |route|
    ensures i <= r.0 <= i + 1 || 0 < r.0 < i
    ensures r.0 > 0
    decreases i
  {
    if k == 0 || i == 0 then (i + 1, Ok(()))
    else if !HopFresh(w, route, i) then (i + 1, Err(StaleSequence))
    else if i == |route| - 1 && !SessionKnown(w, pr) then (i, Err(UnknownSession))
    else CommitReach(w, pr, route, i - 1, k - 1)
  }

  /** That depends only on the hops that are left. */
  lemma {:induction false} SameReach(w: World, w': World, pr: PaymentRequest, route: seq<Hop>, i: nat, k: nat)
    requires i < |route| && forall m | 0 < m <= i :: HopFresh(w', route, m) == HopFresh(w, route, m)
    requires i < |route| - 1 || SessionKnown(w', pr) == SessionKnown(w, pr)
    ensures CommitReach(w', pr, route, i, k) == CommitReach(w, pr, route, i, k)
    decreases i
  {
    if k > 0 && i > 0 { SameReach(w, w', pr, route, i - 1, k - 1); }
  }

  lemma OthersSurvive(w: World, w1: World, pr: PaymentRequest, route: seq<Hop>, made: seq<Replacing>, j: nat)
    requires DistinctNodes(route) && j < |made| < |route| && MadeFromOn(w, pr, route, made, j)
    requires w1.ledger == w.ledger
    requires
      var y := route[|route| - 1 - j].address;
      y in w1.nodes && w1.nodes == w.nodes[y := w1.nodes[y]]
    ensures MadeFromOn(w1, pr, route, made, j + 1)
    ensures forall m | 0 < m < |route| - 1 - j :: HopFresh(w1, route, m) == HopFresh(w, route, m)
  {
    forall i | j + 1 <= i < |made| ensures MadeFor(w1, pr, route, |route| - 1 - i, made[i]) {
      MadeAt(w, pr, route, made, j, i);
      MadeForSurvives(w, w1, pr, route, |route| - 1 - i, made[i]);
    }
    MadeByAll(w1, pr, route, made, j + 1);
  }

  lemma CommitContinues(w: World, w1: World, pr: PaymentRequest, route: seq<Hop>, made: seq<Replacing>, j: nat, k: nat)
    requires Standing(pr, route, made)(w, j) && j < |made| < |route| && w1.ledger == w.ledger
    requires
      var y := route[|route| - 1 - j].address;
      y in w1.nodes && w1.nodes == w.nodes[y := w1.nodes[y]]
    ensures Standing(pr, route, made)(w1, j + 1)
    ensures j + 1 < |route| && CommitReach(w1, pr, route, |route| - 2 - j, k)
        == CommitReach(w, pr, route, |route| - 2 - j, k)
  {
    OthersSurvive(w, w1, pr, route, made, j);
    SameReach(w, w1, pr, route, |route| - 2 - j, k);
  }

  /** The commit of the `j`-th transaction on a list, and what it leaves for the next. */
  lemma CommitNext(
    ledger: LedgerState, all: seq<Address>, pr: PaymentRequest, route: seq<Hop>, made: seq<Replacing>, w: World, j: nat,
    k: nat, x: Address)
    returns (w1: World)
    requires Committing(ledger, all, pr, route, made)(w, j) && j < |made| < |route|
        && HopFresh(w, route, |route| - 1 - j)
    ensures CommitAt(w, pr, Addresses(route), Signing.ByBoth(made[j]))
         == (w1, if j == 0 && !SessionKnown(w, pr) then Err(UnknownSession) else Ok(()))
    ensures Committing(ledger, all, pr, route, made)(w1, j + 1)
    ensures Position(w1, all, x) == Position(w, all, x) + HopGain(pr, route, |route| - 1 - j, x)
    ensures j + 1 < |route| && CommitReach(w1, pr, route, |route| - 2 - j, k)
        == CommitReach(w, pr, route, |route| - 2 - j, k)
  {
    w1 := CommitHopOf(ledger, all, pr, route, made, w, j);
    TakenMoves(w, w1, all, pr, route, |route| - 1 - j, x);
    CommitContinues(w, w1, pr, route, made, j, k);
  }

  lemma CommitHopOf(
    ledger: LedgerState, all: seq<Address>, pr: PaymentRequest, route: seq<Hop>, made: seq<Replacing>, w: World, j: nat)
    returns (w1: World)
    requires Committing(ledger, all, pr, route, made)(w, j) && j < |made| < |route|
        && HopFresh(w, route, |route| - 1 - j)
    ensures CommitAt(w, pr, Addresses(route), Signing.ByBoth(made[j]))
         == (w1, if j == 0 && !SessionKnown(w, pr) then Err(UnknownSession) else Ok(()))
    ensures Sound(w1, all) && HopTaken(w, w1, all, pr, route, |route| - 1 - j)
  {
    assert Standing(pr, route, made)(w, j);
    CommitHop(w, all, pr, route, |route| - 1 - j, made[j]);
    w1 := CommitAt(w, pr, Addresses(route), Signing.ByBoth(made[j])).0;
  }

  lemma CommitRefused(ledger: LedgerState, all: seq<Address>, pr: PaymentRequest, route: seq<Hop>,
      made: seq<Replacing>, w: World, j: nat)
    requires Committing(ledger, all, pr, route, made)(w, j) && j < |made| < |route|
        && !HopFresh(w, route, |route| - 1 - j)
    ensures CommitAt(w, pr, Addresses(route), Signing.ByBoth(made[j])) == (w, Err(StaleSequence))
  {
    assert Standing(pr, route, made)(w, j);
    CommitHop(w, all, pr, route, |route| - 1 - j, made[j]);
  }

  /** One round of the loop, at a hop that is fresh. */
  lemma OneCommitAt(ledger: LedgerState, all: seq<Address>, pr: PaymentRequest, route: seq<Hop>, made: seq<Replacing>,
      ts: seq<Replacing>, w: World, j: nat, x: Address)
    returns (w1: World)
    requires Committing(ledger, all, pr, route, made)(w, j) && j < |ts| <= |made| < |route|
    requires ts <= Signing.ByBothAll(made) && HopFresh(w, route, |route| - 1 - j)
    ensures w1 == CommitAt(w, pr, Addresses(route), ts[j]).0
    ensures Committing(ledger, all, pr, route, made)(w1, j + 1)
    ensures Position(w1, all, x) == Position(w, all, x) + HopGain(pr, route, |route| - 1 - j, x)
    ensures FinalizeLoop(w, pr, Addresses(route), ts, j)
         == if j == 0 && !SessionKnown(w, pr) then (w1, Err(UnknownSession))
            else FinalizeLoop(w1, pr, Addresses(route), ts, j + 1)
    ensures j + 1 < |route| && CommitReach(w, pr, route, |route| - 1 - j, |ts| - j)
         == if j == 0 && !SessionKnown(w, pr) then (|route| - 1 - j, Err(UnknownSession))
            else CommitReach(w1, pr, route, |route| - 2 - j, |ts| - 1 - j)
  {
    w1 := CommitNext(ledger, all, pr, route, made, w, j, |ts| - 1 - j, x);
    assert ts[j] == Signing.ByBoth(made[j]);
  }

  lemma OneCommit(ledger: LedgerState, all: seq<Address>, pr: PaymentRequest, route: seq<Hop>, made: seq<Replacing>,
      ts: seq<Replacing>, w: World, j: nat, x: Address)
    returns (w1: World)
    requires Committing(ledger, all, pr, route, made)(w, j) && j < |ts| <= |made| < |route|
    requires ts <= Signing.ByBothAll(made) && HopFresh(w, route, |route| - 1 - j)
    ensures Committing(ledger, all, pr, route, made)(w1, j + 1)
    ensures Position(w1, all, x) == Position(w, all, x) + HopGain(pr, route, |route| - 1 - j, x)
    ensures FinalizeLoop(w, pr, Addresses(route), ts, j)
         == if j == 0 && !SessionKnown(w, pr) then (w1, Err(UnknownSession))
            else FinalizeLoop(w1, pr, Addresses(route), ts, j + 1)
    ensures j + 1 < |route| && CommitReach(w, pr, route, |route| - 1 - j, |ts| - j)
         == if j == 0 && !SessionKnown(w, pr) then (|route| - 1 - j, Err(UnknownSession))
            else CommitReach(w1, pr, route, |route| - 2 - j, |ts| - 1 - j)
  {
    w1 := OneCommitAt(ledger, all, pr, route, made, ts, w, j, x);
  }

  /** And at a hop that is not. */
  lemma NoCommit(ledger: LedgerState, all: seq<Address>, pr: PaymentRequest, route: seq<Hop>, made: seq<Replacing>,
      ts: seq<Replacing>, w: World, j: nat)
    requires Committing(ledger, all, pr, route, made)(w, j) && j < |ts| <= |made| < |route|
    requires ts <= Signing.ByBothAll(made) && !HopFresh(w, route, |route| - 1 - j)
    ensures FinalizeLoop(w, pr, Addresses(route), ts, j) == (w, Err(StaleSequence))
    ensures CommitReach(w, pr, route, |route| - 1 - j, |ts| - j) == (|route| - j, Err(StaleSequence))
  {
    CommitRefused(ledger, all, pr, route, made, w, j);
    assert ts[j] == Signing.ByBoth(made[j]);
  }

  /** From the `j`-th transaction on, the loop gets as far as `CommitReach` says, and moves
      exactly what the hops committed move. */
  lemma {:induction false} CommitsFrom(ledger: LedgerState, all: seq<Address>, pr: PaymentRequest, route: seq<Hop>,
      made: seq<Replacing>, ts: seq<Replacing>, w: World, j: nat, x: Address)
    returns (w': World, stop: nat)
    requires Committing(ledger, all, pr, route, made)(w, j) && j <= |ts| <= |made| < |route|
    requires ts <= Signing.ByBothAll(made)
    ensures Committing(ledger, all, pr, route, made)(w', stop)
    ensures FinalizeLoop(w, pr, Addresses(route), ts, j)
         == (w', CommitReach(w, pr, route, |route| - 1 - j, |ts| - j).1)
    ensures Position(w', all, x)
         == Position(w, all, x)
            + Gain(pr, route, CommitReach(w, pr, route, |route| - 1 - j, |ts| - j).0, |route| - 1 - j, x)
    decreases |ts| - j
  {
    w', stop := w, j;
    if j < |ts| {
      if HopFresh(w, route, |route| - 1 - j) {
        w' := OneCommit(ledger, all, pr, route, made, ts, w, j, x);
        stop := j + 1;
        if j > 0 || SessionKnown(w, pr) {
          w', stop := CommitsFrom(ledger, all, pr, route, made, ts, w', j + 1, x);
        }
      } else {
        NoCommit(ledger, all, pr, route, made, ts, w, j);
      }
    }
  }

  /** `FinalizePayment` on a list. */
  function Finalized(w: World, pr: PaymentRequest, route: seq<Hop>, ts: seq<Replacing>): (World, Result<()>) {
    FinalizeLoop(w, pr, Addresses(route), ts, 0)
  }

  /** What the hops from the service's down to the first one committed move. */
  function GainReached(pr: PaymentRequest, route: seq<Hop>, lo: nat, x: Address): int
    requires 0 < lo && route != []
  {
    Gain(pr, route, lo, |route| - 1, x)
  }

  /** Committing a signed list, or its first part, gets as far as `CommitReach` says, and moves
      exactly what the hops committed move. Nothing changes on the ledger. */
  lemma CommitsOutcome(
    w: World, all: seq<Address>, pr: PaymentRequest, route: seq<Hop>, made: seq<Replacing>, ts: seq<Replacing>,
        x: Address)
    returns (w': World)
    requires Committing(w.ledger, all, pr, route, made)(w, 0) && ts <= Signing.ByBothAll(made) && |made| < |route|
    ensures Sound(w', all) && w'.ledger == w.ledger
    ensures Finalized(w, pr, route, ts) == (w', CommitReach(w, pr, route, |route| - 1, |ts|).1)
    ensures Position(w', all, x)
         == Position(w, all, x) + GainReached(pr, route, CommitReach(w, pr, route, |route| - 1, |ts|).0, x)
  {
    var stop;
    w', stop := CommitsFrom(w.ledger, all, pr, route, made, ts, w, 0, x);
  }

  // ----- Closed forms -----

  /** What the `m`-th node of a route has gained once hops `lo` up to the last are committed:
      the payer of the hop committed last is down by the amount and the fees so far, every
      node strictly between it and the service is up by its fee, the service by the amount
      and its own fee. With `lo == 1` it is the share in the whole payment. */
  function Share(pr: PaymentRequest, route: seq<Hop>, lo: nat, m: nat): int
    requires 0 < lo < |route| && m < |route|
  {
    if m < lo - 1 then 0
    else if m == lo - 1 then 0 - Amounts.Stroops(pr.amount + FeesFrom(route, lo))
    else if m < |route| - 1 then Amounts.Stroops(route[m].fee)
    else Amounts.Stroops(pr.amount + route[m].fee)
  }

  lemma {:induction false} PrefixLaw(pr: PaymentRequest, route: seq<Hop>, lo: nat, m: nat)
    requires 0 < lo < |route| && m < |route|
    requires forall i, j | 0 <= i < j < |route| :: route[i].address != route[j].address
    ensures Gain(pr, route, lo, |route| - 1, route[m].address) == Share(pr, route, lo, m)
  {
    var k := |route| - 1;
    GainAt(pr, route, lo, k, m);
    assert FeesFrom(route, k) == route[k].fee + FeesFrom(route, k + 1) && FeesFrom(route, k + 1) == 0;
    if m < k { assert FeesFrom(route, m) == route[m].fee + FeesFrom(route, m + 1); }
  }

  /** A node that is not on the route gains nothing. */
  lemma {:induction false} GainElsewhere(pr: PaymentRequest, route: seq<Hop>, lo: nat, hi: nat, x: Address)
    requires 0 < lo && hi < |route|
    requires forall j | 0 <= j < |route| :: route[j].address != x
    ensures Gain(pr, route, lo, hi, x) == 0
    decreases hi
  {
    if lo <= hi { GainElsewhere(pr, route, lo, hi - 1, x); }
  }

  lemma {:induction false} GainAt(pr: PaymentRequest, route: seq<Hop>, lo: nat, hi: nat, m: nat)
    requires 0 < lo && lo - 1 <= hi < |route| && m < |route|
    requires forall i, j | 0 <= i < j < |route| :: route[i].address != route[j].address
    ensures
      Gain(pr, route, lo, hi, route[m].address)
      == (if lo <= m <= hi then Amounts.Stroops(HopIn(pr, route, m)) else 0)
       - (if lo - 1 <= m < hi then Amounts.Stroops(HopIn(pr, route, m + 1)) else 0)
    decreases hi
  {
    if lo <= hi { GainAt(pr, route, lo, hi - 1, m); }
  }

  function GainIn(pr: PaymentRequest, route: seq<Hop>, lo: nat, hi: nat): Address -> int
    requires 0 < lo && hi < |route|
  {
    x => Gain(pr, route, lo, hi, x)
  }

  /** The gains of all the nodes of a route cancel out. */
  lemma {:induction false} GainsCancel(pr: PaymentRequest, route: seq<Hop>, lo: nat, hi: nat, all: seq<Address>)
    requires 0 < lo && hi < |route| && Distinct(all)
    requires forall i | 0 <= i < |route| :: route[i].address in SetOf(all)
    ensures Sum(all, GainIn(pr, route, lo, hi)) == 0
    decreases hi
  {
    var full := GainIn(pr, route, lo, hi);
    if hi < lo {
      SumZero(all);
      SumSame(all, full, (x: Address) => 0);
    } else {
      var y, p := route[hi].address, route[hi - 1].address;
      var moved := Amounts.Stroops(HopIn(pr, route, hi));
      var rest := GainIn(pr, route, lo, hi - 1);
      var up := (x: Address) => rest(x) + At(x, y, moved);
      GainsCancel(pr, route, lo, hi - 1, all);
      SumChange(all, rest, up, y);
      SumChange(all, up, full, p);
    }
  }

  lemma {:induction false} SumZero(all: seq<Address>)
    ensures Sum(all, x => 0) == 0
  {
    if all != [] { SumZero(all[1..]); SumSame(all[1..], x => 0, x => 0); }
  }

  // ----- Whole payments -----

  /** What a payment needs to succeed: it can start, the service knows the session, and no
      payer on the route has a stale transaction pending at its payee. */
  predicate Admissible(w: World, client: Address, balance: Amount, pr: PaymentRequest, route: seq<Hop>)
    requires Fits(w, pr, route)
  {
    && Startable(w, client, balance, pr, route) && SessionKnown(w, pr)
    && (forall i | 0 < i < |route| :: HopFresh(w, route, i))
  }

  function Min(a: nat, b: nat): nat {
    if a < b then a else b
  }

  /** Commits get through exactly when every hop they try is fresh, and the session known. */
  lemma {:induction false} ReachExactly(w: World, pr: PaymentRequest, route: seq<Hop>, i: nat, k: nat)
    requires i < |route|
    ensures
      var (lo, result) := CommitReach(w, pr, route, i, k);
      var tried := Min(i, k);
      && (result == Ok(()) <==>
            && (forall m | i - tried < m <= i :: HopFresh(w, route, m))
            && (tried > 0 && i == |route| - 1 ==> SessionKnown(w, pr)))
      && (result == Ok(()) ==> lo == i + 1 - tried)
    decreases i
  {
    if k > 0 && i > 0 { ReachExactly(w, pr, route, i - 1, k - 1); }
  }

  /** Otherwise they stop at the first stale hop, and that one is refused; or at the service,
      whose hop stays committed, when the session is unknown. */
  lemma {:induction false} ReachStopsExactly(w: World, pr: PaymentRequest, route: seq<Hop>, i: nat, k: nat)
    requires i < |route|
    ensures
      var (lo, result) := CommitReach(w, pr, route, i, k);
      && (result == Err(StaleSequence) <==> exists m :: StopsAt(w, pr, route, i, k, m))
      && (forall m | StopsAt(w, pr, route, i, k, m) :: lo == m + 1)
      && (result == Err(UnknownSession)
          <==> k > 0 && i > 0 && i == |route| - 1 && HopFresh(w, route, i) && !SessionKnown(w, pr))
      && (result == Err(UnknownSession) ==> lo == i)
      && (result == Ok(()) || result == Err(StaleSequence) || result == Err(UnknownSession))
    decreases i
  {
    if k > 0 && i > 0 {
      if HopFresh(w, route, i) && (i == |route| - 1 ==> SessionKnown(w, pr)) {
        ReachStopsExactly(w, pr, route, i - 1, k - 1);
        if CommitReach(w, pr, route, i - 1, k - 1).1 == Err(StaleSequence) {
          var m :| StopsAt(w, pr, route, i - 1, k - 1, m);
          assert StopsAt(w, pr, route, i, k, m);
        }
        forall m | StopsAt(w, pr, route, i, k, m) ensures StopsAt(w, pr, route, i - 1, k - 1, m) {}
      } else if !HopFresh(w, route, i) {
        assert StopsAt(w, pr, route, i, k, i);
      }
    }
  }

  /** Hop `m` is the first stale one of those tried, and the session is known if the service's
      hop comes before it. */
  predicate StopsAt(w: World, pr: PaymentRequest, route: seq<Hop>, i: nat, k: nat, m: int)
    requires i < |route|
  {
    && 0 < m <= i && i - m < k && !HopFresh(w, route, m)
    && (forall j | m < j <= i :: HopFresh(w, route, j))
    && (m < i == |route| - 1 ==> SessionKnown(w, pr))
  }

  /** The number of commits that are tried at most. */
  function Tried(route: seq<Hop>, breakOff: Option<nat>): nat
    requires route != []
  {
    if breakOff.Some? then Min(breakOff.value, |route| - 1) else |route| - 1
  }

  /** The first hop, counted from the client, that a startable payment gets committed. */
  function FirstCommitted(w: World, pr: PaymentRequest, route: seq<Hop>, breakOff: Option<nat>): (lo: nat)
    requires route != []
    ensures 0 < lo <= |route|
  {
    CommitReach(w, pr, route, |route| - 1, Tried(route, breakOff)).0
  }

  lemma NumberedKeepsPosition(w: World, w': World, all: seq<Address>, x: Address)
    requires OnlyNumbered(w, w')
    ensures Position(w', all, x) == Position(w, all, x)
  {
    forall a, b ensures Owed(w', a, b) == Owed(w, a, b) {}
    SameDebtsSamePosition(w, w', all, x);
  }

  lemma NumberedKeepsReach(w: World, w': World, pr: PaymentRequest, route: seq<Hop>, k: nat)
    requires OnlyNumbered(w, w') && route != []
    ensures CommitReach(w', pr, route, |route| - 1, k) == CommitReach(w, pr, route, |route| - 1, k)
  {
    forall m | 0 < m < |route| ensures HopFresh(w', route, m) == HopFresh(w, route, m) {
      var y := route[m].address;
      if y in w.nodes { assert Numbered(w.nodes[y], w'.nodes[y]); }
    }
    if pr.address in w.nodes { assert Numbered(w.nodes[pr.address], w'.nodes[pr.address]); }
    SameReach(w, w', pr, route, |route| - 1, k);
  }

  lemma ReadyToCommit(w: World, all: seq<Address>, pr: PaymentRequest, route: seq<Hop>, made: seq<Replacing>)
    requires Sound(w, all) && DistinctNodes(route) && Reachable(w, route) && route[|route| - 1].address == pr.address
    requires MadeDownTo(w, pr, route, 0, made)
    ensures Committing(w.ledger, all, pr, route, made)(w, 0)
  {
    assert Standing(pr, route, made)(w, 0);
  }

  /** What becomes of any payment by a node, wherever it breaks off: if it cannot start, no
      position changes; otherwise its commits get as far as `CommitReach` says, and exactly the
      hops committed are moved. Nothing changes on the ledger. */
  lemma PaymentOutcome(
    w: World, all: seq<Address>, client: Address, balance: Amount, pr: PaymentRequest, route: seq<Hop>,
        breakOff: Option<nat>,
    x: Address)
    returns (w': World, result: Result<()>)
    requires Sound(w, all) && Fits(w, pr, route) && client in w.nodes
    ensures PayUntil(w, client, balance, pr, route, breakOff) == (w', result)
    ensures Sound(w', all) && w'.ledger == w.ledger
    ensures
      if Startable(w, client, balance, pr, route)
      then
        && result == CommitReach(w, pr, route, |route| - 1, Tried(route, breakOff)).1
        && Position(w', all, x)
            == Position(w, all, x) + GainReached(pr, route, FirstCommitted(w, pr, route, breakOff), x)
      else result.Err? && Position(w', all, x) == Position(w, all, x)
  {
    var w1, made := InitiateOutcome(w, all, client, balance, pr, route);
    NumberedKeepsPosition(w, w1, all, x);
    PayOnwards(w, w1, Initiate(w, client, balance, pr, route).1, client, balance, pr, route, breakOff);
    w', result := w1, PayUntil(w, client, balance, pr, route, breakOff).1;
    if Startable(w, client, balance, pr, route) {
      w' := CommitsOfPayment(w, w1, all, pr, route, made, breakOff, x);
    }
  }

  lemma CommitsOfPayment(
    w: World, w1: World, all: seq<Address>, pr: PaymentRequest, route: seq<Hop>, made: seq<Replacing>,
        breakOff: Option<nat>,
    x: Address)
    returns (w': World)
    requires OnlyNumbered(w, w1) && Sound(w1, all) && DistinctNodes(route) && Reachable(w, route)
    requires route[|route| - 1].address == pr.address && MadeDownTo(w1, pr, route, 0, made)
    ensures Sound(w', all) && w'.ledger == w1.ledger
    ensures FinalizeLoop(w1, pr, Addresses(route), First(Signing.ByBothAll(made), breakOff), 0)
         == (w', CommitReach(w, pr, route, |route| - 1, Tried(route, breakOff)).1)
    ensures Position(w', all, x)
        == Position(w1, all, x) + GainReached(pr, route, FirstCommitted(w, pr, route, breakOff), x)
  {
    var ts := FirstSigned(route, made, breakOff);
    NumberedKeepsReach(w, w1, pr, route, |ts|);
    ReadyToCommit(w1, all, pr, route, made);
    w' := CommitsOutcome(w1, all, pr, route, made, ts, x);
  }

  lemma FirstSigned(route: seq<Hop>, made: seq<Replacing>, breakOff: Option<nat>) returns (ts: seq<Replacing>)
    requires |made| == |route| - 1
    ensures ts == First(Signing.ByBothAll(made), breakOff) && ts <= Signing.ByBothAll(made) && |ts|
        == Tried(route, breakOff)
  {
    ts := First(Signing.ByBothAll(made), breakOff);
  }

  lemma ReachesClient(w: World, pr: PaymentRequest, route: seq<Hop>)
    requires |route| >= 2
    ensures CommitReach(w, pr, route, |route| - 1, |route| - 1).1 == Ok(())
       <==> SessionKnown(w, pr) && forall i | 0 < i < |route| :: HopFresh(w, route, i)
  {
    ReachExactly(w, pr, route, |route| - 1, |route| - 1);
  }

  /** A payment that does not break off succeeds if and only if it is admissible. */
  lemma PaymentSucceedsExactly(w: World, all: seq<Address>, client: Address, balance: Amount, pr: PaymentRequest,
      route: seq<Hop>)
    requires Sound(w, all) && Fits(w, pr, route) && client in w.nodes
    ensures Pay(w, client, balance, pr, route).1 == Ok(()) <==> Admissible(w, client, balance, pr, route)
  {
    var w', result := PaymentOutcome(w, all, client, balance, pr, route, None, client);
    ReachesClient(w, pr, route);
    assert Pay(w, client, balance, pr, route).1 == result;
  }

  /** The service saves the transaction before it finds that it does not know the session: the
      payment fails, but its first commit stays. */
  lemma UnknownSessionStops(
    w: World, all: seq<Address>, client: Address, balance: Amount, pr: PaymentRequest, route: seq<Hop>, x: Address)
    requires Sound(w, all) && Fits(w, pr, route) && client in w.nodes && Startable(w, client, balance, pr, route)
    requires !SessionKnown(w, pr) && HopFresh(w, route, |route| - 1)
    ensures
      var (w', result) := Pay(w, client, balance, pr, route);
      && result == Err(UnknownSession)
      && Position(w', all, x) == Position(w, all, x) + HopGain(pr, route, |route| - 1, x)
  {
    var _, _ := PaymentOutcome(w, all, client, balance, pr, route, None, x);
    assert Gain(pr, route, |route| - 1, |route| - 2, x) == 0;
  }

  // ----- After any number of commits -----

  lemma {:induction false} SumPlus(all: seq<Address>, f: Address -> int, g: Address -> int, h: Address -> int)
    requires forall a :: h(a) == f(a) + g(a)
    ensures Sum(all, h) == Sum(all, f) + Sum(all, g)
  {
    if all != [] { SumPlus(all[1..], f, g, h); }
  }

  function PositionIn(w: World, all: seq<Address>): Address -> int {
    x => Position(w, all, x)
  }

  /** The commit loop passes through the outcome of committing just the first `k`. */
  lemma {:induction false} FinalizeSplits(w: World, pr: PaymentRequest, known: set<Address>, ts: seq<Replacing>,
      k: nat, j: nat)
    requires j <= k <= |ts| && FinalizeLoop(w, pr, known, ts[..k], j).1.Ok?
    ensures FinalizeLoop(w, pr, known, ts, j)
        == FinalizeLoop(FinalizeLoop(w, pr, known, ts[..k], j).0, pr, known, ts, k)
    decreases k - j
  {
    if j < k { FinalizeSplits(CommitAt(w, pr, known, ts[j]).0, pr, known, ts, k, j + 1); }
  }

  /** The first `k` commits of a signed list get through when their hops are fresh and the
      session is known. */
  ghost predicate CommitsThrough(w: World, all: seq<Address>, pr: PaymentRequest, route: seq<Hop>,
      made: seq<Replacing>, k: nat)
  {
    && Committing(w.ledger, all, pr, route, made)(w, 0) && k <= |made| == |route| - 1
    && (forall m | |route| - 1 - k < m < |route| :: HopFresh(w, route, m))
    && SessionKnown(w, pr)
  }

  /** The outcome of the first `k` commits. */
  function AfterCommits(w: World, pr: PaymentRequest, route: seq<Hop>, made: seq<Replacing>, k: nat): World
    requires k <= |made|
  {
    Finalized(w, pr, route, Signing.ByBothAll(made)[..k]).0
  }

  lemma FirstCommitsMove(w: World, all: seq<Address>, pr: PaymentRequest, route: seq<Hop>, made: seq<Replacing>,
      k: nat, x: Address)
    requires CommitsThrough(w, all, pr, route, made, k)
    ensures Finalized(w, pr, route, Signing.ByBothAll(made)[..k]).1 == Ok(())
    ensures Position(AfterCommits(w, pr, route, made, k), all, x)
        == Position(w, all, x) + GainReached(pr, route, |route| - k, x)
  {
    ReachExactly(w, pr, route, |route| - 1, k);
    var _ := CommitsOutcome(w, all, pr, route, made, Signing.ByBothAll(made)[..k], x);
  }

  /** The commit loop goes on from there. */
  lemma CommitsResume(w: World, all: seq<Address>, pr: PaymentRequest, route: seq<Hop>, made: seq<Replacing>, k: nat)
    requires CommitsThrough(w, all, pr, route, made, k)
    ensures Finalized(w, pr, route, Signing.ByBothAll(made))
         == FinalizeLoop(AfterCommits(w, pr, route, made, k), pr, Addresses(route), Signing.ByBothAll(made), k)
  {
    FirstCommitsMove(w, all, pr, route, made, k, route[0].address);
    FinalizeSplits(w, pr, Addresses(route), Signing.ByBothAll(made), k, 0);
  }

  lemma CommittingShares(w: World, all: seq<Address>, pr: PaymentRequest, route: seq<Hop>, made: seq<Replacing>,
      lo: nat, m: nat)
    requires 0 < lo < |route| && m < |route| && Committing(w.ledger, all, pr, route, made)(w, 0)
    ensures GainReached(pr, route, lo, route[m].address) == Share(pr, route, lo, m)
  {
    CommittingRoute(w, all, pr, route, made);
    PrefixLaw(pr, route, lo, m);
  }

  lemma CommittingRoute(w: World, all: seq<Address>, pr: PaymentRequest, route: seq<Hop>, made: seq<Replacing>)
    requires Committing(w.ledger, all, pr, route, made)(w, 0)
    ensures DistinctNodes(route) && Reachable(w, route) && Sound(w, all)
  {
    assert Standing(pr, route, made)(w, 0);
  }

  /** The commit-prefix law: after any `k` commits of `FinalizePayment` every node of the
      route has exactly its share in the hops committed so far. */
  lemma CommitPrefix(w: World, all: seq<Address>, pr: PaymentRequest, route: seq<Hop>, made: seq<Replacing>, k: nat,
      m: nat)
    requires 0 < k && m < |route| && CommitsThrough(w, all, pr, route, made, k)
    ensures Position(AfterCommits(w, pr, route, made, k), all, route[m].address)
         == Position(w, all, route[m].address) + Share(pr, route, |route| - k, m)
  {
    FirstCommitsMove(w, all, pr, route, made, k, route[m].address);
    CommittingShares(w, all, pr, route, made, |route| - k, m);
  }

  /** And nothing has been created or lost: the positions of all nodes add up as before. */
  lemma CommitPrefixKeepsSum(w: World, all: seq<Address>, pr: PaymentRequest, route: seq<Hop>, made: seq<Replacing>,
      k: nat)
    requires CommitsThrough(w, all, pr, route, made, k)
    ensures Sum(all, PositionIn(AfterCommits(w, pr, route, made, k), all)) == Sum(all, PositionIn(w, all))
  {
    var w' := AfterCommits(w, pr, route, made, k);
    forall x ensures PositionIn(w', all)(x) == PositionIn(w, all)(x) + GainIn(pr, route, |route| - k, |route| - 1)(x) {
      FirstCommitsMove(w, all, pr, route, made, k, x);
    }
    SumPlus(all, PositionIn(w, all), GainIn(pr, route, |route| - k, |route| - 1), PositionIn(w', all));
    CommittingRoute(w, all, pr, route, made);
    GainsCancel(pr, route, |route| - k, |route| - 1, all);
  }
}
