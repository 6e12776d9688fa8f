/** The debt manager beside a file-sharing node: bytes sent to a peer turn into payment
    requests, and requests from a peer are checked against the bytes received from it. */
module Debts {
  import opened Types

  type Peer(==, !new)

  /** 50 MB. */
  const REQUEST_PAYMENT_AFTER_BYTES: Amount := 52_428_800

  datatype DebtState = DebtState(requested: Amount, transferred: Amount, received: Amount)

  const NO_DEBT := DebtState(0, 0, 0)

  /** Go's conversion of an `int` to `uint32`. */
  function ToU32(n: int): Amount {
    n % U32
  }

  // ----- What each message does to the debt of its peer -----

  /** Bytes were sent to the peer: the new debt, and the amount to request, if any. */
  function Transferred(d: DebtState, size: int): (DebtState, Option<Amount>) {
    var amount := Add(d.transferred, ToU32(size));
    if amount >= REQUEST_PAYMENT_AFTER_BYTES
    then (d.(requested := Add(d.requested, amount), transferred := 0), Some(amount))
    else (d.(transferred := amount), None)
  }

  function Received(d: DebtState, size: int): DebtState {
    d.(received := Add(d.received, ToU32(size)))
  }

  /** The messages of the event loop. `RequestBy` carries the quantity its price stands for,
      `Paid` the `AmountOut` of the transaction that paid a session. */
  datatype Message =
    | SentTo(peer: Peer, size: int)
    | ReceivedFrom(peer: Peer, size: int)
    | RequestBy(peer: Peer, quantity: Amount)
    | Paid(peer: Peer, amountOut: Amount)
    | NotPaid(peer: Peer)

  type Book = map<Peer, DebtState>

  function DebtOf(b: Book, p: Peer): DebtState {
    if p in b then b[p] else NO_DEBT
  }

  /** What handling a message makes the process do. `Stop` ends it. */
  datatype Outcome = Quiet | Request(amount: Amount) | Process | Stop

  function Handled(b: Book, m: Message): (Book, Outcome) {
    var d := DebtOf(b, m.peer);
    match m
    case SentTo(p, size) =>
      var (d', amount) := Transferred(d, size);
      (b[p := d'], if amount.Some? then Request(amount.value) else Quiet)
    case ReceivedFrom(p, size) => (b[p := Received(d, size)], Quiet)
    case RequestBy(p, quantity) => (b[p := d], if quantity > d.received then Stop else Process)
    case Paid(p, amountOut) => (b[p := d.(requested := Sub(d.requested, amountOut))], Quiet)
    case NotPaid(p) => (b, Quiet)
  }

  /** The debts after the loop has handled `messages`, as long as none stops the process,
      and the amounts requested from peer `p` meanwhile. */
  function BookAfter(b: Book, messages: seq<Message>): Book {
    if messages == [] then b else Handled(BookAfter(b, messages[..|messages| - 1]), messages[|messages| - 1]).0
  }

  function RequestedFrom(b: Book, messages: seq<Message>, p: Peer): nat {
    if messages == [] then 0
    else
      var front, m := messages[..|messages| - 1], messages[|messages| - 1];
      var outcome := Handled(BookAfter(b, front), m).1;
      RequestedFrom(b, front, p) + if m.peer == p && outcome.Request? then outcome.amount else 0
  }

  function BytesTo(messages: seq<Message>, p: Peer): int {
    if messages == [] then 0
    else
      var m := messages[|messages| - 1];
      BytesTo(messages[..|messages| - 1], p) + if m.SentTo? && m.peer == p then m.size else 0
  }

  function PaidBy(messages: seq<Message>, p: Peer): nat {
    if messages == [] then 0
    else
      var m := messages[|messages| - 1];
      PaidBy(messages[..|messages| - 1], p) + if m.Paid? && m.peer == p then m.amountOut else 0
  }

  /** The `i`-th message stops the process. */
  predicate StopsAt(b: Book, messages: seq<Message>, i: nat)
    requires i < |messages|
  {
    Handled(BookAfter(b, messages[..i]), messages[i]).1 == Stop
  }

  lemma OneMore(b: Book, messages: seq<Message>, i: nat)
    requires i < |messages|
    ensures BookAfter(b, messages[..i + 1]) == Handled(BookAfter(b, messages[..i]), messages[i]).0
  {
    assert messages[..i + 1][..i] == messages[..i];
  }

  /** One message touches the debt of its own peer only. */
  lemma HandleTouchesOnePeer(b: Book, m: Message, p: Peer)
    requires p != m.peer
    ensures p in Handled(b, m).0 <==> p in b
    ensures DebtOf(Handled(b, m).0, p) == DebtOf(b, p)
  {
  }

  /** The messages about peer `p`. */
  function About(messages: seq<Message>, p: Peer): seq<Message> {
    if messages == [] then []
    else
      var m := messages[|messages| - 1];
      About(messages[..|messages| - 1], p) + if m.peer == p then [m] else []
  }

  /** So what is owed by and requested from a peer does not depend on how messages about
      other peers are interleaved with those about it. */
  lemma {:induction false} PeersAreIndependent(messages: seq<Message>, p: Peer)
    ensures DebtOf(BookAfter(map[], messages), p) == DebtOf(BookAfter(map[], About(messages, p)), p)
    ensures RequestedFrom(map[], messages, p) == RequestedFrom(map[], About(messages, p), p)
  {
    if messages != [] {
      var front, m := messages[..|messages| - 1], messages[|messages| - 1];
      PeersAreIndependent(front, p);
      if m.peer == p {
        var about := About(front, p) + [m];
        assert about[..|about| - 1] == About(front, p);
      } else {
        HandleTouchesOnePeer(BookAfter(map[], front), m, p);
        assert About(front, p) + [] == About(front, p);
      }
    }
  }

  // ----- What stops the process -----

  /** The bytes received from `p`. */
  function BytesFrom(messages: seq<Message>, p: Peer): int {
    if messages == [] then 0
    else
      var m := messages[|messages| - 1];
      BytesFrom(messages[..|messages| - 1], p) + if m.ReceivedFrom? && m.peer == p then m.size else 0
  }

  /** They are what is counted, modulo 2^32: no other message changes the count. */
  lemma {:induction false} ReceivedIsCounted(messages: seq<Message>, p: Peer)
    ensures DebtOf(BookAfter(map[], messages), p).received == BytesFrom(messages, p) % U32
  {
    if messages != [] {
      var front, m := messages[..|messages| - 1], messages[|messages| - 1];
      ReceivedIsCounted(front, p);
      if m.peer != p {
        HandleTouchesOnePeer(BookAfter(map[], front), m, p);
      } else if m.ReceivedFrom? {
        SumIsModulo(BytesFrom(front, p), m.size);
      }
    }
  }

  lemma SumIsModulo(total: int, size: int)
    ensures Add(total % U32, ToU32(size)) == (total + size) % U32
  {
    assert total == U32 * (total / U32) + total % U32 && size == U32 * (size / U32) + size % U32;
    var turns := total / U32 + size / U32 + if total % U32 + size % U32 < U32 then 0 else 1;
    assert total + size == U32 * turns + Add(total % U32, ToU32(size));
  }

  /** Exactly the payment requests for more than has been received from the peer, modulo 2^32,
      stop the process; any other payment request is processed. */
  lemma StopsExactly(messages: seq<Message>, i: nat)
    requires i < |messages|
    ensures
      var m, outcome := messages[i], Handled(BookAfter(map[], messages[..i]), messages[i]).1;
      var received := BytesFrom(messages[..i], m.peer) % U32;
      && (StopsAt(map[], messages, i) <==> m.RequestBy? && m.quantity > received)
      && (m.RequestBy? && m.quantity <= received ==> outcome == Process)
      && (outcome == Process ==> m.RequestBy?)
  {
    ReceivedIsCounted(messages[..i], messages[i].peer);
  }

  // ----- Conservation of bytes -----

  /** No message sent is larger than `bound`. */
  predicate SizesFit(messages: seq<Message>, bound: int) {
    forall i | 0 <= i < |messages| && messages[i].SentTo? :: 0 <= messages[i].size <= bound
  }

  /** Every byte sent to `p` has been requested or is still counted, and what is still
      counted is below the threshold. */
  predicate Conserved(messages: seq<Message>, p: Peer) {
    var d := DebtOf(BookAfter(map[], messages), p);
    && BytesTo(messages, p) == RequestedFrom(map[], messages, p) + d.transferred
    && d.transferred < REQUEST_PAYMENT_AFTER_BYTES
  }

  /** What one message adds to the bytes sent to `p`, and to what is requested from it. */
  function BytesIn(m: Message, p: Peer): int {
    if m.SentTo? && m.peer == p then m.size else 0
  }

  function RequestedBy(b: Book, m: Message, p: Peer): nat {
    var outcome := Handled(b, m).1;
    if m.peer == p && outcome.Request? then outcome.amount else 0
  }

  lemma MessageConserves(b: Book, m: Message, p: Peer)
    requires DebtOf(b, p).transferred < REQUEST_PAYMENT_AFTER_BYTES
    requires m.SentTo? ==> 0 <= m.size <= U32 - REQUEST_PAYMENT_AFTER_BYTES
    ensures
      var d := DebtOf(Handled(b, m).0, p);
      && DebtOf(b, p).transferred + BytesIn(m, p) == RequestedBy(b, m, p) + d.transferred
      && d.transferred < REQUEST_PAYMENT_AFTER_BYTES
  {
    if m.peer != p { HandleTouchesOnePeer(b, m, p); }
  }

  /** Byte-debt conservation, for any interleaving of messages of up to this size. */
  lemma {:induction false} BytesAreConserved(messages: seq<Message>, p: Peer)
    requires SizesFit(messages, U32 - REQUEST_PAYMENT_AFTER_BYTES)
    ensures Conserved(messages, p)
  {
    if messages != [] {
      var front, m := messages[..|messages| - 1], messages[|messages| - 1];
      BytesAreConserved(front, p);
      MessageConserves(BookAfter(map[], front), m, p);
    }
  }

  /** The bound is sharp: with larger messages, 2^32 bytes can disappear unrequested. */
  lemma SizeBoundIsSharp(bound: int, peer: Peer)
    requires 0 <= bound < U32
    ensures (forall messages, p :: SizesFit(messages, bound) ==> Conserved(messages, p))
       <==> bound <= U32 - REQUEST_PAYMENT_AFTER_BYTES
  {
    if bound <= U32 - REQUEST_PAYMENT_AFTER_BYTES {
      forall messages, p | SizesFit(messages, bound) ensures Conserved(messages, p) {
        BytesAreConserved(messages, p);
      }
    } else {
      var size := U32 - REQUEST_PAYMENT_AFTER_BYTES + 1;
      var messages := [SentTo(peer, U32 - size), SentTo(peer, size)];
      LargerMessagesLoseBytes(peer, size);
      assert SizesFit(messages, bound) && !Conserved(messages, peer);
    }
  }

  lemma LargerMessagesLoseBytes(p: Peer, size: int)
    requires U32 - REQUEST_PAYMENT_AFTER_BYTES < size < U32
    ensures
      var messages := [SentTo(p, U32 - size), SentTo(p, size)];
      && BytesTo(messages, p) == U32
      && RequestedFrom(map[], messages, p) == 0
      && DebtOf(BookAfter(map[], messages), p).transferred == 0
  {
    var messages := [SentTo(p, U32 - size), SentTo(p, size)];
    var first := [SentTo(p, U32 - size)];
    assert messages[..1] == first && first[..0] == [];
    assert BytesTo(first, p) == U32 - size && RequestedFrom(map[], first, p) == 0;
  }

  /** Whatever the sizes, nothing but multiples of 2^32 is ever lost; and `requested` is
      what was requested minus what was paid, up to such multiples. */
  lemma {:induction false} ConservedModulo(messages: seq<Message>, p: Peer) returns (lost: int, turns: int)
    ensures
      var d := DebtOf(BookAfter(map[], messages), p);
      && BytesTo(messages, p) == RequestedFrom(map[], messages, p) + d.transferred + U32 * lost
      && RequestedFrom(map[], messages, p) - PaidBy(messages, p) == d.requested + U32 * turns
      && d.transferred < REQUEST_PAYMENT_AFTER_BYTES
  {
    lost, turns := 0, 0;
    if messages != [] {
      var front, m := messages[..|messages| - 1], messages[|messages| - 1];
      lost, turns := ConservedModulo(front, p);
      var d := DebtOf(BookAfter(map[], front), p);
      if m.peer == p {
        if m.SentTo? {
          lost := lost + m.size / U32 + (if d.transferred + ToU32(m.size) < U32 then 0 else 1);
          var amount := Add(d.transferred, ToU32(m.size));
          if amount >= REQUEST_PAYMENT_AFTER_BYTES && d.requested + amount >= U32 { turns := turns + 1; }
        } else if m.Paid? && d.requested < m.amountOut {
          turns := turns - 1;
        }
      }
    }
  }

  // ----- The registry and the loop -----

  class Debt {
    const id: Peer
    var requestedAmount: Amount
    var transferredBytes: Amount
    var receivedBytes: Amount

    constructor (id: Peer)
      ensures this.id == id && State() == NO_DEBT
    {
      this.id := id;
      requestedAmount, transferredBytes, receivedBytes := 0, 0, 0;
    }

    function State(): DebtState
      reads this
    {
      DebtState(requestedAmount, transferredBytes, receivedBytes)
    }
  }

  class DebtRegistry {
    var store: map<Peer, Debt>

    constructor ()
      ensures Valid() && store == map[]
    {
      store := map[];
    }

    /** Each debt is kept under its own id, so that no two peers share one. */
    ghost predicate Valid()
      reads this, store.Values
    {
      forall p | p in store :: store[p].id == p
    }

    function View(): Book
      reads this, store.Values
    {
      map p | p in store :: store[p].State()
    }

    /** A peer without a debt gets a new one. */
    method GetDebt(id: Peer) returns (debt: Debt)
      requires Valid()
      modifies this
      ensures Valid() && id in store && store[id] == debt
      ensures debt.State() == DebtOf(old(View()), id)
      ensures View() == old(View())[id := debt.State()]
      ensures store.Values <= old(store.Values) + {debt} && (debt in old(store.Values) || fresh(debt))
    {
      if id in store {
        return store[id];
      }
      debt := new Debt(id);
      store := store[id := debt];
    }

    /** `RequirePaymentHandler`: at the threshold, everything counted so far is requested. */
    method RequirePayment(target: Peer, msgSize: int) returns (outcome: Outcome)
      requires Valid()
      modifies this, store.Values
      ensures Valid() && (View(), outcome) == Handled(old(View()), SentTo(target, msgSize))
      ensures forall d | d in store.Values :: d in old(store.Values) || fresh(d)
    {
      var debt := GetDebt(target);
      outcome := Quiet;
      debt.transferredBytes := Add(debt.transferredBytes, ToU32(msgSize));
      if debt.transferredBytes >= REQUEST_PAYMENT_AFTER_BYTES {
        outcome := Request(debt.transferredBytes);
        debt.requestedAmount := Add(debt.requestedAmount, debt.transferredBytes);
        debt.transferredBytes := 0;
      }
      assert View() == old(View())[target := debt.State()];
    }

    /** `RegisterReceivedBytesHandler`. */
    method RegisterReceivedBytes(from: Peer, msgSize: int)
      requires Valid()
      modifies this, store.Values
      ensures Valid() && (View(), Quiet) == Handled(old(View()), ReceivedFrom(from, msgSize))
      ensures forall d | d in store.Values :: d in old(store.Values) || fresh(d)
    {
      var debt := GetDebt(from);
      debt.receivedBytes := Add(debt.receivedBytes, ToU32(msgSize));
      assert View() == old(View())[from := debt.State()];
    }

    /** `InitiatePaymentHandler`; `quantity` is what the gateway says the price stands for. */
    method InitiatePayment(from: Peer, quantity: Amount) returns (outcome: Outcome)
      requires Valid()
      modifies this, store.Values
      ensures Valid() && (View(), outcome) == Handled(old(View()), RequestBy(from, quantity))
      ensures forall d | d in store.Values :: d in old(store.Values) || fresh(d)
    {
      var debt := GetDebt(from);
      outcome := if quantity > debt.receivedBytes then Stop else Process;
    }

    /** `ProcessPaymentStatusResponseHandler` for a session that was paid; `amountOut` is that
        of the session's transaction. */
    method PaymentStatus(from: Peer, amountOut: Amount)
      requires Valid()
      modifies this, store.Values
      ensures Valid() && (View(), Quiet) == Handled(old(View()), Paid(from, amountOut))
      ensures forall d | d in store.Values :: d in old(store.Values) || fresh(d)
    {
      var debt := GetDebt(from);
      debt.requestedAmount := Sub(debt.requestedAmount, amountOut);
      assert View() == old(View())[from := debt.State()];
    }

    method Handle(m: Message) returns (outcome: Outcome)
      requires Valid()
      modifies this, store.Values
      ensures Valid() && (View(), outcome) == Handled(old(View()), m)
      ensures forall d | d in store.Values :: d in old(store.Values) || fresh(d)
    {
      outcome := Quiet;
      match m
      case SentTo(peer, size) => outcome := RequirePayment(peer, size);
      case ReceivedFrom(peer, size) => RegisterReceivedBytes(peer, size);
      case RequestBy(peer, quantity) => outcome := InitiatePayment(peer, quantity);
      case Paid(peer, amountOut) => PaymentStatus(peer, amountOut);
      case NotPaid(_) =>
    }

    /** The event loop: one message after the other, until one stops the process. */
    method Run(messages: seq<Message>) returns (handled: nat, stopped: bool)
      requires Valid()
      modifies this, store.Values
      ensures Valid() && handled <= |messages| && View() == BookAfter(old(View()), messages[..handled])
      ensures stopped ==> handled > 0 && StopsAt(old(View()), messages, handled - 1)
      ensures !stopped ==> handled == |messages|
      ensures forall i | 0 <= i < (if stopped then handled - 1 else handled) :: !StopsAt(old(View()), messages, i)
    {
      handled, stopped := 0, false;
      while handled < |messages|
        invariant Valid() && handled <= |messages|
        invariant View() == BookAfter(old(View()), messages[..handled])
        invariant forall i | 0 <= i < handled :: !StopsAt(old(View()), messages, i)
        invariant forall d | d in store.Values :: d in old(store.Values) || fresh(d)
      {
        OneMore(old(View()), messages, handled);
        var outcome := Handle(messages[handled]);
        handled := handled + 1;
        if outcome == Stop {
          return handled, true;
        }
      }
    }
  }
}
