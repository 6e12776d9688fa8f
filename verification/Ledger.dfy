/** The Stellar network as the gateway sees it: a sequence number and a token balance
    for each account. */
module LedgerModel {
  import opened Types

  datatype LedgerState = LedgerState(sequence: map<Address, int>, balance: map<Address, int>)

  function SequenceOf(l: LedgerState, a: Address): int {
    if a in l.sequence then l.sequence[a] else 0
  }

  function BalanceIn(balance: map<Address, int>, a: Address): int {
    if a in balance then balance[a] else 0
  }

  function Transfer(balance: map<Address, int>, e: Envelope): map<Address, int> {
    var paid := balance[e.payer := BalanceIn(balance, e.payer) - e.stroops];
    paid[e.payee := BalanceIn(paid, e.payee) + e.stroops]
  }

  /** Both parties have signed. */
  predicate Authorised(e: Envelope) {
    e.source in e.signatures && e.payer in e.signatures
  }

  /** The ledger's rule: only the number right after the account's own is usable. */
  predicate Usable(l: LedgerState, e: Envelope) {
    Authorised(e) && e.sequence == SequenceOf(l, e.source) + 1
  }

  function Submit(l: LedgerState, e: Envelope, fate: Fate): (LedgerState, bool) {
    if !Usable(l, e) || fate == Rejected then (l, false)
    else
      var numbered := l.(sequence := l.sequence[e.source := e.sequence]);
      if fate == Consumed then (numbered, false)
      else (numbered.(balance := Transfer(l.balance, e)), true)
  }

  /** The ledger applies exactly what both parties have signed, under the next number of its
      source; and whatever it does, it moves no balance and no number else. */
  lemma AppliesExactly(l: LedgerState, e: Envelope, fate: Fate)
    ensures
      var (l', ok) := Submit(l, e, fate);
      var next := e.source in e.signatures && e.payer in e.signatures && e.sequence == SequenceOf(l, e.source) + 1;
      && (ok <==> next && fate == Applied)
      && l'.balance == (if ok then Transfer(l.balance, e) else l.balance)
      && l'.sequence == (if next && fate != Rejected then l.sequence[e.source := e.sequence] else l.sequence)
  {
  }

  /** A bump-sequence transaction uses up the next number and then raises the account's
      number to `bumpTo`, if that is higher (Specification section of CAP-0001). */
  function Bump(l: LedgerState, account: Address, number: int, bumpTo: int, accepted: bool): (LedgerState, bool) {
    if number != SequenceOf(l, account) + 1 || !accepted then (l, false)
    else (l.(sequence := l.sequence[account := if number < bumpTo then bumpTo else number]), true)
  }

  class Ledger {
    var sequence: map<Address, int>
    var balance: map<Address, int>

    constructor (sequence: map<Address, int>, balance: map<Address, int>)
      ensures State() == LedgerState(sequence, balance)
    {
      this.sequence, this.balance := sequence, balance;
    }

    function State(): LedgerState
      reads this
    {
      LedgerState(sequence, balance)
    }

    method SubmitPayment(e: Envelope, fate: Fate) returns (ok: bool)
      modifies this
      ensures (State(), ok) == Submit(old(State()), e, fate)
    {
      if !Usable(State(), e) || fate == Rejected {
        return false;
      }
      sequence := sequence[e.source := e.sequence];
      if fate == Consumed {
        return false;
      }
      balance := Transfer(balance, e);
      return true;
    }

    method SubmitBump(account: Address, number: int, bumpTo: int, accepted: bool) returns (ok: bool)
      modifies this
      ensures (State(), ok) == Bump(old(State()), account, number, bumpTo, accepted)
    {
      if number != SequenceOf(State(), account) + 1 || !accepted {
        return false;
      }
      sequence := sequence[account := if number < bumpTo then bumpTo else number];
      return true;
    }
  }
}
