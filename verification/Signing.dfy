/** The pairwise signing loop leaves each transaction signed by exactly its payee and its
    payer, which is what the payee's verification asks for. */
module Signing {
  import opened Types
  import opened NodeModel
  import opened PaymentModel

  function SignedBy(r: Replacing, signatures: seq<Address>): Replacing {
    r.(pending := WithSignatures(r.pending, signatures))
  }

  function ByBoth(r: Replacing): Replacing {
    SignedBy(r, [r.pending.payee, r.pending.payer])
  }

  function ByBothAll(ts: seq<Replacing>): (signed: seq<Replacing>)
    ensures |signed| == |ts|
    ensures forall i | 0 <= i < |ts| :: signed[i] == ByBoth(ts[i])
  {
    seq(|ts|, i requires 0 <= i < |ts| => ByBoth(ts[i]))
  }

  /** Created transactions, service first: unsigned, each paid by the payee of the next, all
      payees on the route. */
  predicate Linked(known: set<Address>, ts: seq<Replacing>) {
    && (forall i | 0 <= i < |ts| ::
          && ts[i].pending.xdr.Some? && ts[i].pending.xdr.value.signatures == []
          && ts[i].pending.payee in known)
    && (forall i | 0 < i < |ts| :: ts[i].pending.payee == ts[i - 1].pending.payer)
  }

  lemma {:induction false} LoopSigns(known: set<Address>, ts: seq<Replacing>, idx: nat, debit: Replacing,
      signed: seq<Replacing>)
    requires Linked(known, ts) && 0 < idx <= |ts|
    requires debit == SignedBy(ts[idx - 1], [ts[idx - 1].pending.payee])
    requires signed == ByBothAll(ts[..idx - 1])
    ensures
      var last := ts[|ts| - 1];
      SignLoop(known, ts, idx, debit, signed)
      == Ok(PaymentModel.Signing(ByBothAll(ts[..|ts| - 1]), SignedBy(last, [last.pending.payee])))
    decreases |ts| - idx
  {
    if idx < |ts| {
      var node := ts[idx].pending.payee;
      var credit := SignedBy(ts[idx], [node]);
      assert [] + [node] == [node];
      assert SignPending(node, ts[idx]) == Ok(credit);
      assert SignPending(node, debit) == Ok(ByBoth(ts[idx - 1])) by {
        assert [ts[idx - 1].pending.payee] + [node] == [ts[idx - 1].pending.payee, ts[idx - 1].pending.payer];
      }
      assert ts[..idx] == ts[..idx - 1] + [ts[idx - 1]];
      assert signed + [ByBoth(ts[idx - 1])] == ByBothAll(ts[..idx]);
      LoopSigns(known, ts, idx + 1, credit, signed + [ByBoth(ts[idx - 1])]);
    }
  }

  /** What the client checks before it signs the last transaction. */
  predicate ClientAccepts(client: Address, pr: PaymentRequest, route: seq<Hop>, totalFee: Amount, own: Replacing)
    requires |route| >= 2
  {
    SignInitial(client, own, route[1].address, Add(pr.amount, totalFee)).Ok?
  }

  /** On every linked list of reachable nodes signing succeeds if and only if the client
      accepts the last transaction; then every transaction is signed by its payee and its
      payer, in that order. */
  lemma SigningIsComplete(reachable: set<Address>, client: Address, pr: PaymentRequest, route: seq<Hop>,
      created: Created)
    requires |route| >= 2 && created.made != [] && Linked(Addresses(route) * reachable, created.made)
    requires created.made[0].pending.payee == route[|route| - 1].address
    requires created.made[|created.made| - 1].pending.payer == client
    ensures
      var own := created.made[|created.made| - 1];
      if ClientAccepts(client, pr, route, created.totalFee, own)
      then SignAll(reachable, client, pr, route, created) == Ok(ByBothAll(created.made))
      else SignAll(reachable, client, pr, route, created).Err?
  {
    var ts := created.made;
    var k := |ts| - 1;
    assert [] + [ts[0].pending.payee] == [ts[0].pending.payee];
    var debit := SignedBy(ts[0], [ts[0].pending.payee]);
    assert SignService(route[|route| - 1].address, ts[0]) == Ok(debit);
    assert ts[..0] == [];
    LoopSigns(Addresses(route) * reachable, ts, 1, debit, []);
    assert [ts[k].pending.payee] + [client] == [ts[k].pending.payee, ts[k].pending.payer];
    assert ts == ts[..k] + [ts[k]];
    assert ByBothAll(ts[..k]) + [ByBoth(ts[k])] == ByBothAll(ts);
  }

  /** Such a transaction passes its payee's signature check, provided it was made by that
      payee for another payer. */
  lemma BothSignaturesSuffice(r: Replacing)
    requires
      var t := r.pending;
      t.xdr.Some? && t.xdr.value.source == t.payee && t.xdr.value.payer == t.payer && t.payer != t.payee
    ensures
      var e := ByBoth(r).pending.xdr.value;
      && SignaturesAccepted(r.pending.payee, e)
      && VerifySignatures(r.pending.payee, e) == Ok(())
  {
    var e := ByBoth(r).pending.xdr.value;
    assert e.signatures[0] == r.pending.payee && e.signatures[1] == r.pending.payer;
  }
}
