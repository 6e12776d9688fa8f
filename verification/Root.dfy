/** A node's key and its view of the ledger: numbers new transactions, checks what it is
    asked to commit, and submits. */
module Root {
  import opened Types
  import opened LedgerModel
  import opened NodeModel

  class RootApi {
    const address: Address
    const ledger: Ledger
    /** 0 until the first transaction is created. */
    var lastSequenceId: int

    constructor (address: Address, ledger: Ledger)
      ensures this.address == address && this.ledger == ledger && lastSequenceId == 0
    {
      this.address, this.ledger, lastSequenceId := address, ledger, 0;
    }

    /** The account's sequence number on the ledger. */
    function Current(): int
      reads ledger
    {
      SequenceOf(ledger.State(), address)
    }

    /** Builds the envelope of `tr`'s pending transaction. */
    method CreateTransaction(request: CreateRequest, tr: Replacing) returns (result: Result<Replacing>)
      modifies this`lastSequenceId
      ensures (lastSequenceId, result)
           == Issue(address, old(lastSequenceId), Current(), request.payer in ledger.sequence, tr, request.payer)
    {
      if request.payer !in ledger.sequence {
        return Err(UnknownAccount);
      }
      if lastSequenceId == 0 {
        lastSequenceId := Current();
      }
      var provider;
      if tr.reference.None? {
        provider := lastSequenceId;
        lastSequenceId := lastSequenceId + 1;
      } else {
        if tr.reference.value.xdr.None? {
          return Err(UnreadableEnvelope);
        }
        provider := tr.reference.value.xdr.value.sequence - 1;
      }
      // The envelope carries the provider's number plus one.
      var xdr := NewEnvelope(address, provider + 1, request.payer, tr.pending.amountIn);
      var issued := tr.(pending := tr.pending.(xdr := Some(xdr)));
      if issued.pending.payer == issued.pending.payee {
        return Err(SelfPayment);
      }
      return Ok(issued);
    }

    method SignPaymentTransaction(t: Transaction) returns (result: Result<Transaction>)
      ensures result == SignEnvelope(address, t)
    {
      if t.xdr.None? {
        return Err(UnreadableEnvelope);
      }
      var xdr := t.xdr.value;
      return Ok(t.(xdr := Some(xdr.(signatures := xdr.signatures + [address]))));
    }

    method VerifyTransaction(t: Transaction) returns (result: Result<()>)
      ensures result == Verify(address, Current(), t)
      ensures result.Ok?
          <==> t.xdr.Some? && t.xdr.value.sequence > Current() && SignaturesAccepted(address, t.xdr.value)
    {
      if t.xdr.None? {
        return Err(UnreadableEnvelope);
      }
      if t.xdr.value.sequence <= Current() {
        return Err(StaleSequence);
      }
      result := VerifyTransactionSignatures(t.xdr.value);
    }

    /** A signature counts for the payer if it can, for the node only otherwise. */
    method VerifyTransactionSignatures(e: Envelope) returns (result: Result<()>)
      ensures result == VerifySignatures(address, e)
      ensures result.Ok? <==> SignaturesAccepted(address, e)
    {
      if e.source != address {
        return Err(WrongSource);
      }
      var payerVerified, sourceVerified := false, false;
      for i := 0 to |e.signatures|
        invariant payerVerified <==> e.payer in e.signatures[..i]
        invariant sourceVerified <==> address != e.payer && address in e.signatures[..i]
      {
        assert e.signatures[..i + 1] == e.signatures[..i] + [e.signatures[i]];
        if e.signatures[i] == e.payer {
          payerVerified := true;
          continue;
        }
        if e.signatures[i] == address {
          sourceVerified := true;
        }
      }
      assert e.signatures[..|e.signatures|] == e.signatures;
      if !payerVerified {
        return Err(MissingPayerSignature);
      }
      if !sourceVerified {
        return Err(MissingSourceSignature);
      }
      return Ok(());
    }

    method RemoveTransactionsIfSequence(list: seq<Entry>) returns (left: seq<Entry>)
      requires list != []
      ensures left == DropStale(list, Current())
    {
      left := list;
      var toRemove := 0;
      if list[0].sequence <= Current() {
        for i := 0 to |list|
          invariant toRemove == CountStale(list[..i], Current())
        {
          assert list[..i + 1][..i] == list[..i];
          if list[i].sequence <= Current() {
            toRemove := toRemove + 1;
          }
        }
        assert list[..|list|] == list;
        left := list[toRemove..];
      }
    }

    /** Raises the account's number to just below the first transaction's. */
    method BumpSequenceIfNeed(first: Entry, accepted: bool) returns (ok: bool)
      modifies ledger
      ensures ok <==> first.sequence <= old(Current()) + 1 || accepted
      ensures ledger.balance == old(ledger.balance)
      ensures ok && first.sequence > old(Current()) + 1
        ==> ledger.sequence == old(ledger.sequence)[address := BumpedFrom(old(Current()), first.sequence)]
      ensures !ok || first.sequence <= old(Current()) + 1 ==> ledger.sequence == old(ledger.sequence)
      ensures ok ==> Current() == BumpedFrom(old(Current()), first.sequence)
    {
      var cur := Current();
      ok := true;
      if first.sequence > cur + 1 {
        ok := ledger.SubmitBump(address, cur + 1, first.sequence - 1, accepted);
      }
    }

    method SubmitTransactionXDR(xdr: Option<Envelope>, fate: Fate) returns (ok: bool)
      modifies ledger
      ensures xdr.None? ==> !ok && ledger.State() == old(ledger.State())
      ensures xdr.Some? ==> (ledger.State(), ok) == Submit(old(ledger.State()), xdr.value, fate)
    {
      if xdr.None? {
        return false;
      }
      ok := ledger.SubmitPayment(xdr.value, fate);
    }
  }
}
