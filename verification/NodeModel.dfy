/** What one gateway node does, as functions of its state and of the sequence number
    its account currently has on the ledger. */
module NodeModel {
  import opened Types
  import Amounts

  /** `last` is the last sequence number handed out, 0 before the first one. `active`,
      `sessions` and `pending` are the three indices of the payment registry. */
  datatype NodeState = NodeState(
    address: Address,
    last: int,
    active: map<Address, Entry>,
    sessions: map<Session, Entry>,
    pending: map<Session, Amount>)

  function ActiveTransaction(n: NodeState, payer: Address): Option<Transaction> {
    if payer in n.active then Some(n.active[payer].tx) else None
  }

  /** The amount active for a payer. */
  function ActiveAmount(n: NodeState, payer: Address): Amount {
    if payer in n.active then n.active[payer].tx.amountIn else 0
  }

  /** The `AmountOut` of the transaction active for a payer. */
  function ActiveOut(n: NodeState, payer: Address): Amount {
    if payer in n.active then n.active[payer].tx.amountOut else 0
  }

  // ----- Create -----

  /** `createReferenceTransaction`: the new payment is added to the active one. */
  function Accumulate(pt: Transaction, ref: Option<Transaction>): Result<Replacing> {
    if ref.Some? && ref.value.xdr.Some? then
      var r := ref.value;
      if pt.payee != r.payee then Err(PayeeMismatch)
      else if pt.payer != r.payer then Err(PayerMismatch)
      else
        Ok(Replacing(pt.(amountOut := Add(r.amountOut, pt.amountOut), amountIn := Add(r.amountIn, pt.amountIn)), ref))
    else Ok(Replacing(pt, ref))
  }

  /** The number of a new envelope, and the last number handed out from then on: fresh
      without a reference, the reference's own number otherwise. */
  function Allocate(last: int, cur: int, ref: Option<Transaction>): (int, Result<int>) {
    var known := if last == 0 then cur else last;
    match ref
    case None => (known + 1, Ok(known + 1))
    case Some(r) => (known, if r.xdr.None? then Err(UnreadableEnvelope) else Ok(r.xdr.value.sequence))
  }

  function NewEnvelope(address: Address, sequence: int, payer: Address, amount: Amount): Envelope {
    Envelope(address, sequence, payer, address, Amounts.Stroops(amount), [])
  }

  /** `rootApi.CreateTransaction`. */
  function Issue(address: Address, last: int, cur: int, payerKnown: bool, tr: Replacing, payer: Address)
    : (int, Result<Replacing>) {
    if !payerKnown then (last, Err(UnknownAccount))
    else
      var (next, number) := Allocate(last, cur, tr.reference);
      match number
      case Err(e) => (next, Err(e))
      case Ok(sequence) =>
        var pending := tr.pending.(xdr := Some(NewEnvelope(address, sequence, payer, tr.pending.amountIn)));
        (next, if pending.payer == pending.payee then Err(SelfPayment) else Ok(tr.(pending := pending)))
  }

  function NewTransaction(address: Address, request: CreateRequest): Transaction {
    Transaction(address, request.totalIn, request.totalOut, None, request.payer, address, request.session)
  }

  /** `nodeImpl.CreateTransaction`. */
  function Create(n: NodeState, cur: int, payerKnown: bool, request: CreateRequest): (NodeState, Result<Replacing>) {
    match Accumulate(NewTransaction(n.address, request), ActiveTransaction(n, request.payer))
    case Err(e) => (n, Err(e))
    case Ok(tr) =>
      var (last, result) := Issue(n.address, n.last, cur, payerKnown, tr, request.payer);
      (n.(last := last), result)
  }

  // ----- Sign -----

  function SignEnvelope(signer: Address, t: Transaction): Result<Transaction> {
    if t.xdr.None? then Err(UnreadableEnvelope)
    else Ok(t.(xdr := Some(t.xdr.value.(signatures := t.xdr.value.signatures + [signer]))))
  }

  function SignPending(signer: Address, r: Replacing): Result<Replacing> {
    match SignEnvelope(signer, r.pending)
    case Err(e) => Err(e)
    case Ok(t) => Ok(r.(pending := t))
  }

  /** `SignServiceTransaction`. */
  function SignService(signer: Address, r: Replacing): Result<Replacing> {
    if r.pending.payee != signer then Err(PayeeMismatch) else SignPending(signer, r)
  }

  /** `SignChainTransaction`: the node signs what it is to receive and what it is to pay. If it
      cannot, its process ends. */
  function SignPair(signer: Address, credit: Replacing, debit: Replacing): Result<(Replacing, Replacing)> {
    match SignPending(signer, credit)
    case Err(_) => Err(NodeEnded)
    case Ok(received) =>
      match SignPending(signer, debit)
      case Err(_) => Err(NodeEnded)
      case Ok(paid) => Ok((received, paid))
  }

  // ----- Commit -----

  predicate SignaturesAccepted(address: Address, e: Envelope) {
    && e.source == address
    && e.payer in e.signatures
    && address in e.signatures
    && e.payer != address
  }

  function VerifySignatures(address: Address, e: Envelope): Result<()> {
    if e.source != address then Err(WrongSource)
    else if e.payer !in e.signatures then Err(MissingPayerSignature)
    else if address == e.payer || address !in e.signatures then Err(MissingSourceSignature)
    else Ok(())
  }

  /** `VerifyTransaction`. */
  function Verify(address: Address, cur: int, t: Transaction): Result<()> {
    if t.xdr.None? then Err(UnreadableEnvelope)
    else if t.xdr.value.sequence <= cur then Err(StaleSequence)
    else VerifySignatures(address, t.xdr.value)
  }

  function Save(n: NodeState, entry: Entry): NodeState {
    n.(active := n.active[entry.tx.payer := entry], sessions := n.sessions[entry.tx.session := entry])
  }

  /** `commitTransaction` in accumulating mode. */
  function Commit(n: NodeState, cur: int, t: Transaction): (NodeState, Result<()>) {
    if t.xdr.None? then (n, Err(UnreadableEnvelope))
    else
      match Verify(n.address, cur, t)
      case Err(e) => (n, Err(e))
      case Ok(_) => (Save(n, Entry(t, t.xdr.value.sequence)), Ok(()))
  }

  function AddUsage(n: NodeState, session: Session, amount: Amount): NodeState {
    n.(pending := n.pending[session := if session in n.pending then Add(n.pending[session], amount) else amount])
  }

  function ReducePending(n: NodeState, session: Session, amount: Amount): (NodeState, Result<()>) {
    if session !in n.pending then (n, Err(UnknownSession))
    else
      var left := Sub(n.pending[session], amount);
      (n.(pending := if left == 0 then n.pending - {session} else n.pending[session := left]), Ok(()))
  }

  /** `CommitServiceTransaction`: the session named by the payment request is reduced by
      the committed transaction's accumulated `AmountOut`. */
  function CommitService(n: NodeState, cur: int, t: Transaction, session: Session): (NodeState, Result<()>) {
    var (committed, result) := Commit(n, cur, t);
    if result.Err? then (committed, result) else ReducePending(committed, session, t.amountOut)
  }

  // ----- Flush -----

  /** `order` lists the active entries, each once. */
  ghost predicate Lists(order: seq<Entry>, active: map<Address, Entry>) {
    && (forall i | 0 <= i < |order| :: order[i].tx.payer in active && active[order[i].tx.payer] == order[i])
    && (forall i, j | 0 <= i < j < |order| :: order[i].tx.payer != order[j].tx.payer)
    && (forall p | p in active :: active[p] in order)
  }

  predicate SortedBySequence(order: seq<Entry>) {
    forall i, j | 0 <= i < j < |order| :: order[i].sequence <= order[j].sequence
  }

  function CountStale(order: seq<Entry>, cur: int): (k: nat)
    ensures k <= |order|
  {
    if order == [] then 0
    else CountStale(order[..|order| - 1], cur) + if order[|order| - 1].sequence <= cur then 1 else 0
  }

  /** `RemoveTransactionsIfSequence`: when the first entry is stale, as many entries are
      cut from the front as are stale anywhere in the list. */
  function DropStale(order: seq<Entry>, cur: int): seq<Entry> {
    if order != [] && order[0].sequence <= cur then order[CountStale(order, cur)..] else order
  }

  datatype Submitted = Submitted(settled: seq<Entry>, cur: int)

  /** The submission loop: entries are settled until the ledger refuses one. */
  function SubmitRun(cur: int, queue: seq<Entry>, fates: seq<Fate>): (r: Submitted)
    ensures |r.settled| <= |queue| && r.settled == queue[..|r.settled|]
    decreases |queue|
  {
    if queue == [] || queue[0].sequence != cur + 1 || HeadFate(fates) == Rejected then Submitted([], cur)
    else if HeadFate(fates) == Consumed then Submitted([], cur + 1)
    else
      var rest := SubmitRun(cur + 1, queue[1..], RestFates(fates));
      Submitted([queue[0]] + rest.settled, rest.cur)
  }

  /** `CompletePayment`. */
  function Complete(n: NodeState, entry: Entry): NodeState {
    n.(active := n.active - {entry.tx.payer}, sessions := n.sessions - {entry.tx.session})
  }

  function CompleteAll(n: NodeState, settled: seq<Entry>): NodeState
    decreases |settled|
  {
    if settled == [] then n else CompleteAll(Complete(n, settled[0]), settled[1..])
  }

  /** The number from which a flush starts submitting. */
  function BumpedFrom(cur: int, first: int): int {
    if first > cur + 1 then first - 1 else cur
  }

  datatype Flushed = Flushed(node: NodeState, cur: int, settled: seq<Entry>, ok: bool)

  /** `FlushTransactions` on the active entries, sorted as `order`. */
  function Flush(n: NodeState, cur: int, order: seq<Entry>, bumpAccepted: bool, fates: seq<Fate>): Flushed {
    var queue := DropStale(order, cur);
    if queue == [] then Flushed(n, cur, [], true)
    else if queue[0].sequence > cur + 1 && !bumpAccepted then Flushed(n, cur, [], false)
    else
      var run := SubmitRun(BumpedFrom(cur, queue[0].sequence), queue, fates);
      Flushed(CompleteAll(n, run.settled), run.cur, run.settled, true)
  }

  // ----- Facts about flushing used throughout -----

  /** Cutting from the front of a sorted list keeps exactly the entries that are not
      stale, in order. */
  lemma {:induction false} DropStaleIsFilter(order: seq<Entry>, cur: int)
    requires SortedBySequence(order)
    ensures DropStale(order, cur) == Fresh(order, cur)
    ensures forall i | 0 <= i < |DropStale(order, cur)| :: DropStale(order, cur)[i].sequence > cur
    ensures SortedBySequence(DropStale(order, cur))
  {
    SplitAtStale(order, cur);
    var k := CountStale(order, cur);
    FreshOfSplit(order, k, cur);
    if order != [] && order[0].sequence > cur { assert k == 0; }
    assert order[0..] == order;
  }

  function Fresh(order: seq<Entry>, cur: int): seq<Entry> {
    if order == [] then []
    else (if order[0].sequence > cur then [order[0]] else []) + Fresh(order[1..], cur)
  }

  lemma {:induction false} SplitAtStale(order: seq<Entry>, cur: int)
    requires SortedBySequence(order)
    ensures
      var k := CountStale(order, cur);
      && (forall i | 0 <= i < k :: order[i].sequence <= cur)
      && (forall i | k <= i < |order| :: order[i].sequence > cur)
  {
    if order != [] {
      var front := order[..|order| - 1];
      SplitAtStale(front, cur);
      assert forall i | 0 <= i < |front| :: front[i] == order[i];
    }
  }

  lemma {:induction false} FreshOfSplit(order: seq<Entry>, k: nat, cur: int)
    requires k <= |order|
    requires forall i | 0 <= i < k :: order[i].sequence <= cur
    requires forall i | k <= i < |order| :: order[i].sequence > cur
    ensures Fresh(order, cur) == order[k..]
  {
    if order != [] {
      var rest := order[1..];
      assert forall i | 0 <= i < |rest| :: rest[i] == order[i + 1];
      if k == 0 { FreshOfSplit(rest, 0, cur); assert rest[0..] == rest; }
      else { FreshOfSplit(rest, k - 1, cur); assert rest[k - 1..] == order[k..]; }
    }
  }

  function PayersOf(entries: seq<Entry>): set<Address> {
    set e | e in entries :: e.tx.payer
  }

  function SessionsOf(entries: seq<Entry>): set<Session> {
    set e | e in entries :: e.tx.session
  }

  /** Completing entries removes their payers from one index and their sessions from the other,
      and nothing else. */
  lemma {:induction false} CompleteAllRemoves(n: NodeState, settled: seq<Entry>)
    ensures
      var m := CompleteAll(n, settled);
      && m.address == n.address && m.last == n.last && m.pending == n.pending
      && m.active == n.active - PayersOf(settled) && m.sessions == n.sessions - SessionsOf(settled)
    decreases |settled|
  {
    if settled != [] {
      CompleteAllRemoves(Complete(n, settled[0]), settled[1..]);
      assert settled == [settled[0]] + settled[1..];
      assert PayersOf(settled) == {settled[0].tx.payer} + PayersOf(settled[1..]);
      assert SessionsOf(settled) == {settled[0].tx.session} + SessionsOf(settled[1..]);
    }
  }

  /** The submission loop settles entries under consecutive numbers, starting right after
      the account's own, and leaves the account at the last number used. */
  lemma {:induction false} SubmitRunNumbers(cur: int, queue: seq<Entry>, fates: seq<Fate>)
    ensures
      var r := SubmitRun(cur, queue, fates);
      && (forall i | 0 <= i < |r.settled| :: r.settled[i].sequence == cur + 1 + i)
      && cur + |r.settled| <= r.cur <= cur + |r.settled| + 1
      && (Consumed !in fates ==> r.cur == cur + |r.settled|)
      && (r.cur > cur + |r.settled| ==> |r.settled| < |queue| && queue[|r.settled|].sequence == r.cur)
    decreases |queue|
  {
    if queue == [] || queue[0].sequence != cur + 1 || HeadFate(fates) != Applied {
    } else {
      SubmitRunNumbers(cur + 1, queue[1..], RestFates(fates));
    }
  }

  ghost predicate Keyed(active: map<Address, Entry>) {
    forall p | p in active :: active[p].tx.payer == p
  }

  predicate StrictlySorted(order: seq<Entry>) {
    forall i, j | 0 <= i < j < |order| :: order[i].sequence < order[j].sequence
  }

  /** What a flush submits: the part of the sorted list that is not stale. */
  lemma QueueIsSuffix(order: seq<Entry>, cur: int) returns (k: nat)
    requires SortedBySequence(order)
    ensures k <= |order| && DropStale(order, cur) == order[k..]
    ensures forall i | 0 <= i < k :: order[i].sequence <= cur
    ensures forall i | k <= i < |order| :: order[i].sequence > cur
  {
    SplitAtStale(order, cur);
    k := CountStale(order, cur);
    if order != [] && order[0].sequence > cur { assert k == 0 && order[0..] == order; }
    if order == [] { assert order[0..] == order; }
  }

  /** Which entries a flush settles: active ones, a prefix of the queue; and exactly their
      payers leave the active index. */
  lemma FlushRemoves(n: NodeState, cur: int, order: seq<Entry>, bump: bool, fates: seq<Fate>)
    requires Lists(order, n.active) && SortedBySequence(order) && Keyed(n.active)
    ensures
      var f := Flush(n, cur, order, bump, fates);
      && f.node.address == n.address && f.node.last == n.last && f.node.pending == n.pending
      && (forall e | e in f.settled :: e in order && e.tx.payer in n.active && n.active[e.tx.payer] == e)
      && (forall p :: p in f.node.active <==> p in n.active && n.active[p] !in f.settled)
      && (forall p | p in f.node.active :: f.node.active[p] == n.active[p])
  {
    var f := Flush(n, cur, order, bump, fates);
    var k := QueueIsSuffix(order, cur);
    assert forall e | e in f.settled :: e in order[k..];
    assert f.node == CompleteAll(n, f.settled);
    CompleteAllRemoves(n, f.settled);
    forall p ensures p in f.node.active <==> p in n.active && n.active[p] !in f.settled {
      if p in n.active && n.active[p] in f.settled { assert p in PayersOf(f.settled); }
    }
  }

  /** A stale entry outlives every flush: it is not settled, and stays in its payer's slot. */
  lemma StaleStays(n: NodeState, cur: int, order: seq<Entry>, bump: bool, fates: seq<Fate>, p: Address)
    requires Keyed(n.active) && Lists(order, n.active) && SortedBySequence(order)
    requires p in n.active && n.active[p].sequence <= cur
    ensures
      var f := Flush(n, cur, order, bump, fates);
      && p in f.node.active && f.node.active[p] == n.active[p] && cur <= f.cur
      && (forall i | 0 <= i < |f.settled| :: f.settled[i].tx.payer != p)
  {
    var f := Flush(n, cur, order, bump, fates);
    FlushRemoves(n, cur, order, bump, fates);
    FlushNumbers(n, cur, order, bump, fates);
    forall i | 0 <= i < |f.settled| ensures f.settled[i].tx.payer != p {
      assert f.settled[i] in f.settled;
    }
    assert n.active[p] !in f.settled;
  }

  /** One round of the submission loop. */
  lemma SubmitRunStep(cur: int, queue: seq<Entry>, fates: seq<Fate>)
    requires queue != []
    ensures
      var run, e := SubmitRun(cur, queue, fates), queue[0];
      if e.sequence != cur + 1 || HeadFate(fates) == Rejected then run == Submitted([], cur)
      else if HeadFate(fates) == Consumed then run == Submitted([], cur + 1)
      else
        var rest := SubmitRun(cur + 1, queue[1..], RestFates(fates));
        && run.cur == rest.cur && run.settled != [] && run.settled[0] == e && run.settled[1..] == rest.settled
  {
  }

  /** Under which numbers a sorted queue settles: consecutive ones from its first on. If no
      number is used up in vain, what stays in the queue is above the account's number. */
  lemma QueueNumbers(cur: int, queue: seq<Entry>, fates: seq<Fate>)
    requires queue != [] && queue[0].sequence > cur && SortedBySequence(queue)
    ensures
      var run := SubmitRun(BumpedFrom(cur, queue[0].sequence), queue, fates);
      var k := |run.settled|;
      && (forall i | 0 <= i < k :: run.settled[i].sequence == queue[0].sequence + i)
      && cur <= run.cur <= queue[|queue| - 1].sequence
      && (k > 0 ==> queue[0].sequence + k - 1 <= run.cur)
      && (Consumed !in fates && StrictlySorted(queue) ==> forall i | k <= i < |queue| :: queue[i].sequence > run.cur)
  {
    var start := BumpedFrom(cur, queue[0].sequence);
    SubmitRunNumbers(start, queue, fates);
    var run := SubmitRun(start, queue, fates);
    var k := |run.settled|;
    assert forall i | 0 <= i < k :: run.settled[i] == queue[i];
    if k > 0 { assert queue[k - 1].sequence == start + k; }
  }

  /** The account's number never falls, nor rises above the active ones; settled entries
      lie between its old and new value. */
  lemma FlushNumbers(n: NodeState, cur: int, order: seq<Entry>, bump: bool, fates: seq<Fate>)
    requires SortedBySequence(order)
    ensures
      var f := Flush(n, cur, order, bump, fates);
      && cur <= f.cur
      && (f.cur > cur ==> order != [] && f.cur <= order[|order| - 1].sequence)
      && (forall i | 0 <= i < |f.settled| :: cur < f.settled[i].sequence <= f.cur)
      && (forall i, j | 0 <= i < j < |f.settled| :: f.settled[i].sequence < f.settled[j].sequence)
  {
    var queue := DropStale(order, cur);
    var k := QueueIsSuffix(order, cur);
    if queue != [] {
      QueueNumbers(cur, queue, fates);
      assert queue[|queue| - 1] == order[|order| - 1];
    }
  }

  /** If no number is used up in vain, every entry that was not stale has settled or is
      still above the account's number. */
  lemma FlushLeavesNoneStale(n: NodeState, cur: int, order: seq<Entry>, bump: bool, fates: seq<Fate>, e: Entry)
    requires StrictlySorted(order) && Consumed !in fates
    requires e in order && e.sequence > cur
    ensures
      var f := Flush(n, cur, order, bump, fates);
      e in f.settled || e.sequence > f.cur
  {
    var f := Flush(n, cur, order, bump, fates);
    var i := QueueHolds(order, cur, e);
    if f.settled != [] || f.cur != cur {
      QueueLeaves(cur, DropStale(order, cur), fates, i);
    }
  }

  lemma QueueHolds(order: seq<Entry>, cur: int, e: Entry) returns (i: nat)
    requires StrictlySorted(order) && e in order && e.sequence > cur
    ensures StrictlySorted(DropStale(order, cur))
    ensures i < |DropStale(order, cur)| && DropStale(order, cur)[i] == e
    ensures DropStale(order, cur)[0].sequence > cur
  {
    var k := QueueIsSuffix(order, cur);
    var j :| 0 <= j < |order| && order[j] == e;
    i := j - k;
    SuffixSorted(order, k);
    assert order[k..][i] == order[j];
  }

  lemma SuffixSorted(order: seq<Entry>, k: nat)
    requires StrictlySorted(order) && k <= |order|
    ensures StrictlySorted(order[k..])
  {
    forall i, j | 0 <= i < j < |order[k..]| ensures order[k..][i].sequence < order[k..][j].sequence {
      assert order[k..][i] == order[k + i] && order[k..][j] == order[k + j];
    }
  }

  lemma QueueLeaves(cur: int, queue: seq<Entry>, fates: seq<Fate>, i: nat)
    requires StrictlySorted(queue) && i < |queue| && queue[0].sequence > cur && Consumed !in fates
    ensures
      var run := SubmitRun(BumpedFrom(cur, queue[0].sequence), queue, fates);
      queue[i] in run.settled || queue[i].sequence > run.cur
  {
    QueueNumbers(cur, queue, fates);
    var run := SubmitRun(BumpedFrom(cur, queue[0].sequence), queue, fates);
    if i < |run.settled| { assert run.settled[i] == queue[i]; }
  }

  /** What the submission loop leaves at or below the account's number is at that number. */
  lemma StaleInQueue(cur: int, queue: seq<Entry>, fates: seq<Fate>, i: nat)
    requires StrictlySorted(queue) && i < |queue| && queue[0].sequence > cur
    ensures
      var run := SubmitRun(BumpedFrom(cur, queue[0].sequence), queue, fates);
      queue[i] in run.settled || queue[i].sequence >= run.cur
  {
    var start := BumpedFrom(cur, queue[0].sequence);
    SubmitRunNumbers(start, queue, fates);
    var run := SubmitRun(start, queue, fates);
    var k := |run.settled|;
    if i < k {
      assert run.settled[i] == queue[i];
    } else if run.cur == start + k && k > 0 {
      assert run.settled[k - 1] == queue[k - 1];
    }
  }

  // ----- Listing the active entries -----

  /** One more entry, inserted anywhere. */
  lemma ListsWith(list: seq<Entry>, active: map<Address, Entry>, e: Entry, k: nat)
    requires Lists(list, active) && e.tx.payer !in active && k <= |list|
    ensures Lists(list[..k] + [e] + list[k..], active[e.tx.payer := e])
  {
    var longer := list[..k] + [e] + list[k..];
    Inserted(list, e, k);
    PayersDiffer(list, e, k);
    forall i | 0 <= i < |longer|
      ensures longer[i].tx.payer in active[e.tx.payer := e] && active[e.tx.payer := e][longer[i].tx.payer] == longer[i]
    {
      if i < k { assert longer[i] == list[i]; } else if i > k { assert longer[i] == list[i - 1]; }
    }
    forall p | p in active ensures active[p] in longer {
      assert active[p] in list;
    }
  }

  lemma PayersDiffer(list: seq<Entry>, e: Entry, k: nat)
    requires k <= |list| && forall i, j | 0 <= i < j < |list| :: list[i].tx.payer != list[j].tx.payer
    requires forall i | 0 <= i < |list| :: list[i].tx.payer != e.tx.payer
    ensures
      var longer := list[..k] + [e] + list[k..];
      forall i, j | 0 <= i < j < |longer| :: longer[i].tx.payer != longer[j].tx.payer
  {
    Inserted(list, e, k);
  }

  /** Where the elements of the longer list come from. */
  lemma Inserted<T>(list: seq<T>, e: T, k: nat)
    requires k <= |list|
    ensures
      var longer := list[..k] + [e] + list[k..];
      && |longer| == |list| + 1 && longer[k] == e
      && (forall i | 0 <= i < k :: longer[i] == list[i])
      && (forall i | k < i < |longer| :: longer[i] == list[i - 1])
      && (forall x | x in list :: x in longer)
  {
    var longer := list[..k] + [e] + list[k..];
    assert list == list[..k] + list[k..];
  }

  lemma InsertSorts(sorted: seq<Entry>, e: Entry, k: nat)
    requires SortedBySequence(sorted) && k <= |sorted|
    requires k == 0 || sorted[k - 1].sequence <= e.sequence
    requires forall j | k <= j < |sorted| :: sorted[j].sequence > e.sequence
    ensures SortedBySequence(sorted[..k] + [e] + sorted[k..])
  {
    var longer := sorted[..k] + [e] + sorted[k..];
    assert forall i | 0 <= i < |longer| ::
        longer[i] == if i < k then sorted[i] else if i == k then e else sorted[i - 1];
  }

  /** The active entries can always be listed in the order of their numbers. */
  lemma {:induction false} SortedListing(active: map<Address, Entry>) returns (order: seq<Entry>)
    requires Keyed(active)
    ensures Lists(order, active) && SortedBySequence(order)
    decreases |active|
  {
    order := [];
    if active != map[] {
      var p :| p in active;
      var rest := active - {p};
      assert active == rest[p := active[p]];
      order := SortedListing(rest);
      var k := |order|;
      while k > 0 && order[k - 1].sequence > active[p].sequence
        invariant 0 <= k <= |order|
        invariant forall j | k <= j < |order| :: order[j].sequence > active[p].sequence
      {
        k := k - 1;
      }
      ListsWith(order, rest, active[p], k);
      InsertSorts(order, active[p], k);
      order := order[..k] + [active[p]] + order[k..];
    }
  }
}
