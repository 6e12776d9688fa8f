# Payment gateway: accumulating payments through a chain of nodes

A client pays a service through a chain of nodes. At every hop the payee creates a
Stellar-style transaction on its own account, with the hop's payer as the source of the
payment. Repeated payments of one payer are merged: the new transaction replaces the pending
one under the same sequence number and for the sum of the amounts. Each node later flushes its
pending transactions to the ledger, in the order of their numbers.

The project models this protocol together with the byte accounting that gives rise to payments,
and proves what it guarantees, and where it does not, what exactly the condition is.

| files | contents |
|---|---|
| `Types`, `Floats`, `Amounts`, `Ledger` | 32-bit amounts, envelopes, transactions; binary floating point; printing and reading back amounts; the ledger |
| `NodeModel`, `PaymentModel` | what a node and a client do, as functions of their states |
| `NodeAnswers`, `PaymentAnswers` | what each command and each phase of a payment accepts, refuses and changes, for any state |
| `NodeRuns`, `NodeLaws`, `StuckPayers`, `Draining`, `Collisions`, `ForeignCommits` | one node over whole runs of Create, Commit and Flush steps, and of commits of arbitrary transactions |
| `Signing`, `Positions`, `Creation`, `Payments`, `NodesAfter`, `EndToEnd` | whole payments, and any sequence of payments and flushes |
| `Interleaving` | all nodes at once, with any number of payments interleaved step by step |
| `Registry`, `RegistryRuns`, `Root`, `Node`, `Network`, `Route`, `Client` | the program's objects; each method is proved to do what the functions say |
| `Debts`, `Commodity` | bytes sent and received, payment requests, prices |

The main results are `EndToEnd.EndToEndConservation`, `EndToEnd.DrainableExactly`,
`Interleaving.PaymentsAccounting`, `Interleaving.InterleavedPayments`,
`NodeLaws.AccumulationConserves`, `NodeLaws.NeverSettledAndActive`, `StuckPayers.StuckExactly`,
`ForeignCommits.ForeignSafeExactly`, `Draining.DrainingTerminates`, `Payments.CommitPrefix`,
`Payments.PaymentOutcome`, `Payments.PaymentSucceedsExactly`, `NodesAfter.PaymentAtPayee`,
`NodesAfter.PaymentReducesSession`, `PaymentAnswers.CommitsOnlyAcceptable`, `Amounts.RoundTripExactly`,
`Amounts.BitExactly` and `Debts.BytesAreConserved`.

Amounts are 32 bits wide and wrap around wherever the program's do. A payment *fits*
(`Creation.Fits`) when its route has at least two nodes with distinct addresses, and no accumulated
amount exceeds 32 bits. It can *start* (`Creation.Startable`) when moreover all nodes of the route
answer, the route leads from the client to the service, the reported balance covers the amount, and
the client can read back the amount due on its own hop. It is *admissible*
(`Payments.Admissible`) when moreover the service knows the session and no payer on the route has a
stale transaction pending at its payee. A pending transaction is *stale* when its number is no
longer above the number of its node's account. The *position* of an address is its balance plus
what nodes' pending transactions will bring it minus what they will cost it. A world is *sound*
(`Positions.Sound`) when every node's pending transactions are its own, under numbers it has handed
out and different for each payer; new nodes are. A commit *accumulates* (`NodeLaws.Accumulates`)
when it is refused, or the amount its transaction was created upon is the amount active at that
moment and the sum fits 32 bits.

What the proofs show about the program as it is:

- A commit overwrites the payer's pending transaction unconditionally. Two payments that are both
  created before either is committed lose one of the two (`NodeLaws.LostUpdate`). The sums are
  right at every moment of a run exactly when each of its commits accumulates
  (`NodeLaws.AccumulationConserves`); in any other run, what is missing is the sum of what its
  commits say (`NodeLaws.RunLoses`).
- When the ledger uses up a number although the payment fails, the entry goes stale and is never
  settled or removed by a flush (`NodeModel.StaleStays`). If the node has created another
  transaction for the payer under a newer number, committing that one replaces the stale entry. If
  not, the payer is stuck: no payment of it is accepted and no entry of it settles in any run
  (`StuckPayers.StuckExactly`, `StuckPayers.UnsettledIsStuck`).
- A node that is talked into signing a transaction it has not created can be made to hold a number
  that has settled for another payer (`ForeignCommits.MadeUpNumberSettledAndActive`); that no number
  settles twice survives (`ForeignCommits.SettlesAtMostOnce`). The commit of such a transaction is
  harmless for all flushes exactly when its number is active for no other payer
  (`ForeignCommits.ForeignFlushesSafeExactly`), and for everything the node may do afterwards exactly
  when the number has moreover been handed out, and issued to no other payer
  (`ForeignCommits.ForeignSafeExactly`).
- The session index keeps the entries of sessions whose payer has gone on to another session, also
  after that one has been completed (`Registry.HeldIsActiveExactly`,
  `Registry.ReplacedSessionRemains`).
- A session paid while the payer has a pending transaction is not cleared but left expecting minus
  the earlier `AmountOut` modulo 2^32 (`Registry.ServicePaymentClearsSession`, and for whole payments
  `NodesAfter.PaymentReducesSession`).
- The service saves a transaction before it looks up the session. A payment for an unknown session
  fails, but the service's hop stays committed (`Payments.UnknownSessionStops`).
- An amount of 16,384,001 is refused by the client's own check (`Amounts.FirstFailure`).
- The count of received bytes is never reduced; once it has wrapped, an honest request can end the
  process (`Commodity.WrappedCountRefuses`).
- `requestedAmount` is increased by bytes and reduced by the `AmountOut` of a transaction, which
  is in thousandths of a token (`PaymentGateway/paymentmanager/models.go:136`). The model does
  the same.

## Model

| member | source | states |
|---|---|---|
| EndToEnd.EndToEndConservation | PaymentGateway/regestry/paymentManager.go:63-99 | from drained registries to drained registries, over any requests, any creations at any nodes, any payments that fit (successful or failing, with nodes that do not answer, broken off after any commit) over routes of any length, and any flushes (with refusals, numbers used up in vain and failed bumps anywhere): every balance has changed by exactly its shares of the hops committed, and the sum of balances not at all |
| EndToEnd.EverythingSettles | PaymentGateway/node/local/node.go:406-453 | from any sound world without stale transactions some flushes drain all registries, and then everyone's balance is what the position was |
| EndToEnd.DrainableExactly | PaymentGateway/node/local/node.go:406-453 | all registries can be drained by flushes if and only if nothing is stale |
| EndToEnd.CleanFlush | PaymentGateway/node/local/node.go:438-449 | with nothing stale, a flush in which the ledger applies everything takes entries away from its node, makes none stale, and leaves the other nodes alone |
| EndToEnd.PositionsFollowPayments | PaymentGateway/client/client.go:215-261 | the same for positions at any moment of such a run |
| EndToEnd.GainIsShare | PaymentGateway/client/client.go:222-255 | closed form of what any address gains by the hops from any one to the last: by a whole payment the client loses the amount and all fees, each node between gains its fee, the service the amount and its own fee, everyone else nothing |
| Interleaving.InterleavedAccounting | PaymentGateway/node/local/node.go:221-242 | every run of all nodes' steps, interleaved in any way, is accounted for, however the ledger behaves: a balance together with what is pending and what commits have lost has changed by exactly what has been committed |
| Interleaving.InterleavedConservation | PaymentGateway/node/local/node.go:221-242 | nothing is lost if every commit accumulates: then a balance together with what is pending has changed by exactly what has been committed |
| Interleaving.AcceptedIsCarried | PaymentGateway/client/client.go:316-344 | when every commit that is accepted is the next hop of one of some payments, counted from the service, at that hop's payee, for its payer and its amount, what the nodes have committed is the hops carried |
| Interleaving.PaymentsAccounting | PaymentGateway/client/client.go:316-344 | any number of payments, whose commits, service first, are interleaved in any way, each carried through or stopped at any hop: a balance together with what is pending and what commits have lost has changed by exactly its shares in the hops committed |
| Interleaving.InterleavedPayments | PaymentGateway/client/client.go:316-344 | so if every commit accumulates and nothing is left pending, every balance has changed by exactly its shares |
| Interleaving.StepMoves | PaymentGateway/node/local/node.go:438-449 | every step of any node moves balances by exactly what it newly settles |
| EndToEnd.FreshWorld | PaymentGateway/node/local/paymentregestry/paymentRegistry.go:33-41 | nodes that have just started meet what the above starts from |
| Route.BuiltRouteShares | PaymentGateway/regestry/paymentManagerRegestry.go:79-96 | over a route with fee 10 for chain nodes and 0 for the destination: the client pays the amount plus 10 per chain node, each keeps 10, the destination gets the amount |
| Payments.PaymentOutcome | PaymentGateway/regestry/paymentManager.go:63-99 | any payment of a node that fits, wherever it breaks off: if it cannot start it fails and no position changes; otherwise commits go on from the service until the first stale slot, an unknown session or the break, the result says which, and exactly the hops committed are moved; the ledger does not change |
| Payments.PaymentSucceedsExactly | PaymentGateway/regestry/paymentManager.go:63-99 | a payment that does not break off succeeds if and only if it is admissible |
| Payments.ReachExactly | PaymentGateway/client/client.go:316-344 | commits get through if and only if every hop tried is fresh and the session known |
| Payments.ReachStopsExactly | PaymentGateway/client/client.go:316-344 | otherwise they stop at the first stale hop, which is refused, or at the service if and only if its hop is fresh and the session unknown, and then that hop stays committed; there is no other failure |
| Payments.UnknownSessionStops | PaymentGateway/node/local/node.go:377-387 | with an unknown session a payment that starts fails at the service, and exactly the service's hop stays committed |
| NodesAfter.PaymentAtPayee | PaymentGateway/client/client.go:263-347 | any payment of a node that fits, wherever it breaks off, at the payee of any hop: if the hop gets committed, the payer's pending transaction there is a new one for the session paid, over the amounts of the one it replaces and of the hop, under the same number, signed by both, and the session's entry as well, and no other payer's or session's has changed; otherwise nothing has but numbers |
| NodesAfter.PaymentElsewhere | PaymentGateway/client/client.go:263-347 | at every other node nothing has changed but numbers |
| NodesAfter.PaymentReducesSession | PaymentGateway/node/local/node.go:368-392 | for any payment of a node that fits, wherever it breaks off or fails, at every node: once the service's hop is committed, the service's session, if known, expects less by the amount and by the `AmountOut` the hop replaced; no other session, and no session anywhere else, has changed, and none at all otherwise |
| NodesAfter.LessExactly | PaymentGateway/node/local/paymentregestry/paymentRegistry.go:94-107 | less means modulo 2^32; the session is gone if and only if that is what it expected, and no other session changes |
| NodesAfter.SuccessReducesSession | PaymentGateway/node/local/node.go:368-392 | so for a payment that succeeds the session is known and reduced |
| NodesAfter.PaidUnderSession | PaymentGateway/node/local/paymentregestry/paymentRegistry.go:118-128 | after a payment that succeeds, at every payee the session's entry is the one pending for its payer |
| NodesAfter.RequestedThenPaid | PaymentGateway/node/local/paymentregestry/paymentRegistry.go:84-107 | a payment request under a new session and its payment by a payer with nothing pending leave the service's sessions as they were |
| Payments.CommitPrefix | PaymentGateway/client/client.go:316-344 | after any k commits the payer of the last committed hop is down by the amount and the fees so far, every node strictly between it and the service up by its fee, the service by the amount, everyone before it unaffected |
| Payments.CommitPrefixKeepsSum | PaymentGateway/client/client.go:316-344 | after any k commits the positions of all nodes still add up to the same |
| Payments.CommitsResume | PaymentGateway/client/client.go:316-344 | the commit loop passes through that state |
| Payments.PrefixLaw | PaymentGateway/client/client.go:222-255 | closed form of what the hops from any one to the last move, for every node of the route |
| Payments.GainsCancel | PaymentGateway/client/client.go:222-255 | these gains add up to zero over all nodes |
| Creation.InitiateOutcome | PaymentGateway/client/client.go:263-303 | an initiation by a node succeeds if and only if the payment can start; then every hop's transaction is returned, signed by both parties and valid; either way nothing changes but the numbers handed out |
| Creation.CreationNeedsAnswers | PaymentGateway/client/client.go:226-246 | creation fails if a node to be paid does not answer |
| Creation.CreateSucceeds | PaymentGateway/node/local/node.go:169-242 | a healthy node answers with a transaction that replaces the payer's active one, adds the amounts, and carries its number or a number of no one else |
| Creation.CreatesEveryHop | PaymentGateway/client/client.go:215-261 | the backwards loop creates every hop for the amount, its fee and the fees beyond it, and returns the sum of all fees |
| Creation.HopsTelescope | PaymentGateway/client/client.go:232-238 | what a node is asked to pass on is what the next node asks for |
| Creation.ClientCheckExactly | PaymentGateway/client/client.go:85-99 | the hop the client pays is for the amount with all fees on top of what it replaces; the client's check accepts it if and only if that is at most 16,384,000 or lies near a float32 |
| Creation.MadeValidates | PaymentGateway/models/paymentTransactionReplacingModel.go:76-157 | every created and signed hop passes validation: amounts in order, sourced by the payee, payer differs from payee, number equal to the reference's |
| Creation.SignedIsValid | PaymentGateway/client/client.go:124-143 | so an honest list passes `VerifyTransactions` |
| PaymentAnswers.VerifiesExactly | PaymentGateway/models/paymentTransactionReplacingModel.go:76-157 | a list is accepted if and only if every transaction is readable, passes on no more than it brings, is sourced by its payee and paid by someone else, and has the number of a readable one it replaces |
| PaymentAnswers.FirstFailureDecides | PaymentGateway/client/client.go:124-143 | otherwise the error is that of the first transaction that fails, by its first comparison that does |
| PaymentAnswers.CommitsOnlyAcceptable | PaymentGateway/regestry/paymentManager.go:63-99 | in any world, a payment commits nothing and fails unless every signed transaction passes these comparisons |
| PaymentAnswers.InitiatesAtMost | PaymentGateway/client/client.go:263-303 | a route between other ends, and an amount above the balance, are refused before anything changes; an initiation that succeeds holds no transaction that pays itself |
| PaymentAnswers.ClientSignsExactly | PaymentGateway/client/client.go:44-122 | the client signs if and only if the envelope is readable, paid by it to the given node, over the amount expected on top of what is replaced, as it reads it; it adds its signature and changes nothing else; and which error it gives otherwise |
| PaymentAnswers.SignsAnswered | PaymentGateway/client/client.go:150-213 | signing succeeds only if the service is the first payee and answers, and every other payee is on the route and answers |
| PaymentAnswers.RequestAtExactly | PaymentGateway/node/local/paymentregestry/paymentRegistry.go:84-92 | a payment request at a node adds to what its session expects there, and changes nothing else anywhere |
| PaymentAnswers.CreateAtExactly | PaymentGateway/client/client.go:226-246 | a creation succeeds if and only if the node answers, the payer has an account and is another one, and what is pending for it can be merged with; no other node changes, and this one not at all if the account is unknown |
| PaymentAnswers.CommitAtExactly | PaymentGateway/client/client.go:316-344 | a commit goes to the payee, and fails without effect if that is not on the route or does not answer; only at the service the session's expected amount is reduced, or found unknown |
| Payments.CommitHop | PaymentGateway/node/local/node.go:323-392 | committing a signed hop takes the payer's slot at its payee with the amount increased by the hop's, and changes no other entry or node; it fails at the service if the session is unknown, and is refused without effect if and only if the slot is stale |
| Signing.SigningIsComplete | PaymentGateway/client/client.go:150-213 | on every linked list of nodes that answer, signing succeeds if and only if the client accepts its own transaction, and ends with each transaction signed by its payee and then its payer, in service-first order |
| Signing.BothSignaturesSuffice | PaymentGateway/root/root.go:418-485 | those two signatures pass the payee's check |
| NodeAnswers.CreatesExactly | PaymentGateway/node/local/node.go:169-242 | a node creates a transaction if and only if the payer has an account and is another node and what is pending for it can be merged with; its indices never change, and a number is handed out if and only if nothing is pending for the payer |
| NodeAnswers.CreateRefuses | PaymentGateway/root/root.go:147-237 | which error a refusal gives |
| NodeAnswers.CreatedTransaction | PaymentGateway/node/local/node.go:180-242 | every field of what is created: the two parties, the session asked for, the amounts on top of those pending modulo 2^32, the number, no signatures |
| NodeAnswers.ServiceSignsExactly | PaymentGateway/node/local/node.go:244-281 | a service signs if and only if it is the payee and can read the envelope; it adds its signature and changes nothing else |
| NodeAnswers.ChainSignsAnything | PaymentGateway/node/local/node.go:283-321 | a node on the chain signs any two readable transactions, and ends over any other |
| NodeAnswers.CommitsExactly | PaymentGateway/root/root.go:359-485 | a node accepts if and only if it is the source, the number is above its account's, and the payer, who is someone else, and itself have signed; then payer and session have this entry and nothing else has changed, otherwise nothing has |
| NodeAnswers.CommitRefuses | PaymentGateway/root/root.go:359-485 | which error a refusal gives |
| NodeAnswers.ServiceCommitsExactly | PaymentGateway/node/local/node.go:368-392 | the service saves the same, fails afterwards over an unknown session, and takes the transaction's `AmountOut` off a known one, modulo 2^32 |
| NodeAnswers.RequestAdds | PaymentGateway/node/local/paymentregestry/paymentRegistry.go:84-92 | a payment request adds to what its session expects, modulo 2^32, and to nothing else |
| NodeAnswers.SubmitsExactly | PaymentGateway/node/local/node.go:438-449 | the submission loop settles the longest part of the queue that is in turn and applied, and the account has advanced by that much, and by one more if the next one was in turn but used up in vain |
| NodeAnswers.FlushSettlesExactly | PaymentGateway/node/local/node.go:406-453 | a flush settles that part of what is not stale, from just below its first number if there is a gap, and exactly the payers and sessions of what has settled leave the indices |
| NodeAnswers.FlushFailsExactly | PaymentGateway/root/root.go:605-671 | a flush fails if and only if all usable numbers are beyond a gap and the bump is refused, and then has done nothing |
| PaymentAnswers.FlushAtExactly | PaymentGateway/node/local/node.go:406-453 | a flush at a node changes that node, its account and what its settled entries transfer, and nothing at all when it fails |
| Positions.FlushKeepsPositions | PaymentGateway/node/local/node.go:406-453 | a flush at any node, wherever it stops, keeps every position and the sum of balances |
| Positions.FlushKeepsSound | PaymentGateway/node/local/node.go:406-453 | and leaves the world sound |
| Positions.FlushKeepsFresh | PaymentGateway/node/local/node.go:406-453 | and makes nothing stale as long as no number is used up in vain |
| NodeRuns.RunKeepsInv | PaymentGateway/root/root.go:147-237 | every interleaving of Create and Flush steps, and commits of created transactions under any signatures, keeps the node's invariant (among it: every created transaction is for the payer, session and amounts asked for), whatever the ledger does |
| ForeignCommits.SettlesAtMostOnce | PaymentGateway/node/local/node.go:283-321 | with commits of arbitrary transactions in between, still no number settles twice, and a transaction under a settled number is refused ever after |
| ForeignCommits.ForeignSafeExactly | PaymentGateway/node/local/node.go:283-354 | after the commit of an arbitrary transaction no run of the node's own steps leaves a settled number active, if and only if the number has been handed out, and neither issued to nor active for another payer (if some further address has nothing pending) |
| ForeignCommits.InvIsOrderly | PaymentGateway/root/root.go:147-237 | every state reached by the node's own steps is one to which this applies |
| ForeignCommits.ForeignFlushesSafeExactly | PaymentGateway/node/local/node.go:323-354 | no flushes alone do, whatever the ledger does, if and only if the committed number is active for no other payer |
| ForeignCommits.HisNumbersAreSafe | PaymentGateway/node/local/node.go:323-354 | in every run from the start in which arbitrary transactions are accepted only under such numbers no settled number is active |
| Collisions.FlushesSafeExactly | PaymentGateway/node/local/node.go:421-450 | from any state in which none is, no flushes leave a settled number active if and only if no number above the account's is active for two payers |
| ForeignCommits.ForeignKeepsInvExactly | PaymentGateway/node/local/node.go:323-354 | such a commit keeps every clause of the invariant but the one that active entries were created by the node, and that one if and only if it is refused or the node did create the transaction |
| ForeignCommits.MadeUpNumberSettledAndActive | PaymentGateway/node/local/node.go:438-449 | after it, a flush can leave a number active for one payer that has settled for another |
| NodeLaws.NeverSettledAndActive | PaymentGateway/node/local/node.go:421-450 | in every run numbers settle at most once, in increasing order, and no active entry carries a settled number |
| NodeLaws.ActiveStaysUsable | PaymentGateway/root/root.go:157-194 | while no number is used up in vain, every active number is above the account's and at most the last one handed out |
| NodeLaws.SettledNumberIsRefused | PaymentGateway/root/root.go:389-392 | a transaction whose number has settled is refused ever after, whatever its signatures |
| NodeLaws.NumbersBelongToOnePayer | PaymentGateway/root/root.go:165-201 | among all transactions issued, equal numbers mean the same payer, fresh numbers increase strictly, and active entries of different payers differ in their numbers |
| NodeLaws.AccumulationConserves | PaymentGateway/node/local/node.go:221-242 | in every run, what a payer has committed equals what has settled plus what is active at every moment, if and only if each of its commits accumulates; whatever the ledger does |
| NodeLaws.RunLoses | PaymentGateway/node/local/node.go:221-242 | every run is accounted for: what is missing from that sum is exactly what its accepted commits lose, each the amount active plus the amount added minus its own |
| NodeLaws.NoLossExactly | PaymentGateway/node/local/node.go:221-242 | a step loses nothing of a payer's if and only if it accumulates |
| NodeLaws.StepKeepsSumExactly | PaymentGateway/node/local/paymentregestry/paymentRegistry.go:118-128 | any step keeps the sum right if and only if it accumulates |
| NodeLaws.FlushKeepsSum | PaymentGateway/node/local/node.go:438-449 | no flush loses anything, also one that stops on an error |
| NodeLaws.LostUpdate | PaymentGateway/node/local/paymentregestry/paymentRegistry.go:126 | at a node that has just started, two payments of 5 and 7, both created before either is committed, leave 7 |
| StuckPayers.StuckExactly | PaymentGateway/root/root.go:389-392 | an active payer is stuck (its entry, and every transaction created for it, at or below the account's number) if and only if no run of the node's own steps gets a payment of it accepted or an entry of it settled |
| StuckPayers.StuckForever | PaymentGateway/root/root.go:389-392 | a stuck payer keeps its entry in every run |
| StuckPayers.OthersGoOn | PaymentGateway/root/root.go:359-396 | for any other active payer some created transaction is accepted at once when both have signed it |
| StuckPayers.UnsettledIsStuck | PaymentGateway/node/local/node.go:438-449 | after any flush, the payer of an entry it has not settled is stuck if and only if no transaction created for it is above the account's number |
| StuckPayers.StaleIsUsedInVain | PaymentGateway/node/local/node.go:438-449 | where nothing was stale, an unsettled entry a flush leaves stale carries the last number it used, and some number was used up in vain |
| NodeModel.StaleStays | PaymentGateway/root/root.go:571-602 | a stale entry is not settled by any flush and stays in its payer's slot |
| NodeModel.DropStaleIsFilter | PaymentGateway/root/root.go:571-602 | on a sorted list, cutting as many entries as are stale keeps exactly those that are not, in order |
| NodeModel.FlushRemoves | PaymentGateway/node/local/node.go:438-449 | a flush removes exactly the payers of what it settled, and these entries were active |
| NodeModel.FlushNumbers | PaymentGateway/root/root.go:605-629 | the account's number never falls nor exceeds the largest active one; what settles lies between its old and its new value |
| Draining.FlushSettlesOneBlock | PaymentGateway/node/local/node.go:424-450 | with every usable submission applied, a flush settles exactly the first maximal block of consecutive numbers and ends at its last number |
| Draining.DrainingTerminates | PaymentGateway/node/local/node.go:406-453 | without new commits each such flush takes one block of the usable entries away; exactly the stale ones are left if and only if there were at least as many flushes as blocks |
| Amounts.RoundTripExactly | PaymentGateway/models/asset.go:13-24 | an amount printed to seven decimals, parsed at float32 precision and rounded comes back if and only if it is at most 16,384,000 or its remainder lies near a float32 |
| Amounts.SharpBound | PaymentGateway/models/asset.go:13-24 | all amounts up to a bound come back if and only if the bound is at most 16,384,000 |
| Amounts.FirstFailure | PaymentGateway/client/client.go:91-103 | 16,384,001 does not come back |
| Amounts.ThousandthIsNearest | PaymentGateway/models/asset.go:11 | 1e-3 is this float64 |
| Amounts.FormattingIsExact | PaymentGateway/models/asset.go:13-16 | for every amount the float64 product, printed to seven decimals, is the exact amount |
| Amounts.DivisionIsExact | PaymentGateway/models/asset.go:22-24 | for every float32 the float64 quotient, rounded, is the nearest integer to the exact quotient |
| Amounts.BitExactly | PaymentGateway/models/asset.go:13-24 | so for every amount the floating point steps together, bit by bit, read back what the above is about |
| Registry.ActiveIsLastSaved | PaymentGateway/node/local/paymentregestry/paymentRegistry.go:118-154 | after any run of saves and completions a payer's active entry is the last one saved since the payer was last completed |
| Registry.SessionIsLastSaved | PaymentGateway/node/local/paymentregestry/paymentRegistry.go:118-146 | likewise the session index holds the last entry saved for a session since it was completed |
| Registry.ActiveIsHeldExactly | PaymentGateway/node/local/paymentregestry/paymentRegistry.go:126-146 | the session index holds a payer's active entry if and only if no call since it was saved is about its session |
| Registry.HeldIsActiveExactly | PaymentGateway/node/local/paymentregestry/paymentRegistry.go:126-146 | what the session index holds is still active if and only if no call since it was saved is about its payer |
| Registry.IndicesAgree | PaymentGateway/node/local/paymentregestry/paymentRegistry.go:126-146 | so if each session is used with one payer, every active entry is keyed by its payer and held by the session index |
| Registry.ReplacedSessionRemains | PaymentGateway/node/local/paymentregestry/paymentRegistry.go:141-146 | the entry of a session paid before the one that is completed remains in the session index |
| RegistryRuns.RunIndices | PaymentGateway/node/local/node.go:323-453 | in every run of a node its indices are those that its saves and completions lead to |
| RegistryRuns.PendingIsHeldExactly | PaymentGateway/node/local/node.go:323-453 | so the session index holds a payer's pending transaction if and only if no call since it was saved is about its session |
| Registry.SharedSessionSplitsIndices | PaymentGateway/node/local/paymentregestry/paymentRegistry.go:126-127 | two payers sharing a session make the indices differ |
| Registry.ServicePaymentClearsSession | PaymentGateway/node/local/paymentregestry/paymentRegistry.go:94-107 | paying a session's exact amount deletes it if and only if the transaction replaces none with an `AmountOut`; otherwise minus that is left, modulo 2^32 |
| Registry.SecondSessionStaysPending | PaymentGateway/node/local/node.go:383-387 | of two sessions paid in a row without a flush only the first is cleared |
| Registry.PaymentRegistry.AddServiceUsage | PaymentGateway/node/local/paymentregestry/paymentRegistry.go:84-92 | the new pending amounts: the session's is increased, or entered |
| Registry.PaymentRegistry.ReducePendingAmount | PaymentGateway/node/local/paymentregestry/paymentRegistry.go:94-107 | the session's amount is reduced with wrap-around, and deleted at 0; an unknown session is an error |
| Registry.PaymentRegistry.SaveTransaction | PaymentGateway/node/local/paymentregestry/paymentRegistry.go:118-128 | both indices after a save |
| Registry.PaymentRegistry.CompletePayment | PaymentGateway/node/local/paymentregestry/paymentRegistry.go:141-146 | both indices after a completion |
| Registry.PaymentRegistry.GetActiveTransactions | PaymentGateway/node/local/paymentregestry/paymentRegistry.go:130-139 | every active entry once, in no particular order |
| Registry.PaymentRegistry.GetActiveTransaction | PaymentGateway/node/local/paymentregestry/paymentRegistry.go:148-154 | the payer's active transaction, if and only if there is one |
| Root.RootApi.CreateTransaction | PaymentGateway/root/root.go:147-237 | number allocation and envelope as specified: fresh number without a reference, the reference's otherwise |
| Root.RootApi.VerifyTransactionSignatures | PaymentGateway/root/root.go:398-485 | the loop accepts if and only if the node is the source, payer and node have both signed, and they differ |
| Root.RootApi.VerifyTransaction | PaymentGateway/root/root.go:325-396 | accepts if and only if the number is above the account's and the signatures are accepted |
| Root.RootApi.RemoveTransactionsIfSequence | PaymentGateway/root/root.go:553-603 | the counting loop returns what the specification leaves |
| Root.RootApi.BumpSequenceIfNeed | PaymentGateway/root/root.go:605-671 | the account ends just below the first transaction's number, and is left alone when no bump is needed or it fails |
| Node.NodeImpl.CreateTransaction | PaymentGateway/node/local/node.go:169-242 | the node's new state and answer are those of the specification |
| Node.NodeImpl.SignServiceTransaction | PaymentGateway/node/local/node.go:244-281 | signs what is paid to this node, and nothing else |
| Node.NodeImpl.SignChainTransaction | PaymentGateway/node/local/node.go:283-321 | signs credit and debit, or ends the process |
| Node.NodeImpl.CommitTransaction | PaymentGateway/node/local/node.go:323-354 | verified transactions are saved under their own number, others change nothing |
| Node.NodeImpl.CommitServiceTransaction | PaymentGateway/node/local/node.go:368-392 | and reduce the session's pending amount |
| Node.NodeImpl.FlushTransactions | PaymentGateway/node/local/node.go:406-453 | sorting, dropping, bumping, submitting and completing have the specified effect on registry and ledger, for every listing order of the index |
| Node.SortBySequence | PaymentGateway/node/local/node.go:424-426 | sorts, and lists the same entries |
| Network.Nodes.CommitTransaction | PaymentGateway/client/client.go:325-343 | a commit sent to the payee changes that node only, as specified |
| Network.Nodes.FlushTransactions | PaymentGateway/node/local/node.go:406-453 | a flush changes that node and its account only, as specified |
| Route.BuiltHops | PaymentGateway/regestry/paymentManagerRegestry.go:48-101 | the built route is the source at fee 0, the chain in order at fee 10 each, and the destination at fee 0 |
| Route.NodeManager.AddNode | PaymentGateway/regestry/nodeManager.go:102-110 | an address already present is refused, otherwise the node comes last; map and sequence stay in agreement |
| Route.NodeManager.AddDestinationNode | PaymentGateway/regestry/nodeManager.go:61-74 | succeeds if and only if the chain is open and the address new, and closes the chain |
| Route.NodeManager.Validate | PaymentGateway/regestry/nodeManager.go:76-88 | accepts exactly the routes from the one address to the other |
| Route.NodeManager.GetNodeByAddress | PaymentGateway/regestry/nodeManager.go:112-120 | finds a node if and only if its address is on the route |
| Route.BuildRoute | PaymentGateway/regestry/paymentManagerRegestry.go:48-101 | succeeds if and only if no address occurs twice, with fees 0, 10 and 0 |
| Client.ServiceClient.CreateTransactions | PaymentGateway/client/client.go:215-261 | the loop has the specified effect on every node, and result |
| Client.ServiceClient.SignInitialTransactions | PaymentGateway/client/client.go:44-122 | the client's checks in their order |
| Client.ServiceClient.SignTransactions | PaymentGateway/client/client.go:150-213 | the pairwise loop computes the specified list |
| Client.ServiceClient.InitiatePayment | PaymentGateway/client/client.go:263-303 | the specified effect and result, errors included |
| Client.ServiceClient.VerifyTransactions | PaymentGateway/client/client.go:124-143 | the first validation error, or success |
| Client.ServiceClient.FinalizePayment | PaymentGateway/client/client.go:305-347 | commits in order and stops at the first failure, with the specified effect |
| Client.ServiceClient.ProcessPayment | PaymentGateway/regestry/paymentManager.go:63-99 | the three phases as one run have the effect the results above are about |
| Debts.StopsExactly | PaymentGateway/paymentmanager/models.go:31-50 | after any messages the process stops if and only if the message is a payment request for more than the bytes received from the peer so far, modulo 2^32; any other request is processed |
| Debts.ReceivedIsCounted | PaymentGateway/paymentmanager/handlers.go:17-21 | the count of received bytes is their sum modulo 2^32, whatever other messages come between |
| Debts.BytesAreConserved | PaymentGateway/paymentmanager/handlers.go:28-48 | for any interleaving of messages of at most 2^32 - 50 MB each: bytes sent to a peer equal what was requested from it plus what is counted, which is below the threshold |
| Debts.SizeBoundIsSharp | PaymentGateway/paymentmanager/handlers.go:31-47 | that holds for all messages up to a size if and only if the size is at most 2^32 - 50 MB |
| Debts.ConservedModulo | PaymentGateway/paymentmanager/handlers.go:28-48 | for any sizes, only multiples of 2^32 are lost; and `requestedAmount` is what was requested minus what was paid, modulo 2^32 |
| Debts.PeersAreIndependent | PaymentGateway/paymentmanager/debtRegestry.go:21-35 | a peer's debt and requests depend on the messages about that peer only |
| Debts.DebtRegistry.GetDebt | PaymentGateway/paymentmanager/debtRegestry.go:21-35 | the peer's debt, entered with zeros if it is new |
| Debts.DebtRegistry.RequirePayment | PaymentGateway/paymentmanager/handlers.go:28-48 | the specified debt and request; no other peer is touched |
| Debts.DebtRegistry.RegisterReceivedBytes | PaymentGateway/paymentmanager/handlers.go:17-21 | the specified debt |
| Debts.DebtRegistry.InitiatePayment | PaymentGateway/paymentmanager/models.go:31-50 | a request for more than was received stops the process |
| Debts.DebtRegistry.PaymentStatus | PaymentGateway/paymentmanager/models.go:120-137 | the specified debt |
| Debts.DebtRegistry.Run | PaymentGateway/paymentmanager/paymentmanager.go:74-85 | the loop handles messages in order up to and including the first that stops the process |
| Commodity.PricesAreNearest | PaymentGateway/commodity/commodityManager.go:26-38 | 0.00000002 and 0.1 are these float64 numbers |
| Commodity.ProductIsExact | PaymentGateway/commodity/commodityManager.go:58 | for every 32-bit quantity the float64 product with the price constant, cut to an integer, is the quotient by 50,000,000 or 10 |
| Commodity.QuotientIsExact | PaymentGateway/commodity/commodityManager.go:83 | the float64 quotient of a price by the constant, cut to an integer, is the exact multiple, as long as that fits 32 bits |
| Commodity.PriceList | PaymentGateway/commodity/commodityManager.go:46-64 | IPFS data cost a 50,000,000th, tor data and http attention a tenth of the quantity, and nothing else is on sale |
| Commodity.QuantityList | PaymentGateway/commodity/commodityManager.go:66-87 | what a price stands for, for these three, as long as it fits; a known commodity in another asset is refused |
| Commodity.ReverseInverts | PaymentGateway/commodity/commodityManager.go:46-87 | pricing a quantity and going back gives at most the quantity and loses less than one token buys; nothing exactly for multiples of that |
| Commodity.VerdictExactly | PaymentGateway/paymentmanager/models.go:43-47 | what the receiver's loop makes of the request an honest sender's loop gives rise to: it stops if and only if that stands for more than the bytes received modulo 2^32 |
| Commodity.HonestRequestsAccepted | PaymentGateway/paymentmanager/models.go:43-47 | so never while that count does not wrap |
| Commodity.WrappedCountRefuses | PaymentGateway/paymentmanager/models.go:43-47 | a run of 83 messages after which it is |

## Left out

- Horizon, key parsing, real XDR and real signatures: an envelope is a record with the list of its signers; every parse error is one error, and `XDR.Empty` is `None`.
- The ledger's rules other than sequence numbers, the two signatures and the transfer: trust lines, thresholds, ledger fees and insufficient funds appear only as a submission that is refused or used up in vain.
- Envelopes of other than one payment operation, time bounds and transaction hashes.
- Concurrency inside a method: Create, Commit and Flush are atomic and interleave as such. In particular no commit falls into a flush, although the program takes its snapshot before the flush lock (`PaymentGateway/node/local/node.go:414-422`), and `lastSequenceId` is read under no lock (`PaymentGateway/root/root.go:157-164`).
- Transactions are values: the program passes pointers within one process, and signs in place.
- Pending session amounts are values in a map; the program keeps one object per session, with its time of last change.
- What a process that has ended (`NodeEnded`) no longer does: its node keeps its state and answers again.
- In `NodeRuns`, `NodeLaws` and `Interleaving` commits present transactions the node created, with any signatures; `ForeignCommits` says what holds beyond that.
- Answers of the network (whether an account exists, balances, failures of a command on its way) are parameters or left out. A command reaches the node with the address, or fails as unknown.
- The sequence number is an integer without bound, where the program has 64 bits.
- A rounded amount that does not fit is reduced modulo 2^32, where Go leaves the result of the conversion open; either way it differs from the amount printed.
- A quotient by a commodity price that does not fit 32 bits is rounded only to an integer and reduced modulo 2^32, where Go leaves the conversion open.
- Non-accumulating mode, the auto-flush ticker, balance and history reports, `CreateUser`, asset creation.
- HTTP servers and controllers, proxies and command stores, the tor client, tracing, logging, configuration and the database behind the registry.
- `UtilityCommand` and its JSON forms, session handlers, status callbacks and asynchronous runs.
- Payments over routes that repeat a node, or whose accumulated amounts exceed 32 bits, are covered by the specification functions and the methods, but not by the results about positions.
- Failures of the gateway behind the debt manager, which end its process; `SendPaymentDataMessage` is the returned request.
