# Cawala client verification

This project models the trust-critical state machines of the Cawala browser
client and proves properties of them with Dafny: how a client joins, moves and
leaves, what it comes to believe about its balance, its payments and other
nodes' ledger keys, how its Ethereum anchor is rotated over a lossy network, and
the small byte-level algorithms around these (low-s signatures, EIP-712 digests,
the commitment hash chain, hexadecimal and URI text).

Run `dafny verify dfyconfig.toml` in this directory.

## Shape

| part | modules |
|---|---|
| Bounded rings and ledger trust state | `Rings`, `Ledger`, `LedgerObject`, `LedgerProps`, `LedgerRings`, `SettlementLaws`, `PinDecisions` |
| Join, rebase and detach | `Join`, `JoinObject`, `RebaseOrder`, `Links` |
| Ancestor walk and cache | `Ancestors`, `CacheProps` |
| The whole client, its runs, and where trusted facts come from | `Client`, `ClientObject`, `ClientProps`, `Imports`, `Provenance`, `ChangeProvenance`, `AddressProvenance`, `BalanceRuns`, `Orders`, `RingRuns` |
| Inbound delivery | `Delivery` |
| Anchor rotation | `Rotation` |
| Bytes, digests and signatures | `Bytes`, `Secp256k1`, `Digests` |
| Stranded claims | `Claims` |
| Text, addresses, hexadecimal and URIs | `Text`, `AddressText`, `Hex`, `FormText`, `Invites`, `ReceiveUri` |

State the source changes in place is a class here (`LedgerBook`, `LocalBook`,
`ClientNode`, `MsgHandler`, `UserIdentitySlot`); each method is proved to compute
a value function (`Ledger.ApplySettlement`, `Client.HandleFrame`, ...), and the
theorems are about those functions and about `Client.Run`, the state after any
sequence of steps from a fresh client. One step is one inbound frame, one queued
ledger message, one local call, a finished ancestor walk, a reload of the
client's own saved state, or `DiscardLedger`, which resets the ledger while the
client stays joined (a version bump of the saved blob does that; it is what makes
trust on first use reachable).

Run theorems have one form: if a fact holds now, then there is a step `i` that
made it true, the step had the right to, and the fact has held ever since.

Signatures, Merkle proofs, hashes and key syntax are function-valued fields of a
parameter (`Checks`, `Env`, `Hashes`, `Crypto`, `Curve`, `Codec`, `Syntax`), so
every theorem holds for all of them. No hash is taken to be injective: where the
source relies on collision resistance, the theorem says that the inputs agree or
that two of the very inputs hashed on the way collide. Three assumptions are made
of the primitives, as explicit preconditions: a signature recovers to the address
of the key that made it (`Rotation.Recovers`); of a signer's output and its
mirror image, the one with a low `s` recovers to the signer
(`Secp256k1.Lawful`); and the URL parser keeps a printed invite's query as it
stands (`Invites.ReadsPrinted`).

## Where the code and its documentation differ

The model follows the code.

- A replay refusal is documented to prove that an earlier send was applied
  (crates/client-wasm/src/control.rs:561-593, crates/client-wasm/src/lib.rs:1926-1931),
  but the parent keeps its mark when it then refuses the request or fails to save
  the mark (crates/node/src/control.rs:914-940). `Rotation.ReplayIsNotProof` gives
  a run, and `Rotation.RotationAgreement` says exactly when slot and anchor agree.
- The ancestor cache is documented to be cleared with its link
  (crates/client-wasm/src/control.rs:79-85), but a walk still in flight stores its
  result afterwards. `CacheProps.ReachableTargets` shows that this is harmless,
  because the cache is keyed.
- The two branches of the continuity check are documented to apply the same rules
  (crates/control/src/claim.rs:384-388), but only the genesis branch checks that
  the head's height equals its entry count: `Claims.HeadHeightOnlyCheckedAtGenesis`.
- Applying a receipt twice is not always applying it once: with a full activity
  ring its new notices can evict the entry of one it repeats
  (`LedgerProps.ReceiptTwiceCanDiffer`). `LedgerProps.ReceiptTwiceExactly` says
  exactly when it is.
- The order of rebase notices matters exactly when the greatest generation above
  the mark names two addresses (`RebaseOrder.ConvergesExactly`); generations it
  supersedes may disagree with themselves.
- Importing an old ledger export can give an unattached client a routing pin and
  a balance (`Imports.OldLedgerUnbinds`); `Imports.ImportedPairIsBound` says
  which pairs of exports do not.

## Model

| member | source | states |
|---|---|---|
| `Rings.EvictOldest` | crates/client-wasm/src/ledger_state.rs:582-587 | the eviction loop leaves exactly the newest entries up to the capacity, in order |
| `Rings.Position` | crates/client-wasm/src/ledger_state.rs:699-704 | the search returns the first entry with the key, or the length when there is none |
| `Rings.Retain` | crates/client-wasm/src/ledger_state.rs:783-786 | retaining keeps exactly the entries with other keys, in order |
| `Rings.UpsertRefinesFifoMap` | crates/client-wasm/src/ledger_state.rs:611-629 | an upserting ring fed any sequence has unique keys, holds exactly the latest insertions in insertion order, and each entry carries the latest value written under its key |
| `Rings.KeepAllShape` | crates/client-wasm/src/ledger_state.rs:842-855 | a ring that drops repeats holds the newest of the old entries followed by those that were new on arrival |
| `Rings.KeepAllUnique` | crates/client-wasm/src/ledger_state.rs:842-855 | feeding a repeat-dropping ring keeps keys unique |
| `Rings.KeepAllIdentity` | crates/client-wasm/src/ledger_state.rs:842-855 | feeding changes nothing exactly when everything fed was already held |
| `LedgerObject.LedgerBook.constructor` | crates/client-wasm/src/ledger_state.rs:489-491 | a new ledger is empty, unpinned and unconfirmed |
| `LedgerObject.LedgerBook.PushPending` | crates/client-wasm/src/ledger_state.rs:568-588 | appends the order and evicts the oldest beyond 32, touching nothing else |
| `LedgerObject.LedgerBook.SetLeafKey` | crates/client-wasm/src/ledger_state.rs:611-629 | replaces the pin of the node in place or pushes one, evicting the oldest beyond 128 |
| `LedgerObject.LedgerBook.LeafKeyOf` | crates/client-wasm/src/ledger_state.rs:699-704 | the key pinned for a node, whatever its trust |
| `LedgerObject.LedgerBook.RecordChange` | crates/client-wasm/src/ledger_state.rs:757-780 | replaces the change of the node in place or pushes one, evicting the oldest beyond 32; no pin is touched |
| `LedgerObject.LedgerBook.ClearChanges` | crates/client-wasm/src/ledger_state.rs:783-786 | drops every change recorded for the node and no other |
| `LedgerObject.LedgerBook.PinFromReceive` | crates/client-wasm/src/ledger_state.rs:644-669 | computes the receive-URI pin step: install, confirm, or record a conflict |
| `LedgerObject.LedgerBook.AcceptLeafChange` | crates/client-wasm/src/ledger_state.rs:678-683 | computes the accept step for a leaf pin, and its whole new state |
| `LedgerObject.LedgerBook.AcceptRoutingChange` | crates/client-wasm/src/ledger_state.rs:690-696 | computes the accept step for the routing pin, and its whole new state |
| `LedgerObject.LedgerBook.ConfirmLeaf` | crates/client-wasm/src/ledger_state.rs:723-737 | computes the confirm step for a leaf pin, and its whole new state |
| `LedgerObject.LedgerBook.ConfirmRouting` | crates/client-wasm/src/ledger_state.rs:744-751 | computes the confirm step for the routing pin, and its whole new state |
| `LedgerObject.LedgerBook.Rebind` | crates/client-wasm/src/ledger_state.rs:807-814 | a new parent key is pinned confirmed; balance and pending orders are dropped, everything else kept |
| `LedgerObject.LedgerBook.ClearBinding` | crates/client-wasm/src/ledger_state.rs:822-827 | the parent-scoped fields are dropped, everything else kept |
| `LedgerObject.LedgerBook.RecordActivity` | crates/client-wasm/src/ledger_state.rs:842-855 | an entry with a held hash is dropped, any other is pushed with the oldest beyond 200 evicted |
| `LedgerObject.LedgerBook.RecordSettlement` | crates/client-wasm/src/ledger_state.rs:863-892 | the record of the order hash is replaced in place or pushed, evicting the oldest beyond 64 |
| `LedgerObject.LedgerBook.VerifyReceipt` | crates/client-wasm/src/ledger_state.rs:910-969 | the in-place check with its trust-on-first-use pin and rollback computes the verdict and the whole new state |
| `LedgerObject.LedgerBook.ApplyReceipt` | crates/client-wasm/src/ledger_state.rs:977-995 | the in-place merge computes the verdict, the balance and the activity ring |
| `LedgerObject.LedgerBook.ApplyOrderResult` | crates/client-wasm/src/ledger_state.rs:1005-1056 | the in-place v1 path computes the verdict and the whole new state |
| `LedgerObject.LedgerBook.TerminalState` | crates/client-wasm/src/ledger_state.rs:1193-1223 | the outcome of a success claim and the pin or recorded change it leaves |
| `LedgerObject.LedgerBook.ApplySettlement` | crates/client-wasm/src/ledger_state.rs:1227-1355 | the in-place settlement computes the verdict and the whole new state |
| `LedgerObject.LedgerBook.ApplySettlementV2` | crates/client-wasm/src/ledger_state.rs:1407-1423 | a v2 result is settled as one without a proof |
| `LedgerProps.ReceiptAcceptance` | crates/client-wasm/src/ledger_state.rs:910-969 | a receipt is accepted exactly when it is bound to the edge from the expected parent under one key, agrees with a held pin and is attested; acceptance only adds an absent pin, unconfirmed |
| `LedgerProps.RefusalChangesNothing` | crates/client-wasm/src/ledger_state.rs:977-1056 | a refused receipt, order result or settlement changes nothing except one key change recorded against a held pin |
| `LedgerProps.ReceiptTwiceExactly` | crates/client-wasm/src/ledger_state.rs:977-995 | applying an accepted receipt twice equals applying it once exactly when none of its notices is among the oldest entries its new ones evict, a condition on the ring and the receipt before the call |
| `LedgerProps.ReceiptTwiceCanDiffer` | crates/client-wasm/src/ledger_state.rs:842-855 | an input where it does not: against a full ring, a receipt that repeats its oldest entry and brings a new one |
| `LedgerProps.ReceiptTwiceWithRoom` | crates/client-wasm/src/ledger_state.rs:977-995 | with room for all notices, applying a receipt twice equals applying it once |
| `LedgerProps.ProofCheckExact` | crates/client-wasm/src/ledger_state.rs:1102-1184 | the ordered terminal check accepts exactly the proofs that carry the whole evidence, stated without an order of checks |
| `LedgerProps.CompletedMeansProved` | crates/client-wasm/src/ledger_state.rs:1227-1355 | a newly recorded Applied or Duplicate settlement comes with a proof that holds against the very pending order it resolves, the first with its hash, and the pins held, and names the amount and payee of that order |
| `LedgerProps.InboundNeverRaisesTrust` | crates/client-wasm/src/ledger_state.rs:910-969 | no receipt or result changes the key or the trust of a held pin; it can only add an unconfirmed pin at the back, dropping the oldest of a full ring |
| `SettlementLaws.ReceiptExact` | crates/client-wasm/src/ledger_state.rs:977-995 | a receipt is accepted exactly when its history has at most 64 notices and it is bound, agrees with a held pin and is attested; it then installs the balance it attests, merges its notices, pins an absent routing key unconfirmed and moves nothing else |
| `SettlementLaws.NewEntriesShowNotices` | crates/client-wasm/src/ledger_state.rs:474-485 | every entry a receipt adds shows one of its notices field by field |
| `SettlementLaws.NoticesAreKept` | crates/client-wasm/src/ledger_state.rs:977-995 | with room for them every notice of an accepted receipt is held under its entry hash |
| `SettlementLaws.SettlementExact` | crates/client-wasm/src/ledger_state.rs:1227-1355 | a settlement is accepted exactly when its order is pending and an offered balance is acceptable; it is reported and recorded as Applied or Duplicate exactly when it claims that and its proof holds against that order, as unverified when the claim is not proved, and as Partial, Rejected or Indeterminate under its own name and reason; the order leaves the ring and an offered balance is installed |
| `SettlementLaws.OrderResultExact` | crates/client-wasm/src/ledger_state.rs:1005-1056 | a v1 result is accepted exactly when its order is pending and an offered balance is acceptable; the order leaves the ring, the balance is installed or kept, and one entry with the order's own parties and amount is added when the result names it and is no rejection |
| `BalanceRuns.BalanceIsLastAccepted` | crates/client-wasm/src/ledger_state.rs:977-1056 | over every run the balance is the one attested by the last accepted receipt, alone or on a result, since the link was made or ended or the ledger was discarded |
| `LedgerRings.PinCallRings` | crates/client-wasm/src/ledger_state.rs:597-796 | every pin call keeps the length gates, unique keys and changes between two different keys |
| `LedgerRings.ApplyReceiptRings` | crates/client-wasm/src/ledger_state.rs:977-995 | receipts keep the length gates and unique keys |
| `LedgerRings.OrderResultRings` | crates/client-wasm/src/ledger_state.rs:1005-1056 | order results keep the length gates and unique keys |
| `LedgerRings.SettlementRings` | crates/client-wasm/src/ledger_state.rs:1227-1355 | settlements keep the length gates, unique keys and real key changes |
| `Rings.EditsRefineFifoMap` | crates/client-wasm/src/ledger_state.rs:757-786 | a ring with update in place, eviction and removal has unique keys, holds the newest of the insertions not forgotten since in insertion order, and each entry carries the last value put under its key, not forgotten after that |
| `Rings.RoomLosesNothing` | crates/client-wasm/src/ledger_state.rs:757-786 | while no more keys are live than there is room for, such a ring holds all of them |
| `RingRuns.RingsAreFolds` | crates/client-wasm/src/ledger_state.rs:611-895 | over every run the pins, settlement records, activity entries and recorded key changes are the folds of the writes the steps issued since the ledger was last discarded; pending orders have their own theorem |
| `RingRuns.RunRingsAreFifo` | crates/client-wasm/src/ledger_state.rs:503-549 | over every run pins and settlements have unique keys, are the latest insertions in order with the latest values, and activity is the newest of what was new on arrival |
| `RingRuns.RunChangesAreFifo` | crates/client-wasm/src/ledger_state.rs:757-780 | over every run the recorded key changes have unique nodes, are the newest of the conflicts not decided since in the order they arose, each with the last pair presented and not decided after it; none is lost while at most 32 nodes have one |
| `PinDecisions.ReceiveDecides` | crates/client-wasm/src/ledger_state.rs:644-669 | an unpinned node is pinned confirmed, the pinned key is confirmed, any other key is only recorded beside the one that stays pinned; nothing else moves |
| `PinDecisions.ConfirmDecides` | crates/client-wasm/src/lib.rs:2344-2369 | confirming succeeds exactly when a pin is held, keeps every key, confirms the pins of that node and forgets its recorded change |
| `PinDecisions.AcceptDecides` | crates/client-wasm/src/lib.rs:2381-2406 | accepting succeeds exactly when a change is recorded and adopts its presented key, as the routing pin for the parent and as the leaf pin otherwise |
| `JoinObject.LocalBook.SetOutbound` | crates/client-wasm/src/state.rs:171-185 | records the outstanding join and forgets the last rejection, nothing else |
| `JoinObject.LocalBook.RejectOutbound` | crates/client-wasm/src/state.rs:205-211 | drops the outstanding join and records the rejection |
| `JoinObject.LocalBook.OnJoinApproved` | crates/client-wasm/src/state.rs:239-268 | computes the approval transition, branch by branch |
| `JoinObject.LocalBook.OnJoinRejected` | crates/client-wasm/src/state.rs:280-320 | computes the rejection transition, branch by branch |
| `JoinObject.LocalBook.ApplyRebase` | crates/client-wasm/src/state.rs:341-353 | computes the address move: only to the parent address with the own slot |
| `JoinObject.LocalBook.ApplyDetach` | crates/client-wasm/src/state.rs:364-372 | clears link, address and outstanding join unless nothing is attached |
| `Provenance.OutboundProvenance` | crates/client-wasm/src/state.rs:171-185 | over every run an outstanding join traces to the call that began it and has been outstanding since |
| `Provenance.JoinConsumedOnce` | crates/client-wasm/src/state.rs:239-320 | between two consumptions of a join lies a call that began the second one |
| `Provenance.LinkProvenance` | crates/client-wasm/src/state.rs:239-268 | over every run a parent link was installed by a signed, unexpired approval matching the join then outstanding in parent, child, nonce and pinned signer, and nothing replaced that join in between |
| `Provenance.RejectionConsumes` | crates/client-wasm/src/state.rs:280-320 | a rejection frame consumes the join exactly when it is admissible and comes from that parent and pinned signer with equal nonces or a zero one; it never touches link or ledger |
| `AddressProvenance.AddressWasAssigned` | crates/client-wasm/src/control.rs:284-339 | over every run the current address was assigned under the current link by its approval or by a newer rebase notice from that parent, and has not changed since |
| `AddressProvenance.ApprovalStartsOver` | crates/client-wasm/src/control.rs:384-411 | an applied approval installs its address, link and confirmed key and leaves nothing of the balance, orders, cache or rebase mark of the old edge |
| `Links.ApprovalExact` | crates/client-wasm/src/control.rs:384-411 | an approval is accepted exactly when it is supported, unexpired, signed and answers the outstanding join in parent, child, nonce and any pinned signer; the whole client it leaves is written out, and any other leaves the client alone |
| `Links.RejectionExact` | crates/client-wasm/src/control.rs:417-438 | a rejection that answers the outstanding join drops it and is remembered with its reason; any other changes nothing |
| `Links.DetachExact` | crates/client-wasm/src/control.rs:351-381 | a detach notice ends the link exactly when it is supported, unexpired, signed, names this client and comes from the parent under the key its node id names; otherwise a joined client refuses it unchanged |
| `Links.LeaveExact` | crates/client-wasm/src/lib.rs:908-961 | leaving drops link, address, join, routing pin, balance, orders and cache of an attached client, keeps the rebase mark, and does nothing otherwise |
| `Links.LinkEnds` | crates/client-wasm/src/control.rs:351-411 | a step that ends or replaces the parent link is the own leaving, an approval that answers an outstanding join, or a detach notice that speaks for that parent |
| `Links.RebaseAnswer` | crates/client-wasm/src/control.rs:284-339 | a rebase notice is accepted exactly when it is admissible, unless it repeats the mark with another address |
| `Links.AdmissibleIs` | crates/client-wasm/src/control.rs:284-339 | admissible means supported, unexpired, signed, within bounds, for this client, from the parent under its own key, and at the parent address with the own slot |
| `Links.QueryExact` | crates/client-wasm/src/control.rs:442-458 | a query changes nothing and is answered with the state exactly when this client's own operator asks as this client |
| `Links.DeadFramesDoNothing` | crates/client-wasm/src/control.rs:233-250 | an unsupported, expired or unsigned frame is refused and changes nothing, whatever it asks |
| `Links.JoinBegins` | crates/client-wasm/src/state.rs:171-185 | beginning a join replaces the outstanding one, forgets the last rejection and touches nothing else |
| `Links.PaymentExact` | crates/client-wasm/src/lib.rs:1644-1703 | a payment is pushed exactly when the client is joined and does not pay itself; every field of the pushed order is given, and nothing but the oldest order beyond 32 is lost |
| `ClientObject.ClientNode.constructor` | crates/client-wasm/src/control.rs:120-129 | a new client is unattached with fresh state |
| `ClientObject.ClientNode.Handle` | crates/client-wasm/src/control.rs:233-250 | the control handler computes the frame step: version and expiry first, then the request |
| `ClientObject.ClientNode.HandleRebase` | crates/client-wasm/src/control.rs:284-339 | the in-place rebase with its generation guard computes the step and the reply |
| `ClientObject.ClientNode.HandleDetach` | crates/client-wasm/src/control.rs:351-381 | the in-place detach computes the step and the reply |
| `ClientObject.ClientNode.HandleJoinApproved` | crates/client-wasm/src/control.rs:384-411 | the in-place approval computes the step and the reply |
| `ClientObject.ClientNode.HandleJoinRejected` | crates/client-wasm/src/control.rs:417-438 | the in-place rejection computes the step and the reply |
| `ClientObject.ClientNode.Leave` | crates/client-wasm/src/lib.rs:908-961 | leaving clears link, ledger binding and cache when attached |
| `ClientObject.ClientNode.DiscoverAncestors` | crates/client-wasm/src/lib.rs:1259-1315 | an unjoined client is refused; a cache for the current link is kept; otherwise a completed walk replaces it and a failed one leaves it, and the result says which |
| `ClientObject.ClientNode.RememberPayment` | crates/client-wasm/src/lib.rs:1644-1703 | a payment is remembered, and reported so, exactly when the client is joined and does not pay itself |
| `ClientObject.ClientNode.ConfirmPin` | crates/client-wasm/src/lib.rs:2344-2369 | confirms routing and leaf pins of the node and reports whether either was held |
| `ClientObject.ClientNode.AcceptPinChange` | crates/client-wasm/src/lib.rs:2381-2406 | accepts the recorded change of the node and reports whether there was one |
| `ClientObject.ClientNode.ReceiveLedger` | crates/client-wasm/src/lib.rs:2097-2216 | a queued ledger message is applied under the current parent and dropped while there is none; the result says whether it was accepted |
| `ClientProps.ReachableIsBound` | crates/client-wasm/src/control.rs:351-411 | in every reachable state address and parent come together, an unattached client has no routing pin, balance or pending order, a balance implies a routing pin, and all rings are in shape |
| `ClientProps.StepKeepsBound` | crates/client-wasm/src/ledger_state.rs:807-827 | every step, including resetting the ledger while joined, keeps the binding invariant |
| `Imports.ImportedPairIsBound` | crates/client-wasm/src/lib.rs:2420-2430 | importing a join state and a ledger exported at any two moments keeps the client bound exactly when the join state is attached or the ledger carries nothing of a parent |
| `Imports.OldLedgerUnbinds` | crates/client-wasm/src/lib.rs:2422-2429 | an input where it breaks: a ledger exported while joined, imported after leaving |
| `Imports.ImportedBalance` | crates/client-wasm/src/lib.rs:2422-2429 | an imported balance was attested for the edge from the parent its ledger was exported under |
| `Imports.ApprovalBindsAgain` | crates/client-wasm/src/control.rs:384-411 | whatever pair was imported, the next applied approval binds the client again |
| `Provenance.BalanceProvenance` | crates/client-wasm/src/ledger_state.rs:910-995 | over every run a present balance was attested, for the edge from the current parent to this client, by a receipt accepted since that parent was joined, and is unchanged since |
| `Provenance.RoutingProvenance` | crates/client-wasm/src/ledger_state.rs:690-751 | over every run a confirmed routing pin traces to the approval that brought it, a confirm or an accept, and has been confirmed since |
| `Provenance.LeafProvenance` | crates/client-wasm/src/ledger_state.rs:597-741 | over every run a confirmed leaf pin traces to a receive URI, a confirm or an accept for that node and key, and has been confirmed since |
| `ChangeProvenance.ChangesWerePresented` | crates/client-wasm/src/ledger_state.rs:757-780 | over every run a recorded change was recorded by a step that presented its new key for its node while its old key was the one held |
| `Provenance.SettlementProvenance` | crates/client-wasm/src/ledger_state.rs:1193-1355 | over every run each completed settlement was recorded by a v3 result whose proof carried the whole evidence against the pending order it resolved and the pins then held; v2 results never produce one |
| `Orders.OrdersAreConserved` | crates/client-wasm/src/ledger_state.rs:568-588 | over every run each pushed order has exactly one of four fates, the fates add up, the ring lists orders as pushed, and evicted orders are older than pending ones |
| `Orders.ResultRemovesOne` | crates/client-wasm/src/ledger_state.rs:1005-1056 | an applied result removes exactly the first pending order with its hash, a refused one removes nothing |
| `RebaseOrder.OneRebase` | crates/client-wasm/src/control.rs:284-339 | an inadmissible notice changes nothing; an admissible one moves the client exactly when its generation exceeds the mark |
| `RebaseOrder.RebaseOutcome` | crates/client-wasm/src/control.rs:284-339 | any sequence of notices ends at the greatest admissible generation above the start and the address of its first arrival, or where it began |
| `RebaseOrder.RebaseConverges` | crates/client-wasm/src/control.rs:284-339 | where the greatest generation above the mark names one address, any order and duplication of the same notices ends with the same mark and address |
| `RebaseOrder.ConvergesExactly` | crates/client-wasm/src/control.rs:284-339 | for every sequence of notices: all orders and duplications of them end alike exactly when the greatest admissible generation above the mark names one address |
| `RebaseOrder.RebaseRetiresCache` | crates/client-wasm/src/control.rs:673-702 | after a move every higher cached ancestor is refused as stale |
| `Ancestors.AncestorAddresses` | crates/client-wasm/src/control.rs:660-664 | all strict ancestor addresses, nearest first, agreeing with the single derivation at every depth |
| `Ancestors.AncestorAtIsAncestor` | crates/client-wasm/src/control.rs:649-655 | an address is derived exactly at depths below the own depth, and is the proper prefix that many digits shorter |
| `Ancestors.Walk` | crates/client-wasm/src/control.rs:773-819 | the walk makes at most depth-1 queries and keeps only entries its replies establish |
| `Ancestors.DiscoverAncestors` | crates/client-wasm/src/lib.rs:1259-1315 | the loop over depth, expected node and entries computes the recursive walk and its query count, and terminates |
| `Ancestors.WalkIsSound` | crates/client-wasm/src/control.rs:714-819 | for every sequence of replies: at most depth-1 queries, entries at depths 1..k in order each at its derived prefix, at most the last a root and then at address 0 |
| `Ancestors.RefusalKeepsPrefix` | crates/client-wasm/src/control.rs:803-812 | a refusal above depth 1 completes the walk with exactly the prefix found so far |
| `Ancestors.StepExact` | crates/client-wasm/src/control.rs:714-819 | one reply is accepted exactly when it answers for the queried ancestor at its address, or refuses above depth 1; the entry kept and the next query are given |
| `Ancestors.HonestWalk` | crates/client-wasm/src/control.rs:773-819 | honest ancestors complete the walk: with one query each it holds all of them, each at its own prefix, the last one the root |
| `Ancestors.ResolvedIsAncestor` | crates/client-wasm/src/control.rs:673-702 | whatever the cache holds, a resolved target is a proper prefix of the current address |
| `Ancestors.WalkCacheResolves` | crates/client-wasm/src/control.rs:673-702 | the cache of a completed walk resolves every entry to its own address exactly when node ids are distinct |
| `CacheProps.ReachableTargets` | crates/client-wasm/src/control.rs:673-702 | over every run, also with walks that end after their link is gone, a target resolves only to a proper prefix of the current address; the parent resolves to the address above the own one, and any other node exactly when the cache was filled for the current address and parent and lists it, to its first entry |
| `Delivery.MsgHandler.Handle` | crates/client-wasm/src/lib.rs:347-451 | mark, deliver and roll back computes the same mailbox and acknowledgement as a delivery without the intermediate mark |
| `Delivery.MsgHandler.Deliver` | crates/client-wasm/src/lib.rs:459-470 | the try-send puts the envelope on its queue, or reports full or closed and changes nothing |
| `Delivery.MsgHandler.Unobserve` | crates/client-wasm/src/lib.rs:476-482 | the rollback removes that one mark |
| `Delivery.DeliveryInvariant` | crates/client-wasm/src/lib.rs:347-482 | in every run an (origin, id) is marked exactly when it was queued, nothing is queued twice, queues respect their bound and control replies never enter the general queue |
| `Delivery.DeliveredExactly` | crates/client-wasm/src/lib.rs:347-451 | an envelope is delivered exactly when destination, hops, last hop and parent origin hold, its key is new and its queue has room; it is then marked and at the back of that queue; a marked one is a duplicate, and any other answer changes nothing |
| `Delivery.BusyThenRetry` | crates/client-wasm/src/lib.rs:425-455 | a busy refusal leaves the mailbox as it was, and whatever else arrives, drains or closes before it, a retry is never a duplicate unless that envelope was queued meanwhile |
| `Rotation.UserIdentitySlot.Registration` | crates/client-wasm/src/eth_identity.rs:214-224 | the proof verifies for the address of the held key and never as a rotation |
| `Rotation.UserIdentitySlot.Rotation` | crates/client-wasm/src/eth_identity.rs:232-243 | the proof verifies against exactly one incumbent, the address of the held key, and never as a registration |
| `Rotation.CommitControlIdempotent` | crates/client-wasm/src/control.rs:589-617 | the loop stops at the first reply; the outcome is applied exactly for an acceptance or a replay refusal, rejected with its code for any other refusal, and unexpected for any other reply; without a reply all attempts and at least one are spent |
| `Rotation.UserIdentitySlot.RotateWithKey` | crates/client-wasm/src/lib.rs:1910-1973 | the call signs one frame with the incumbent, runs the commit loop on it, and leaves the new key in the slot exactly on an applied outcome |
| `Rotation.RunIsRotation` | crates/client-wasm/src/lib.rs:1910-1973 | a network run that has ended is that call on the exchanges its events come to: same ending, same slot, same number of sends |
| `Rotation.ParentExact` | crates/node/src/control.rs:907-945 | the parent accepts a frame exactly when it is in its window, its nonce is new, the mark is saved, the leaf linked and the proof signed; only then does the anchor move, to the frame's address; every frame in its window is marked, and refused as a replay when it was |
| `Rotation.AcceptedReplyAdopts` | crates/client-wasm/src/lib.rs:1910-1973 | an acceptance that reaches the waiting client ends the run as applied with the new key in the slot |
| `Rotation.RefusedReplyKeeps` | crates/client-wasm/src/lib.rs:1910-1973 | a refusal that reaches it, other than a replay refusal, ends the run with that code and the old key in the slot |
| `Rotation.AnsweredRotationAgrees` | crates/client-wasm/src/lib.rs:1910-1973 | agreement at the start and no lost reply end as applied, once, with slot and anchor both at the new address |
| `Rotation.ProofTakenExactly` | crates/eth/src/lib.rs:678-697 | a parent takes the rotation proof exactly when its anchor is the incumbent address |
| `Rotation.RotationRun` | crates/client-wasm/src/lib.rs:1910-1973 | over every loss and delivery pattern the mark and anchor are decided by the first arrival in the window and the slot by the ending |
| `Rotation.AppliedAtMostOnce` | crates/client-wasm/src/control.rs:547-617 | the parent applies the frame at most once |
| `Rotation.RotationAgreement` | crates/client-wasm/src/lib.rs:1910-1973 | an applied outcome leaves slot and anchor agreeing exactly when the anchor already was the new address, or both agreed at the start and the marking arrival was saved and linked; any other ending leaves the slot alone |
| `Rotation.AgreementIsKept` | crates/client-wasm/src/lib.rs:1910-1973 | with a parent that saves its marks and keeps the link, agreement at the start gives agreement at the end |
| `Rotation.ReplayIsNotProof` | crates/client-wasm/src/control.rs:561-593 | a run in which a replay refusal ends as applied though nothing was applied: the slot moves and the anchor does not |
| `Rotation.SendsOutpaceExpiry` | crates/client-wasm/src/lib.rs:1925-1950 | with clocks at most 75 s apart, three sends of 15 s never outlive the 120 s expiry |
| `Rotation.SkewOutpacesExpiry` | crates/client-wasm/src/lib.rs:1925-1950 | with clocks further apart a rotation whose last send is in time can be refused as expired |
| `Secp256k1.HalfOrderIsHalf` | crates/eth/src/lib.rs:102-108 | the stored constant is floor(n/2) |
| `Secp256k1.HighSIsNumeric` | crates/eth/src/lib.rs:500-504 | the byte-wise comparison is the numeric comparison with floor(n/2) |
| `Secp256k1.ExactlyOneIsLow` | crates/eth/src/lib.rs:500-504 | for 0 < s < n exactly one of s and n-s is low |
| `Secp256k1.CanonicalIsLow` | crates/eth/src/lib.rs:509-519 | canonicalizing is never high, idempotent, keeps a low signature and flips the parity of a high one |
| `Secp256k1.SignThenRecover` | crates/eth/src/lib.rs:465-498 | a signature recovers to its signer exactly when the backend id is not x-reduced; otherwise it is refused for its recovery byte |
| `Secp256k1.RecoverExactly` | crates/eth/src/lib.rs:479-496 | recovery gives an address exactly on a 32-byte digest and a 65-byte signature with scalars in range, a low s and a known recovery byte from which the curve recovers a key, and it is that key's address; a high s is refused as such |
| `Bytes.BytesLessIsNumeric` | crates/eth/src/lib.rs:500-504 | byte-wise comparison of equal lengths is numeric comparison |
| `Digests.CopyFromSlice` | crates/eth/src/lib.rs:361-368 | copying into a buffer replaces exactly that stretch |
| `Digests.Eip712Digest` | crates/eth/src/lib.rs:361-368 | the 66-byte buffer is hashed as 19 01, domain, struct hash |
| `Digests.Eip712HashStruct` | crates/eth/src/lib.rs:352-357 | the type hash followed by the fields is hashed |
| `Digests.ChainIdToU256Be` | crates/eth/src/lib.rs:404-408 | a chain id is 24 zero bytes and its eight big-endian bytes |
| `Digests.AbiEncodeAddress` | crates/eth/src/lib.rs:416-420 | an address is left-padded with twelve zero bytes |
| `Digests.Eip712DomainSeparator` | crates/eth/src/lib.rs:372-379 | the separator binds name, version and chain id in that layout |
| `Digests.BuildOrderDigest` | crates/eth/src/lib.rs:393-401 | the order digest binds the order hash and the printed payee address |
| `Digests.BuildRegistrationDigest` | crates/eth/src/lib.rs:429-436 | the registration digest binds node id and new address |
| `Digests.BuildRotationDigest` | crates/eth/src/lib.rs:446-458 | the rotation digest binds node id, old and new address in that order |
| `Digests.StructLayout` | crates/eth/src/lib.rs:395-458 | the hashed bytes of each kind, word by word: its own type string, then its fields at their offsets |
| `Digests.DomainLayout` | crates/eth/src/lib.rs:372-379 | the hashed bytes of the domain: type, name, version, chain id |
| `Digests.FinalLayout` | crates/eth/src/lib.rs:361-368 | the final bytes: 19 01, the separator of Cawala version 1 and its chain id, and the struct hash, hashed once |
| `Digests.OrderLayout` | crates/ledger/src/auth.rs:42-85 | the order bytes: each node id behind its length, then amount, nonce and expiry, little-endian |
| `Digests.AddressWordLayout` | crates/eth/src/lib.rs:416-420 | an address word ends in the address and is zero before it |
| `Digests.ChainIdLayout` | crates/eth/src/lib.rs:404-408 | a chain id word ends in its eight big-endian bytes and is zero before them |
| `Digests.OrderBytesInjective` | crates/ledger/src/auth.rs:42-85 | the canonical order bytes determine every field of the order |
| `Digests.DigestsSeparate` | crates/eth/src/lib.rs:352-458 | equal digests bind the same kind and the same inputs, down to the fields of an order, or one of the hashes taken on the way to these two digests collides |
| `Digests.DomainsSeparate` | crates/eth/src/lib.rs:372-379 | equal separators name the same application, version and chain, or a hash taken for them collides |
| `AddressText.Print` | crates/proto/src/addr.rs:106-116 | the print loop gives one digit per level with dots between |
| `AddressText.Parse` | crates/proto/src/addr.rs:133-156 | the parse loop accepts exactly the address texts and gives a valid address |
| `AddressText.PrintThenParse` | crates/proto/src/addr.rs:106-156 | parsing a printed address gives it back |
| `AddressText.ParseThenPrint` | crates/proto/src/addr.rs:133-156 | an address has one spelling: printing a parsed text gives it back |
| `Claims.CanonicalBytesInjective` | crates/ledger/src/commit.rs:61-71 | the fixed-width commitment encoding determines the commitment |
| `Claims.CommitmentLayout` | crates/ledger/src/commit.rs:61-71 | where each field stands in the 184 bytes |
| `Claims.VerifyChain` | crates/ledger/src/commit.rs:132-173 | the anchored pass with a moving predecessor reports the first fault, or none |
| `Claims.VerifyChainContinuity` | crates/control/src/claim.rs:394-434 | both branches, with their loops and error order, report the continuity fault |
| `Claims.ContinuityExact` | crates/control/src/claim.rs:394-434 | the check accepts exactly the chains whose elements name the key, are signed under it and have a height equal to their entry count, each naming the hash of the one before and rising, up to the head, with the same of the head when the chain reaches genesis |
| `Claims.ContinuityFaultIs` | crates/control/src/claim.rs:394-434 | behind a signed head the fault is the signature when the first unsound ancestor is not signed under the key, and a broken chain whenever else the chain is not continuous |
| `Claims.AcceptedChainsAgree` | crates/control/src/claim.rs:394-434 | two accepted chains with one head: the commitments of one are a suffix of those of the other, or two of theirs collide; both anchored means equal, barring a collision or a zero hash; heights rise strictly |
| `Claims.HeadHeightOnlyCheckedAtGenesis` | crates/control/src/claim.rs:405-434 | a head whose height differs from its entry count is refused exactly when the chain is anchored |
| `Claims.VerifyBundle` | crates/control/src/claim.rs:249-317 | the verdict is the first fault in the fixed order of checks, named check by check from the bundle alone; without one the claim is passed on unchanged |
| `Claims.OperatorNamed` | crates/control/src/claim.rs:382-384 | a node id names a key exactly when it spells 32 bytes in 64 hex digits that are a valid key |
| `Claims.BundleExact` | crates/control/src/claim.rs:249-317 | a bundle is accepted exactly when it carries the whole evidence, the signature of the head under the key it names among it; a carried proof is always a checked one |
| `Claims.VerdictIsNamed` | crates/control/src/claim.rs:249-317 | the verdict of the ordered checks is the one stated fault by fault |
| `Hex.HexNibble` | crates/control/src/invite.rs:306-313 | a digit has a value exactly when it spells one, in either case |
| `Hex.DecodeHex32` | crates/control/src/invite.rs:291-303 | the array-filling loop decodes 64 digits or reports failure |
| `Hex.DecodeIsExact` | crates/control/src/invite.rs:291-303 | decoding gives b exactly on the texts that spell b, in any mixture of cases |
| `Hex.HexRoundTrip` | crates/client-wasm/src/dto.rs:2077-2089 | decoding undoes printing |
| `FormText.PercentEncode` | crates/control/src/invite.rs:261-276 | the byte loop appends each byte literally or as an escape |
| `FormText.EncodedIsQuerySafe` | crates/control/src/invite.rs:261-276 | percent-encoding never emits a separator, a plus or a fragment mark |
| `FormText.DecodeUndoesEncode` | crates/control/src/invite.rs:246-270 | form decoding undoes percent-encoding on every byte string |
| `FormText.DecodeUndoesForm` | crates/control/src/invite.rs:152-158 | form decoding also reads a space written as a plus |
| `FormText.QueryReadsBack` | crates/control/src/invite.rs:152-158 | pairs joined with & are read back as those pairs with decoded values |
| `Invites.Encode` | crates/control/src/invite.rs:84-113 | the printer emits the required parameters and each present optional one, in order |
| `Invites.CollectParams` | crates/control/src/invite.rs:143-171 | the loop over pairs stops at the first repeated key or collects the last value of each known one |
| `Invites.Parse` | crates/control/src/invite.rs:137-209 | the parser, for any URL the URL parser accepts, reports the wrong scheme or host, then the first bad parameter in its fixed order, or the invite |
| `Invites.EncodedParams` | crates/control/src/invite.rs:84-209 | printing and parsing hands every parameter over unchanged, whatever text it holds |
| `Invites.InviteRoundTrip` | crates/control/src/invite.rs:84-209 | parsing a printed invite gives it back exactly when the parent is not empty, the slot at most 7 and the hints read back; otherwise the missing parent and the bad slot are reported |
| `Invites.UnknownIsIgnored` | crates/control/src/invite.rs:168-170 | a parameter under an unknown key not otherwise given changes nothing wherever it stands: the same invite, or the same fault |
| `Invites.DuplicateExact` | crates/control/src/invite.rs:155-171 | a query is refused as repeating exactly when some key is given twice, naming the key that repeats first |
| `Invites.AcceptedExactly` | crates/control/src/invite.rs:143-209 | the pairs are accepted as an invite exactly when no key repeats, the parent is given and not empty, op spells the operator key, the slot is a number up to 7, the expiry one of 64 bits, and label and hints are what their parameters hold, absent exactly when those are |
| `ReceiveUri.Parse` | crates/client-wasm/src/dto.rs:2194-2245 | the loop filling four options, with its guards and error order, computes the parse |
| `ReceiveUri.StepsExact` | crates/client-wasm/src/dto.rs:2204-2232 | the loop succeeds exactly on acceptable parameters with distinct keys, and fills each option from the parameter that names it |
| `ReceiveUri.PartsExact` | crates/client-wasm/src/dto.rs:2194-2245 | the parser gives an answer exactly when every parameter is acceptable, no key repeats, to and addr are given, ln and lk come together, the payee is an endpoint id and each field is what its parameter reads as |
| `ReceiveUri.PartsFault` | crates/client-wasm/src/dto.rs:2232-2245 | on acceptable parameters with distinct keys: missing to, missing addr, bad payee and half a leaf pin are reported in this order, each for its own cause |
| `ReceiveUri.UrisReorder` | crates/client-wasm/src/dto.rs:2194-2245 | reordering the parameters of a URI never changes whether parsing succeeds, or its result |
| `ReceiveUri.ReceiveRoundTrip` | crates/client-wasm/src/dto.rs:2149-2167 | parsing a printed URI gives back its parts, with or without the pin, exactly when its node ids are endpoint ids |

## Left out

- Networking, endpoints, timeouts as I/O, the queue of control events, the list of children, wasm bindings, DTO conversion and the web build: no hard property. Replies and losses are parameters of the walk, the commit loop and the rotation run.
- Error texts: they are enumerations here, one per text, in the same order of checks.
- Clocks and random bytes: `now`, nonces and ids are parameters of the steps.
- The node side beyond its replay guard and anchor check, `Ledger::append`, netting, settlement cascades and the Merkle code: the client's checks on their results are parameters.
- Ed25519, secp256k1, Keccak, BLAKE3, BIP-39, BIP-32 and postcard internals: parameters with the contracts stated above.
- ClientProps.ReachableIsBound: the steps of a run import nothing but the client's current saved state (`Reload`) or a discarded ledger (`DiscardLedger`); earlier exports are imported in `Imports`, which says which pairs keep the invariant. Blobs the client never exported are not modelled, because decoding checks version and lengths but not the run invariants.
- The entry sequence number of a settlement: copied from the result's status and compared with nothing, so nothing is claimed of it. No rising balance height is claimed either, because no code checks it.
- The v1 order result as evidence of a proof: it reports a status without one, and writes no settlement record.
- That the joined address ends in the approval's slot: the code checks it on a rebase only.
- Amount validation, per-field bounds of unrelated requests, version numbers of records and reply labels: each is settled by reading one branch.
- Bounds of the seen set: the model's seen set forgets nothing, so a mark that the real set would forget by age or capacity is not captured.
- The URL parser, socket addresses and relay URL syntax: parameters; the round trip asks that a hint reads back from its own text, which an IPv6 flow label, for one, does not.
- Text that is not UTF-8 after form decoding: a text is a string of bytes here, so the replacement of malformed sequences is not captured.
- Verification of identities carried in v4 orders: the node's part; the digest they sign is in `Digests`.
- Aliasing: a client's ledger and join state are shared behind locks in the source; each method here runs alone, as it does under its lock.
