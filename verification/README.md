# Erigon: verified models of fee accounting, ancestor lookup, peer networking and merkleization

This project models the parts of the Erigon Ethereum client whose correctness is
a property of whole runs, and proves those properties in Dafny.
`dafny verify dfyconfig.toml` checks everything.

| part | files |
|---|---|
| one transaction: gas purchase, authorizations, execution, refund, tip, burn, recovered panics | `Ledger`, `GasPool`, `Authorizations`, `Transition`, `TransitionTheorems`, `ValueTheorems`, `TransitionExact`, `TransitionWitnesses`, `StateTransition` |
| the transaction loop of a block | `BlockExecution`, `BlockValue`, `BlockReceipts` |
| the ancestor-hash cache behind the BLOCKHASH instruction | `AncestorCache` |
| the dial scheduler, its history heap, and peer admission | `ExpiryHeap`, `DialScheduler`, `DialTheorems`, `DialExact`, `DialCompleteness`, `DialLoop`, `PeerAdmission`, `AdmissionExact`, `PeerTrust`, `PeerServer` |
| devp2p capability multiplexing and the peer's write token | `Capabilities`, `Multiplexing`, `WriteToken`, `TokenProgress` |
| SSZ merkleization, bitlist roots, blob inclusion proofs | `Merkle`, `MerkleFlat`, `Bitlist`, `Digits`, `InclusionProof`, `NextPower` |
| PeerDAS column download and recovery workers | `ColumnDownload`, `ColumnProgress` |
| optional values, 64-bit words and division | `Common` |

Code that changes state in place is modelled by classes and methods. Each method
is proved to compute a function on values, and the theorems are about those
functions and about all runs built from them. Goroutines that share channels or
locks are state machines in which every channel operation, lock section or local
action is one step; their theorems quantify over every interleaving.

Integers are unbounded in Dafny, so 64-bit and 256-bit arithmetic is written out
with its wrap-around (`Add64`, `Sub64`, `Add256`, `Mul256`). Counts and sizes that
the source holds in `int` are unbounded.

## What is assumed of code outside the model

- The virtual machine is any function of state, gas and the bailout flag. Gas
  theorems assume that it returns no more gas than it was given; value theorems also
  assume that it does not raise the total balance, and the nonces of a block that neither
  it nor finalization lowers a nonce. Its refund counter is arbitrary, and
  a panic leaves whatever state it had made.
- `IntrinsicGas`, signature recovery and finalization may return anything, except
  that recovery refuses nonce 2^64 - 1 and, for the value of a block, that finalization
  moves no value. A message carries the price min(feeCap, baseFee + tipCap) under London
  and never one above its cap; the supply before a transaction is below 2^256, with room
  for what refused debits may leave unpaid; a transaction's blob gas is its message's
  and is zero before Cancun. Where base-fee checks are off, a message without price is
  executed in a context without base fee (core/vm/evm.go:86-90, 119-123); block
  execution never switches them off.
- The store may refuse any set of the writes whose errors the source does not look at,
  and may end the run by an error or a panic at any one place named by `Site`. Theorems
  hold for every such fault unless they say otherwise. The state of this repository
  keeps an account once it was loaded (core/state/intra_block_state.go:992-995), so it
  can refuse the gas debit only where the balance was read from another version, and the
  refund only if it refused the debit too; `KeptSenderLosesNoRefund` says what then
  remains of the drift.
- A fetched header is numbered as asked and its parent hash is a function of its
  hash and number. The LRU may forget any entries at any time.
- The clock is monotone, the address resolver keeps a node's ID, `sort` returns some
  sorted permutation, `container/heap` sifts as usual, and maps may be visited in any
  order.
- Pair hashing is any two-argument function on 32-byte chunks; what an accepted
  inclusion proof means is stated for every such function, with the collision named.
  Only the exactness of merkleization limits uses a collision-free hash, over terms.
- After a peer's connection is closed, reads and pongs on it fail; when the protocols
  return and how much they still try to write is up to them.

## Where the code does less than one might expect

- `GetDepth` rounds a limit down, while the SSZ `merkleize` rounds it up. Both roots
  agree exactly when the limit is a power of two (`ExactlyPowerOfTwoLimits`);
  `LimitThreeDropsAChunk` shows the smallest failing case.
- Protocol offsets are 64-bit sums that wrap. Codes come back under their own
  protocol exactly when all ranges together end below 2^64
  (`RoundTripsIffRangesFit`).
- `VerifyCommitmentInclusionProof` looks only at the low 13 bits of the commitment
  index; it checks the position 11 * 2^13 + index exactly when the index is below
  2^13 (`PositionInRange`). Bit 12 of the index leads beside the list of commitments, to
  the chunk of its length (`AcceptsAtLength`).
- `NextPowerOfTwo` returns zero for arguments above 2^63.
- Store errors of the gas and blob debits, of the refund and of the burn are not looked
  at, so an executed message may be refunded what it never paid (`DebitIsSkipped`) and,
  on a store that does not keep loaded accounts, lose its refund (`RefundIsLost`).
  `Conservation` gives the exact amount for every set of refused writes: a run conserves
  if and only if that amount is zero.
- The error of the nonce write is not looked at either; with a store that refuses it a call
  is included twice (`ForgottenNonceReplays`), otherwise never (`NoReplayInBlock`).
- A bit limit within 255 of 2^64 overflows and leaves no chunks (`LimitIsLeast`).
- With the blob-price check switched off the blob debit wraps if and only if the sender
  cannot pay it (`PurchaseWrapsIff`, `BlobDebitWraps`).
- A rejected message keeps what it had bought: its gas stays out of the pool and its
  price is not returned, and a purchase refused because the block is full is still
  charged (`RejectionIsNotUndone`, `RefusalIsCharged`). `PoolOnEveryExit` and
  `ValueBeforeRunning` give the exact amounts; pool and gas used make up the block's
  limit if and only if nothing was lost this way (`FullIffNothingLost`).
- A connection's trust is settled between the two handshakes and is not looked up again
  when the connection is held against the limits. A node that lost its trust in between
  passes them (`LapsedTrustIsAdmitted`), and one that gained it is refused
  (`LateTrustIsRefused`). The decision is that of the present trust if and only if the
  trust did not change or no limit is reached (`AdmissionFollowsTrustIff`).

## Model

| member | source | states |
|---|---|---|
| `Ledger.TotalUpdate` | core/state_transition.go:244-245 | The sum of all balances moves by exactly the difference when one account is replaced, whatever the order of summation. |
| `Ledger.CreditTotal` | core/state_transition.go:720 | A credit that keeps the supply below 2^256 does not wrap and is conserved. |
| `Ledger.DebitTotal` | core/state_transition.go:237-245 | A debit covered by the balance does not wrap and is conserved. |
| `Ledger.DebitWraps` | core/state/intra_block_state.go:719-747 | A debit wraps exactly if the balance does not cover it. |
| `Ledger.CreditsCommute` | core/state_transition.go:574-597 | Two credits commute for every aliasing of the accounts, even when they wrap. |
| `GasPools.GasPool.constructor` | core/gaspool.go:35-37 | A pool holds the given gas and blob gas. |
| `GasPools.GasPool.AddGas` | core/gaspool.go:47-55 | The pool grows by the amount; the overflow panic is a precondition, so each call site shows it unreachable. |
| `GasPools.GasPool.SubGas` | core/gaspool.go:59-68 | Fails exactly if the pool is short, leaving it alone; else takes the amount. |
| `GasPools.GasPool.AddBlobGas` | core/gaspool.go:77-85 | The same for blob gas. |
| `GasPools.GasPool.SubBlobGas` | core/gaspool.go:89-98 | The same for blob gas. |
| `Authorizations.NonceCountsAcceptances` | core/state_transition.go:626-711 | Over any list each nonce rises by exactly the number of authorizations accepted for the account; no balance moves. |
| `Authorizations.NoReplay` | core/state_transition.go:675-706 | Two acceptances for one authority have strictly increasing nonces, so no (authority, nonce) pair is accepted twice. |
| `Authorizations.CodeIsLastAccepted` | core/state_transition.go:656-703 | Code ends as the last accepted delegation; an account with none is untouched; contract code is never replaced. |
| `Authorizations.RefundCountsExisting` | core/state_transition.go:684-691 | The 64-bit refund counter rises by the fixed amount per acceptance whose account existed at that step. |
| `Authorizations.AuthorizationsKeepTotal` | core/state_transition.go:626-711 | No prefix of an authorization list changes the total balance. |
| `Authorizations.AcceptedIff` | core/state_transition.go:637-681 | An authorization is accepted exactly if it is for this chain or any, has a nonce below the largest, was signed, and its signer has that nonce and no code but a delegation. |
| `TransitionTheorems.PurchaseGas` | core/state_transition.go:189-260 | A successful purchase draws exactly the message's gas and blob gas from the pool; a refused one draws no gas. |
| `TransitionTheorems.ChargeBounds` | core/state_transition.go:545-560 | The charge honours the floor, never exceeds the gas bought, and the refund is at most used/quotient. |
| `TransitionTheorems.SettleGas` | core/state_transition.go:545-597 | Settlement leaves the pool at most at its start less the gas used, and exactly there on success with refunds. |
| `TransitionTheorems.GasOnEveryExit` | core/state_transition.go:420-624 | On success floor <= gas used <= message gas and the pool is down by exactly that; on every other exit, at any fault or panic, both pools end no higher than they began. |
| `TransitionTheorems.PoolOnEveryExit` | core/state_transition.go:420-624 | Exactly what each exit keeps of the block's gas and blob gas, wherever a fault strikes: none before the purchase, all of it until settlement, then what was used; a recovered panic leaves the pool short by the gas not counted as used. |
| `TransitionTheorems.RejectionKeeps` | core/state_transition.go:464-505 | Without faults a rejected message has kept its gas exactly if its purchase went through. |
| `ValueTheorems.PurchaseTotal` | core/state_transition.go:189-260 | On every exit of the purchase, full block included, the total and the sender's balance are down by exactly what was charged; where prices are checked at least the transferred value remains. |
| `ValueTheorems.PurchaseWrapsIff` | core/state_transition.go:213-245 | The purchase is exact if and only if the sender can pay gas and blobs, which fails only where the blob-price check is off. |
| `ValueTheorems.PrepareKeepsTotal` | core/state_transition.go:476-540 | Nonce, authorizations (also interrupted ones) and access preparation keep the total balance. |
| `ValueTheorems.ValueBeforeRunning` | core/state_transition.go:420-540 | A run that ends before the virtual machine is entered leaves the total down by exactly what its purchase charged, for every fault. |
| `ValueTheorems.RefundTotal` | core/state_transition.go:713-725 | The refund restores exactly the price of the gas not charged, unless the store refuses it unnoticed. |
| `ValueTheorems.FeesExact` | core/state_transition.go:562-597 | Tip and burn equal their unbounded products: no multiplication or addition wraps. |
| `ValueTheorems.FeesTotal` | core/state_transition.go:574-597 | Tip and burn are credited in full, as far as the payment gets and unless the store refuses the burn unnoticed. |
| `ValueTheorems.ValueAfterRunning` | core/state_transition.go:420-624 | For every rule set, every fault and every exit after the virtual machine was entered, where the total goes: payment, refund, tip and burn, each as far as the run gets and unless refused unnoticed; it rises by no more than was left unpaid. |
| `ValueTheorems.PriceSplits` | core/vm/evm.go:85-90 | In the context a message is executed in, passing the price checks means that the price pays for the fees; under London it is base fee plus tip, and where the base-fee check is skipped there is no base fee. |
| `ValueTheorems.Conservation` | core/state_transition.go:420-624 | Under London, whatever the store refuses and wherever it may stop, an executed run is off conservation by exactly the drift and conserves if and only if it is zero; under Aura and Prague with a burnt contract a conserving run loses nothing. |
| `ValueTheorems.UnrefusedConservation` | core/state_transition.go:420-624 | With a store that refuses no write unnoticed, every executed run conserves, calls without price included. |
| `ValueTheorems.KeptSenderLosesNoRefund` | core/state/intra_block_state.go:992-995 | With a store that keeps loaded accounts a run drifts down only by a refused burn. |
| `TransitionWitnesses.RefundIsLost` | core/state_transition.go:720 | A refund refused alone, which takes a store that does not keep loaded accounts: nothing used, everything lost. |
| `TransitionWitnesses.DebitIsSkipped` | core/state_transition.go:244 | A debit refused on a versioned state: the sender is refunded what was never paid. |
| `TransitionWitnesses.RejectionIsNotUndone` | core/state_transition.go:493-495 | Intrinsic gas above the message's gas: rejected with gas and price kept. |
| `TransitionWitnesses.RefusalIsCharged` | core/state_transition.go:244-250 | A block too full for the message: refused, and charged. |
| `TransitionWitnesses.BlobDebitWraps` | core/state_transition.go:331-334 | A blob message that offers nothing, with the blob-price check off: the purchase goes through and the debit wraps. |
| `ValueTheorems.DeferralIsLate` | core/state_transition.go:97-100 | For every fault not on the coinbase's balance, a deferred run agrees with the direct run up to the fee payment. |
| `ValueTheorems.DeferredFees` | core/state_transition.go:562-617 | For every fault: which faults stop only the direct run; otherwise both accept and reject alike, and deferring and crediting in either order gives the direct run's accounts, for every aliasing, if and only if no burn was refused unnoticed. |
| `TransitionExact.ExecutesIff` | core/state_transition.go:420-624 | For every fault a message is executed if and only if (where nonces are checked) it carries its sender's nonce and the sender has no code but a delegation, its prices suffice, its gas can be paid and is in the block, it is well made, and the store does not stop the run at a place it gets to. |
| `TransitionExact.InterruptedLeaves` | core/state_transition.go:650-706 | A store that stops in an authorization leaves exactly the effect of those before it, and of that one the refund and the code as far as they were written; its nonce is not yet raised. |
| `TransitionExact.RefusedForFirst` | core/state_transition.go:189-343 | With a store that does not stop the run a message is executed exactly if none of nineteen reasons is against it, and otherwise refused with the first that holds, in the order the source looks for them. |
| `TransitionExact.RefusalIsTrue` | core/state_transition.go:189-343 | Every error returned says something that holds of the message and the block, one case for each error; a store error or a panic comes only from the store, and a panic is survived exactly on a versioned state. |
| `TransitionExact.BlobFee` | core/state_transition.go:195-206 | Blobs cost their gas at the block's blob price. |
| `TransitionExact.PurchaseTouches` | core/state_transition.go:189-260 | The purchase changes no account but the sender's, and of that only the balance. |
| `TransitionExact.EntryIs` | core/state_transition.go:476-540 | Whenever the virtual machine is entered: its gas is the message's less the intrinsic gas, and each nonce is that before, one more for the sender of a call whose nonce the store took down, and one more for each authorization accepted for the account. |
| `TransitionExact.ChargeIs` | core/state_transition.go:545-560 | The gas charged is what was used less the smaller of the refund counter and a fifth of it (half before London), and at least the floor under Prague. |
| `TransitionExact.ExecutedReports` | core/state_transition.go:545-617 | Every executed run, for every fault: the gas reported is that charge for what the virtual machine used and refunds, its failure and counter are reported as they were, and so are both initial balances and the burnt contract. |
| `TransitionExact.WhoIsPaid` | core/state_transition.go:562-597 | After the virtual machine an executed run changes balances only, account by account: the sender gets the price of the gas not used, the coinbase the tip, the burnt contract the burn, for every aliasing. |
| `TransitionExact.ConservationBeforeLondon` | core/state_transition.go:562-597 | Before London the whole price is tipped, and an executed run changes the total by the machine's own change and the blob fee only, and by what the store refused. |
| `StateTransitions.StateTransition.constructor` | core/state_transition.go:128-140 | The object starts as the initial machine over the shared pool. |
| `StateTransitions.StateTransition.Charge` | core/state_transition.go:244-245 | The two debits, errors ignored, as the value-level step. |
| `StateTransitions.StateTransition.BuyGas` | core/state_transition.go:189-260 | The in-place purchase computes the value-level purchase on every path, errors included. |
| `StateTransitions.StateTransition.PreCheck` | core/state_transition.go:275-343 | The same for the nonce, sender-code, price, blob-price and gas-limit checks. |
| `StateTransitions.StateTransition.VerifyAuthorities` | core/state_transition.go:626-711 | The loop computes the state after the list, or what was written when a store fault struck at any of its reads and writes, and returns every recovered signer. |
| `StateTransitions.StateTransition.Prepare` | core/state_transition.go:476-540 | Nonce bump, intrinsic gas, authorizations and bailout decision as the value-level step, which `TransitionExact.EntryIs` and `TransitionExact.ExecutesIff` determine. |
| `StateTransitions.StateTransition.RefundGas` | core/state_transition.go:545-560 | Capped refund, floor and return of gas as the value-level step, which `TransitionExact.ChargeIs` and `TransitionExact.WhoIsPaid` determine; the pool cannot overflow. |
| `StateTransitions.StateTransition.PayFees` | core/state_transition.go:562-597 | Credits or only reports tip and burn, as the value-level step. |
| `StateTransitions.StateTransition.TransitionDb` | core/state_transition.go:420-624 | The whole transition with its deferred recovery computes `Transition.TransitionDb`, about which the theorems speak. |
| `BlockExecution.ApplyLoses` | core/state_processor.go:70-80 | One transaction takes from both pools exactly what is counted if it is included and what its exit keeps if not. |
| `BlockExecution.ApplyAccounts` | core/state_processor.go:70-94 | One transaction, included or not, keeps the block's exact gas accounting. |
| `BlockExecution.BlockGas` | core/blockchain.go:99-157 | After every prefix pool gas, gas used and gas lost make up the limit, blob gas likewise, and each receipt's cumulative gas is the prefix sum. |
| `BlockExecution.FullIffNothingLost` | core/blockchain.go:99-157 | Pool gas and gas used make up the limit if and only if no transaction reached has lost gas; so for blob gas. |
| `BlockExecution.LossWithoutFaults` | core/state_processor.go:70-77 | Without faults a transaction loses its gas if rejected after buying it, the gas used if finalization fails, and nothing if its purchase is refused. |
| `BlockExecution.RejectionShrinksTheBlock` | core/blockchain.go:146-151 | A block in which a rejected message's gas is neither in the pool nor counted. |
| `BlockExecution.StoppedStays` | core/blockchain.go:146-150 | Once a failing transaction has ended the block, nothing changes any more. |
| `BlockValue.ApplyMovesValue` | core/state_processor.go:70-80 | One transaction, for every fault and whether or not it is included, moves the total by exactly its charge, or its machine's net change, payment, refund, tip and burn. |
| `BlockValue.BlockValueFlow` | core/blockchain.go:129-157 | After every prefix of a block the total is the start plus the changes of the transactions reached, and above it by no more than went unpaid. |
| `BlockValue.ExecutedChange` | core/state_processor.go:70-80 | Under London an executed transaction changes the total by its machine's net change less base and blob fee plus the burn and what the store refused. |
| `BlockReceipts.TurnRecords` | core/blockchain.go:146-156 | One transaction is listed as included exactly if it was executed and finalized, else listed as rejected or the end of the block; what state it leaves. |
| `BlockReceipts.ReceiptsReport` | core/state_processor.go:84-96 | In every block each receipt belongs to an included transaction, in order, and reports success if and only if the virtual machine, run on the state and gas that transaction entered it with, reported no failure, and the gas charged for that run. |
| `BlockReceipts.IncludedIff` | core/blockchain.go:129-157 | After every prefix a transaction is included exactly if it was reached, executed and finalized, and rejected exactly if it was reached and neither included nor the end of the block. |
| `BlockReceipts.InclusionRaises` | core/state_transition.go:476-483 | An included transaction carried its sender's nonce; no nonce is lower afterwards and that of a call's sender is higher. |
| `BlockReceipts.NoReplayInBlock` | core/state_transition.go:275-293 | In every block whose nonces are checked, a call and a later included transaction of its sender carry increasing nonces, so no (sender, nonce) pair is included twice, given that the machine and the finalization lower no nonce. |
| `BlockReceipts.ForgottenNonceReplays` | core/state_transition.go:482 | With a store that refuses to take the nonce down, unnoticed, one call is included twice. |
| `BlockExecution.BlockExecutor.constructor` | core/blockchain.go:99-102 | The block begins with the pool at the block's limits. |
| `BlockExecution.BlockExecutor.ApplyTransaction` | core/state_processor.go:36-107 | Applies one transaction through the shared pool and counters as `Apply` does, whose receipts `BlockReceipts.ReceiptsReport` determines. |
| `BlockExecution.BlockExecutor.ExecuteTransactions` | core/blockchain.go:129-157 | The loop computes `Prefix` over all transactions, with rejections and early end. |
| `AncestorCache.ScanSound` | core/evm.go:150-163 | Descending through cached entries keeps the cursor on the ancestor chain and answers only with the ancestor. |
| `AncestorCache.ResumeSound` | core/evm.go:165-188 | Resuming after the unlocked read stays on the chain whatever other calls did meanwhile; only a missing header or a store error gives no hash. |
| `AncestorCache.NextGood` | core/evm.go:111-190 | Every step of every call keeps cache, cursor and answers right; each read is strictly lower than the call's previous one. |
| `AncestorCache.CacheRefinesWalk` | core/evm.go:111-190 | In every state of every interleaving with arbitrary eviction the cache and the cursor lie on the parent-hash walk and every answer given equals it. |
| `AncestorCache.CallIsAnswered` | core/evm.go:122-189 | From every reachable state a new call can be made and, with all headers stored, is answered: with the ancestor, or out of range exactly above the parent, whatever the cache drops meanwhile. |
| `AncestorCache.AnyEviction` | core/evm.go:117-119 | From every reachable state the cache may drop any entries, and nothing else changes. |
| `AncestorCache.HashLookup.constructor` | core/evm.go:111-120 | The cursor starts at the parent. |
| `AncestorCache.HashLookup.ScanCache` | core/evm.go:150-163 | The inner loop computes `Scan`. |
| `AncestorCache.HashLookup.EnterLocked` | core/evm.go:123-163 | The locked entry section computes `Enter`. |
| `AncestorCache.HashLookup.ResumeLocked` | core/evm.go:172-188 | The section after the lock is taken again computes `Resume`. |
| `AncestorCache.HashLookup.GetHash` | core/evm.go:122-189 | A call ends, its answer is right, and with all headers present it is the ancestor. |
| `ExpiryHeap.RootIsLeast` | p2p/util.go:38-40 | In a heap the root expires no later than any item. |
| `ExpiryHeap.SiftUpStep` | p2p/util.go:43-45 | Moving a too-early item up one level moves the one violation with it. |
| `ExpiryHeap.SiftDownStep` | p2p/util.go:58-65 | Moving the earlier child up moves the one violation down. |
| `ExpiryHeap.ExpHeap.NextExpiry` | p2p/util.go:38-40 | The least expiry present. |
| `ExpiryHeap.ExpHeap.Push` | p2p/util.go:43-45 | Adds one item to the multiset and keeps the heap. |
| `ExpiryHeap.ExpHeap.Pop` | p2p/util.go:58-79 | Removes one item that expires first. |
| `ExpiryHeap.ExpHeap.Contains` | p2p/util.go:48-55 | Membership of the key in the remaining multiset. |
| `ExpiryHeap.ExpHeap.ExpireBefore` | p2p/util.go:58-65 | Removes exactly the items with expiry before now, in non-decreasing order. |
| `ExpiryHeap.ExpHeap.Replay` | p2p/util.go:38-79 | After any sequence of operations each item's multiplicity is its number of additions since the last expiry that removed it. |
| `DialTheorems.OneRunningPerNode` | p2p/dial.go:468-479 | Two running tasks for one node are the same task. |
| `DialTheorems.RemoveKeeps` | p2p/dial.go:457-466 | Swap-removal keeps the pool index-linked and moves exactly the last task. |
| `DialTheorems.StartKeeps` | p2p/dial.go:468-479 | Starting a dialable task keeps links and spacing and adds exactly a dynamic node to the dynamic count. |
| `DialTheorems.UpdateKeeps` | p2p/dial.go:440-445 | Reconsidering a static task keeps the invariant and pools it if it may be dialed. |
| `DialTheorems.ForgetAllKeeps` | p2p/dial.go:381-390 | Dropping expired history entries one by one keeps the invariant throughout. |
| `DialTheorems.HandleKeeps` | p2p/dial.go:255-323 | Every case of the select keeps the invariant. |
| `DialTheorems.SlotsBound` | p2p/dial.go:394-402 | A free slot counted before the static dials still bounds the dynamic ones. |
| `DialTheorems.TurnKeeps` | p2p/dial.go:242-325 | A pass of the loop keeps the invariant and waits with an empty pool. |
| `DialTheorems.SchedulerInvariant` | p2p/dial.go:232-330 | In every reachable state the pool is index-linked and holds distinct dialable static tasks, one goroutine runs per dialed node, dials of a node are more than the expiration apart, and the dynamic cap holds. |
| `DialTheorems.DrainCount` | p2p/dial.go:326-330 | The drain waits exactly once per running goroutine. |
| `DialExact.SlotsIff` | p2p/dial.go:394-401 | There is room for k more dials exactly if, with those running, they are at most twice the peers still wanted and at most the active dials allowed. |
| `DialExact.CheckGivesFirst` | p2p/dial.go:404-427 | A node passes the check exactly if it is not itself, has a port or no address, is neither dialed nor connected, is allowed and not in the history; else the first of these in that order is the error. |
| `DialExact.StartPooledDoes` | p2p/dial.go:430-437 | Starting a pooled dial dials its node, which was not being dialed, and remembers it for 35 seconds. |
| `DialExact.HandleDoes` | p2p/dial.go:255-323 | Every case of the select changes static nodes, peers and the count of dialed peers as its event says and in no other way, starts a dial only for a node that passes the check, and ends one only for a finished task. |
| `DialExact.DynamicDialNeedsRoom` | p2p/dial.go:242-268 | In every run a pass starts a dynamic dial exactly for the node it was given if that passes the check, and only if the pass began with fewer dialed peers than wanted and fewer dials than allowed. |
| `DialExact.DialPeersCount` | p2p/dial.go:276-295 | In every run the count of dialed peers is the number of dialed peers added less those removed. |
| `DialExact.EventsAreTaken` | p2p/dial.go:242-262 | A node is taken exactly while the pass began with room for a dial; peer and static-node events always. |
| `DialExact.TimerForgetsDue` | p2p/dial.go:381-390 | What the timer leaves of the history is exactly what has not expired, as often as it was there. |
| `DialExact.TimerCanFire` | p2p/dial.go:381-390 | In every state the history timer has an event to handle: the due dials, in the order they expire. |
| `DialExact.HandleKeepsTasks` | p2p/dial.go:255-323 | A task keeps the node it dials but for the address its own resolver found; an event adds at most the task of its node; the history gains the dial started, for 35 seconds, and loses what the timer dropped. |
| `DialCompleteness.UpdateCompletes` | p2p/dial.go:440-445 | Reconsidering the one node whose reason not to be dialed may have gone makes the pool complete again. |
| `DialCompleteness.HandleCompletes` | p2p/dial.go:255-323 | Every case of the select keeps every dialable static node in the pool. |
| `DialCompleteness.NoStaticForgotten` | p2p/dial.go:232-330 | In every run a static node that may be dialed is in the pool at the top of each pass, and while the scheduler waits no static node may be dialed: none is ever forgotten. |
| `DialLoop.DialScheduler.constructor` | p2p/dial.go:168-192 | The scheduler starts empty. |
| `DialLoop.DialScheduler.FreeSlots` | p2p/dial.go:394-402 | Computes the free dial slots, which `DialExact.SlotsIff` determines. |
| `DialLoop.DialScheduler.CheckDial` | p2p/dial.go:404-427 | Passes exactly the dialable nodes and reports the source's errors in its order. |
| `DialLoop.DialScheduler.AddToPool` | p2p/dial.go:447-454 | Appends to the pool; the "added twice" panic is a precondition shown at every call. |
| `DialLoop.DialScheduler.RemoveFromPool` | p2p/dial.go:457-466 | Swap-removal in place as the value-level step. |
| `DialLoop.DialScheduler.LaunchDial` | p2p/dial.go:468-479 | Records the dial in map, history and running set. |
| `DialLoop.DialScheduler.UpdatePool` | p2p/dial.go:440-445 | As the value-level step. |
| `DialLoop.DialScheduler.StartStaticDials` | p2p/dial.go:430-437 | Empties the pool in random order as a launch sequence, leaving the dynamic dials as they were. |
| `DialLoop.DialScheduler.ExpireHistory` | p2p/dial.go:381-390 | Forgets exactly the expired dials in heap order. |
| `DialLoop.DialScheduler.NodeArrived` | p2p/dial.go:263-268 | A discovered node, as the value-level step, keeping the invariant. |
| `DialLoop.DialScheduler.DialFinished` | p2p/dial.go:270-274 | A finished task, likewise. |
| `DialLoop.DialScheduler.PeerJoined` | p2p/dial.go:276-288 | A new peer, likewise. |
| `DialLoop.DialScheduler.PeerLeft` | p2p/dial.go:290-295 | A lost peer, likewise. |
| `DialLoop.DialScheduler.StaticAdded` | p2p/dial.go:297-308 | A new static node, likewise. |
| `DialLoop.DialScheduler.StaticRemoved` | p2p/dial.go:310-319 | A removed static node, likewise. |
| `DialLoop.DialScheduler.Pass` | p2p/dial.go:242-325 | One pass of the loop is a turn of the scheduler. |
| `DialLoop.DialScheduler.Drain` | p2p/dial.go:326-330 | Receives one completion per dialing entry and leaves no goroutine. |
| `DialLoop.DialScheduler.Loop` | p2p/dial.go:232-325 | For any list of waits and events the loop is a run, to which the invariant applies. |
| `PeerAdmission.TurnPeers` | p2p/dial.go:276-295 | Only peer events change the scheduler's peer set and its count of dialed peers, and by exactly one peer. |
| `PeerAdmission.AddPeerKeeps` | p2p/server.go:839-855 | Admission keeps the counts and both limits for untrusted peers. |
| `PeerAdmission.DropPeerKeeps` | p2p/server.go:855-863 | A report that names the connected peer keeps them. |
| `PeerAdmission.ReportAttended` | p2p/server.go:1115-1140 | A goroutine that has not reported names the peer in the map; its report takes away exactly that peer and goroutine. |
| `PeerAdmission.TrustKeeps` | p2p/server.go:806-824 | Changing trust keeps them and every peer's direction. |
| `PeerAdmission.StepKeeps` | p2p/server.go:777-892 | Every step of either loop and of every peer's goroutine keeps the joint invariant; reports are deleted by what they name. |
| `PeerAdmission.AdmissionInvariant` | p2p/server.go:777-910 | In every run the inbound count, the dialed count and both peer sets agree up to the message in flight, the goroutines still to report are exactly those of the peers, and peers admitted untrusted respect MaxPeers and maxInboundConns. |
| `PeerAdmission.WhenUnblocked` | p2p/server.go:715-732 | When no message is in flight the agreement is exact. |
| `PeerAdmission.ReportsAreReceived` | p2p/server.go:1131-1136 | In every run a goroutine about to report names the peer in the map, and its report can be received, also during spindown. |
| `PeerAdmission.SpinDownReports` | p2p/server.go:881-892 | In every run, after the quit the reports received and the peers left make up the peers there were; when none is left every goroutine has reported. |
| `AdmissionExact.MaxDialedBounds` | p2p/server.go:715-732 | The limit of dialed connections is the peers divided by the ratio (three if unset), rounded towards zero but at least one, and none without dialing or peers; the inbound limit is the rest. |
| `AdmissionExact.ChecksGiveFirst` | p2p/server.go:895-910 | A connection is admitted exactly if it is trusted or below both limits, not connected, not the server itself and useful; else the first of these in that order is the refusal. |
| `AdmissionExact.StepDoes` | p2p/server.go:806-863 | In every run a step changes the peers only by an admission or a report, the trusted set and a peer's flag only as told, and starts one goroutine per peer admitted. |
| `AdmissionExact.ShutdownCanComplete` | p2p/server.go:866-892 | From every reachable state in which the server is not busy with the scheduler it can quit and reach the end of its spindown, with no peer left and every goroutine done. |
| `PeerTrust.NextEarned` | p2p/server.go:830-837 | Every step keeps that who is trusted, marked or admitted past the limits was once trusted. |
| `PeerTrust.TrustIsEarned` | p2p/server.go:830-855 | The same in every run, however trust changes between the two checkpoints. |
| `PeerTrust.StrangersAreLimited` | p2p/server.go:895-910 | Nodes that were never trusted cannot exceed either limit in any run. |
| `PeerTrust.MarkDecidesIff` | p2p/server.go:895-910 | The mark decides as the present trust would if and only if it agrees with it or no limit is reached. |
| `PeerTrust.AdmissionFollowsTrustIff` | p2p/server.go:830-855 | At every admission of every run: decided as by the present trust if and only if the trust is as it was at the mark or no limit is reached. |
| `PeerTrust.AdmittedOncePerMark` | p2p/server.go:830-855 | In every run a connection is held against the limits at most once for each time it was marked. |
| `PeerTrust.LapsedTrustIsAdmitted` | p2p/server.go:830-855 | From every reachable state, however full the server, a run that connects a node that is no longer trusted. |
| `PeerTrust.LateTrustIsRefused` | p2p/server.go:830-855 | From every reachable state of a full server, a run that refuses a node that is trusted by now. |
| `PeerServer.ServerLoop.constructor` | p2p/server.go:787-797 | The loop starts with no peers and an empty scheduler. |
| `PeerServer.ServerLoop.CheckAfterHandshake` | p2p/server.go:895-910 | Computes the checks with the limits of lines 715-732, in the source's order. |
| `PeerServer.ServerLoop.MarkTrusted` | p2p/server.go:830-837 | The connection is the same but for its flag, which is set exactly if it was or the node is trusted. |
| `PeerServer.ServerLoop.ChangeTrust` | p2p/server.go:806-824 | Updates the trusted set and a connected peer's flag, which its goroutine shares. |
| `PeerServer.ServerLoop.AdmitPeer` | p2p/server.go:839-853 | A refused connection changes nothing on either side; an accepted one is launched, added, announced and counted, keeping the joint invariant. |
| `PeerServer.ServerLoop.RemovePeer` | p2p/server.go:855-863 | A report from any goroutine that has not reported names a connected peer, which leaves both sides and the counts. |
| `PeerServer.ServerLoop.SpinDown` | p2p/server.go:881-892 | Taking reports from whichever goroutine has still to report, ends after one report per peer, with no peer and no report left. |
| `Capabilities.ChosenIsChoice` | p2p/peer.go:406-428 | Over sorted capabilities the loop has chosen, after every prefix, exactly the highest shared version of each name, in strict name order. |
| `Capabilities.EarlierCap` | p2p/protocol.go:89-93 | Sorted order puts lower versions and smaller names first. |
| `Capabilities.LessIsOrder` | p2p/protocol.go:87-93 | The order of capabilities is strict and total, and for one name it is the order of versions. |
| `Multiplexing.StrictListsEqual` | p2p/peer.go:406-428 | Strictly named lists with the same entries are the same list. |
| `Multiplexing.SharedBothWays` | p2p/peer.go:406-428 | What is shared, and the highest shared version, are the same seen from both ends. |
| `Multiplexing.TwoEndsAgree` | p2p/peer.go:406-428 | Both ends choose the same protocols in the same order with the same offsets. |
| `Multiplexing.AssignKeeps` | p2p/peer.go:413-423 | Reverting an older version and assigning the new one keeps the ranges contiguous from code 16. |
| `Multiplexing.MatchProtocols` | p2p/peer.go:406-428 | The loop's map is the chosen list with contiguous ranges (modulo 2^64). |
| `Multiplexing.GetProto` | p2p/peer.go:457-464 | Finds a protocol that carries the code, whatever the visiting order, or there is none. |
| `Multiplexing.RoundTripsIffRangesFit` | p2p/peer.go:479-523 | Every code comes back under its own protocol and no other exactly if all ranges together end below 2^64. |
| `Multiplexing.WritesOnlyItsOwn` | p2p/peer.go:480-486 | While the ranges fit, a code is written exactly if it is below the protocol's length, and then past the sixteen base codes and in no other protocol's range. |
| `Multiplexing.SomeCodeIsLost` | p2p/peer.go:479-523 | Where they do not, a protocol's own first code is lost. |
| `Multiplexing.DeliveredUnderTheSameProtocol` | p2p/peer.go:457-523 | A code written under a protocol at one end is read at the other under the same name, version and code, and no other protocol carries it. |
| `WriteToken.NextKeeps` | p2p/peer.go:266-349 | Every channel operation keeps the token in one place and the channels within bounds. |
| `WriteToken.TokenInvariant` | p2p/peer.go:266-349 | The same in every state of every run. |
| `WriteToken.HolderIsOnly` | p2p/peer.go:479-509 | A writer that holds the token is its only place. |
| `WriteToken.NoSendBlocks` | p2p/peer.go:227-453 | At most one write is in progress, and no send on writeStart, writeErr, readErr or protoErr can block, also after the main loop returned. |
| `WriteToken.WaitingIsNeverStuck` | p2p/peer.go:479-509 | While a write waits, some step that moves the token or the shutdown along is enabled. |
| `WriteToken.ShutdownStep` | p2p/peer.go:282-286 | After the hang-up every step but the beginning of a write uses up one of the steps left. |
| `WriteToken.ShutdownEnds` | p2p/peer.go:282-286 | In every run the steps after the hang-up are bounded by those left then and four per write begun after it. |
| `WriteToken.NoneIsStuck` | p2p/peer.go:282-391 | In every run, after the close each goroutine waited for and every write has a step to take, the read loop's sends of pings and messages included; rest means that all are done. |
| `TokenProgress.ChannelsBounded` | p2p/peer.go:225-272 | In every run no channel holds more than it was made for: one token, one write result, one read error, one error for each protocol and the ping loop, sixteen pings. |
| `TokenProgress.NoErrorIsLost` | p2p/peer.go:307-351 | In every run, until the main loop returns, every error sent is still to be received: one of an ended read loop, one of each finished protocol, one of a finished ping loop. |
| `TokenProgress.FirstSteps` | p2p/peer.go:267-280 | A peer starts with the token in its channel and every goroutine at work. |
| `TokenProgress.WriteEnds` | p2p/peer.go:288-296 | From every reachable state with the token in its channel, a waiting write can end: a success gives the token back and leaves all else as it was, a failure makes the main loop return with it. |
| `TokenProgress.PingIsAnswered` | p2p/peer.go:320-345 | A ping that is read is passed on and answered, after which all is as before. |
| `TokenProgress.MessageIsPassed` | p2p/peer.go:353-391 | A message goes to its protocol if that runs, and the reader reads on only then; at the close a ping is given up and a message is an error. |
| `TokenProgress.ErrorsReachMain` | p2p/peer.go:297-305 | An error that was sent makes the selecting main loop return. |
| `TokenProgress.ShutdownCanComplete` | p2p/peer.go:282-391 | From every reachable state, wherever the token is, the peer can be shut down with every goroutine it waits for done and every write returned. |
| `Merkle.NodeIsTreeRoot` | cl/merkle_tree/list.go:33-53 | A node of the zero-padded infinite tree is the root of the full tree over its leaves. |
| `Merkle.RootIsPaddedTree` | cl/merkle_tree/list.go:33-53 | Node 0 of level d is the root over the chunks padded to 2^d leaves. |
| `Merkle.NodeBeyond` | cl/merkle_tree/list.go:36-44 | Past the chunks every node is the zero hash of its level. |
| `Merkle.LayerIsNextLevel` | cl/merkle_tree/list.go:39-50 | Hashing a layer padded with its level's zero hash gives the next level. |
| `Merkle.GetDepth` | cl/merkle_tree/utils.go:40-57 | The halving loop computes the binary logarithm rounded down. |
| `Merkle.DepthUnique` | cl/merkle_tree/utils.go:40-57 | That determines the depth. |
| `Merkle.HashInPlace` | cl/merkle_tree/list.go:45-49 | Overwriting the front of the buffer while reading it hashes the old pairs. |
| `Merkle.HashLayer` | cl/merkle_tree/list.go:41-49 | One layer in place, with the append that may reallocate. |
| `Merkle.MerkleizeVector` | cl/merkle_tree/list.go:33-53 | For every input the result is node 0 at the limit's depth. |
| `MerkleFlat.MerkleizationRefines` | cl/merkle_tree/list.go:33-53 | For a power-of-two limit that holds the chunks this is the SSZ root. |
| `MerkleFlat.ExactlyPowerOfTwoLimits` | cl/merkle_tree/utils.go:40-57 | With a collision-free hash the two agree if and only if the limit is a power of two. |
| `MerkleFlat.LimitThreeDropsAChunk` | cl/merkle_tree/list.go:33-53 | Limit 3 drops the third chunk. |
| `MerkleFlat.ResumeFromLevel` | cl/merkle_tree/hasher.go:52-69 | A tree over the nodes of a level is the upper part of the whole tree. |
| `MerkleFlat.HashFlatIsLayer` | cl/merkle_tree/list.go:56-72 | A layer on bytes is the layer on chunks. |
| `MerkleFlat.MerkleizeVectorFlat` | cl/merkle_tree/list.go:56-72 | On whole chunks the same root as the vector form; the length error exactly for other lengths. |
| `MerkleFlat.MerkleHasher.GetBuffer` | cl/merkle_tree/hasher.go:71-77 | The buffer is large enough, kept or fresh. |
| `MerkleFlat.MerkleHasher.GetBufferFromFlat` | cl/merkle_tree/hasher.go:86-92 | Loads exactly the chunks, whatever an earlier call left. |
| `MerkleFlat.MerkleHasher.MerkleizeTrieLeavesFlatWithStart` | cl/merkle_tree/hasher.go:52-69 | The leaves taken as nodes of the start level, the rest of the tree on top; the start wraps at 256. |
| `NextPower.SmearDoubles` | cl/merkle_tree/utils.go:24-30 | Or-ing in a shifted copy doubles the run of ones below the highest bit. |
| `NextPower.NextPowerOfTwo` | cl/merkle_tree/utils.go:19-34 | The least power of two no less than the argument, and zero exactly above 2^63. |
| `Bitlist.ClearedFromLowerBits` | cl/merkle_tree/list.go:112-117 | Clearing the highest bit keeps exactly the bits below it. |
| `Bitlist.SameTree` | cl/merkle_tree/list.go:76-91 | Byte strings equal up to trailing zeros have the same tree. |
| `Bitlist.PackBits` | cl/merkle_tree/list.go:102-110 | Cuts bytes into zero-padded chunks. |
| `Bitlist.ParseBitlist` | cl/merkle_tree/list.go:112-128 | The longest prefix without the delimiter and without trailing zero bytes, and the bit length; also for a zero last byte. |
| `Bitlist.BitlistTree` | cl/merkle_tree/list.go:76-91 | Clearing the delimiter and stripping zero bytes keep the tree of the bits. |
| `Bitlist.LengthDecodes` | cl/merkle_tree/primitives.go:27-31 | Read as a little-endian number the chunk mixed in is the length modulo 2^64; its upper 24 bytes are zero. |
| `Bitlist.LimitIsLeast` | cl/merkle_tree/list.go:85 | The limit in chunks is the least number of chunks that hold the limit in bits exactly if adding 255 does not overflow; otherwise it is zero. |
| `Bitlist.BitlistRootWithLimit` | cl/merkle_tree/list.go:76-91 | The length, in a chunk that spells it, mixed into the merkleization of exactly the bits before the delimiter; the SSZ root for power-of-two limits. |
| `InclusionProof.BranchClimbs` | cl/cltypes/blob_sidecar.go:150-182 | The branch taken from any tree climbs along its nodes. |
| `InclusionProof.ClimbAlikeIff` | cl/cltypes/blob_sidecar.go:150-182 | For every pair hash two branches climb to the same value if and only if they are the same or, at a named level above which they are the same, different pairs hash alike. |
| `InclusionProof.ClimbsExactly` | cl/cltypes/blob_sidecar.go:150-182 | So a branch climbs to a node of a full tree if and only if it is the leaf's own or collides with it at a named level. |
| `InclusionProof.LeafIsRoot` | cl/cltypes/blob_sidecar.go:152-155 | The leaf of a commitment is the SSZ root of its 48 bytes. |
| `InclusionProof.VerifyCommitmentInclusionProof` | cl/cltypes/blob_sidecar.go:150-182 | The two loops are one 17-level check at `Position`. |
| `InclusionProof.PositionInRange` | cl/cltypes/blob_sidecar.go:150-182 | The position is 11 * 2^13 + index if and only if the index is below 2^13. |
| `InclusionProof.NodeOfLeaf` | cl/cltypes/blob_sidecar.go:156-158 | The branch has 17 levels and leads to node 221184 of the body's tree, plus the low 13 bits of the index. |
| `InclusionProof.BodyBranchClimbs` | cl/cltypes/blob_sidecar.go:150-182 | The branch through the list of commitments, past its length and through the field roots climbs to the root of the body. |
| `InclusionProof.AcceptsRealBranches` | cl/cltypes/blob_sidecar.go:150-182 | The verifier accepts a commitment of any body with that branch. |
| `InclusionProof.AcceptsExactly` | cl/cltypes/blob_sidecar.go:150-182 | Against the root of any body, for every pair hash and every index of the list, it accepts exactly the leaf that is there with its own branch, and proofs that collide with it at a named level. |
| `InclusionProof.AcceptsAtLength` | cl/cltypes/blob_sidecar.go:150-182 | For an index with bit 12 set it accepts exactly proofs that climb to the length of the list and go on with its branch, and proofs that collide with that. |
| `InclusionProof.SameIndex` | cl/cltypes/blob_sidecar.go:150-182 | Only the low 13 bits of the index matter. |
| `InclusionProof.AcceptedIsCommitted` | cl/cltypes/blob_sidecar.go:150-182 | An accepted 48-byte commitment is the one in the body, unless the hash collides at its leaf or at a named level. |
| `ColumnDownload.TableIsMissing` | cl/das/peer_das.go:685-740 | An entry stands in the table exactly if a relevant block lacks a column, for what the first such block lacks; no entry is empty. |
| `ColumnDownload.ColumnIsMissing` | cl/das/peer_das.go:685-740 | A column is asked for exactly if it is expected and not saved for the first block of that root and slot, after Fulu and with commitments, that lacks any. |
| `ColumnDownload.FailsIff` | cl/das/peer_das.go:685-740 | The request fails exactly if the root or the saved columns of such a block cannot be read. |
| `ColumnDownload.EmptyListing` | cl/das/peer_das.go:776-797 | A request is empty exactly if nothing is missing. |
| `ColumnDownload.InitializeDownloadRequest` | cl/das/peer_das.go:685-740 | Builds that table, or fails exactly when a read failed. |
| `ColumnDownload.DownloadRequest.constructor` | cl/das/peer_das.go:735-739 | A request starts with no cached listing. |
| `ColumnDownload.DownloadRequest.RemainingEntries` | cl/das/peer_das.go:742-750 | Lists every entry once. |
| `ColumnDownload.DownloadRequest.RemoveColumn` | cl/das/peer_das.go:752-764 | Drops the column, and the entry with its last one, and the cache: the removal step of the download's state machine. |
| `ColumnDownload.DownloadRequest.RemoveBlock` | cl/das/peer_das.go:766-774 | Drops the entry and the cache, as the state machine drops a block. |
| `ColumnDownload.DownloadRequest.RequestData` | cl/das/peer_das.go:776-797 | Returns a listing of exactly the table, cached or rebuilt: the state machine's build and answer of a reader. |
| `ColumnDownload.NextKeeps` | cl/das/peer_das.go:515-669 | Every step of loop, handlers and lock-holding readers keeps cache coherence and accounts for every column no longer asked for. |
| `ColumnDownload.DownloadIsComplete` | cl/das/peer_das.go:515-669 | In every run the loop leaves uncancelled only after each initially missing column was found in or written to storage or, only with recovery on, its block was left to recovery. |
| `ColumnProgress.RunIsOrderly` | cl/das/peer_das.go:515-669 | In every run the loop reads only when it tests, its handlers run only while it waits for them, it sweeps only blocks of the table, and it waits for more only if something is missing. |
| `ColumnProgress.LeftIsFinal` | cl/das/peer_das.go:573-669 | Having left, the loop stays as it left. |
| `ColumnProgress.CancelledIff` | cl/das/peer_das.go:578-579 | In every run the loop leaves cancelled exactly if it was cancelled while it waited. |
| `ColumnProgress.ConfirmedIff` | cl/das/peer_das.go:621-657 | In every run the columns counted as confirmed are exactly those that a step found in storage or wrote to it. |
| `ColumnProgress.WritesOnlyVerified` | cl/das/peer_das.go:632-652 | A handler writes only a column that was not in storage and has passed verification. |
| `ColumnProgress.AnswerDecides` | cl/das/peer_das.go:776-797 | A reader that answers releases the lock; only the loop's own answer moves the loop, which leaves exactly if nothing is missing. |
| `ColumnProgress.HandlerMoves` | cl/das/peer_das.go:601-660 | Whatever storage and verification answer, a handler moves on, ends after at most five steps, and moves nothing but itself. |
| `ColumnProgress.TickFinishes` | cl/das/peer_das.go:580-590 | From every reachable state in which the loop waits and no one reads, a tick sweeps the whole table and ends in waiting, or in leaving if everything was left to recovery. |
| `ColumnProgress.CanComplete` | cl/das/peer_das.go:515-669 | From every state of every run that was not cancelled, wherever its goroutines stand, the download can still be completed, with every column missing at the start saved or left to recovery: nothing is ever stuck. |
| `ColumnDownload.OneRecoveryPerBlock` | cl/das/peer_das.go:385-408 | In every run no two workers recover one block, and a root is marked exactly while some worker recovers it. |

## Left out

- EVM interpretation, the state database, journaling and reverts, tracers, receipt hashing, blooms, `PostApplyMessage`, system calls and `ApplyFrame` are not part of this model.
- Bitlist.ParseBitlist: an empty buffer, which the source indexes out of range, is excluded; so are fewer than 32 bytes in the flat forms when no layer is hashed.
- A panic inside a peer's goroutine, which would end it without a report, is not part of this model.
- How the other field roots of a block body are computed is not part of this model; any roots will do.
- The mutex of `GasPool` is not modelled; a pool is used by one goroutine at a time.
- The blocks' other work (header checks, finalization, withdrawals, consensus-engine hooks, service-transaction detection) is not part of this model.
- Data races of the unlocked read in `GetHashFn` do not arise in the model: a section under the lock is one step.
- Dial tasks are entries of a table named by position instead of heap objects; sharing of a task between pool, maps and goroutines is sharing of its position.
- Rearming the history timer, the resolver's back-off, `readNodes`, logging and real time beyond a monotone clock are not part of this model.
- Handshakes, RLPx encryption, `listenLoop` with its inbound throttling, discovery and `setupConn` are not part of this model; a connection appears when it reaches a checkpoint.
- Message payloads and ping intervals are not part of this model; base-protocol messages that change nothing are no steps.
- `TransactionsListRoot`, `BitvectorRootWithLimit`, `ListObjectSSZRoot` and SSZ schemas are left out; they would add members of the same kind.
- SHA-256, BLS and KZG are uninterpreted.
- Network requests of `runDownload` appear as received batches; that a download does finish depends on peers; what is proved is that it always can.
- Gossip subscription, pruning, custody bookkeeping and the reconstruction of blobs from columns are not part of this model.
