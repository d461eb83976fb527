# SecretNetwork: a verified model of its contracts, bridges and encodings

This project models, in Dafny 4.11, the parts of SecretNetwork whose correctness rests on more than one
function: the staking-derivative and ERC20 contracts, the iterator handles shared between Go and Rust, the
queue contract, gas accounting, the token swap, Ethereum hex text and the JSON documents that transactions are
signed over. `dafny verify dfyconfig.toml` checks all of it.

## How the system is modelled

- **Staking** (`Staking`, `StakingContract`, `StakingChain`, `StakingTheorems`, `StakingValue`,
  `StakingProgress`, `StakingAccounts`, `StakingLeftover`). The handlers are functions from stored state to an outcome, and
  `StakingContract.Contract` runs the same handlers step by step on mutable buckets, proved against those
  functions. `StakingChain` adds a chain: a transaction credits the sent funds, runs a handler, dispatches its
  messages (with the self-callback of reinvesting) and reverts on any failure; unbonded tokens mature and
  rewards or gifts arrive in between. Theorems range over every sequence of such events.
- **ERC20** (`Bytes`, `Erc20Ledger`, `Erc20Contract`). `Erc20Contract.Token` works on a flat map from byte keys to
  byte values; its ghost ledger of naturals is what the calls of `Erc20Ledger` act on, and whole-run theorems are
  proved there, both with and without rollback of failed calls.
- **Iterators** (`Lexicographic`, `KvScan`, `IteratorStack`, `IteratorContext`, `IteratorProtocol`, `IteratorHost`).
  The Go frame table and the Rust id table are classes. `IteratorProtocol` is a state machine in which any number of
  calls open, advance and close iterators in any interleaving. `IteratorHost` holds the tables and every iterator
  object and shows that the class methods take exactly the steps of that machine.
- **Queue, gas, token swap** (`Queue`, `GasAccounting`, `Minting`, `TokenSwap`). Classes for the code that updates
  state, proved against functions over values; run theorems over those functions.
- **Text** (`EthereumHex`, `JsonOrder`, `SortJson`, `JsonText`, `Utf8Text`, `JsonBytes`, `SignBytes`). Hex
  printing edits an array in a loop; JSON canonicalization, printing and UTF-8 encoding are functions.

Address conversion, the answers of the chain's queries, the bank's verdicts and the Keccak digest are inputs.
The contracts and the Go-facing library (go-cosmwasm/Cargo.toml:53-62, which builds the VM crate with it) have
overflow checks on, so an overflow is a panic: it reverts a transaction, and it is a verdict of its own in gas
accounting. The gas code belongs to the build of the VM crate without an enclave.

JSON documents are printed and rebuilt as the TypeScript settings and the Node version of the project make it
(cosmwasm-js/tsconfig.json:20, cosmwasm-js/.circleci/config.yml:15): object spread compiles to `Object.assign`,
under which "__proto__" adds no entry, and `JSON.stringify` prints lone surrogates as they are.

Where the code and its documentation differ, the model follows the code:

- `bytes_to_u128` of the ERC20 contract announces an error for data that is not 16 bytes long. The code panics on
  shorter data and ignores what follows the first 16 bytes. In reachable states every value has 16 bytes.
- `sortJson` sorts keys, yet JavaScript enumerates keys that are array indices first and by value, whatever order
  they were added in. The result is still a canonical form; its keys are in sorted order exactly under the
  condition of `SortJson.SortedExactly`.
- Sign bytes are meant to commit to a transaction. They do so for transactions whose strings have no lone
  surrogates and whose objects have no key "__proto__"; `SignBytes.ProtoIsNotSigned` and
  `SignBytes.LoneIsNotSigned` show what is lost otherwise.
- Bonding and unbonding at once can gain when reinvested rewards were bonded before anything was issued;
  `StakingValue.BondThenUnbond` gives the exact condition and `StakingLeftover.LeftoverIsClaimed` a run.

## Model

| member | source | states |
|---|---|---|
| `Staking.Instantiate` | cosmwasm/contracts/staking/src/contract.rs:17-53 | instantiation succeeds exactly for a registered validator and a convertible sender, who becomes the owner; denomination, exit tax, validator and minimum are stored as given |
| `StakingContract.Contract.constructor` | cosmwasm/contracts/staking/src/contract.rs:48-50 | a new contract has no balances, no claims and an all-zero supply |
| `StakingContract.Contract.TransferTokens` | cosmwasm/contracts/staking/src/contract.rs:70-98 | the in-place transfer has the outcome, messages and new state of `HandleTransfer` |
| `StakingContract.Contract.BondTokens` | cosmwasm/contracts/staking/src/contract.rs:132-186 | the in-place bond has the outcome, messages and new state of `HandleBond` |
| `StakingContract.Contract.UnbondTokens` | cosmwasm/contracts/staking/src/contract.rs:188-255 | the in-place unbond has the outcome, messages and new state of `HandleUnbond` |
| `StakingContract.Contract.ClaimTokens` | cosmwasm/contracts/staking/src/contract.rs:257-304 | the in-place claim has the outcome, messages and new state of `HandleClaim` |
| `StakingContract.Contract.BondAll` | cosmwasm/contracts/staking/src/contract.rs:339-380 | the in-place reinvestment callback has the outcome, messages and new state of `HandleBondAllTokens`; it answers unauthorized exactly to anybody but the contract, and then changes nothing |
| `StakingTheorems.GetBondedIsDelegation` | cosmwasm/contracts/staking/src/contract.rs:102-119 | the queried bonded amount is the real delegation whenever that fits 128 bits |
| `StakingTheorems.GetBondedExact` | cosmwasm/contracts/staking/src/contract.rs:102-119 | the bonded amount is the sum of all delegations; it is an error unless they share a denomination and fit 128 bits |
| `StakingTheorems.StaleBondsRefused` | cosmwasm/contracts/staking/src/contract.rs:121-130 | when the real delegation differs from the recorded one, every bond and unbond fails |
| `StakingTheorems.FindPaymentExact` | cosmwasm/contracts/staking/src/contract.rs:142-146 | the payment is the first coin in the bond denomination, and a bond needs one |
| `StakingTheorems.CallbackIsPrivate` | cosmwasm/contracts/staking/src/contract.rs:344-346 | a reinvestment callback signed by anybody but the contract is refused as unauthorized, in every state |
| `StakingTheorems.DispatchReinvest` | cosmwasm/contracts/staking/src/contract.rs:309-337 | reinvesting pays out the rewards, runs the callback on the new balance and delegates what it asks for, all in one transaction |
| `StakingTheorems.ReinvestEffect` | cosmwasm/contracts/staking/src/contract.rs:309-380 | a reinvest transaction as a whole: it bonds the full surplus over the claims, does nothing below the minimum, and panics only when the bonded total leaves 128 bits |
| `StakingTheorems.MintBounds` | cosmwasm/contracts/staking/src/contract.rs:156-163 | minting rounds down: never more derivatives than tokens paid, never better than the current rate |
| `StakingTheorems.BondKeepsRate` | cosmwasm/contracts/staking/src/contract.rs:156-163 | bonding keeps `bonded >= issued` and does not lower `bonded / issued` |
| `StakingTheorems.RedeemKeepsRate` | cosmwasm/contracts/staking/src/contract.rs:223-232 | redeeming keeps `bonded >= issued` and does not lower `bonded / issued` for those who stay |
| `StakingTheorems.TakeTaxedTotal` | cosmwasm/contracts/staking/src/contract.rs:204-220 | taking an amount and paying the tax to the owner lowers the total by the untaxed part, also when the owner is the sender |
| `StakingTheorems.BondedKeeps` | cosmwasm/contracts/staking/src/contract.rs:132-186 | a bond keeps the invariant and does not lower the rate |
| `StakingTheorems.UnbondedKeeps` | cosmwasm/contracts/staking/src/contract.rs:188-255 | an unbond keeps the invariant and does not lower the rate |
| `StakingTheorems.TransferStep` | cosmwasm/contracts/staking/src/contract.rs:70-98 | a transfer, self-transfers included, keeps the invariant and the supply |
| `StakingTheorems.ClaimStep` | cosmwasm/contracts/staking/src/contract.rs:257-304 | a claim keeps the invariant and does not touch issued or bonded |
| `StakingTheorems.ReinvestStep` | cosmwasm/contracts/staking/src/contract.rs:309-380 | reinvesting keeps the invariant, issues nothing and never lowers bonded |
| `StakingTheorems.StepKeeps` | cosmwasm/contracts/staking/src/contract.rs:55-68 | every transaction, maturing and arrival keeps the invariant and does not lower the rate |
| `StakingTheorems.Solvency` | cosmwasm/contracts/staking/src/contract.rs:132-380 | after any run from deployment: balances add up to issued, claims add up to claims, liquid plus unbonding tokens cover the claims, the real delegation is bonded, and bonded is at least issued |
| `StakingValue.RunKeepsRate` | cosmwasm/contracts/staking/src/contract.rs:156-163 | while somebody holds derivatives throughout a run, the rate at its end is no lower than at its start |
| `StakingValue.PassiveHolderNeverLoses` | cosmwasm/contracts/staking/src/contract.rs:223-232 | over any run that leaves a balance unchanged, the amount it redeems for never goes down |
| `StakingValue.RedeemAfterMint` | cosmwasm/contracts/staking/src/contract.rs:156-162 | redeeming what a payment minted returns at most the payment if the rate was defined |
| `StakingValue.LeftoverShare` | cosmwasm/contracts/staking/src/contract.rs:156-232 | with nothing issued, leftover L, payment p and tax t, the claim stays within the payment exactly when (p - t) * L < t * p + p |
| `StakingValue.BondThenUnbond` | cosmwasm/contracts/staking/src/contract.rs:132-255 | bonding and then unbonding all that was minted claims at most the payment exactly when something was issued, nothing was bonded, or the exit tax takes back the leftover; for every exit tax |
| `StakingValue.LeftoverIsReachable` | cosmwasm/contracts/staking/src/contract.rs:339-380 | the excluded case occurs: a reward reinvested before any bond is bonded with nothing issued |
| `StakingLeftover.LeftoverIsClaimed` | cosmwasm/contracts/staking/src/contract.rs:132-380 | a whole run from deployment in which reward, reinvestment, bond and unbond leave the first bonder with a claim on payment plus reward |
| `StakingProgress.TransferSucceeds` | cosmwasm/contracts/staking/src/contract.rs:70-98 | with less than 2^64 native tokens, a transfer succeeds exactly when both addresses convert and the sender owns the amount |
| `StakingProgress.BondSucceeds` | cosmwasm/contracts/staking/src/contract.rs:132-186 | with less than 2^64 native tokens, a bond succeeds exactly when the sender converts and a payment in the bond denomination was sent |
| `StakingProgress.RedeemSucceeds` | cosmwasm/contracts/staking/src/contract.rs:223-232 | redeeming at most what is issued neither divides by zero, overflows nor underflows |
| `StakingProgress.UnbondSucceeds` | cosmwasm/contracts/staking/src/contract.rs:188-255 | with less than 2^64 native tokens, an unbond succeeds exactly under conditions the caller can check |
| `StakingProgress.PositiveUnbondSucceeds` | cosmwasm/contracts/staking/src/contract.rs:188-255 | with a tax of at most 100%, a positive unbond of owned derivatives fails only below the minimum withdrawal |
| `StakingProgress.ClaimSucceeds` | cosmwasm/contracts/staking/src/contract.rs:257-304 | a claim succeeds exactly when the liquid balance reaches the minimum and the sender has a claim; its subtractions never underflow |
| `StakingProgress.ReinvestSucceeds` | cosmwasm/contracts/staking/src/contract.rs:309-380 | with less than 2^64 native tokens, reinvesting never fails |
| `StakingAccounts.TransferMoves` | cosmwasm/contracts/staking/src/contract.rs:70-98 | a transfer takes the amount from the sender, gives it to the recipient and changes nothing else |
| `StakingAccounts.BondMints` | cosmwasm/contracts/staking/src/contract.rs:132-186 | only the sender receives derivatives, at the going rate; exactly the payment is delegated |
| `StakingAccounts.UnbondCharges` | cosmwasm/contracts/staking/src/contract.rs:188-255 | the sender pays the amount, the owner gets the tax, and only the sender's claim grows, by what the rest redeems for, which starts to unbond |
| `StakingAccounts.ClaimPays` | cosmwasm/contracts/staking/src/contract.rs:257-304 | a claim is paid in full or as far as the liquid tokens reach, and reduced by exactly what is sent |
| `StakingAccounts.ReinvestBonds` | cosmwasm/contracts/staking/src/contract.rs:309-380 | reinvesting delegates the whole surplus over the claims, or nothing below the minimum |
| `Bytes.BigEndianRoundTrip` | cosmwasm/contracts/erc20/src/contract.rs:289-296 | big-endian reading inverts writing for every number that fits the width |
| `Bytes.BigEndianAt` | cosmwasm/contracts/erc20/src/contract.rs:289-296 | which byte is which: the most significant comes first |
| `Bytes.PrefixDecodes` | cosmwasm/packages/storage/src/length_prefixed.rs:9-39 | length-prefixed namespaces can be told apart whatever key follows |
| `Bytes.PrefixLayout` | cosmwasm/packages/storage/src/length_prefixed.rs:9-39 | a prefix is the length, high byte first, followed by the namespace |
| `Erc20Ledger.FillTotal` | cosmwasm/contracts/erc20/src/contract.rs:31-41 | initial balances plus what duplicate rows replaced add up to the sum of all rows |
| `Erc20Ledger.FillExact` | cosmwasm/contracts/erc20/src/contract.rs:31-41 | an account starts with what the last row for it says, and with nothing without a row |
| `Erc20Ledger.ReplacedZero` | cosmwasm/contracts/erc20/src/contract.rs:31-41 | nothing is lost exactly when no non-zero row is replaced by a later one |
| `Erc20Ledger.MoveKeeps` | cosmwasm/contracts/erc20/src/contract.rs:262-285 | a move succeeds exactly when covered, never panics and keeps the sum of balances, half-way failures included |
| `Erc20Ledger.ApplyKeeps` | cosmwasm/contracts/erc20/src/contract.rs:112-260 | no call panics or changes the gap between supply and balances, whether it succeeds or fails half way |
| `Erc20Ledger.Conservation` | cosmwasm/contracts/erc20/src/contract.rs:226-282 | over every run the supply exceeds the balances by exactly what duplicate initial rows lost, zero exactly when there was no such loss |
| `Erc20Ledger.CallSucceeds` | cosmwasm/contracts/erc20/src/contract.rs:112-260 | a call succeeds exactly when the debited balance and the allowance cover it |
| `Erc20Ledger.CallMoves` | cosmwasm/contracts/erc20/src/contract.rs:112-260 | a call that succeeds moves the amount and nothing else; otherwise all balances stay |
| `Erc20Ledger.AllowanceAccounting` | cosmwasm/contracts/erc20/src/contract.rs:153-200 | since the last approval, tokens moved plus the remaining allowance equal the approved amount with rollback and never exceed it without |
| `Erc20Contract.KeysDistinct` | cosmwasm/contracts/erc20/src/contract.rs:300-333 | storage keys of different balances, allowances and configuration entries never coincide |
| `Erc20Contract.ReadInvertsWrite` | cosmwasm/contracts/erc20/src/contract.rs:289-306 | every 128-bit amount is written as 16 bytes and read back |
| `Erc20Contract.ToBytesAt` | cosmwasm/contracts/erc20/src/contract.rs:289-333 | amounts are stored in 16 bytes, the most significant first |
| `Erc20Contract.ReadLengths` | cosmwasm/contracts/erc20/src/contract.rs:289-296 | shorter data is a panic, and of longer data the first 16 bytes count |
| `Erc20Contract.RepresentsOne` | cosmwasm/contracts/erc20/src/contract.rs:262-333 | a store represents at most one ledger |
| `Erc20Contract.ReadBalance` | cosmwasm/contracts/erc20/src/contract.rs:308-311 | reading a balance from a representing store never fails and gives the ledger's balance |
| `Erc20Contract.ReadAllowance` | cosmwasm/contracts/erc20/src/contract.rs:313-321 | reading an allowance from a representing store never fails and gives the ledger's allowance |
| `Erc20Contract.WriteAllowance` | cosmwasm/contracts/erc20/src/contract.rs:323-333 | writing an allowance updates the represented ledger in that place only |
| `Erc20Contract.IsValidSymbol` | cosmwasm/contracts/erc20/src/contract.rs:343-354 | the loop accepts exactly three to six upper-case letters |
| `Erc20Contract.CanonicalExact` | cosmwasm/contracts/erc20/src/contract.rs:31-41 | initial rows convert all or not at all, and each keeps its place and amount |
| `Erc20Contract.Token.SetInitialBalances` | cosmwasm/contracts/erc20/src/contract.rs:31-41 | succeeds exactly when all addresses convert and the total fits; the store then represents the filled ledger |
| `Erc20Contract.Token.Init` | cosmwasm/contracts/erc20/src/contract.rs:26-68 | succeeds exactly for convertible rows, a fitting total and valid name, symbol and decimals; the store then represents the initial ledger |
| `Erc20Contract.Token.PerformTransfer` | cosmwasm/contracts/erc20/src/contract.rs:262-285 | the byte-level transfer simulates the ledger move, half-way failures included |
| `Erc20Contract.Token.TryTransfer` | cosmwasm/contracts/erc20/src/contract.rs:112-139 | simulates the ledger's transfer; an address error changes nothing |
| `Erc20Contract.Token.TryTransferFrom` | cosmwasm/contracts/erc20/src/contract.rs:141-185 | simulates the ledger's transfer from an allowance; an address error changes nothing |
| `Erc20Contract.Token.TryApprove` | cosmwasm/contracts/erc20/src/contract.rs:187-211 | simulates the ledger's approval; an address error changes nothing |
| `Erc20Contract.Token.TryBurn` | cosmwasm/contracts/erc20/src/contract.rs:218-260 | simulates the ledger's burn; an address error changes nothing |
| `Erc20Contract.Token.Handle` | cosmwasm/contracts/erc20/src/contract.rs:70-85 | every message on the byte store simulates its ledger call; and in the message's own addresses: who pays, who receives, whose allowance for whom changes to what, for each of the four messages |
| `Erc20Contract.Token.Deliver` | cosmwasm/contracts/erc20/src/contract.rs:70-260 | a delivered message takes the ledger one step, with or without rollback, does not panic unless the address conversion does, and succeeds exactly when the named payer's balance and the named pair's allowance cover it |
| `Erc20Contract.Token.DeliverAll` | cosmwasm/contracts/erc20/src/contract.rs:70-260 | any list of messages on the byte store simulates the ledger's run, keeps the supply covering the balances, and nothing panics |
| `Erc20Contract.Token.Live` | cosmwasm/contracts/erc20/src/contract.rs:26-333 | initialisation followed by any messages: every read succeeds, no message panics, and the supply is the balances plus what duplicate initial rows lost |
| `Erc20Contract.Token.QueryBalance` | cosmwasm/contracts/erc20/src/contract.rs:87-98 | the balance query answers with the ledger's balance |
| `Erc20Contract.Token.QueryAllowance` | cosmwasm/contracts/erc20/src/contract.rs:99-110 | the allowance query answers with the ledger's allowance |
| `Lexicographic.LessExactly` | go-cosmwasm/api/callbacks.go:251-254 | the key order: after a common beginning, the key that ends first or has the smaller byte comes first |
| `KvScan.ScanExact` | go-cosmwasm/src/db.rs:97-142 | a scan holds exactly the stored entries in the range, in strict key order in the requested direction |
| `KvScan.RangeEnds` | go-cosmwasm/src/db.rs:97-142 | a stored start key is handed out and a stored end key is not |
| `IteratorStack.Stack.StartContract` | go-cosmwasm/api/iterator.go:22-27 | hands out the next counter value, wrapping at 2^64 |
| `IteratorStack.Stack.PopFrame` | go-cosmwasm/api/iterator.go:29-37 | removes the frame of a call and returns its iterators |
| `IteratorStack.Stack.EndContract` | go-cosmwasm/api/iterator.go:40-47 | closes each iterator of the frame exactly once and no other, and removes the frame |
| `IteratorStack.Stack.StoreIterator` | go-cosmwasm/api/iterator.go:52-59 | appends to the frame, and the returned index retrieves that iterator; a new iterator keeps all stored ones distinct |
| `IteratorStack.Stack.RetrieveIterator` | go-cosmwasm/api/iterator.go:64-68 | finds the iterator of a one-based index in the frame, or none |
| `IteratorStack.CScan` | go-cosmwasm/api/callbacks.go:229-264 | opens an iterator over the requested range and order and returns its handle; another order is refused and changes nothing |
| `IteratorStack.CNext` | go-cosmwasm/api/callbacks.go:267-301 | returns the current entry and advances only that iterator; past the end returns nothing and stays; bad handles change nothing |
| `IteratorContext.GoIterNext` | go-cosmwasm/src/iterator.rs:51-98 | the Rust end returns the entry Go handed out, none at the end, and an error for bad handles |
| `IteratorContext.Context.AddIterator` | cosmwasm/packages/sgx-vm/src/context.rs:302-318 | gives a new iterator the next id, and panics beyond the 32-bit range |
| `IteratorContext.Context.NextOf` | cosmwasm/packages/sgx-vm/src/context.rs:376-391 | `next` on an id advances the iterator behind it and no other; an unknown id and a handle Go refuses are errors |
| `IteratorContext.Context.DestroyIterators` | cosmwasm/packages/sgx-vm/src/context.rs:188-190 | forgets all ids |
| `IteratorProtocol.StepKeeps` | go-cosmwasm/api/iterator.go:22-68 | every event of any call keeps ids, frames and open iterators consistent, as long as calls begin with a fresh counter value |
| `IteratorProtocol.ReachedKept` | go-cosmwasm/api/iterator.go:52-68 | until its own call ends, an id keeps reaching the iterator it was issued for, and only `next` on it moves that iterator |
| `IteratorProtocol.OnlyOneId` | cosmwasm/packages/sgx-vm/src/context.rs:302-318 | no two ids, in whatever calls, reach the same iterator |
| `IteratorProtocol.RunYields` | go-cosmwasm/api/callbacks.go:267-301 | over any interleaving, an id yields the remaining entries one by one, then nothing for ever |
| `IteratorProtocol.ScanEndToEnd` | go-cosmwasm/src/db.rs:97-142 | after any run, a newly opened range yields exactly its entries in order, then nothing, however other iterators and calls interleave |
| `IteratorProtocol.FreshExactly` | go-cosmwasm/api/iterator.go:22-68 | a new call reaches its iterator whatever other call ends exactly when its counter value is not zero and not that of a running call |
| `IteratorProtocol.FewCallsAreFresh` | go-cosmwasm/api/iterator.go:22-27 | until the counter wraps around, every call begins with a fresh value |
| `IteratorProtocol.Lifetimes` | go-cosmwasm/api/lib.go:129-134 | no iterator is closed twice, a reachable one is not closed, and when all calls have ended the table is empty and every iterator was closed |
| `IteratorHost.Host.DoBegin` | go-cosmwasm/api/lib.go:129-134 | beginning a call on the tables in memory is the protocol's `Begin` |
| `IteratorHost.Host.DoOpen` | go-cosmwasm/src/db.rs:97-142 | the scan callback followed by registration in the Rust table is the protocol's `Open`, and returns the next id |
| `IteratorHost.Host.DoNext` | go-cosmwasm/src/iterator.rs:51-98 | `next` through the Rust table, the Go table and the store iterator is the protocol's `Next`, with its result |
| `IteratorHost.Host.DoEnd` | go-cosmwasm/api/iterator.go:40-47 | ending a call on the tables in memory is the protocol's `End` followed by one `CloseOne` per iterator of its frame |
| `Queue.FirstInFirstOut` | cosmwasm/contracts/queue/src/contract.rs:77-113 | over every run, the values accepted are those removed followed by those queued, in order |
| `Queue.AddAllExact` | cosmwasm/contracts/queue/src/contract.rs:131-139 | 32-bit addition succeeds exactly when every partial sum fits, and then gives the total |
| `Queue.TotalExact` | cosmwasm/contracts/queue/src/contract.rs:131-139 | the total of one value is that value, and totals of parts add up |
| `Queue.LargerExact` | cosmwasm/contracts/queue/src/contract.rs:141-168 | the values the reducer adds are exactly the strictly larger ones, as often as they occur |
| `Queue.Contract.DoEnqueue` | cosmwasm/contracts/queue/src/contract.rs:77-95 | stores the value under the key directly above the last one, or under the first key; succeeds exactly when no stored key is 255, and otherwise changes nothing |
| `Queue.Contract.DoDequeue` | cosmwasm/contracts/queue/src/contract.rs:97-113 | removes and returns the oldest value, or nothing when empty |
| `Queue.Contract.DeliverAll` | cosmwasm/contracts/queue/src/contract.rs:64-113 | any list of operations on the store accepts, removes and keeps what the abstract queue does; from an empty queue values come out in the order they went in |
| `Queue.Contract.QueryCount` | cosmwasm/contracts/queue/src/contract.rs:126-129 | the number of queued values |
| `Queue.Contract.QuerySum` | cosmwasm/contracts/queue/src/contract.rs:131-139 | the 32-bit sum of the queued values |
| `Queue.Contract.QueryReducer` | cosmwasm/contracts/queue/src/contract.rs:141-168 | each value in order with the sum of the strictly larger ones, failing exactly when such a sum leaves 32 bits |
| `GasAccounting.Context.DecreaseGasLeft` | cosmwasm/packages/sgx-vm/src/backends/mod.rs:29-38 | the VM's own consumption, depleting when more is asked than is left |
| `GasAccounting.Context.AccountForExternallyUsedGas` | cosmwasm/packages/sgx-vm/src/context.rs:248-276 | an external charge updates the figures and gives the verdict of `Charged`, with a panic where an addition leaves 64 bits; without an instance it changes nothing |
| `GasAccounting.ChargeExact` | cosmwasm/packages/sgx-vm/src/context.rs:42-77 | the VM figure is exact; a charge passes exactly when the true total fits the limit, panics exactly when it leaves 64 bits, and otherwise depletes; one that passes moves gas from left to external only |
| `GasAccounting.RunExact` | cosmwasm/packages/sgx-vm/src/context.rs:248-276 | from any consistent figures, a run has the verdict of a single running total, passes exactly when all it used fits the limit, and its figures are then exact |
| `GasAccounting.PanicsExactly` | cosmwasm/packages/sgx-vm/src/context.rs:50-52 | a run panics exactly when everything before some charge fits the limit and that charge leaves 64 bits |
| `GasAccounting.GasIsShared` | cosmwasm/packages/sgx-vm/src/context.rs:248-276 | for every run from a fresh instance: it passes exactly when VM and callback totals together fit the limit, what is left and both figures are then exact, and otherwise it is a panic or a depletion, told apart exactly |
| `Minting.ValidAmountExact` | x/tokenswap/types/msgs.go:64-75 | accepted amounts are exactly the whole numbers from 100 on |
| `Minting.MintedExact` | x/tokenswap/keeper/keeper.go:60-67 | the two truncated products equal floor(a * m / 10^20) |
| `Minting.MintedMonotone` | x/tokenswap/keeper/keeper.go:60-67 | more ENG or a larger multiplier never mints less |
| `Minting.MintedAtMostTenth` | x/tokenswap/types/params.go:72-87 | with an allowed multiplier a burn mints at most a tenth of its dust |
| `Minting.SplittingLoses` | x/tokenswap/keeper/keeper.go:60-67 | splitting a burn into k swaps mints at most as much as one swap and at most k - 1 less |
| `TokenSwap.Keeper.SetSwap` | x/tokenswap/keeper/keeper.go:112-116 | stores a record under its burn hash and nothing else |
| `TokenSwap.Keeper.ProcessTokenSwapRequest` | x/tokenswap/keeper/keeper.go:71-110 | any validated request leaves the state of `Processed`, also when minting or sending fails |
| `TokenSwap.Keeper.HandleMsgTokenSwap` | x/tokenswap/handler.go:25-69 | any validated request leaves the state and verdict of `Handled`; it succeeds exactly when swapping is enabled, the approver signed, the burn is not done and the bank agrees, and changes nothing when one of the first three fails |
| `TokenSwap.Keeper.InitGenesis` | x/tokenswap/genesis.go:10-20 | importing installs an empty module account, sets the parameters and writes every record |
| `TokenSwap.Keeper.ExportGenesis` | x/tokenswap/genesis.go:23-37 | exporting lists every record in key order |
| `TokenSwap.HandledPays` | x/tokenswap/handler.go:25-69 | who may swap, spelled out: enabled, signed by the approver, burn not done; then the named receiver is paid at the current rate and the record says so; otherwise nothing changes at all |
| `TokenSwap.PaymentsAreApproved` | x/tokenswap/handler.go:25-69 | every payment a run adds belongs to a valid request signed by the approver in force at that moment, with swapping enabled |
| `TokenSwap.DoneIsFinal` | x/tokenswap/handler.go:25-69 | a completed record never changes again |
| `TokenSwap.RunKeeps` | x/tokenswap/keeper/keeper.go:71-133 | every run keeps the invariant and all records completed before it |
| `TokenSwap.ReplayProtection` | x/tokenswap/keeper/keeper.go:71-133 | over every run each burn is paid once if its record is done and never otherwise; the coins minted are those of the completed records, plus what failed sends left behind when failures are not rolled back |
| `TokenSwap.ImportedExact` | x/tokenswap/genesis.go:10-20 | importing records with different hashes keeps each of them and everything else |
| `TokenSwap.ExportImport` | x/tokenswap/genesis.go:10-37 | import after export restores every record |
| `TokenSwap.RunPays` | x/tokenswap/handler.go:25-69 | from any state, a run pays for a burn exactly if it completes the burn's record, and then once |
| `TokenSwap.ReplayProtectedAcrossUpgrades` | x/tokenswap/genesis.go:10-37 | across any number of exports and imports with any runs in between, each burn is paid once if its record is done in the end and never otherwise |
| `TokenSwap.RunCoins` | x/tokenswap/keeper/keeper.go:71-110 | from any state, imported ones included, the coins a run mints are those of the records it completes plus what failed sends left behind, nothing with rollback |
| `TokenSwap.CoinsAcrossUpgrades` | x/tokenswap/genesis.go:10-37 | across any number of upgrades the coins minted on all chains together are those of the records complete in the end, plus what failed sends left behind |
| `EthereumHex.SetBytes` | x/tokenswap/types/ethereum.go:122-127 | the last bytes that fit end up aligned to the right; what is left of them keeps its contents |
| `EthereumHex.HexToBytes` | x/tokenswap/types/ethereum.go:161-167 | parses with or without prefix, and refuses any other length |
| `EthereumHex.AddressToHex` | x/tokenswap/types/ethereum.go:130-149 | the loop prints the prefix and the digits, upper case exactly where a letter meets a digest nibble above 7 |
| `EthereumHex.DigitExact` | x/tokenswap/types/ethereum.go:291-296 | the digits are 0 to 9 and a to f, in order |
| `EthereumHex.EncodeAt` | x/tokenswap/types/ethereum.go:291-296 | two digits per byte, the high half first |
| `EthereumHex.HashNibbles` | x/tokenswap/types/ethereum.go:137-143 | digest nibbles 2k and 2k + 1 make up byte k, the high half first |
| `EthereumHex.DecodeExact` | x/tokenswap/types/ethereum.go:285-288 | decoding gives a byte for every pair of digits up to the first pair that is none, or to the end |
| `EthereumHex.PrefixIsOptional` | x/tokenswap/types/ethereum.go:268-282 | texts with 0x, with 0X and without prefix parse alike |
| `EthereumHex.LeadingZeroIsOptional` | x/tokenswap/types/ethereum.go:274-282 | a text of odd length parses as if a zero stood in front |
| `EthereumHex.DecodeAnyCase` | x/tokenswap/types/ethereum.go:274-288 | digits decode to the bytes they print, whatever the case of each letter |
| `EthereumHex.AddressRoundTrip` | x/tokenswap/types/ethereum.go:122-167 | every address survives printing and parsing, whatever digest drives the checksum |
| `EthereumHex.TxHashRoundTrip` | x/tokenswap/types/ethereum.go:244-296 | every transaction hash survives printing and parsing |
| `EthereumHex.EncodeDecode` | x/tokenswap/types/ethereum.go:285-296 | printing a parsed text of digit pairs gives that text in lower case |
| `EthereumHex.SameBytesIffSameLetters` | x/tokenswap/types/ethereum.go:274-296 | two texts of digit pairs parse to the same bytes exactly when they differ only in case |
| `JsonOrder.PutElements` | cosmwasm-js/packages/sdk/src/encoding.ts:15-21 | assigning to a new key adds exactly that entry, and none for "__proto__" |
| `JsonOrder.PutEnumerated` | cosmwasm-js/packages/sdk/src/encoding.ts:15-21 | an assigned key lands in its enumeration place |
| `JsonOrder.EnumeratedUnique` | cosmwasm-js/packages/sdk/src/encoding.ts:14-22 | an enumeration is determined by its entries |
| `SignBytes.IndexExactly` | cosmwasm-js/packages/sdk/src/encoding.ts:15-21 | the keys enumerated first are the decimal texts of the numbers up to 2^32 - 2 |
| `JsonOrder.FillEnumerated` | cosmwasm-js/packages/sdk/src/encoding.ts:14-22 | assigning entries in ascending key order yields indices by value, then names in order |
| `SortJson.SortObjectExact` | cosmwasm-js/packages/sdk/src/encoding.ts:14-22 | rebuilding an object keeps exactly its entries other than "__proto__", in enumeration order |
| `SortJson.CanonicalForm` | cosmwasm-js/packages/sdk/src/encoding.ts:7-23 | two documents have one canonical form exactly when they differ only in key order and in what "__proto__" hides; without that key, exactly when they differ only in key order |
| `SortJson.OnlyReorders` | cosmwasm-js/packages/sdk/src/encoding.ts:7-23 | the result differs from the input only in key order and by what "__proto__" hides; arrays keep their order |
| `SortJson.ReordersExactly` | cosmwasm-js/packages/sdk/src/encoding.ts:7-23 | the result is the input up to key order exactly when no object has the key "__proto__" |
| `SortJson.ProtoCollides` | cosmwasm-js/packages/sdk/src/encoding.ts:15-21 | every document with that key shares its canonical form with a different one without it |
| `SortJson.Idempotent` | cosmwasm-js/packages/sdk/src/encoding.ts:7-23 | canonicalizing twice is canonicalizing once |
| `SortJson.SortedExactly` | cosmwasm-js/packages/sdk/src/encoding.ts:14-22 | all keys of the result are in sorted order exactly when, in every object, each key that is an array index sorts before the larger indices and all names |
| `SortJson.IndexKeysUnsorted` | cosmwasm-js/packages/sdk/src/encoding.ts:14-22 | an object with the keys "9" and "10" does not come out sorted |
| `JsonText.PrintStringUnique` | cosmwasm-js/packages/sdk/src/encoding.ts:58 | quoted strings with all their escapes are a prefix code, lone surrogates included |
| `JsonText.StringifyInjective` | cosmwasm-js/packages/sdk/src/encoding.ts:58 | two documents have the same text exactly when they are equal |
| `JsonText.QuoteExact` | cosmwasm-js/packages/sdk/src/encoding.ts:58 | which units of a string are escaped and how |
| `JsonText.QuoteShort` | cosmwasm-js/packages/sdk/src/encoding.ts:58 | the seven two-letter escapes |
| `JsonText.StringifyRenders` | cosmwasm-js/packages/sdk/src/encoding.ts:58 | the printed text is the one read off the document's structure: words, numerals, quoted strings, and lists in brackets or braces with commas and colons |
| `Utf8Text.Utf8Layout` | cosmwasm-js/packages/sdk/src/encoding.ts:58 | the byte layout of section 3 of RFC 3629: lengths, marker bits and the bits of the character in order |
| `Utf8Text.Utf8Injective` | cosmwasm-js/packages/sdk/src/encoding.ts:58 | texts without lone surrogates are determined by their UTF-8 bytes |
| `Utf8Text.Utf8Exact` | cosmwasm-js/packages/sdk/src/encoding.ts:58 | two texts have the same bytes exactly when they differ at most in their lone surrogates |
| `JsonBytes.ScrubPrint` | cosmwasm-js/packages/sdk/src/encoding.ts:58 | replacing the lone surrogates of a printed document is printing the document with them replaced |
| `JsonBytes.BytesExact` | cosmwasm-js/packages/sdk/src/encoding.ts:58 | two documents have the same bytes exactly when they differ at most in lone surrogates |
| `JsonBytes.LoneCollides` | cosmwasm-js/packages/sdk/src/encoding.ts:58 | every document with a lone surrogate has the bytes of a different one without |
| `JsonBytes.CanonicalBytes` | cosmwasm-js/packages/sdk/src/encoding.ts:57-58 | canonical bytes are equal exactly when the canonical forms differ at most in lone surrogates; without those and without "__proto__", exactly when the documents differ at most in key order |
| `JsonBytes.SameBytesWithoutLone` | cosmwasm-js/packages/sdk/src/encoding.ts:57-58 | replacing the lone surrogates in the string values of a document does not change the bytes of its canonical form |
| `SignBytes.SignBytesExact` | cosmwasm-js/packages/sdk/src/encoding.ts:39-59 | two transactions whose strings are paired and whose objects lack "__proto__" have the same sign bytes exactly when account number, sequence, chain id and memo agree and fee and messages agree up to key order; in general, exactly when the canonical documents differ at most in lone surrogates |
| `SignBytes.SignedDocument` | cosmwasm-js/packages/sdk/src/encoding.ts:47-57 | the signed document has exactly six fields in this order, each with its own value: account number, chain id, canonical fee, memo, canonical messages, sequence |
| `SignBytes.SignedText` | cosmwasm-js/packages/sdk/src/encoding.ts:39-59 | the text that is signed, field by field |
| `SignBytes.KeyOrderDoesNotMatter` | cosmwasm-js/packages/sdk/src/encoding.ts:39-59 | key order in fee and messages never changes the sign bytes, of whatever transaction |
| `SignBytes.ProtoIsNotSigned` | cosmwasm-js/packages/sdk/src/encoding.ts:39-59 | every transaction with the key "__proto__" in its fee or messages has the sign bytes of a different one without |
| `SignBytes.LoneIsNotSigned` | cosmwasm-js/packages/sdk/src/encoding.ts:39-59 | every transaction with a lone surrogate in a string value, at any depth of fee and messages or in memo or chain id, is signed like the different one with U+FFFD in its place |

## Left out

- SGX enclave calls, attestation, certificates and the encryption of contract messages and state.
- REST, command-line, faucet and client plumbing, and the JavaScript nonce packing.
- Buffer ownership across the Go and Rust boundary (go-cosmwasm/src/memory.rs); the iterator model passes values.
- Slashing of delegations; a staking contract whose delegation shrank refuses to bond and unbond.
- The serialised forms of contract messages and of the values behind staking and queue storage keys; the ERC20 constants are opaque bytes.
- Staking token metadata (name, symbol, decimals) and the read-only staking queries.
- The gas cost of single callbacks, and gas behaviour after the first depletion.
- The 315-bit bound of SDK decimals; minting arithmetic is on unbounded integers.
- Binary unmarshalling of transaction hashes, and validation of hex text: the parser drops decoding errors.
- The escrow, hackatom, reflect, burner, gov and mint contracts.
- StakingContract.Contract.UnbondTokens: on failure states only which failure it is, because the host then discards whatever was already written; the same holds for the other staking handlers.
- IteratorProtocol.ScanEndToEnd: the store of a call does not change while its iterators are open.
- GasAccounting.RunExact: covers a run up to and including its first depletion or panic.
- StakingProgress.ClaimSucceeds: takes it that the bank accepts a send of zero, which an already emptied claim leads to, because the bank module is not part of this model; chains that refuse are covered by the `refused` flag of `StakingChain.Transaction` in all run theorems.
- SignBytes.SignBytesExact: account number and sequence are integers JavaScript holds exactly, and documents hold JSON values only (no undefined or non-finite numbers). Lone surrogates in keys are covered by the general half of the contract only, because replacing them can reorder or merge keys.
