# Safe Network: verified model of payments, replicated data and replication

A Dafny model of the parts of the Safe Network node and client whose correctness does not show in
any single function: storage payments and their proofs, the records that must converge on every
node, the scheduling of replication, quorum reads, the bounded record store, the wallet, and the
packing of large files. `dafny verify dfyconfig.toml` checks the whole project.

| module | component |
|---|---|
| `Nearest` | sorting by a key and keeping a prefix, against a definition by counting |
| `PaymentProof`, `FeeValidation`, `StoragePayment` | the Merkle tree of paid addresses, a node's checks, a client's payment |
| `Transfer`, `Wallet` | selection of inputs, transfers, the local wallet |
| `Spends` | spend records and the evidence of double spends |
| `MerkleReg`, `Registers`, `ClientRegister` | the Merkle register, signed registers, a client's offline register |
| `ReplicationFetcher`, `CloseGroup`, `Replication` | which peer to ask for which key, close groups, who is told about a record |
| `RecordStore` | the bounded record store |
| `GetRecord` | quorum reads and the repair of split votes |
| `Files` | packing and reading large files |

How the surroundings are represented:

- Hashes are terms (`Leaf`, `Node`, `HashOf`, `FeeHash`, content names), so they are collision
  free and keep kinds apart. Signatures hold what was signed and by whom. Self-encryption and
  serialisation are functions of which only the inverse laws are assumed.
- Distances to a fixed target, and the order of signed spends, are injective integer keys.
- Iteration over hash maps and sets picks any remaining element, so results hold for every order.
- The clock of the fetcher is any monotone function of the number of the reading. Answers of other
  parties (whether a transaction could be built, an upload succeeded, a parent is valid) are
  parameters.
- Amounts are unbounded naturals with an explicit comparison against the 64-bit limit where the
  program adds with a check, and wrap around (`Wrap64`) where it multiplies without one.
- Objects that the program changes in place are classes. Ghost fields hold histories (peers asked,
  operations written, inputs used), and `Valid()` ties them to the real fields; since every method
  keeps `Valid()`, what it says holds in every reachable state of every run.

## Model

| member | source | states |
|---|---|---|
| `Nearest.RankOfPosition` | sn_networking/src/lib.rs:468-489 | The item at position i of the sorted list has exactly i items strictly before it |
| `Nearest.TakeIsClosest` | sn_networking/src/lib.rs:468-489 | Sorting and keeping k items yields, in ascending order, exactly the items that fewer than k others precede |
| `Nearest.AscendingUnique` | sn_networking/src/lib.rs:468-489 | Two ascending lists with the same members are the same list |
| `Nearest.ClosestJoin` | sn_node/src/spends.rs:23-44 | Keeping the k least is a join: selecting from two selections equals selecting from the union |
| `Nearest.ClosestInsert` | sn_networking/src/record_store.rs:185-231 | Offering one more item to the k nearest gives the k nearest of everything |
| `Nearest.ClosestIdempotent` | sn_node/src/spends.rs:23-44 | Selecting twice changes nothing |
| `PaymentProof.ComputeLeafIndex` | sn_transfers/src/payment_proof/mod.rs:179-185 | The shift-and-add loop over the reversed path yields the number whose binary digits, least significant first, are the path, and it stays below the number of leaves |
| `PaymentProof.LeafIndexOfTop` | sn_transfers/src/payment_proof/mod.rs:179-185 | The topmost turn of a path contributes half the leaves or nothing to the index |
| `PaymentProof.PathSpellsPosition` | sn_transfers/src/payment_proof/mod.rs:117-131 | The path generated for leaf i spells i |
| `PaymentProof.DescendFindsName` | sn_transfers/src/payment_proof/mod.rs:111-131 | Following a path down the tree leads to the name stored at the index the path spells |
| `PaymentProof.ClimbUndoesDescend` | sn_transfers/src/payment_proof/mod.rs:139-176 | Combining the item found by a path with its siblings rebuilds the root |
| `PaymentProof.ClimbStartsWherePathDescends` | sn_transfers/src/payment_proof/mod.rs:139-176 | Whatever siblings are offered, a climb from a leaf that ends at the root has the depth of the tree, began where the path descends to, and used exactly the siblings of that way |
| `PaymentProof.Pad` | sn_transfers/src/payment_proof/mod.rs:103-109 | The padding loop fills the list with blanks to the least power of two that holds it, and at least two leaves |
| `PaymentProof.BuildPaymentProofs` | sn_transfers/src/payment_proof/mod.rs:84-135 | An empty list is an error; otherwise the root is that of the padded tree and every address, and nothing else, has the trail of its last position |
| `PaymentProof.GenerateTrails` | sn_transfers/src/payment_proof/mod.rs:117-131 | The loop over the addresses leaves, for every address and nothing else, the trail of its last position |
| `PaymentProof.BuiltProofValidates` | sn_transfers/src/payment_proof/mod.rs:84-176 | Completeness: the trail generated for any leaf, padding included, validates for the name there and returns its position |
| `PaymentProof.StoredTrailValidates` | sn_transfers/src/payment_proof/mod.rs:84-176 | The trail stored for each address of any list validates and returns the last position of that address |
| `PaymentProof.AcceptedProofReachesLeaf` | sn_transfers/src/payment_proof/mod.rs:139-185 | Soundness: any trail accepted against a built root has a path as long as the tree is deep, and the returned index is a leaf that holds exactly this address |
| `PaymentProof.AcceptedExactly` | sn_transfers/src/payment_proof/mod.rs:139-185 | Against a built root, an address is accepted with an index if and only if it sits at that leaf and the trail and path are the very ones generated for it |
| `PaymentProof.LeafIndexDeterminesAddress` | sn_transfers/src/payment_proof/mod.rs:139-185 | Two trails accepted with the same index are for the same address |
| `FeeValidation.AcceptedLeafIsPaid` | sn_node/src/put_validation.rs:590-617 | An address that any trail gets accepted sits at a leaf whose index is below paid / fee, so long as the product for the last leaf fits in 64 bits |
| `FeeValidation.AcceptedAddressesArePaidFor` | sn_node/src/put_validation.rs:590-617 | However many trails are tried, at most paid / fee distinct addresses are accepted against one fee output, under the same condition |
| `FeeValidation.BoundExact` | sn_node/src/put_validation.rs:590-617 | That bound holds for every transaction and every set of accepted addresses if and only if fee times the number of leaves fits in 64 bits, because the product is not checked |
| `FeeValidation.BoundAtStoreCosts` | sn_node/src/put_validation.rs:590-617 | It holds for every fee that nodes of this program ask (their own store cost, at most 2^21) in every tree of fewer than 2^43 leaves |
| `FeeValidation.WrappedLeaf` | sn_node/src/put_validation.rs:590-617 | Past the limit, the first leaf whose product wraps around is accepted for less than one fee |
| `FeeValidation.WrappedFeeAccepted` | sn_node/src/put_validation.rs:590-617 | A failing input of the function taken by itself, beyond the fees that nodes ask: at a fee of 2^63 the second of two addresses is accepted for a single nano |
| `FeeValidation.TrailVerdict` | sn_node/src/put_validation.rs:565-617 | The verdict on a generated trail, with the reason for a refusal: the fee id first, then whether the wrapped product for its leaf is covered |
| `FeeValidation.VerdictExactly` | sn_node/src/put_validation.rs:590-617 | Against a built root exactly these are accepted: an address with the very trail of one of its leaves, under the right fee id, paid for up to that leaf |
| `FeeValidation.FeeIdOfTransfers` | sn_node/src/put_validation.rs:565-585 | A plain transfer passes the fee id check exactly when no payment is required; a storage payment passes either way |
| `FeeValidation.PaidProofAccepted` | sn_node/src/put_validation.rs:590-617 | A fee output carrying the price for each address makes every generated trail pass at every node asking no more than that price |
| `FeeValidation.UnderpaidProofRefused` | sn_node/src/put_validation.rs:590-617 | A leaf that is not paid for is refused exactly when nothing is paid or the wrapped product is not covered either, hence always when the product fits in 64 bits |
| `Transfer.SelectInputs` | sn_transfers/src/client_transfers/transfer.rs:96-151 | The loop returns the shortest prefix of the usable dbcs that covers the amount, with the exact change; it fails only when all usable dbcs together do not cover it, or when that prefix exceeds the token limit |
| `Transfer.SelectionConserves` | sn_transfers/src/client_transfers/transfer.rs:96-151 | The selected dbcs are worth exactly the amount plus the change, are a prefix of the usable ones, and for a positive amount no shorter prefix covers it |
| `Transfer.SelectionSucceeds` | sn_transfers/src/client_transfers/transfer.rs:96-151 | As long as all usable dbcs together fit in a token, selection succeeds exactly when they cover the amount; without cover it reports what was found |
| `Transfer.NoShorterCover` | sn_transfers/src/client_transfers/transfer.rs:96-151 | A prefix covers a positive amount exactly when it is at least as long as the selected one |
| `Transfer.CoverExists` | sn_transfers/src/client_transfers/transfer.rs:96-151 | If some prefix covers the amount there is a shortest one |
| `Transfer.CoverUnique` | sn_transfers/src/client_transfers/transfer.rs:96-151 | The shortest covering prefix is unique |
| `Transfer.CreateTransferWith` | sn_transfers/src/client_transfers/transfer.rs:159-269 | The inputs keep their order, the created dbcs are exactly the recipients', and a change dbc is split off exactly when there is change |
| `Transfer.CreateTransfer` | sn_transfers/src/client_transfers/transfer.rs:28-55 | The checked total of the recipients is selected for; overflow, lack of funds and build failures are reported; the transaction carries no fee |
| `Transfer.CreateStoragePaymentTransfer` | sn_transfers/src/client_transfers/transfer.rs:61-93 | The fee output carries the payment and the root, and its id hashes the root and the selected inputs in order; the rest comes back as change |
| `Wallet.ValueUnion` | sn_transfers/src/wallet/local_store.rs:276-283 | The worth of two disjoint collections adds up |
| `Wallet.ValueWithout` | sn_transfers/src/wallet/local_store.rs:192-211 | Taking distinct held dbcs out of a collection lowers its worth by exactly their sum |
| `Wallet.ValueAfterTransfer` | sn_transfers/src/wallet/local_store.rs:192-211 | Removing the inputs and adding the change accounts for every token |
| `Wallet.SoundAfterTransfer` | sn_transfers/src/wallet/local_store.rs:192-211 | A transfer of held dbcs with a new change id keeps available and spent disjoint, all input sets disjoint and spent, and available + sent + fees equal to deposited |
| `Wallet.EnteringMembers` | sn_transfers/src/wallet/local_store.rs:260-275 | Exactly the ids of the unspent dbcs that belong to the key enter, each with a listed dbc of that id |
| `Wallet.ListingWorth` | sn_transfers/src/wallet/local_store.rs:88-101 | A listing of everything held is worth exactly what is held |
| `Wallet.LocalWallet.Balance` | sn_transfers/src/wallet/local_store.rs:276-283 | The loop over the held dbcs, in any order, computes their total worth |
| `Wallet.LocalWallet.AddReceived` | sn_transfers/src/wallet/local_store.rs:260-284 | Exactly the dbcs that are not spent and belong to the key enter; the balance is recomputed unless the list is empty |
| `Wallet.LocalWallet.Deposit` | sn_transfers/src/wallet/local_store.rs:84-86 | Keeps the invariant: a spent dbc never becomes available again, a held one changes nothing, and the value deposited grows by the newly entered worth |
| `Wallet.LocalWallet.AvailableDbcs` | sn_transfers/src/wallet/local_store.rs:88-101 | Lists every held dbc exactly once |
| `Wallet.LocalWallet.UpdateLocalWallet` | sn_transfers/src/wallet/local_store.rs:192-211 | The inputs move from available to spent, only the change becomes available, and the created dbcs are kept for others |
| `Wallet.LocalWallet.Settle` | sn_transfers/src/wallet/local_store.rs:192-211 | Applying a conserving transfer keeps the invariant and enters its inputs, value sent and fee in the history |
| `Wallet.LocalWallet.LocalSend` | sn_transfers/src/wallet/local_store.rs:144-168 | As long as all that is held fits in a token, succeeds exactly when the total is held and the transfer can be built, and says why not otherwise; on success the inputs were available and are spent for good, no id is an input of two transfers, and exactly the requested total has left; on failure nothing changed |
| `Wallet.LocalWallet.LocalSendStoragePayment` | sn_transfers/src/wallet/local_store.rs:170-190 | The same for a storage payment, whose fee output carries the payment under an id hashing root and inputs; the same condition for success |
| `StoragePayment.ProofsAssembled` | sn_client/src/wallet.rs:164-178 | Every address gets the trail of its last position and the inputs of the transaction |
| `StoragePayment.AssembledProofVerdict` | sn_client/src/wallet.rs:127-178 | Whatever was paid, a node accepts a returned proof exactly when something was paid and the wrapped product for the last position of the address is covered |
| `StoragePayment.WrappedBillRefused` | sn_client/src/wallet.rs:127-141 | A failing input at ordinary costs, as the price factor doubles with every hundred addresses: at a quote of 2^21, 3584 distinct addresses are billed nothing and every node refuses all the proofs |
| `StoragePayment.AssembledProofsAccepted` | sn_client/src/wallet.rs:127-178 | A bill paid in full gets every proof through the fee-id, trail and amount checks of every node asking at most the price |
| `StoragePayment.PayForStorage` | sn_client/src/wallet.rs:105-187 | As long as all that is held fits in a token, succeeds exactly when the bill is held, the transfer can be built and the upload succeeds, and says why not otherwise; the proofs are those of the given addresses; whenever the bill fits in 64 bits and the price is positive, every node asking at most the price accepts them; exactly the amount billed leaves the wallet, also when the upload fails; every other failure leaves the wallet alone |
| `Spends.AggregateMembers` | sn_node/src/spends.rs:23-44 | The aggregate is the ascending list of the two least of those spends of the dbc that verify |
| `Spends.AggregateIsJoin` | sn_node/src/spends.rs:23-44 | Aggregating two aggregates equals aggregating all the spends |
| `Spends.AggregateIdempotent` | sn_node/src/spends.rs:23-44 | Aggregating an aggregate changes nothing |
| `Spends.SpendNode.ValidateAndStoreSpends` | sn_node/src/put_validation.rs:188-273 | Mixed or empty lists and failed checks store nothing; otherwise the record of that dbc alone is overwritten, a stored double spend is still reported, and every dbc, held or not, takes one step of the run |
| `Spends.AllOfOneDbc` | sn_node/src/put_validation.rs:188-273 | The loop accepts exactly the lists whose spends all name the dbc of the first |
| `Spends.StepAggregates` | sn_node/src/put_validation.rs:409-556 | On a non-empty aggregated record a store step is the aggregate of the record and the arrival, whatever lookups return |
| `Spends.HeldVerdict` | sn_node/src/put_validation.rs:419-470 | With a record held, nothing is stored exactly when every spend of the arrival is held; otherwise the aggregate of both is |
| `Spends.StepIsJoin` | sn_node/src/put_validation.rs:409-556 | One store step on the aggregate of what was seen gives the aggregate of what was seen and the arrival |
| `Spends.AggregateGrows` | sn_node/src/spends.rs:23-44 | Seeing more never shortens the record |
| `Spends.RunStoresAggregate` | sn_node/src/put_validation.rs:409-556 | Over every run from a non-empty record the node stores exactly the aggregate of everything received for the dbc |
| `Spends.RunsConverge` | sn_node/src/put_validation.rs:409-556 | The same spends in any order, grouping and repetition leave identical records |
| `Spends.DoubleSpendNeverLost` | sn_node/src/put_validation.rs:409-556 | Once two different authentic spends were received, every later record shows two different authentic ones |
| `Spends.FirstRecord` | sn_node/src/put_validation.rs:471-552 | A first list is stored exactly when it has at least two entries or its one spend passes the checks; the record is the two least of the verifying spends that came in and, for a single spend, of the one that the network has; so the parents of a first record were checked if and only if the list had one entry; it is empty exactly when no entry of a longer list verifies |
| `Spends.NetworkSpendIsKept` | sn_node/src/put_validation.rs:533-543 | When the network has another authentic spend of the dbc, a first single spend is stored together with it, so that the double spend shows at once |
| `Spends.FirstRefusal` | sn_node/src/put_validation.rs:484-531 | A first single spend is refused for the first of these that it fails: signature, fee id, parents |
| `Spends.RepeatSkipsChecks` | sn_node/src/put_validation.rs:471-552 | That a stored single spend has been checked against its parents is false: a list naming one authentic spend twice is stored as that spend, while the spend alone is refused |
| `Spends.AfterEmpty` | sn_node/src/put_validation.rs:419-470 | An empty record treats the next list as a first one in which repeated spends count once |
| `Spends.RunFromNothing` | sn_node/src/put_validation.rs:409-556 | Over every run from no record, either nothing or an empty record is held at the end, or from the arrival that first left a spend on the node holds exactly the aggregate of what that left and everything received since |
| `MerkleReg.SettledIsCanonical` | sn_registers/src/reg_crdt.rs:56-117 | A register whose DAG is closed under children, none of whose orphans is ready and whose roots are right is the canonical register of its nodes |
| `MerkleReg.CanonIsSettled` | sn_registers/src/reg_crdt.rs:56-117 | The canonical register of any set of nodes is settled and holds exactly these nodes |
| `MerkleReg.RootsAfterInsert` | sn_registers/src/reg_crdt.rs:67-84 | Inserting a ready node removes its children from the roots and adds the node |
| `MerkleReg.CanonGrows` | sn_registers/src/reg_crdt.rs:87-103 | One more node never takes a node out of the DAG, and orphans only leave |
| `MerkleReg.InsertIsCanonical` | sn_registers/src/reg_crdt.rs:87-103 | Inserting a ready node and setting aside the orphans it makes ready leaves a canonical register |
| `MerkleReg.OrphanIsCanonical` | sn_registers/src/reg_crdt.rs:87-103 | A node with unseen children can wait as an orphan of a canonical register |
| `MerkleReg.Apply` | sn_registers/src/reg_crdt.rs:87-103 | Applying a node, with the cascade through waiting orphans in any order, yields the canonical register of the nodes given so far |
| `MerkleReg.ApplyReady` | sn_registers/src/reg_crdt.rs:87-103 | Applying the freed orphans, in any order, yields the canonical register of all nodes |
| `MerkleReg.ApplyEach` | sn_registers/src/reg_crdt.rs:56-58 | Applying a set of nodes in any order yields the canonical register of the union |
| `MerkleReg.Merge` | sn_registers/src/reg_crdt.rs:56-58 | Merging yields the canonical register of the nodes of both |
| `MerkleReg.CanonicalSize` | sn_registers/src/reg_crdt.rs:61-63 | The size is the number of distinct nodes given, orphans included |
| `Registers.Replica.ApplyOp` | sn_registers/src/register.rs:222-226 | A rejected operation changes nothing; an accepted one yields the canonical register with its node |
| `Registers.Replica.Write` | sn_registers/src/register.rs:212-219 | A write that passes the size checks adds its node and returns the unsigned operation for it |
| `Registers.Replica.Merge` | sn_registers/src/register.rs:229-231 | The replica becomes the canonical register of the nodes of both |
| `Registers.ReplayResult` | sn_registers/src/register.rs:88-94 | A replay succeeds exactly when every operation is admissible and the nodes before the last leave room; then the register is the canonical one for all nodes |
| `Registers.CanReplayInit` | sn_registers/src/register.rs:261-280 | A replay has room for its last operation exactly when it has room for all earlier ones and for it |
| `Registers.AcceptedOps` | sn_registers/src/register.rs:234-258 | A register accepts exactly: anything when anyone may write, and otherwise what the owner or a named writer has signed over this very address, node and source |
| `Registers.RefusedOps` | sn_registers/src/register.rs:222-280 | An operation is refused for the first check that it fails: entry size, number of entries, permission and signature, address |
| `Registers.ReplaysConverge` | sn_registers/src/register.rs:88-94 | Two successful replays of the same operations, in any order and with repeats, end in the same DAG, orphans, roots and size |
| `Registers.ReplayOfUnionIsMerge` | sn_registers/src/register.rs:88-114 | When the replay of the merged operations succeeds, so do the replays of both parts in the same order, and merging the two registers equals the whole replay |
| `Registers.ReplaysMerge` | sn_registers/src/register.rs:88-114 | Successful replays of two parts, in any order and with repeats, merge to any successful replay of all the operations |
| `Registers.PartReplays` | sn_registers/src/register.rs:88-114 | When the replay of merged operations succeeds, the replay of each part in the same order succeeds too |
| `Registers.SignedCell.Merge` | sn_registers/src/register.rs:97-103 | Succeeds exactly for the same base; as nothing is checked, a verified register stays verified exactly when the base permits all that came in |
| `Registers.SignedCell.VerifiedMerge` | sn_registers/src/register.rs:107-114 | Succeeds exactly for a register with the same base that verifies, and keeps a verified register verified |
| `Registers.SignedCell.AddOp` | sn_registers/src/register.rs:127-131 | Adds the operation exactly when it passes the permission and signature checks, and keeps a verified register verified |
| `Registers.VerifiedRegisters` | sn_registers/src/register.rs:61-74 | A signed register verifies exactly when the owner has signed this very base and every operation is accepted |
| `Registers.RegisterOf` | sn_registers/src/register.rs:88-94 | For the order in which the operations are listed, the loop succeeds exactly when all are admissible and there is room up to the last one; then every order gives the same register; and every order succeeds when all nodes together stay below the limit |
| `Registers.ApplyAll` | sn_registers/src/register.rs:88-94 | The loop over the operations, with its early exit, is the replay |
| `Registers.RegisterNode.ValidateAndStoreRegister` | sn_node/src/put_validation.rs:145-185 | A register that does not verify is refused, a first one is stored as it is, a later one is merged if it has the same base and refused if not; the answer says exactly whether anything was new; every address takes one step of the run |
| `Registers.StoreRunIsUnion` | sn_node/src/put_validation.rs:351-396 | Over every run the record keeps its base and holds exactly its first operations and those of every accepted arrival |
| `Registers.StoreRunsConverge` | sn_node/src/put_validation.rs:351-396 | The same arrivals in any order and repetition leave the same record |
| `Registers.StoreRunFromNothing` | sn_node/src/put_validation.rs:351-396 | Over every run from no record nothing is held until a register for the address verifies, and from then on exactly the operations of all verified arrivals with the base of that first one |
| `Registers.FirstBaseIs` | sn_node/src/put_validation.rs:351-396 | That base is the one of the first arrival for the address that verifies, and there is none exactly when no arrival does |
| `Registers.RunsFromNothingConverge` | sn_node/src/put_validation.rs:351-396 | That nodes starting with nothing converge on the same arrivals is false in general: they do if and only if the first register that verified had the same base at both |
| `Registers.FirstBaseWins` | sn_node/src/put_validation.rs:351-396 | A failing input: two verified registers with different bases at one address, in either order, leave whichever came first |
| `Registers.VerifiedNeedNotReplay` | sn_registers/src/register.rs:61-74 | A register can pass verification although its operations do not replay |
| `ClientRegister.RootExists` | sn_registers/src/reg_crdt.rs:111-117 | A register with any entry in its DAG has a current entry |
| `ClientRegister.MergingNodeIsNew` | sn_client/src/register.rs:132-141 | The node written atop all current entries is new and ready |
| `ClientRegister.MergingWriteLeavesOneEntry` | sn_client/src/register.rs:132-141 | A merging write leaves exactly its entry as current if and only if no waiting orphan becomes ready by it |
| `ClientRegister.ReversedPushFront` | sn_client/src/register.rs:147-161 | An operation entering at the front of the queue is published last |
| `ClientRegister.QueuedOpChecks` | sn_client/src/register.rs:147-161 | The operation is signed while it names the owner as its source and only then gets the signer as its source, so for a permitted signer it passes the checks if and only if the signer is the owner or anyone may write |
| `ClientRegister.WriterOpRefused` | sn_client/src/register.rs:147-161 | A failing input: every operation queued by a named writer who is not the owner fails with an invalid signature |
| `ClientRegister.PublishRegister` | sn_client/src/register.rs:256-295 | An edit is published exactly when a copy is found, the operation passes its checks and the put succeeds; the copy then holds it and stays verified |
| `ClientRegister.PushOutcome` | sn_client/src/register.rs:192-214 | Where the network lets the signer through everything is published; for a signer other than the owner of a register not open to anyone nothing ever is, and the queue stays as it is |
| `ClientRegister.ClientReg.Enqueue` | sn_client/src/register.rs:147-161 | Published operations followed by queued ones equal the written ones, in order |
| `ClientRegister.ClientReg.WriteAtop` | sn_client/src/register.rs:147-161 | Succeeds exactly when permission and size checks pass; then the node is added and the operation is written and queued as the client signs it, with the exact condition for its passing the checks; otherwise nothing changes |
| `ClientRegister.ClientReg.WriteMergingBranches` | sn_client/src/register.rs:132-141 | Succeeds exactly when permission and size checks pass; then all current entries are superseded and the operation is queued, with the exact condition for being the only current entry afterwards |
| `ClientRegister.ClientReg.Push` | sn_client/src/register.rs:192-214 | Publishes oldest first up to the first failure; published followed by queued stays equal to written, nothing lost, repeated or reordered; everything gets published where the signer is let through, and nothing where only a non-owner signs |
| `ReplicationFetcher.StepsMakePass` | sn_networking/src/replication_fetcher.rs:126-163 | Step by step over the holders, a pass starts at most one new fetch, fails only holders being asked, and fails those whose time is over |
| `ReplicationFetcher.PassKeepsTracked` | sn_networking/src/replication_fetcher.rs:126-163 | A pass keeps: at most one holder being asked, asked exactly when being asked or failed, nobody asked twice |
| `ReplicationFetcher.AskedBound` | sn_networking/src/replication_fetcher.rs:165-178 | A queued key was asked of at most three peers |
| `ReplicationFetcher.GiveUpExact` | sn_networking/src/replication_fetcher.rs:165-178 | A key is given up after a pass only if the peer being asked had run out of time by its end and was the last to try, and always if so at its start |
| `ReplicationFetcher.NetworkKeyExact` | sn_networking/src/replication_fetcher.rs:165-183 | Whether a key is handed to the network, in terms of its holders before the call |
| `ReplicationFetcher.Fetcher.VisitHolder` | sn_networking/src/replication_fetcher.rs:126-163 | A pending, unfailed holder is asked exactly when a fetch may start; one being asked fails exactly when its time is over |
| `ReplicationFetcher.Fetcher.VisitHolders` | sn_networking/src/replication_fetcher.rs:117-163 | A fetch is started exactly when it is allowed, somebody can be asked and nobody is still being waited for; the count grows by one for a fetch started and shrinks by one for a holder that failed |
| `ReplicationFetcher.Fetcher.AskHolders` | sn_networking/src/replication_fetcher.rs:126-163 | The inner loop in any order: every holder has had its step, nobody who may be asked is passed over, and the count follows |
| `ReplicationFetcher.Fetcher.VisitKey` | sn_networking/src/replication_fetcher.rs:116-179 | One visit changes that key alone and yields the network exactly when the key is given up, else the peer newly asked; when a fetch is allowed and the peer being asked is overdue, something is yielded in this very visit; the count follows the keys being asked for, except that a key given up gives back one fetch too many |
| `ReplicationFetcher.Fetcher.VisitKeys` | sn_networking/src/replication_fetcher.rs:115-179 | Over all keys in any order, a peer is returned for a key only if fewer keys than the allowance were returned before it, and then every overdue or idle key is returned; the count never exceeds the limit |
| `ReplicationFetcher.UnderwayStep` | sn_networking/src/replication_fetcher.rs:115-179 | Each visit keeps what the outer loop maintains: visited keys settled, the allowance respected, idle keys served, the count in step with the keys being asked for up to the keys given up, and no stall brought about |
| `ReplicationFetcher.StallKept` | sn_networking/src/replication_fetcher.rs:102-191 | A call neither stalls nor revives the fetcher, and a stalled one returns nothing |
| `ReplicationFetcher.InOrderStep` | sn_networking/src/replication_fetcher.rs:133-155 | Each visit hands out a fetch only within the allowance left by the keys returned before it, and to an overdue key always |
| `ReplicationFetcher.OverdueServed` | sn_networking/src/replication_fetcher.rs:117-155 | While the allowance is not used up, no key is left out whose asked peers are all overdue |
| `ReplicationFetcher.NextHolderAsked` | sn_networking/src/replication_fetcher.rs:131-141 | As soon as the time of the peer being asked is over, the next one is asked: an overdue key that does not go to the network is returned with a peer in the same call |
| `ReplicationFetcher.PacedStep` | sn_networking/src/replication_fetcher.rs:153-178 | Relative to the count, the keys being asked for grow by at most one for each key given up, and while no fetch may start each of these lowers the count by two; as long as none is given up the count follows exactly |
| `ReplicationFetcher.ClockedDone` | sn_networking/src/replication_fetcher.rs:115-183 | A key returned with a peer is being asked for since the time of the call; a key that is not overdue stays asked for as it was and is not returned |
| `ReplicationFetcher.CallPace` | sn_networking/src/replication_fetcher.rs:102-191 | Over a call the keys being asked for outgrow the count by at most one for each key handed to the network; so in a run that hands none over at most eight are ever asked for at once |
| `ReplicationFetcher.Fetcher.NextKeysToFetch` | sn_networking/src/replication_fetcher.rs:102-191 | No peer is returned twice for a key; exactly the keys handed to the network leave the queue and no other holder is forgotten; a key goes to the network if the peer being asked has run out of time when the call begins and was the last to try, and only if that is so when it ends; a key not overdue stays asked for and is not returned; fetches are handed out in the order of visiting, to every overdue or idle key, until as many keys as the allowance are returned; the invariant is kept |
| `ReplicationFetcher.Fetcher.VisitAll` | sn_networking/src/replication_fetcher.rs:102-179 | After all visits, dropping the keys for the network leaves every queued key consistent with its history and none to be given up |
| `ReplicationFetcher.Fetcher.AddHolder` | sn_networking/src/replication_fetcher.rs:200-205 | A holder already known keeps its state, a new one is pending, nothing else changes |
| `ReplicationFetcher.Fetcher.AddHolders` | sn_networking/src/replication_fetcher.rs:66-70 | Exactly the incoming record keys that are not stored gain the peer as holder, known holders keep their state, and queued keys keep their history |
| `ReplicationFetcher.Fetcher.RetainKeys` | sn_networking/src/replication_fetcher.rs:194-197 | Exactly the stored keys leave the queue |
| `ReplicationFetcher.Fetcher.QueueKeys` | sn_networking/src/replication_fetcher.rs:57-70 | Stored keys leave, exactly the wanted ones gain the peer, and nobody starts or stops being asked for a key that stays |
| `ReplicationFetcher.Fetcher.AddKeys` | sn_networking/src/replication_fetcher.rs:57-73 | After dropping stored keys and adding the wanted ones: the allowance, the idle keys served, who goes to the network and when, and who holds what, exactly as above; with allowance left a new key gets something returned; the fetcher is stalled afterwards if and only if all fetches were taken and every key being asked for is among the stored ones; the keys being asked for outgrow the count by at most one for each key handed over |
| `ReplicationFetcher.Fetcher.NotifyAboutNewPut` | sn_networking/src/replication_fetcher.rs:78-93 | The stored key and its history leave the fetcher and its fetch is given back; the fetches started fit in the allowance, one more if a fetch was given back; who goes to the network and when, as above; the fetcher is stalled afterwards if and only if it was before; the keys being asked for outgrow the count by at most one for each key handed over |
| `ReplicationFetcher.Fetcher.DropKey` | sn_networking/src/replication_fetcher.rs:82-91 | Exactly that key leaves, a fetch is given back exactly when it was being asked for, and a stall is neither made nor undone |
| `ReplicationFetcher.Fetcher.QueuedKey` | sn_networking/src/replication_fetcher.rs:102-191 | In every reachable state a queued key has at most one holder being asked, an unfailed holder, fewer than three failed ones, and at most three peers, none twice, were asked for it |
| `ReplicationFetcher.IdleOutcome` | sn_networking/src/replication_fetcher.rs:102-191 | When nobody is being asked, a call counts exactly what it returns, leaves out nothing unless the allowance is used up, and without allowance does nothing |
| `ReplicationFetcher.StallFetcher` | sn_networking/src/replication_fetcher.rs:194-197 | That a wanted key can always still come to be asked for is false: eight keys being asked for that turn up in the store without a notification (as the split repair stores them) leave all fetches taken and nobody being asked, and from there no call returns anything |
| `ReplicationFetcher.ServeKey` | sn_networking/src/replication_fetcher.rs:78-93 | A queued key for which nobody is being asked gets a peer returned, by storing records of other keys one at a time at any times, if and only if the fetcher is not stalled |
| `ReplicationFetcher.StoreOther` | sn_networking/src/replication_fetcher.rs:78-93 | Storing another key gets the key asked for or leaves it idle; when nothing else is queued it is asked for exactly when the fetcher is not stalled |
| `ReplicationFetcher.Revive` | sn_networking/src/replication_fetcher.rs:57-93 | The fetcher can still return something, by storing a key being asked for and learning of a new one, if and only if it is not stalled |
| `ReplicationFetcher.OverrunFetcher` | sn_networking/src/replication_fetcher.rs:18-19 | That at most MAX_PARALLEL_FETCH keys are asked for at once is false: for every t from 1 to 4 there is a run in which t keys given up, each giving back two fetches, lead to 8 + t keys being asked for at once |
| `ReplicationFetcher.FillFetcher` | sn_networking/src/replication_fetcher.rs:57-73 | When everything queued is being asked for and not overdue, new keys that fit in the allowance are all asked for and counted exactly |
| `ReplicationFetcher.LoseEarly` | sn_networking/src/replication_fetcher.rs:165-178 | With all fetches taken, the overdue keys with a single holder, and only these, go to the network, and the count drops by two for each |
| `CloseGroup.SortedPeers` | sn_networking/src/lib.rs:468-489 | Fails exactly when fewer peers than a close group are known; otherwise lists in order exactly the nearest by rank |
| `CloseGroup.CloseRangeByRank` | sn_networking/src/cmd.rs:367-380 | A node is in close range exactly when its view is small or fewer than ten peers it knows are nearer |
| `CloseGroup.ReceiverAccepts` | sn_networking/src/cmd.rs:367-380 | If the sender counts x in the close group and x knows at most two nearer peers that the sender does not, x accepts |
| `CloseGroup.InNineNotLast` | sn_node/src/replication.rs:62-93 | A peer is among the nearest nine but not the last exactly when it is in the close group |
| `CloseGroup.ArrivalTarget` | sn_node/src/replication.rs:83-90 | On the arrival of x exactly the records with x in their close group go to x |
| `CloseGroup.OutsiderDeparts` | sn_node/src/replication.rs:66-82 | The departure of a peer outside a close group leaves it unchanged |
| `CloseGroup.MemberDeparts` | sn_node/src/replication.rs:66-82 | When a member departs, exactly the ninth nearest peer takes its place |
| `CloseGroup.DepartureTarget` | sn_node/src/replication.rs:66-82 | On a departure a record is forwarded exactly when its close group changes, to the one peer in the new group and not in the old |
| `CloseGroup.SameGroup` | sn_networking/src/event.rs:589-606 | A recomputed group without a new member equals the cached one |
| `CloseGroup.Driver.CheckForChange` | sn_networking/src/event.rs:577-622 | After every check with enough peers the cache is the sorted list of the nearest with self first, and the distance range set in the record store is that to its last member; exactly the new members are reported |
| `Replication.SortByTarget` | sn_node/src/replication.rs:60-94 | Each record is planned once for its target and for nobody else, in any order of the records |
| `Replication.PlanReplication` | sn_node/src/replication.rs:32-94 | A view below K_VALUE plans nothing, any other plans every record for its target |
| `Replication.DeparturePlan` | sn_node/src/replication.rs:60-94 | On a departure exactly the records whose close group changes are planned, each for the new member |
| `Replication.ArrivalPlan` | sn_node/src/replication.rs:60-94 | On an arrival exactly the records with x in their close group are planned, all for x |
| `Replication.PlannedPeerAccepts` | sn_networking/src/cmd.rs:127-134 | Whoever is planned, on arrival or departure, accepts the record if its view has at most two nearer peers unknown to the sender |
| `Replication.CutIntoRequests` | sn_node/src/replication.rs:97-105 | The requests concatenate to the keys; none is empty or over the limit and all but the last are full |
| `RecordStore.DiskBackedRecordStore.PruneStorageIfNeededForRecord` | sn_networking/src/record_store.rs:185-231 | A full store drops its furthest record for a nearer key and refuses any other |
| `RecordStore.DiskBackedRecordStore.PutVerified` | sn_networking/src/record_store.rs:152-178 | A refused key changes nothing, an accepted one is held and takes one step of the run |
| `RecordStore.DiskBackedRecordStore.Remove` | sn_networking/src/record_store.rs:340-356 | Exactly that key leaves |
| `RecordStore.FullStoreDropsLast` | sn_networking/src/record_store.rs:185-231 | A full store ends without the furthest of its records and the offered key |
| `RecordStore.AfterIsClosest` | sn_networking/src/record_store.rs:152-231 | Taking a new key keeps the max nearest of the records and the key |
| `RecordStore.OfferOne` | sn_networking/src/record_store.rs:152-231 | Offering a new key to the nearest of what was offered before gives the nearest of everything |
| `RecordStore.StoreKeepsNearest` | sn_networking/src/record_store.rs:152-231 | After any run of puts of distinct keys the store holds exactly the max nearest of all keys ever offered |
| `RecordStore.AfterWithinBound` | sn_networking/src/record_store.rs:152-231 | A put, also of a key already held, keeps the store within its limit |
| `RecordStore.RunWithinBound` | sn_networking/src/record_store.rs:152-231 | However puts, re-puts and removals are mixed, the limit is never exceeded |
| `RecordStore.RePut` | sn_networking/src/record_store.rs:185-231 | Putting a key already held leaves the records alone if and only if there is room or the key is the furthest, which is then refused; otherwise the furthest record is lost |
| `RecordStore.BoundNeedsRoom` | sn_networking/src/record_store.rs:185-231 | The limit holds after a first put if and only if it is positive |
| `GetRecord.AccumulateTallies` | sn_networking/src/event.rs:649-692 | Counting one more copy keeps the votes equal to the distinct reporters of every content |
| `GetRecord.OpenQuery` | sn_networking/src/event.rs:649-692 | While a query is open its votes are the tally of all its events and every content is below the majority |
| `GetRecord.OpenExactly` | sn_networking/src/event.rs:649-692 | A query is open exactly as long as no copy has been decisive: none gave its content a majority of distinct peers, and none was the last of the expected copies |
| `GetRecord.FirstDecisiveReplies` | sn_networking/src/event.rs:673-686 | The first decisive copy closes the query, with its record when that has a majority and with not found when only all copies have come in |
| `GetRecord.ClosingEvent` | sn_networking/src/event.rs:649-692 | A closed query was closed by one event and ignored everything after it |
| `GetRecord.FoundMeansMajority` | sn_networking/src/event.rs:649-692 | A record is returned only after a majority of distinct peers reported exactly its content, and every other content is then below the majority |
| `GetRecord.MajorityHolds` | sn_networking/src/lib.rs:104-106 | If peers hold fixed contents, a returned content is held by a majority of the group |
| `GetRecord.QueriesAgree` | sn_networking/src/event.rs:649-692 | Two queries answered by at most eight peers with fixed contents never return different contents |
| `GetRecord.WinnerUnique` | sn_networking/src/event.rs:694-730 | The content with most voters, and among ties the lowest name, is unique |
| `GetRecord.FoundRecordWins` | sn_networking/src/event.rs:649-730 | When a query found a record, that record wins the vote |
| `GetRecord.SelectWinner` | sn_networking/src/event.rs:706-717 | For every iteration order the loop picks the content with the most distinct voters and among ties the lowest name |
| `GetRecord.RepairWritesFoundRecord` | sn_networking/src/event.rs:700-730 | When a record was found, a repair writes exactly that record, exactly when contents differed and this node did not report it |
| `GetRecord.Driver.GetNetworkRecord` | sn_networking/src/cmd.rs:149-158 | A new query starts with no votes, replacing a pending one of the same id |
| `GetRecord.Driver.Answer` | sn_networking/src/event.rs:649-692 | The reply goes to the query of the session being answered; no session is answered twice, and the query is forgotten |
| `GetRecord.Driver.TryUpdateSelfForSplitRecord` | sn_networking/src/event.rs:700-730 | Without a split nothing is written; otherwise the winner, unless this node already holds it |
| `GetRecord.Driver.Close` | sn_networking/src/event.rs:683-685 | Closing replies once and repairs; a repair after a found record writes exactly that record |
| `GetRecord.Driver.AccumulateGetRecordOk` | sn_networking/src/event.rs:649-692 | An unknown query is ignored; otherwise the copy is counted, and only a closing copy replies and repairs |
| `GetRecord.Driver.PendingBelowMajority` | sn_networking/src/event.rs:649-692 | In every reachable state the votes of a pending query are the tally of its events and below the majority |
| `GetRecord.Driver.Finished` | sn_networking/src/event.rs:437-464 | An early end replies once, with some record seen or not found, and never repairs |
| `GetRecord.Driver.Failed` | sn_networking/src/event.rs:465-501 | A failed query replies once with not found and never repairs |
| `Files.TryGetChunks` | sn_client/src/file_apis.rs:281-342 | Batch by batch, succeeds exactly when the store holds every listed chunk and then returns them in order; otherwise reports how many came |
| `Files.FetchedAll` | sn_client/src/file_apis.rs:281-342 | As many chunks come as are listed exactly when all are held |
| `Files.FetchAndDecrypt` | sn_client/src/file_apis.rs:232-240 | When all listed chunks are held, the result is that of decrypting exactly these in order; otherwise it reports that too few came |
| `Files.UnpackChunk` | sn_client/src/file_apis.rs:243-255 | The loop follows additional levels, however many there are, down to the data map of the source data |
| `Files.UnpackedIn` | sn_client/src/file_apis.rs:243-255 | What unpacking yields does not depend on how many levels are allowed, once they are enough |
| `Files.ReadBytes` | sn_client/src/file_apis.rs:43-53 | A missing chunk is an error, a chunk that unpacks is read through its data map, any other is returned as it is |
| `Files.ReadAllUndoesEncrypt` | sn_client/src/file_apis.rs:232-240 | From a store holding the chunks, reading undoes encrypting |
| `Files.FirstLevelUnpacks` | sn_client/src/chunks/pac_man.rs:45-95 | A packed first level unpacks to its data map |
| `Files.NextLevelUnpacks` | sn_client/src/chunks/pac_man.rs:45-95 | Encrypting a too big chunk and packing its data map adds exactly one level to unpack |
| `Files.LevelsExactly` | sn_client/src/chunks/pac_man.rs:59-77 | A data map can be packed exactly when every too big chunk of its chain of levels can be encrypted |
| `Files.PackLevels` | sn_client/src/chunks/pac_man.rs:56-77 | The loop goes on until the chunk is not too big, collecting for each level exactly what it is encrypted to, and fails exactly when an encryption does |
| `Files.Pack` | sn_client/src/chunks/pac_man.rs:45-95 | Terminates when each further packed data map is shorter; succeeds exactly when every too big chunk of the chain can be encrypted; returns exactly the encrypted chunks and those of all levels; the head names the last chunk, which is not too big and which any store holding all chunks unpacks to the data map |
| `Files.ChunkBytes` | sn_client/src/file_apis.rs:128-136 | A small file is its own chunk, an empty one an error; a large one succeeds exactly when it and every too big chunk of its chain can be encrypted, and from every store holding its chunks reading it ends and gives the original bytes |
| `Files.LargeFileRoundTrip` | sn_client/src/file_apis.rs:43-53 | Reading the head of a packed file ends and yields the original bytes, through any number of levels |
| `Files.SmallFileRoundTrip` | sn_client/src/file_apis.rs:43-53 | A small file that does not decode as a packed data map is read back as it is |

## Left out

- Hash, signature, self-encryption and serialisation internals: terms and inverse laws stand for them.
- Merkle proof paths with entries other than 0 and 1, and roots that were not built by the client's tree builder.
- `leaf_index` on trees deeper than 63 levels, where the machine shift would lose bits.
- Builds with overflow checks: they stop where the model, like a release build, lets the products of the fee check and of the bill wrap around.
- The floating-point power in the price: an exact power of two, cut off at the largest 64-bit number as the cast does.
- `chunk_payment_validation`: fetching the spent transactions, and the payment-amount feature flag.
- Views with repeated peers: a view is a set, so a departed peer that is still listed, or an arrived one that is not, is not considered.
- Record headers, record kinds, deserialisation errors and a local record that cannot be read back.
- Disk and wallet files: writes are immediate; a failed local put is not modelled.
- Parent checks of spends and transaction building: their outcomes are parameters.
- Spends refused before the first stored one: what is checked of them depends on the answers of the network, which are parameters; the results on runs count from the first stored spend on.
- Wallet: an id names one dbc and change ids are new; overflow of the balance and the resending of unconfirmed transactions are not modelled; when more than a token can hold is held, whether a transfer succeeds depends on the order of the dbcs.
- Small files that happen to decode as a packed data map, and reading a range of a file.
- Files.UnpackChunk: is stated for chunks whose levels come to an end, because the loop of the program runs on for any other; that packed files end is proved.
- The names of the missing chunks in an error, and the check that a data map lists all chunks, which cannot fail.
- Parallel requests inside a batch: a batch is fetched as a whole.
- ClientRegister: the refusal to write atop several branches, synchronisation, and publishing the creation of a register.
- ReplicationFetcher: `on_going_fetches` is bounded but is not the number of holders being asked, because dropped keys do not lower it and the network fallback lowers it again; StallFetcher and OverrunFetcher show what that leads to, and ServeKey says when a key can still be asked for, not that a random order does ask for it.
- FeeValidation.BoundExact: at a fee of 1 is stated for trees whose leaves a 64-bit machine can number.
- Store cost, connections, routing, event channels, command line, logging, faucet, RPC and test-network tools.
