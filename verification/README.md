# miniBlockChain: a verified model of the validator node

A Dafny model of the ledger kept by a validator node of miniBlockChain and of the voting round by which
the nodes agree on what is written to it, with proofs about whole runs. `dafny verify dfyconfig.toml`
checks everything.

| file | component |
|---|---|
| `base.dfy` | bytes, machine widths, digests, sums over maps |
| `encodings.dfy` | integers and hexadecimal text as bytes, and how they are read back |
| `merkle_root.dfy` | the Merkle root builder |
| `account_store.dfy` | the account store, kept as a vector and as a map |
| `utxo.dfy` | the UTXO set with its recipient index and count |
| `utxo_accounting.dfy` | input, output and fee totals; what applying a transaction does to holdings |
| `transaction_hashes.dfy` | what the hash of a UTXO transaction covers |
| `blockchain.dfy` | blocks, the chain, the request queue and map |
| `block_hashes.dfy` | what the hash of a block covers |
| `signatures.dfy` | the table of used signatures |
| `ledger.dfy` | one node's verification and write steps for the four client requests |
| `ledger_runs.dfy` | serial runs: replay, conservation, nonces, writes that cannot fail |
| `ledger_votes.dfy` | when a node votes yes on an account request, and what it then writes |
| `ledger_signatures.dfy` | which signatures requests use up, and that none serves twice |
| `spend_names.dfy` | different spends never overwrite each other's outputs |
| `ledger_anomalies.dfy` | approved requests that create value or leave the chain behind |
| `consensus.dfy` | the voting round as a system of message steps |
| `repeated_rounds.dfy` | what that system does when a request hash is decided on again |
| `replicas.dfy` | many nodes running that round over their ledgers |
| `repeated_requests.dfy` | replicas that come apart, an account wiped and a transfer paid twice by a repeated request |
| `progress.dfy` | any workload can be served, by any number of nodes |
| `utxo_interleaving.dfy` | many UTXO handlers interleaving on one node |
| `heartbeat.dfy` | the list of active peers |
| `adoption.dfy` | choosing a ledger at start-up |
| `adoption_orders.dfy` | exactly when that choice is a most common ledger, whatever the orders involved |
| `validator_node.dfy` | the node object, each handler proved against the functions above |

The objects of the source that change in place are classes (`MerkleTree`, `UtxoSet`, `BlockChain`,
`ValidatorNode`). Their methods are proved equal to functions on values, and the results about runs are
lemmas about those functions. A run is a sequence of steps, each enabled where it happens; results hold for
every run.

Hypotheses, written as `requires` where they are needed:

- SHA-256 is an arbitrary function parameter with 32-byte results. Where collisions matter, only data
  that is or may be hashed is assumed collision-free. Signature verification is an arbitrary predicate.
- In the voting round membership is fixed, every node knows all peers, and every message is delivered once.
  Requests may be repeated, which starts a new round under the same hash with the old tally: a faucet request
  carries nothing but the account, so every later request of the same account has the hash of the first
  (src/modules/requests.rs:175-185). Agreement and replica equality are stated for hashes that no node has
  decided on twice; `RepeatedRounds` and `RepeatedRequests` say what happens otherwise.
- In a serial run the verdict of each vote is an input, so nodes may be outvoted. Runs start from any ledger:
  a new node has an empty UTXO set and no handler ever mints into it, so UTXO results need another start.
- Account requests are handled one at a time. UTXO handlers interleave.
- Clock readings and parsed requests are inputs. A checked operation that fails (an `unwrap`, a subtraction
  below zero, a sum above 64 bits) is an outcome of its own.

Where the code and its documentation differ the model follows the code:

- The first transfer of an account records nonce 0 (src/modules/validation.rs:461-482); README.md:199-207 of
  the repository shows 1.
- Nodes agree on a request only the first time it is made. When an account calls the faucet again, one node may
  write at once while another waits forever (`TwoFaucetCallsDiverge`); the wait of a node that asks again can end
  exactly while none of its new answers has been counted (`SecondRound`).
- The creation of an account, asked for again, is rejected by every node and, among three or more, written all the same:
  the balance is reset (`RepeatedCreationWipes`). `DualStoreAgrees` gives the exact condition for the account
  store, `TokensAccounted` the tokens lost.
- A transfer submitted again is rejected by every node for its used signature and, among three or more, paid
  again all the same (`RepeatedTransferPaysAgain`).
- Start-up looks for a most common ledger, not a majority, and may miss it. Each serialisation visits two hash
  maps in an order of its own (src/modules/adopt_network_state.rs:240-250), so equal answers may be counted apart,
  and the winner may not be found again, in which case the first answer is adopted
  (src/modules/adopt_network_state.rs:198-213). `PluralityAdoptedIff` and `ModeAdoptedIff` say exactly for which
  received ledgers a most common one is adopted whatever the orders: from two accounts on, only if nothing less
  common was received. A tie between hashes is broken by hash-table order.
- The hash of a block does not cover its kind (src/modules/blockchain.rs:209-239): see `KindNotCovered`. The hash of a
  UTXO transaction runs fields together without their lengths (src/modules/utxo.rs:133-151): see `ShapeMatters`.
- A stored request is never removed from the request map (src/modules/blockchain.rs:188-201): see
  `StoredRequestStays`.
- A transfer from an account to itself adds its amount to the supply, since both balances are read before
  either is written (src/modules/validation.rs:457-470): `TokensConserved` says exactly when tokens are
  conserved, `SelfTransferExceedsFaucets` gives a run where they are not.
- A UTXO transaction that lists one input twice, each time with another valid signature, is approved and may
  create value (src/modules/utxo.rs:154-163): `ApprovedSpendRaisesTotalIff` gives the exact condition,
  `RepeatedInputCreatesValue` an instance.
- A UTXO transaction without inputs changes the set before the chain refuses its block
  (src/modules/validation.rs:712-723): `HandledUtxoReplay` gives the exact condition under which the chain
  stops replaying to the set, `InputlessSpendBreaksReplay` an instance.

## Model

| member | source | states |
|---|---|---|
| Consensus.Agreement | src/modules/consensus.rs:102-182 | in every reachable state of the message-step system, repeated requests included, any two nodes that finished a round for a hash no node decided on twice hold the same verdict |
| Consensus.VerdictIsNetworkMajority | src/modules/consensus.rs:144-182 | such a verdict is the strict majority of the votes of all nodes, and none is reached before every node has voted |
| Consensus.StepKeepsExact | src/modules/consensus.rs:51-137 | every decide, reply, count, pass and finish step keeps each tally of a hash used once equal to the votes of exactly the peers heard |
| Consensus.MajorityOfAll | src/modules/consensus.rs:158-178 | own vote plus tally is the network-wide count once every peer has been heard |
| Consensus.AllReceivedIffAllHeard | src/modules/validation.rs:138-152 | the wait condition holds exactly when every peer's answer has been counted |
| RepeatedRounds.AnswersAccounted | src/modules/consensus.rs:51-137 | in every reachable state, however often hashes are repeated, answers counted plus messages under way are one per peer for each round that asked |
| RepeatedRounds.PassesIff | src/modules/validation.rs:155-173 | the wait of a round can end exactly when the messages under way are those of all asking rounds but one: none, for a hash used once |
| RepeatedRounds.PassedFinishes | src/modules/consensus.rs:154-156 | after its wait a node always finds its own decision |
| RepeatedRounds.SecondRound | src/modules/consensus.rs:118-182 | the wait of the second round of a finished request can end exactly as long as none of its answers has been counted; the verdict is then the majority of the new vote, the first round's tally and what is counted before the tally is read |
| RepeatedRounds.RepeatedRequestIgnoresRejection | src/modules/consensus.rs:118-129 | a node that now rejects what all approved before can finish at once, and accepts exactly among three or more nodes |
| RepeatedRounds.RepeatedRequestMayHang | src/modules/validation.rs:143-151 | from every finished round a state is reachable in which this node's next round waits in every continuation |
| RepeatedRounds.OverfullTallyNeverPasses | src/modules/validation.rs:143-151 | a round that waits on a tally with more answers than peers waits in every continuation |
| Replicas.ReplicasEqual | src/modules/validation.rs:218-492 | as long as no request is taken up twice, nodes done with the same requests hold equal accounts, UTXO sets, used signatures and chains up to time and hash, namely those of a single node's serial run |
| Replicas.VotesUnanimous | src/modules/consensus.rs:144-182 | all recorded votes on a request are then equal and every verdict is the node's own vote |
| Replicas.ReplicaStoresAgree | src/modules/merkle_tree.rs:69-111 | every replica then keeps the two copies of its account store in agreement |
| Replicas.NoWriteFails | src/modules/validation.rs:442-492 | from any start, on every replica an approved write fails only for a non-hexadecimal key hash or a spend without inputs, while the tokens there ever were fit in 64 bits |
| Replicas.WriteSame | src/modules/validation.rs:285-322 | writing one request to ledgers equal up to time and hash ends alike whatever the clocks say |
| Replicas.StepKeepsInv | src/modules/validation.rs:218-246 | every step of the cluster keeps each node's ledger equal to the solo ledger of its position in the request sequence |
| Replicas.SoloIsRun | src/modules/validation.rs:218-246 | the solo ledger is the ledger of a serial run, so results about serial runs hold of replicas |
| Replicas.SameChains | src/modules/blockchain.rs:34-70 | chains equal up to time and hash hold blocks of the same kind and content in every place |
| Progress.RoundCanComplete | src/modules/validation.rs:218-246 | from every reachable state between two requests, none taken up twice, there is a continuation in which every node is done with the next one, of whatever kind |
| Progress.AnyWorkloadServed | src/modules/validation.rs:218-246 | any number of nodes can serve any sequence of requests with different hashes: some run ends with every node holding the ledger of the serial run |
| RepeatedRequests.SecondFaucetSplitsReplicas | src/modules/validation.rs:735-842 | after any run with an approved faucet call, a second call can be written by one node while another waits in it forever |
| RepeatedRequests.TwoFaucetCallsDiverge | src/modules/validation.rs:735-842 | two nodes with equal ledgers, one account calling the faucet twice: a run after which one paid 200 tokens, the other 100, and that one waits forever |
| RepeatedRequests.RejectionOutvoted | src/modules/validation.rs:235-245 | a request everybody approved, repeated and now rejected by the node, is written all the same exactly among three or more nodes |
| RepeatedRequests.RepeatedTransferPaysAgain | src/modules/validation.rs:350-361 | so a transfer submitted again is rejected for its used signature and, exactly then, debits the sender and credits the recipient once more |
| RepeatedRequests.RepeatedCreationWipes | src/modules/validation.rs:218-301 | among three or more nodes, and exactly then, a repeated creation is written against the node's own vote, resets the balance to 0 and leaves two records |
| UtxoInterleaving.SupplyNeverGrows | src/modules/validation.rs:604-628 | for any number of handlers and any interleaving of verify, height, apply and push, total value exceeds its start by no more than applied transactions counted again by listing an input twice; with distinct inputs it never grows |
| UtxoInterleaving.MeasuredApplies | src/modules/validation.rs:712-719 | a measured handler applies exactly if all inputs are present then; its inputs go, its outputs are there with amount, recipient, height and time, all else is untouched; otherwise nothing changes |
| UtxoInterleaving.AloneIsHandled | src/modules/validation.rs:684-726 | an approved handler left alone goes through its four critical sections and leaves the ledger of the request handled in one piece |
| UtxoInterleaving.AccountsAreRun | src/modules/validation.rs:218-492 | account requests in between leave the ledger of their serial run |
| UtxoInterleaving.HashesTellContents | src/modules/utxo.rs:133-151 | transactions of pending requests have one hash exactly if they agree in outpoints, keys, outputs and time |
| UtxoInterleaving.DifferentRequestsSpendOnce | src/modules/utxo.rs:333-354 | so pairwise different requests never spend one outpoint twice, in any interleaving |
| UtxoInterleaving.RequestsNeverGrowSupply | src/modules/validation.rs:604-628 | and with distinct inputs never raise the total, whatever the interleaving |
| UtxoInterleaving.StepKeepsSupply | src/modules/validation.rs:712-719 | no single step raises the total by more than that, because a name fixes its amount and what verification saw still holds at apply |
| UtxoInterleaving.ApplyBoundsTotal | src/modules/utxo.rs:333-354 | an application whose inputs are by name worth its outputs raises the total by no more than its repeated inputs, whatever happened since verification |
| UtxoInterleaving.SpendsBoundedByCreations | src/modules/utxo.rs:333-354 | in every prefix of every interleaved run an outpoint is spent at most as often as it was created or initially present |
| UtxoInterleaving.SpentAtMostOnce | src/modules/utxo.rs:333-354 | with distinct transaction hashes no two applied transactions share an input |
| UtxoInterleaving.PresentAfterApply | src/modules/utxo.rs:341-351 | which outpoints an application leaves present |
| LedgerRuns.DualStoreAgrees | src/modules/merkle_tree.rs:69-111 | in every serial run, whatever the votes, vector and map hold the same distinct keys with the same balances if and only if no written creation had an existing key |
| LedgerRuns.ChainReplaysBalances | src/modules/blockchain.rs:164-202 | from any start and whatever the votes, folding the recorded post-balances gives exactly the balance map |
| LedgerRuns.ChainReplaysUtxos | src/modules/validation.rs:684-726 | from any start, the recorded UTXO transactions fold to exactly the UTXO set with each block height its own position, throughout the run, if and only if no approved spend had outputs but no inputs |
| LedgerRuns.HandledUtxoReplay | src/modules/validation.rs:706-723 | one request breaks UTXO replay exactly when it is a spend without inputs, with outputs worth nothing, that the vote carries |
| LedgerRuns.TokensConserved | src/modules/validation.rs:457-470 | from any start and whatever the votes, throughout a run balances sum to their start plus 100 per faucet block if and only if no event is a carried transfer of something to oneself or a carried creation of an account that holds tokens |
| LedgerRuns.HandledConserves | src/modules/validation.rs:457-470 | one request changes the sum by 100 per faucet block exactly when it is neither of these, read off the state before |
| LedgerRuns.DistinctTransfersConserve | src/modules/validation.rs:442-492 | so tokens are conserved in every run whose transfers are between distinct accounts and that creates no account again |
| LedgerRuns.TokensAccounted | src/modules/blockchain.rs:164-202 | balances plus what repeated creations wiped are the start plus 100 per faucet block plus what accounts sent to themselves, all read off the chain |
| LedgerRuns.NonceSequence | src/modules/validation.rs:461-482 | in every serial run, whatever the votes, a sender's recorded nonces are successive from its nonce at the start (0, 1, 2, ... for a new account), and its current nonce comes next |
| LedgerRuns.ApprovedSpendRecorded | src/modules/validation.rs:684-726 | an approved spend with inputs is always recorded, and the chain still replays to the set |
| LedgerRuns.ApprovedWriteSucceeds | src/modules/validation.rs:807-842 | in every serial run an approved write fails only in two named cases while the tokens there ever were fit in 64 bits |
| LedgerRuns.TransferApprovedIffWritable | src/modules/validation.rs:392-426 | a transfer is approved exactly when its signature is valid for sender, recipient, amount text and the sender's current nonce, unused by the sender, and it can be written without underflow or overflow |
| LedgerVotes.TransferVoteIff | src/modules/validation.rs:391-434 | on any ledger with matching keys the vote is yes exactly if both accounts exist, that signature check passes and the balance suffices; it is put to the vote either way |
| LedgerVotes.TransferApprovedAndWritten | src/modules/validation.rs:407-482 | in every serial run an approved and carried transfer moves its amount and records sender, recipient, both new balances and the very nonce its signature was checked against |
| LedgerVotes.CreationVoteIff | src/modules/validation.rs:254-278 | the vote is yes exactly if no record has the key, exactly when writing the creation keeps keys distinct and the two copies in agreement |
| LedgerVotes.CreationDecided | src/modules/validation.rs:285-322 | in every serial run without recreation, a creation decided by the node's own vote adds a record with balance 0, nonce 0 and its key hash for every key not held, and otherwise changes nothing |
| LedgerVotes.FaucetDecided | src/modules/validation.rs:735-842 | a faucet call is approved and put to the vote exactly if the account exists; carried, it pays 100 tokens while they fit, and otherwise nothing changes |
| LedgerSignatures.SignatureServesOnce | src/modules/zk_proof.rs:127-155 | from any start and whatever the votes, no signature of one signer serves two approvals in a run, of transfers and spends alike |
| LedgerSignatures.SignatureServesOneInput | src/modules/validation.rs:631-669 | nor two inputs of one approved spend |
| LedgerSignatures.SpendMarks | src/modules/validation.rs:631-669 | a spend with a fee uses up the signatures of its inputs up to the first not in order, in order, even if it is then refused, and no others |
| LedgerSignatures.TransferMarks | src/modules/validation.rs:400-424 | a transfer uses up its signature exactly if that passes, even if the balance is then too small |
| LedgerRuns.CreationNeedsNewKey | src/modules/validation.rs:285-301 | writing an account creation keeps keys distinct exactly when the key is new, and otherwise wipes its balance |
| LedgerRuns.HandledAccounts | src/modules/validation.rs:218-492 | one handled request keeps balance replay and the token equation together, even where the node was outvoted |
| LedgerRuns.HandledNonces | src/modules/validation.rs:465-482 | one handled request keeps the nonce of every account in step with its recorded transfers, even where the node was outvoted |
| SpendNames.SpendsNeverOverwrite | src/modules/utxo.rs:333-354 | in every serial run of pairwise different spends, an approved one overwrites nothing: every balance loses the inputs spent and gains the outputs created, and each output is there under its own name |
| SpendNames.LaterSpendsKeepOutputs | src/modules/utxo.rs:346-351 | later spends leave entries as they are, except those they list as inputs |
| TransactionHashes.TransactionHashIff | src/modules/utxo.rs:133-151 | two transactions have one hash if and only if outpoints, keys, outputs and timestamps are equal; signatures do not matter |
| TransactionHashes.TransactionRead | src/modules/utxo.rs:133-151 | the hashed bytes read back as txids, indexes and keys, amounts and recipients, and the time, integers with the least significant byte first |
| TransactionHashes.ShapeMatters | src/modules/utxo.rs:137-147 | an instance where bytes move between fields and two transactions share a hash |
| LedgerAnomalies.ApprovedSpendRaisesTotalIff | src/modules/utxo.rs:154-176 | an approved spend raises the total if and only if it counts more value again than its fee and the entries it overwrites |
| LedgerAnomalies.RepeatedInputCreatesValue | src/modules/utxo.rs:154-163 | a spend listing one input twice under two valid signatures is approved and doubles the total |
| LedgerAnomalies.SelfTransferExceedsFaucets | src/modules/validation.rs:457-470 | a run of three approved requests after which 200 tokens are held and one faucet block is recorded |
| LedgerAnomalies.InputlessSpendBreaksReplay | src/modules/validation.rs:712-723 | from any ledger, an approved spend after which the chain does not replay to the set |
| Ledgers.SpendApprovedIff | src/modules/validation.rs:607-679 | a spend is approved exactly when it has a fee and its inputs are in order; otherwise no vote is recorded |
| Encodings.LittleEndianInjective | src/modules/utxo.rs:139-149 | integers that fit a width are written alike only if equal |
| Encodings.HexRoundTrip | src/modules/validation.rs:655 | the text under which an owner's signatures are kept decodes to the owner's key |
| Ledgers.InputsCheckedIff | src/modules/validation.rs:631-669 | the input loop passes exactly when every input has its owner's valid signature, unused before and not repeated within the transaction |
| MerkleRoot.BuildRoot | src/modules/merkle_tree.rs:118-140 | the pairing loop ends and yields the top-down tree for every number of accounts |
| MerkleRoot.PairLevel | src/modules/merkle_tree.rs:127-135 | one round of chunks pairs neighbours and duplicates a lone last node |
| MerkleRoot.HeightIsCeilLog2 | src/modules/merkle_tree.rs:126-136 | the number of rounds is the ceiling of the binary logarithm |
| MerkleRoot.RootWellHashed | src/modules/merkle_tree.rs:159-169 | every root-to-leaf path has that length and every branch hash is the hash of its children's hashes |
| MerkleRoot.IndexBitsReachAccount | src/modules/merkle_tree.rs:118-140 | the bits of an account's index lead from the root to its leaf |
| MerkleRoot.HalvedIsShift | src/modules/merkle_tree.rs:126-136 | the path bits are the binary digits of the index |
| MerkleRoot.TreeBinding | src/modules/merkle_tree.rs:159-174 | trees of one depth have equal root hashes exactly when they are equal |
| MerkleRoot.RootBindsTree | src/modules/merkle_tree.rs:118-169 | among vectors of one height root hashes are equal exactly when the whole trees are |
| MerkleRoot.RootBindsLeaves | src/modules/merkle_tree.rs:118-169 | equally long vectors have equal root hashes exactly when all account hashes are equal |
| MerkleRoot.RootBindsAccounts | src/modules/merkle_tree.rs:143-156 | with public keys of equal length, equally long vectors have equal root hashes exactly when they are equal |
| MerkleRoot.AccountLayout | src/modules/merkle_tree.rs:143-156 | the bytes hashed read back as public key, balance, nonce and key hash, integers with the most significant byte first |
| MerkleRoot.AccountEncodingInjective | src/modules/merkle_tree.rs:148-152 | the account encoding is injective for public keys of equal length |
| MerkleRoot.OddLengthIsAmbiguous | src/modules/merkle_tree.rs:130-131 | an odd vector of three or more accounts has the tree of itself with the last account repeated |
| UtxoSets.UtxoSet.AddUtxo | src/modules/utxo.rs:255-274 | updates the map at one outpoint and keeps index and count exact, also on replacement |
| UtxoSets.UtxoSet.RemoveUtxo | src/modules/utxo.rs:277-293 | removes one outpoint, returns what was there, keeps index and count exact |
| UtxoSets.UtxoSet.ApplyTransaction | src/modules/utxo.rs:333-354 | succeeds exactly when every input is present, then spends and creates in order; a rejection changes nothing |
| UtxoSets.UtxoSet.ApplyCoinbase | src/modules/utxo.rs:357-363 | creates the outputs in order and keeps index and count exact |
| UtxoSets.UtxoSet.RebuildIndex | src/modules/utxo.rs:376-386 | from any index and count restores the full invariant without touching the primary map |
| UtxoSets.UtxoSet.GetBalance | src/modules/utxo.rs:320-330 | the indexed balance is that of a full scan of the primary map |
| UtxoSets.UtxoSet.GetUtxosForRecipient | src/modules/utxo.rs:306-317 | the indexed entries are exactly the recipient's, each once |
| UtxoSets.ExactIndexesAgree | src/modules/utxo.rs:234-243 | any two exact indexes of one map, such as the kept and the rebuilt one, give the same balance and multiset for every recipient |
| UtxoSets.AddExact | src/modules/utxo.rs:255-274 | index upkeep of an addition or replacement yields an exact index of the new map |
| UtxoSets.RemoveExact | src/modules/utxo.rs:277-293 | index upkeep of a removal yields an exact index of the smaller map |
| UtxoSets.IndexedBalanceIsScan | src/modules/utxo.rs:320-330 | summing through an exact index equals summing the recipient's part of the map |
| UtxoAccounting.TotalInputAmount | src/modules/utxo.rs:154-164 | the checked loop yields the input sum exactly when all inputs exist and it fits in 64 bits |
| UtxoAccounting.HoldingsAfterApply | src/modules/utxo.rs:333-354 | the exact effect of an application on any recipient's balance and on the total, with no side condition |
| UtxoAccounting.AppliedEntries | src/modules/utxo.rs:333-354 | an application goes through exactly if every input is present, and then what is in the set, entry by entry |
| UtxoAccounting.BalanceEquation | src/modules/utxo.rs:333-354 | distinct inputs and fresh outputs: new balance is old minus spent inputs plus new outputs |
| UtxoAccounting.TotalDropsByFee | src/modules/utxo.rs:171-176 | the total drops by exactly the fee if and only if repeated inputs and overwritten entries have equal value |
| UtxoAccounting.TotalRisesIff | src/modules/utxo.rs:333-354 | the total rises if and only if repeated inputs count for more than the fee and the overwritten entries |
| UtxoAccounting.BalancesPartitionTotal | src/modules/utxo.rs:320-330 | the balances of all recipients add up to the total |
| AccountStore.InsertKeepsAgreement | src/modules/merkle_tree.rs:69-72 | an insertion keeps vector and map in agreement exactly when the key is new |
| AccountStore.ChangeBalanceKeepsAgreement | src/modules/merkle_tree.rs:95-104 | a balance change reaches both copies |
| AccountStore.ChangeBalanceRecords | src/modules/merkle_tree.rs:95-104 | a balance change rewrites the balance of the first record of the key and no other field or record |
| AccountStore.IncrementNonceRecords | src/modules/merkle_tree.rs:107-111 | a nonce increment counts up in that record and changes no other field or record |
| AccountStore.ChangeBalanceReads | src/modules/merkle_tree.rs:95-104 | a balance change is seen for its key only and leaves nonces alone |
| AccountStore.IncrementNonceReads | src/modules/merkle_tree.rs:107-111 | a nonce increment is seen for its key only and leaves balances alone |
| AccountStore.TransferredNonce | src/modules/validation.rs:468-470 | the three updates of a transfer raise the sender's nonce by one and no other |
| AccountStore.MerkleTree.GenerateMerkleRoot | src/modules/merkle_tree.rs:118-140 | stores the top-down tree of the current accounts as root |
| Blockchains.StoredRequestStays | src/modules/blockchain.rs:188-201 | a request stored and pushed stays in the request map while the queue drains |
| Blockchains.PushDrains | src/modules/blockchain.rs:188-201 | a push takes the oldest requester off the queue and at most one equal request off its list, nothing else |
| BlockHashes.BlockRead | src/modules/blockchain.rs:205-254 | the hashed bytes read back as exactly the block's fields, integers with the least significant byte first |
| BlockHashes.BlockHashIff | src/modules/blockchain.rs:205-254 | two blocks of one kind and shape have one hash if and only if they record the same |
| BlockHashes.KindNotCovered | src/modules/blockchain.rs:222-231 | an account creation and a faucet block may have one hash |
| Blockchains.BlockChain.StoreIncomingRequest | src/modules/blockchain.rs:128-161 | queues the requester and files the block, or fails on a block nobody requested |
| Blockchains.BlockChain.PushBlockToChain | src/modules/blockchain.rs:164-202 | appends the hashed block, pops the queue and removes at most one equal request, or fails and changes nothing |
| Signatures.SignatureSingleUse | src/modules/zk_proof.rs:127-155 | no pair of sender and signature is accepted twice in any run of calls |
| Signatures.AcceptedIffValidAndNew | src/modules/zk_proof.rs:122-155 | a call is accepted exactly when its signature is valid and no earlier call of that sender used it |
| Signatures.TableIsHistory | src/modules/zk_proof.rs:148-153 | each sender's list is its accepted signatures in acceptance order, without repetition |
| Heartbeats.HeartbeatListExact | src/modules/validation.rs:868-881 | for non-decreasing times the list is exactly the peers whose latest heartbeat is under ten seconds old, once each, with that time |
| Heartbeats.HeardKeepsExact | src/modules/validation.rs:868-881 | one heartbeat keeps that, although purged peers are forgotten |
| Heartbeats.Refresh | src/modules/validation.rs:868-878 | the update loop stamps the sender's entry or pushes a new one |
| Adoption.AdoptMajority | src/modules/adopt_network_state.rs:176-213 | whatever the order of the hash table and of each serialisation, adopts the first answer found under a maximal hash or else the first of all, and nothing exactly when nothing was received |
| Adoption.AdoptedWasReceived | src/modules/adopt_network_state.rs:198-213 | whatever the orders, what is adopted was received |
| AdoptionOrders.PluralityAdoptedIff | src/modules/adopt_network_state.rs:176-213 | a most common ledger is adopted for every order of arrival, of visiting hash maps and of the hash table, if and only if all received are equally common, or no most common one has two accounts and one outnumbers all others times the factorial of its signers |
| AdoptionOrders.ModeAdoptedIff | src/modules/adopt_network_state.rs:198-213 | a strictly most common ledger is always adopted if and only if nothing else was received, or it has at most one account and outnumbers each other ledger times the factorial of its signers |
| AdoptionOrders.OneSignerModeAdoptedIff | src/modules/adopt_network_state.rs:198-213 | with at most one signer and something else received, exactly when it has at most one account |
| AdoptionOrders.FirstAdoptedOverMode | src/modules/adopt_network_state.rs:210-213 | for any received ledgers, a most common one with two accounts or more may lose to the first answer, and if it is strictly most common nothing else can be adopted then |
| AdoptionOrders.MaximalCountsEnough | src/modules/adopt_network_state.rs:179-195 | the maximal count is at least a ledger's multiplicity divided by the factorial of its signers |
| Adoption.TextDeterminesLedger | src/modules/adopt_network_state.rs:240-250 | whatever the orders, a serialisation belongs to one ledger only |
| Adoption.CanonicalAdoptsPlurality | src/modules/adopt_network_state.rs:198-213 | for answers in which equal ledgers are serialised alike, a ledger may be adopted if and only if it is most common |
| Adoption.SmallMapsAdoptPlurality | src/modules/adopt_network_state.rs:198-213 | that holds when no map received has more than one entry |
| Adoption.CountsAreMultiplicities | src/modules/adopt_network_state.rs:179-189 | the count of a ledger's hash is its multiplicity if its own answers are counted alike |
| Adoption.CountsNeverExceed | src/modules/adopt_network_state.rs:179-189 | in any case a count is at most the multiplicity |
| Adoption.UniqueModeAdopted | src/modules/adopt_network_state.rs:198-213 | a strictly most common ledger whose own answers are serialised alike is what is adopted, whatever happens to the others |
| ValidatorNodes.ValidatorNode.Begin | src/modules/validation.rs:218-228 | a handler up to its wait: marks signatures, records the vote if any, and counts the peers if it goes on |
| ValidatorNodes.ValidatorNode.Conclude | src/modules/validation.rs:235-245 | a handler after its wait: a majority of yes writes the request, anything else leaves the ledger alone |
| ValidatorNodes.ValidatorNode.VerifyTransactionIndependently | src/modules/validation.rs:373-435 | the checks in order, with the signature marked even when the balance then fails |
| ValidatorNodes.ValidatorNode.VerifyFaucetRequestIndependently | src/modules/validation.rs:774-801 | votes on the account's existence and records it |
| ValidatorNodes.ValidatorNode.VerifyAccountCreationIndependently | src/modules/validation.rs:254-278 | votes on the account's absence and records it |
| ValidatorNodes.ValidatorNode.VerifyUtxoTransactionIndependently | src/modules/validation.rs:554-679 | a passed verification records yes; a failed one records no decision but keeps the signatures it accepted |
| ValidatorNodes.ValidatorNode.AddAccountCreationToLedger | src/modules/validation.rs:285-322 | inserts an empty account and records it |
| ValidatorNodes.ValidatorNode.AddTransactionToLedger | src/modules/validation.rs:442-492 | moves the tokens, counts the nonce and records both new balances, or fails with the ledger unchanged |
| ValidatorNodes.ValidatorNode.AddFaucetRequestToLedger | src/modules/validation.rs:807-842 | raises one balance by 100 and records it, or fails with the ledger unchanged |
| ValidatorNodes.ValidatorNode.AddUtxoTransactionToLedger | src/modules/validation.rs:684-726 | applies at the current height and records, is refused without change, or fails after changing the set |
| ValidatorNodes.ValidatorNode.VerifyTransactionSignature | src/modules/zk_proof.rs:122-155 | accepts and marks a valid unused signature, otherwise changes nothing |
| ValidatorNodes.ValidatorNode.HandleConsensusResponse | src/modules/consensus.rs:102-137 | adds one vote to one tally |
| ValidatorNodes.ValidatorNode.CheckAllBlockDecisionsReceived | src/modules/validation.rs:138-152 | in any network of so many peers whose exact tally this is, answers yes exactly when every peer has been heard |
| ValidatorNodes.ValidatorNode.DetermineMajority | src/modules/consensus.rs:144-182 | own vote and tally decide, a tie rejects |
| ValidatorNodes.ValidatorNode.HandleHeartbeat | src/modules/validation.rs:851-888 | one heartbeat updates and purges the peer list |
| ValidatorNodes.ValidatorNode.AdoptNetworkState | src/modules/adopt_network_state.rs:162-231 | takes over chain, accounts and signatures of an answer that may be adopted and keeps the UTXO set |

## Left out

- Networking, task spawning, file output, the command line and port loading: messages are kept as values only.
- SHA-256, secp256k1, hexadecimal decoding and JSON: function parameters, or requests taken as already parsed.
- Injectivity of the byte encodings without equal field lengths: they concatenate fields of variable length, so
  results that need hashes to differ assume equal lengths, or bytes that do not run together.
- Deadlock and liveness: `Progress` shows what can happen, not what must. A peer asked for a decision it has not made
  panics in the source; here its reply is enabled only once the decision exists.
- Changing membership: the peer count shared by concurrent handlers and a peer list that changes during a round.
- UtxoInterleaving.SupplyNeverGrows: assumes that a name stands for one amount, among pending transactions and
  entries present at the start, and at most 2^32 outputs per transaction.
- UtxoInterleaving.SpentAtMostOnce: assumes distinct transaction hashes that name nothing present at the start;
  `DifferentRequestsSpendOnce` gets the first from the requests.
- LedgerRuns.ChainReplaysUtxos: serial runs; interleaved handlers may push blocks in another order than they
  applied them, with heights read earlier. Entries of the start carry heights below its chain's length.
- LedgerRuns.DualStoreAgrees: starts whose two copies agree.
- Consensus.Agreement: a hash that some node decided on twice is out, because its verdicts then rest on old
  tallies; of such hashes `RepeatedRounds` tells what each single node can conclude.
- Replicas.ReplicasEqual: requests are taken up one at a time by all nodes, and none twice, because replicas
  then differ; adoption at start-up is not part of the cluster.
- AdoptionOrders.PluralityAdoptedIff: about all orders at once; which visiting orders a given hash map can take is
  not modelled.
- Overflow of the unguarded sums in `total_output_amount` and `get_balance`: an output sum above 64 bits counts as
  a failed verification, a balance is an unbounded number; the nonce is unbounded too, and shown to be at most the
  chain's length.
- UtxoSets.UtxoSet.RebuildIndex: visits the entries in an arbitrary order, so the order within an index list is
  not modelled, only its contents.
- UtxoAccounting.TotalInputAmount: takes the primary map rather than the set object.
- The stored `root` field as a live summary: nothing in the source keeps it current, so results are about the tree
  a call builds.
- Display, JSON conversion and the hash of a whole chain: no behaviour of their own.
