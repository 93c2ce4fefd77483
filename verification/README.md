# hyper-pvzk: ledger, proof voting and the byte store under them

hyper-pvzk is a virtual machine for a blockchain on which users register proofs and validators vote on whether
an off-chain check accepted them. This project models the parts of it that hold state and proves what they keep.

* **Byte store** (`Encoding`, `Keys`, `Records`, `Storage`). `Store` holds one map from byte strings to byte strings,
  as the chain's state does. Every operation of `storage.go` and `state_manager.go` is a method on it, and each is
  proved to be one update of a typed state of six separate maps: balances, deadlines, tallies, statuses, votes, hashes.
* **Ledger** (`Ledger`, `Genesis`, `Supply`, `Refunds`, `Fees`). Checked 64-bit arithmetic, records deleted at zero,
  refunds that skip missing accounts; over all runs nothing is created, and the overflow branches are dead.
* **Voting** (`Windows`, `Voting`, `VoteOrder`, `Genuine`, `History`, `OneKey`, `Deadlines`). The loop of
  `ValidatorVote.Execute` runs over a Go map in any order. Success and the committed state do not depend on the order;
  over all runs the records are a function of the committed votes, and they freeze when the window closes.
* **Transactions** (`Actions`, `Execution`, `Runs`, `Transactions`, `Declarations`, `Receipts`, `Reordering`).
  Deduct, act, refund. Transactions with disjoint declared keys commute, and any reordering that keeps conflicting ones
  in order changes nothing. `Receipts` says exactly when the order of a vote's loop shows in a receipt.
* **Batches** (`Batches`). Splitting a stream of signatures into batches agrees with checking them one by one.
* **Index and queue** (`Metadata`, `Controller`, `Trustless`). What accepted blocks leave behind.
* **Codec** (`Codec`, `Packing`, `Registry`, `Wire`, `FileNames`). Decoding undoes encoding, and only encodings decode.
* **Images** (`Images`). The hash of an image and a type is the one registered last.

The code that updates state in place is modelled by classes and methods (`Store`, `Packer`, `Controller`, `Trustless`,
`ED25519Batch`, `TypeParser`, the key builders that fill buffers); their contracts tie the new state to a
specification function, and the lemmas are about those functions. What a specification function is worth is said by
lemmas that do not mention it: the byte layouts (`KeyLayout`, `StateKeys` by kind of action, `RecordLayout`,
`EncodeLayout`, `DeployKeyLayout`), the exact effects (`CreditExactly`, `DebitExactly`, `EffectExactly`, `DeadlineExactly`,
`RegistersHash`, `CommitsExactly`), the limits (`EncodableExactly`) and the units (`UnitsExactly`).

## What the proofs show about the code

* **The status threshold is the voter's own weight.** The loop adds up only the entries that match the voter's key, and at
  most one can match, so `UpdateWeight` compares the new tally with the weight just added. A transaction is verified
  exactly by a second yes vote that does not wrap (`History.Raises`, `History.TallyStep`, `History.VerifiedIffTwo`), and two
  votes of weight 1 set the status although a validator of weight 2^63 is silent (`History.MinorityVerifies`).
* **A vote whose key matches no entry of the validator map succeeds and changes nothing**, and no other vote succeeds
  without a change (`Voting.IdleCommits`). Whether an entry matches is the predicate `sameKey`, left open: the source
  compares two pointers (actions/validator_vote.go:120).
  If none matches in a whole run, no tally, status or vote is ever written (`History.NothingMatches`).
* **A failing vote may have written**: exactly when two entries match and the first one is recorded, because the second
  one always fails (`VoteOrder.FailureWrites`). All orders leave the same store exactly when the vote is a no, no second
  match is reached, or the matching entries have one weight (`VoteOrder.StoresAgree`). Determinism of the store rests
  on the chain undoing a failed action, which `Execution.Process` assumes.
* **The units of a failure are not undone.** All orders report the same units exactly under the condition in
  `VoteOrder.UnitsAgree`; otherwise one order reports 3500 and another 5000, and the fee follows the units. Nodes then
  commit different balances for the sponsor, unless both cost the same or nothing is left to refund to
  (`Receipts.ResultsAgree`, `Receipts.StatesAgree`: exact conditions on the state before the transaction).
  `Receipts.NodesDisagree` is a decodable vote for which they do, `Receipts.SequencesAgree` the condition for a sequence.
* **A vote writes a key it does not declare.** `StateKeys` declares the status record of the voting transaction;
  `UpdateWeight` writes that of the transaction voted on. All records a transaction may touch are declared exactly when
  it is not a vote on another transaction (`Declarations.DeclaresAll`). An undeclared key is inserted exactly when such a
  vote is a yes whose first match is recorded and lifts an existing tally above its own weight: later ones insert it again,
  and so does one that fails on a second match and is undone (`Declarations.WritesUndeclared`, `CommittedUndeclared`, with
  an input in `UndeclaredHappens`). The record's value changes exactly when the status was not set before
  (`Declarations.ChangesUndeclared`). Disjointness still implies independence, because both writers of a status declare
  its tally (`Transactions.TouchedDeclared`).
* **Windows last 20 to 300 seconds.** README.md:23 of the repository speaks of a minimum of 10; the code clamps to 20..300 and
  multiplies by 1000 milliseconds (storage/storage.go:412-418). The model follows the code. The sum wraps at 64 bits,
  and `Windows.DeadlineBounds` says exactly when; a window that wraps is closed from the start.
* **Votes are counted once per (transaction, actor)**, not once per public key (storage/storage.go:392-402). One signed
  vote counts again exactly from another account that has not voted, in time (`OneKey.CountsAgain`), so the two actors
  behind a status (`History.VerifiedByTwo`) may be two accounts of one validator. `OneKey.OneKeyVerifies` says exactly
  when one key alone sets the status; without an earlier tally, any positive weight below 2^63 does.
* **`submitResult` goes on after an ID that does not parse** and votes on the empty ID. Such a vote is never decoded
  (`Registry.VoteSurvives`).
* **`Accepted` can stop halfway.** If a `Put` or the final `Write` fails, no transaction of the block is in the index, but
  queue entries and the transfer count up to that point stay.
* **More `Add`s than announced can change a verifier that was already returned**: exactly when the last full batch was
  filled at or after the announced number, because that batch is returned but not replaced (`Batches.ED25519Batch.Add`).
  The verifiers still decide the validity of everything that was added (`Batches.ED25519Batch.Decides`).

## Assumptions

* The chain runs a transaction as `Transactions.ProcessTx` does: it checks and deducts the maximum fee, runs the
  action, undoes the action's writes if it fails, and refunds the rest. Reads and writes reach one plain map store.
* The outcome of an action enters the fee through the units it reports, by an arbitrary function; the maximum fee covers
  all units up to the action's maximum (`Execution.MaxUnits`).
* The only storage error is "not found". Calls into the trustless module are atomic.
* BLS and ed25519 verification, parsing of keys and signatures, warp messages, address parsing and the branch-factor
  check are arbitrary functions or parameters. A batch verifier succeeds if and only if each of its signatures is valid.
* The packer writes integers and IDs in fixed width and big-endian, booleans as one byte 0 or 1, texts after a two-byte and byte
  strings after a four-byte length; a required field that is zero or empty is an error; addresses have no such check.
* IDs have 32 bytes, addresses 33, fee dimensions 40 (five numbers), BLS signatures at most 96 and public keys at most 48.
* A block has one result for each transaction.

## Model

| member | source | states |
|---|---|---|
| Keys.KeyBytesInjective | storage/storage.go:41-58 | no two records, of the same or of different kinds, share a byte key: keys are equal exactly when kind and arguments are |
| Keys.KeyLayout | storage/storage.go:41-64 | every key byte by byte: prefix, arguments, chunk count |
| Keys.BalanceKey | storage/storage.go:133-139 | the filled buffer is the byte key of that account's balance |
| Keys.IncomingWarpKeyPrefix | storage/storage.go:274-280 | the filled buffer is the byte key of that incoming message |
| Keys.OutgoingWarpKeyPrefix | storage/storage.go:282-287 | the filled buffer is the byte key of that outgoing message |
| Keys.ChunkKey | storage/storage.go:289-295 | the filled buffer is the byte key of that registration |
| Keys.HashKey | storage/storage.go:313-320 | the filled buffer is the byte key of that image hash, with its chunk count after the type |
| Keys.TimeOutKey | storage/storage.go:361-369 | the filled buffer is the byte key of that window |
| Keys.WeightKey | storage/storage.go:371-380 | the filled buffer is the byte key of that tally |
| Keys.StatusKey | storage/storage.go:382-390 | the filled buffer is the byte key of that status |
| Keys.VoteKey | storage/storage.go:392-402 | the filled buffer is the byte key of that actor's vote |
| Encoding.I64RoundTrip | storage/storage.go:418-431 | signed timestamps survive uint64 encoding and decoding, negative ones included |
| Encoding.BigEndianAt | storage/storage.go:95-102 | the most significant byte comes first |
| Encoding.SameModulo | storage/storage.go:418 | conversions and sums of 64-bit integers keep the number modulo 2^64 |
| FileNames.DeployKeyInjective | storage/storage.go:354-359 | two deployments get the same file name exactly when image and type are the same, although the decimal is not padded |
| FileNames.DeployKeyLayout | storage/storage.go:354-359 | the name is 7, 64 lower-case hexadecimal digits of the ID, the type in plain decimal and .pvalt |
| FileNames.AtoiOfItoa | storage/storage.go:358 | decimal printing can be undone |
| FileNames.HexInjective | storage/storage.go:358 | different IDs print differently |
| Records.InsertRepresents | storage/storage.go:196-203 | inserting under one record's key changes that record of the typed state and no other byte key |
| Records.RemoveRepresents | storage/storage.go:254-258 | removing one record's key removes that record and nothing else |
| Records.StateDetermined | storage/storage.go:41-58 | a byte store stands for one typed state |
| Records.StoreDetermined | storage/storage.go:41-58 | a typed state, with the foreign keys fixed, stands for one byte store |
| Records.RecordLayout | storage/storage.go:202 | flags are the bytes 0 and 1; balances, tallies and deadlines are eight bytes, the most significant first |
| Storage.Store.GetBalance | storage/storage.go:142-184 | the balance of the typed state, zero when there is no record |
| Storage.Store.SetBalance | storage/storage.go:186-203 | one balance record is set; a zero is stored as a record |
| Storage.Store.AddBalance | storage/storage.go:205-232 | refines the credit: a missing account is skipped or created, an overflow changes nothing, no other record moves |
| Storage.Store.SubBalance | storage/storage.go:234-260 | refines the debit: fails on a low balance, an emptied account has no record, no other record moves |
| Storage.Store.CanDeduct | storage/state_manager.go:45-59 | true exactly when the deduction would succeed |
| Storage.Store.Deduct | storage/state_manager.go:61-68 | refines the debit |
| Storage.Store.Refund | storage/state_manager.go:70-78 | refines the credit that creates no account |
| Storage.Store.StoreTimeOut | storage/storage.go:404-419 | sets one deadline: the start plus 1000 milliseconds for each second of the time-out, taken as 20 below 20 and as 300 above 300, less 2^64 if it does not fit |
| Storage.Store.GetTimeOut | storage/storage.go:421-432 | the stored deadline, also when negative, or none |
| Storage.Store.UpdateWeight | storage/storage.go:434-454 | refines one step of the tally modulo 2^64, status included |
| Storage.Store.GetVerifyStatus | storage/storage.go:456-467 | true exactly when the typed state has the status; otherwise the lookup fails |
| Storage.Store.GetVote | storage/storage.go:469-484 | true exactly when this actor has voted on this transaction |
| Storage.Store.StoreVote | storage/storage.go:486-494 | records the pair of transaction and actor |
| Storage.Store.StoreHashKeyType | storage/storage.go:322-331 | stores the given hash under one pair of image and 16-bit type, and nothing else |
| Storage.Store.GetHashKeyType | storage/storage.go:344-352 | the hash of that pair, or none |
| Windows.DeadlineExactly | storage/storage.go:412-418 | a time-out of 20 to 300 seconds is kept, a shorter one counts as 20, a longer one as 300 |
| Windows.DeadlineBounds | storage/storage.go:412-418 | the deadline is 20 to 300 seconds after the start exactly when the sum does not wrap; otherwise it is before the start |
| Ledger.MoveConserves | actions/transfer.go:58-67 | within a 64-bit supply a transfer succeeds exactly when it is positive and covered, and keeps the total, to oneself included |
| Ledger.CreditExactly | storage/storage.go:205-232 | a credit fails exactly on overflow, and is skipped exactly for a missing account that it may not create |
| Ledger.DebitExactly | storage/storage.go:234-260 | a debit fails exactly when it is not covered, and keeps a record exactly when something is left |
| Ledger.MoveBalances | actions/transfer.go:49-68 | what sender, receiver and everybody else hold after a transfer, and when the sender's record disappears |
| Ledger.MoveFails | actions/transfer.go:58-66 | a transfer fails exactly when it is zero, not covered, or overflows another receiver, and only then after the payment |
| Ledger.DebitSum | storage/storage.go:244-259 | a debit lowers the total by exactly its amount |
| Ledger.CreditSum | storage/storage.go:218-231 | within a 64-bit total a credit never overflows and raises the total by its amount, or by nothing if it is skipped |
| Ledger.CanonicalDetermined | storage/storage.go:254-258 | ledgers without zero records that read alike are the same records |
| Ledger.MoveCanonical | actions/transfer.go:58-67 | a transfer leaves no zero record |
| Genesis.Load | genesis/genesis.go:110-133 | writes exactly the allocations before the first that does not parse or overflows the supply; the last allocation to an address wins; nothing else is written |
| Genesis.LoadsAll | genesis/genesis.go:118-132 | loading succeeds exactly when every address parses and the allocations sum to at most MaxUint64 |
| Genesis.LoadedSum | genesis/genesis.go:119-131 | loaded balances sum to at most the supply, and to all of it when no address repeats |
| Genesis.LoadedCanonical | genesis/genesis.go:119-131 | no zero record is left exactly when every address's last allocation is positive |
| Execution.ExecuteTransfer | actions/transfer.go:49-68 | success exactly when the move is possible; a failure leaves the sender's debit exactly when another receiver's balance overflows after the payment, and else the store as it was; which keys were written |
| Execution.ExecuteRegisterImage | actions/register_image.go:69-85 | stores the root hash under the image and the type modulo 2^16 |
| Images.RegistersHash | actions/register_image.go:69-85 | registering always succeeds and sets exactly that record |
| Images.HashOrigin | storage/storage.go:322-352 | after any run the hash of an image and a type is that of the last registration with the image and a type equal modulo 2^16 |
| Execution.ExecuteProof | actions/sp1.go:68-81 | opens the window of its own transaction with its own time-out, and nothing else; the same for the five proof actions |
| Execution.Execute | registry/registry.go:25-33 | every action refines its effect on the typed state: same success, same committed state, and the units and the written keys of its outcome, failures included |
| Execution.Reported | actions/consts.go:6-16 | no outcome of an action reports more than its maximum units |
| Execution.EffectExactly | actions/jolt.go:68-81 | Register succeeds and changes nothing; each proof action succeeds and opens its own window for its time-out, kept within 20 to 300 seconds |
| Execution.UnitsExactly | actions/consts.go:6-16 | the units and the maximum of every action |
| Execution.Process | actions/validator_vote.go:139-146 | with the assumed undo a failure, which may come after writes, leaves every byte as it was |
| Actions.GetMessage | actions/utils.go:32-41 | the filled buffer is the ID followed by the answer |
| Actions.MessageLayout | actions/utils.go:32-41 | 33 bytes: the ID, and then 1 for yes or 0 for no |
| Actions.MessageInjective | actions/utils.go:32-41 | signed bytes determine the transaction and the answer |
| Actions.TransferKeysLayout | actions/transfer.go:34-39 | a transfer declares the two balances, byte by byte, and nothing else |
| Actions.ImageKeysLayout | actions/register_image.go:28-32 | a registration declares its one hash |
| Actions.VoteKeysLayout | actions/validator_vote.go:35-42 | a vote declares four keys, the status under its own transaction ID |
| Actions.OtherKeysLayout | actions/plonky2.go:31-33 | a proof action declares its own window, Register nothing |
| Voting.Execute | actions/validator_vote.go:80-151 | for whatever order the loop takes, success and the committed state are those of a specification without order, the units are those of the first check that fails, and the keys written those of the first match |
| Genuine.CommitsExactly | actions/validator_vote.go:95-148 | a vote changes the state exactly when it is in time, its key and signature parse, its key is listed and under one entry only, the signature verifies on ID and answer, and its actor has not voted; the new state is written out |
| Genuine.IdleExactly | actions/validator_vote.go:95-150 | a vote succeeds without a change exactly when it passes the checks before the loop and no entry is under its key |
| Genuine.BallotsAreGenuine | actions/validator_vote.go:118-148 | the history of every run holds exactly the ballots of votes that are genuine when their turn comes |
| Genuine.UnitsExactly | actions/validator_vote.go:96-150 | the units of every outcome, check by check; 3500 exactly when the first two matches of the order overflow together |
| Voting.CountEntry | actions/validator_vote.go:120-147 | the loop body for a matching entry is one step of the scan, and writes only if it does not fail |
| Voting.CountMatches | actions/validator_vote.go:118-148 | for whatever order the loop takes, its store and its outcome are those of the scan, and the keys written are those of the first match |
| Voting.ScanCommits | actions/validator_vote.go:118-148 | every enumeration of the map succeeds alike and commits the same state, and success leaves at most one match |
| Voting.IdleCommits | actions/validator_vote.go:119-150 | a vote commits the state it found exactly when it passes the checks before the loop and nothing matches |
| Voting.OrdersAgree | actions/validator_vote.go:118-148 | any two orders give the same success and, on success, the same state and total |
| Voting.ScanIsByMatches | actions/validator_vote.go:118-148 | the loop is decided by the matching entries alone, and a second match always fails |
| VoteOrder.UnitsAgree | actions/validator_vote.go:119-142 | all orders report the same units exactly when all pairs of matching entries agree on overflow, or no second match is reached |
| VoteOrder.FailureWrites | actions/validator_vote.go:119-147 | for every order a failed vote has changed the store exactly when a first match is recorded and there is a second |
| VoteOrder.StoresAgree | actions/validator_vote.go:119-147 | all orders leave the same store, writes of failures included, exactly when no second match is reached, the vote is a no, or the matching entries have one weight |
| VoteOrder.FailureLeavesOrder | actions/validator_vote.go:119-147 | two matches of different weight leave different stores behind, whatever the tally was |
| History.RecordsAreHistory | storage/storage.go:434-494 | in every reachable state a tally is absent exactly when there is no committed yes vote and else their sum modulo 2^64, a vote record is present exactly for committed votes, a status exactly when some vote raised the tally, and no pair of transaction and actor counts twice |
| History.TallyStep | storage/storage.go:446-451 | the new tally exceeds the voter's weight exactly when the old one was positive and the sum does not wrap |
| History.VerifiedByTwo | storage/storage.go:448-451 | a status implies committed yes votes of two different accounts |
| History.VerifiedIffTwo | storage/storage.go:443-453 | with positive weights that do not wrap, the status is set exactly when there are two yes votes |
| History.StatusStays | storage/storage.go:443-453 | a status is never cleared, over any run |
| History.MinorityVerifies | actions/validator_vote.go:118-148 | two decodable yes votes of weight 1 verify a transaction against a silent validator of weight 2^63 |
| History.NothingMatches | actions/validator_vote.go:119-120 | a run in which no vote matches an entry writes no tally, status or vote |
| OneKey.CountsAgain | storage/storage.go:392-402 | a counted vote counts once more exactly from another account that has not voted, until the deadline |
| OneKey.TwoBallots | actions/validator_vote.go:139-146 | in any run such a vote is committed twice, under two accounts and with one weight |
| OneKey.OneKeyVerifies | storage/storage.go:443-453 | one key, cast from two accounts at the end of any run, sets the status exactly when one of its two sums rises from a positive tally without wrapping; from no tally, exactly when twice its positive weight does not wrap |
| Deadlines.VoteInWindow | actions/validator_vote.go:95-102 | every committed vote lies between the last proof action that opened its window and a deadline 20000 to 300000 ms after it, reused IDs or not |
| Deadlines.WindowOrigin | storage/storage.go:404-419 | every window has the deadline of the last proof action that opened it: its timestamp plus its time-out, kept within 20 to 300 seconds |
| Deadlines.WindowStays | storage/storage.go:404-419 | a deadline stays until its window is opened again |
| Deadlines.FreshNotReopened | storage/storage.go:404-419 | without reused IDs no open window is opened again |
| Deadlines.Frozen | actions/validator_vote.go:100-102 | once a timestamp passes the deadline, tally, status and votes of that transaction never change until its window is opened again |
| Deadlines.FrozenForGood | actions/validator_vote.go:100-102 | without reused IDs they never change again, nor does the deadline |
| Supply.Conserved | storage/storage.go:205-260 | over every run with covered refunds, balances, outstanding deductions and burned refunds add up to the initial total |
| Supply.NoOverflow | storage/storage.go:221-230 | in every reachable state covered refunds and payable non-zero transfers succeed |
| Supply.PairedIsCovered | storage/state_manager.go:61-78 | if each refund gives back part of one deduction of its own, all refunds are covered |
| Supply.BoundedByGenesis | genesis/genesis.go:118-131 | after a complete load and any such run, balances plus outstanding deductions stay within the genesis supply |
| Supply.StaysCanonical | storage/storage.go:254-259 | no run creates a zero record |
| Supply.ReadsDetermineRecords | storage/storage.go:254-259 | reachable states that agree on every balance read have identical balance records |
| Refunds.PairedCovered | storage/state_manager.go:70-78 | a refund paired with its own earlier deduction never exceeds what is outstanding |
| Transactions.ProcessTx | storage/state_manager.go:45-78 | the driver on bytes refines one transaction on the typed state, receipt included, for whatever order a vote takes |
| Receipts.ResultsAgree | actions/validator_vote.go:118-148 | all orders give the same result exactly when the transaction is not a paid vote that reaches two matches whose pairs disagree on overflow |
| Receipts.StatesAgree | actions/validator_vote.go:118-148 | and the same state exactly when, in that case, 3500 and 5000 units cost the same or the charge emptied the sponsor |
| Receipts.TornReceipt | storage/state_manager.go:70-78 | in that case the vote fails and the sponsor has paid for exactly the reported units |
| Receipts.NodesDisagree | actions/validator_vote.go:118-148 | a decodable vote in time, with three entries under its key, after which two orders leave different balances |
| Receipts.OrdersDoNotShow | actions/validator_vote.go:118-148 | sequences that differ only in the orders of their votes give the same results and state if no vote along them is such a case |
| Receipts.SequencesAgree | actions/validator_vote.go:118-148 | all choices of orders give a sequence the same results exactly then |
| Transactions.TouchedDeclared | actions/validator_vote.go:35-42 | every record a transaction may read or write is declared, except a vote's status, whose tally is declared |
| Declarations.DeclaresAll | actions/validator_vote.go:35-42 | all of them are declared exactly when the transaction is not a vote on another transaction |
| Declarations.WrittenTouched | actions/validator_vote.go:80-151 | an action inserts or removes only keys of records it may touch, even if it fails |
| Declarations.WritesUndeclared | storage/storage.go:446-452 | an action writes an undeclared key, undone or not, exactly when it is a yes vote on another transaction whose first match is recorded and lifts an existing tally above its own weight |
| Declarations.CommittedUndeclared | storage/storage.go:446-452 | for a committed vote that condition is free of the order: the vote counts, and the tally with its only weight exceeds that weight |
| Declarations.UndeclaredHappens | actions/validator_vote.go:35-42 | a decodable vote of weight 1 that does |
| Declarations.ChangesUndeclared | storage/storage.go:446-452 | a vote changes an undeclared record exactly when it sets the status of another transaction for the first time |
| Transactions.DisjointDeclaredTouched | actions/validator_vote.go:35-42 | disjoint declared keys mean disjoint touched records |
| Transactions.EffectLocal | actions/transfer.go:34-68 | an action depends on and changes only the records it touches |
| Transactions.TxLocal | storage/state_manager.go:39-78 | so does a whole transaction, units and fee included |
| Reordering.Commute | actions/validator_vote.go:35-42 | two transactions with disjoint declared keys give the same state and the same results in either order |
| Reordering.MoveToFront | storage/state_manager.go:39-43 | a transaction independent of all before it may as well go first |
| Reordering.ReorderingIsHarmless | actions/transfer.go:34-39 | any permutation that keeps conflicting transactions in order gives every transaction its result and the same final state |
| Reordering.SameBytes | actions/register_image.go:28-32 | and the same store, byte by byte |
| Fees.TxCharge | storage/state_manager.go:61-78 | a transaction takes out of circulation exactly the fee for its units, or its maximum fee if the sponsor's record is gone at the refund |
| Fees.TxsConserve | storage/state_manager.go:61-78 | over any sequence of transactions the total shrinks by exactly what they pay, and no refund is refused |
| Fees.TxsCovered | storage/state_manager.go:61-78 | the refunds of every sequence of transactions are covered, so what holds of covered runs holds of it |
| Fees.TxIsRun | storage/state_manager.go:61-78 | one transaction is a deduction that fails, or deduction, action and refund; its result says whether the action succeeded |
| Fees.TxsAreRun | storage/state_manager.go:61-78 | sequences of transactions are runs of deductions, actions and refunds |
| Batches.BatchCountBound | auth/ed25519.go:105-106 | the announced signatures fill at most cores + (cores-1)/minSize batches |
| Batches.BatchSizeExactly | auth/ed25519.go:105-106 | the batch size is the larger of the minimum and the greatest size that gives every core a full batch |
| Batches.BatchCountAtLeast | auth/ed25519.go:105-106 | with enough signatures for a minimal batch on every core there are at least as many batches as cores |
| Batches.BatchCountReached | auth/ed25519.go:105-106 | that bound is reached |
| Batches.ED25519Batch.constructor | auth/ed25519.go:105-111 | an empty splitter with the batch size that was asked for |
| Batches.ED25519Batch.Add | auth/ed25519.go:126-144 | after any number of calls: each batchSize-th returns a verifier, and a returned batch changes exactly when the last full one was filled at or after the announced number; until then each covers the next batchSize items |
| Batches.ED25519Batch.Fill | auth/ed25519.go:128-133 | the item goes into the current batch, which is a returned one only in that case |
| Batches.ED25519Batch.Flush | auth/ed25519.go:134-142 | a full batch is returned, and everything that was added still lies in the batches in order |
| Batches.ED25519Batch.Returned | auth/ed25519.go:105-144 | exactly totalCounter / batchSize verifiers have been returned, within the bound up to the announced number |
| Batches.ED25519Batch.Decides | auth/ed25519.go:126-151 | after any number of items, returned batches and the current one pass exactly when each item is valid |
| Batches.ED25519Batch.Done | auth/ed25519.go:146-151 | returns the remainder, or the last full batch again; with it all verifiers pass exactly when every item is valid, whatever validity is |
| Batches.JoinedValid | auth/ed25519.go:126-151 | all batches pass exactly when all their items, in order, are valid |
| Metadata.TxKey | storage/storage.go:76-82 | the filled buffer is the index key of that ID |
| Metadata.TxKeyInjective | storage/storage.go:76-82 | different IDs have different index keys |
| Metadata.RecordBuffer | storage/storage.go:94-102 | the filled buffer is the 57 bytes of the record |
| Metadata.RecordRoundTrip | storage/storage.go:84-130 | timestamp (negative too), success, five dimensions and fee read back as stored |
| Metadata.RecordLayout | storage/storage.go:94-102 | 57 bytes: timestamp, success as 1 or 0, five dimensions, fee, numbers with the most significant byte first |
| Metadata.StoreTransaction | storage/storage.go:84-104 | one Put of that record under that ID, or an error and nothing |
| Controller.Controller.Accepted | controller/controller.go:160-226 | a block is indexed whole or not at all; the queue and the transfer count are the fold of all blocks as far as each one got |
| Controller.Controller.HandleTxs | controller/controller.go:165-224 | the loop stops inside the first transaction whose Put fails, after queueing it |
| Controller.Controller.HandleTx | controller/controller.go:165-224 | one transaction: queued if a proof, stored with the block's timestamp and its own success, units and fee, counted if a successful transfer that was stored |
| Controller.Controller.GetTransaction | storage/storage.go:106-130 | finds an ID exactly when an indexed block has it, with the timestamp, success, units and fee of its last occurrence |
| Controller.IndexLookup | storage/storage.go:84-130 | the index bytes under an ID are those of its last record in the history |
| Controller.LastRecordOccurs | controller/controller.go:204-217 | there is a last record exactly when the ID occurs, and it tells the four facts of the last occurrence |
| Controller.DistinctFound | controller/controller.go:204-217 | with distinct IDs each transaction is found with its block's timestamp and its own success, units and fee |
| Controller.QueuedExactly | controller/controller.go:168-203 | a block queues exactly its proof actions, each under the last unclamped time-out for its ID |
| Controller.AllQueuedExactly | controller/controller.go:168-203 | the queue holds exactly the IDs of proof actions that some handled block reached |
| Controller.AllQueuedLast | trustless/trustless.go:89-94 | over all blocks each ID is queued under the unclamped time-out of the last proof action with that ID |
| Controller.TransfersCounted | controller/controller.go:218-223 | the counter is the number of places in all handled blocks where a successful transfer was stored |
| Trustless.Trustless.ListenActions | trustless/trustless.go:89-94 | sets one queue entry and leaves the results alone |
| Trustless.Trustless.SubmitResult | trustless/trustless.go:112-142 | the vote carries the result, the node's key and the signature on the message it will be checked against; a bad ID becomes the empty one |
| Codec.FieldRoundTrip | actions/validator_vote.go:60-74 | an accepted field is read back and what follows is untouched |
| Codec.FieldCanonical | actions/validator_vote.go:67-74 | only the encoding of an accepted field parses |
| Codec.ActionRoundTrip | registry/registry.go:25-33 | decoding tag, fields and any rest gives the action and the rest exactly when all fields are present and within limits |
| Codec.ActionCanonical | registry/registry.go:25-33 | whatever decodes to an action is its encoding |
| Codec.PrefixFree | registry/registry.go:25-33 | no encoding is a prefix of another action's |
| Wire.EncodeLayout | actions/sp1.go:49-53 | the bytes of all nine actions: type ID, field order, widths and length prefixes |
| Wire.EncodableExactly | actions/miden.go:74-83 | which fields of each action must not be zero or empty, and how long texts and byte strings may be |
| Codec.VoteEncodable | actions/validator_vote.go:67-74 | a vote can be decoded exactly when its ID, signature and key are present and within limits |
| Packing.ReadsParse | actions/miden.go:74-83 | reading field by field with a sticky error is parsing the whole sequence |
| Packing.MarshalTransfer | actions/transfer.go:78-81 | appends the encoded fields in order |
| Packing.UnmarshalTransfer | actions/transfer.go:83-91 | returns what the bytes encode, or an error exactly when they do not parse |
| Packing.MarshalRegister | actions/register.go:45-47 | appends the encoded field |
| Packing.UnmarshalRegister | actions/register.go:49-53 | returns what the bytes encode, or leaves the packer failed |
| Packing.MarshalRegisterImage | actions/register_image.go:50-54 | appends the encoded fields in order, or fails on an overlong text |
| Packing.UnmarshalRegisterImage | actions/register_image.go:56-62 | returns what the bytes encode, or leaves the packer failed |
| Packing.MarshalValidatorVote | actions/validator_vote.go:60-65 | appends the encoded fields in order |
| Packing.UnmarshalValidatorVote | actions/validator_vote.go:67-74 | returns what the bytes encode, or leaves the packer failed |
| Packing.MarshalSP1 | actions/sp1.go:49-53 | appends the encoded fields in order |
| Packing.UnmarshalSP1 | actions/sp1.go:55-61 | returns what the bytes encode, or leaves the packer failed |
| Packing.MarshalMiden | actions/miden.go:65-72 | appends the encoded fields in order, or fails on an overlong text |
| Packing.UnmarshalMiden | actions/miden.go:74-83 | returns what the bytes encode, or leaves the packer failed |
| Packing.MarshalRiscZero | actions/risczero.go:59-64 | appends the encoded fields in order, or fails on an overlong text |
| Packing.UnmarshalRiscZero | actions/risczero.go:66-73 | returns what the bytes encode, or leaves the packer failed |
| Packing.MarshalJolt | actions/jolt.go:49-53 | appends the encoded fields in order |
| Packing.UnmarshalJolt | actions/jolt.go:55-61 | returns what the bytes encode, or leaves the packer failed |
| Packing.MarshalPlonky2 | actions/plonky2.go:51-57 | appends all five encoded fields in order |
| Packing.UnmarshalPlonky2 | actions/plonky2.go:59-67 | returns what the bytes encode, or leaves the packer failed |
| Registry.Setup | registry/registry.go:18-43 | no two actions claim one type ID, and each registered ID leads to its own kind's decoder |
| Registry.MarshalAction | consts/types.go:6-18 | writes the action's encoding; an overlong text is the only error |
| Registry.UnmarshalAction | registry/registry.go:25-33 | decoding through the table is the decoding of the codec, error cases included |
| Registry.VoteSurvives | trustless/trustless.go:137-142 | a built vote decodes to itself exactly when its ID, signature and key are present and within limits |

## Left out

* The HTTP handlers, RPC, command line, configuration, metrics other than the transfer counter, and logging.
* The calls `handle.Handle*` inside `Accepted`: they talk to an external prover, and their errors are only logged.
* Cryptography, and the construction of warp messages: open functions, as listed above.
* The chain library: block building, the fee market, the mempool, warp handling, and views that restrict an action to its declared keys.
* Storage errors other than "not found"; the source drops the errors of `UpdateWeight` and `StoreVote` inside the loop.
* The mutex in the trustless module, and the goroutines behind `VerifyAsync`: a verifier is judged by its batch's content when it runs.
* What `submitResult` does after building the vote: estimating units, signing and submitting the transaction.
* actions/gnark.go and network/main.go, which are commented out, and `GetRegistration`, whose records nothing writes.
* `Size`, `StateKeysMaxChunks`, `ValidRange` and the getters of the genesis rules: constants, easy members. `Size` does not equal the encoded length for every action, so nothing is claimed about it.
* Authentication codecs and address caching in auth/, and the registration of the three authentication types.
* Error messages: only success, units and the store are modelled.
* `GetBalanceFromState`: the same reading through another interface.
