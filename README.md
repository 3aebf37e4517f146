# Triad ledger core in Dafny

This project models the ledger and consensus core of Triad, a small
federated-consensus blockchain demo. It covers four parts.

- **Blocks** (`block.dfy`, module `Blocks`). A `Block` is a class with the
  fields of the Python record. Its hash is taken over six fields: index,
  transactions, parent hash, timestamp, nonce and checkpoint flag. Votes and
  double voters are stored on the block but are not hashed. `ProofOfWork` is
  the bounded search loop, proved against the pure function `Search`. The
  loop tries nonces 0, 1, … and takes a fresh clock reading for each try. It
  stops at the first hash that starts with `difficulty` zeros. If it fails,
  the last nonce and timestamp stay in the block but the stored hash does not
  change.
- **Consensus** (`consensus.dfy`, module `Consensus`). `FederatedConsensus`
  is a value holding the validator list and the quorum fraction, written as
  a rational `quorumNum / quorumDen`. The quorum test counts distinct known
  voters. It requires `max(1, int(n * q))` of them, where `n` is the length
  of the validator list. `Vote` builds the proposal at the next height, with
  every validator's vote attached.
- **Ledger** (`chain.dfy`, module `Chain`). `TriChain` is a class that owns
  the chain (`seq<Block>`) and the pending buffer (`seq<Tx>`). Its invariant
  `Valid()` says three things. The chain is non-empty. It starts with a
  genesis block (index 0, no transactions, parent `"0"`). Every later block
  names its predecessor's hash as its parent. The constructor establishes
  `Valid()`, and every later operation (adding a transaction, a micro block,
  a checkpoint, a proof-of-history event, a fork switch) keeps it.
  `CreateGenesisBlock` is called only by the constructor, on an empty chain.
  It promises `Valid()` only in that case. Every failure leaves the chain and
  the pending buffer as they were.
- **Proof of history** (`poh.dfy`, module `Poh`). `ProofOfHistory` is a class
  with a rolling digest and a counter. Each event hashes the text
  `previous:time:counter`. `ParseEvent` reads such a text back. That parse
  gives the two facts proved here. Consecutive events hash different texts.
  And, if the hash has no collisions, the digest determines the whole
  history of clock readings.

`scenarios.dfy` writes six of the repository's eight tests as client
methods. Their postconditions are the tests' assertions. They hold for every
hash function and every clock, with two exceptions stated as preconditions.
The proof-of-history test needs a collision-free hash. The unknown-parent
test needs a genesis hash other than `"deadbeef"`. The two tests in
tests/test_forks.py are left out, as listed below.

Shared types (`Time`, `Digest`, `Validator`, `Result`, `Error`) are in
`common.dfy`.

Hashing, the clock and the transaction record are modelled as follows:

- SHA-256 over the canonical JSON payload is the parameter `Hasher`, a
  function from a `Payload` to a digest. SHA-256 over text, used by proof of
  history, is `TextHasher`. Neither is interpreted. No property relies on
  collision-freeness, except the two tamper-evidence lemmas, which state it
  as a precondition.
- `time.time()` readings are caller-supplied `Time` values (natural tick
  counts). Proof-of-work takes a sequence of readings and uses reading `k`
  for attempt `k`.
- A transaction is the record `Tx` (sender, receiver, amount, timestamp).
  This matches the `to_dict()` form that blocks carry.

Points where the code departs from what its own comments and tests expect:

- **Required votes round down.** The code computes
  `max(1, int(n * quorum_fraction))`, which truncates
  (blockchain/consensus.py:45). So 5 validators at 0.51 need 2 votes, and 3
  validators at 0.51 need 1 (`QuorumExamples`). The docstring promises a
  default quorum of more than 50% (blockchain/consensus.py:8). The test
  comment at tests/test_forks.py:7 says "needs 3 of 5". Both assume more
  votes than the code asks for. The model follows the code; see Findings.
- **Duplicate validators are not rejected.** `__init__` never checks that the
  validator identifiers are unique (blockchain/consensus.py:12-17). With a
  repeated identifier, a block from `vote` can fail `validate_votes`
  (`DuplicateValidatorsReject`). So `SimulatedVotesValidate` and
  `CreateMicroBlock`'s guaranteed success require distinct validators.
- **Two called operations are not defined.** `resolve_and_append` calls
  `resolve_conflict` (blockchain/chain.py:65), and tests/test_forks.py:12
  calls `propose_conflicting`. blockchain/consensus.py defines neither. This
  model passes the chosen block to `ResolveAndAppend` as a parameter.
- **Proof-of-work keeps the pending buffer.** A proof-of-work checkpoint
  does not clear the pending buffer (blockchain/chain.py:39-44). Only a
  micro block and a fork switch clear it.

## Findings

Both findings are about blockchain/consensus.py. The ledger operations keep
the rule as written, because that is what the program does. Each corrected
member states what the fixed rule would guarantee.

| source | as written | input that shows it | evidently intended | confidence | as-written member | corrected member |
|---|---|---|---|---|---|---|
| blockchain/consensus.py:45 | `int(n * quorum_fraction)` rounds the required count down | 5 validators at 0.51: the votes of `v1` and `v2` (40%) are accepted | round up, so the accepted share reaches the fraction: 3 of 5, as the docstring's ">50%" at line 8 and tests/test_forks.py:7 say | high; not executed | `Consensus.TruncatedQuorumAcceptsMinority` | `Consensus.CeilQuorumMeetsFraction` |
| blockchain/consensus.py:12-17 | the validator list is kept with repeats | validators `["a", "a"]` at fraction 1: `vote`'s own block fails `validate_votes` | drop repeated identifiers, so a block with every validator's vote always passes | medium; not executed | `Consensus.DuplicateValidatorsReject` | `Consensus.NewDistinctConsensus` |

## Model

| member | source | states |
|---|---|---|
| `Blocks.Block.constructor` | blockchain/block.py:8-18 | a fresh block has the given index, transactions, parent and flag, nonce 0, the given clock reading, a stored hash equal to the hash of its six fields, and no votes or double voters |
| `Blocks.Block.ToDict` | blockchain/block.py:20-29 | the export view carries the stored hash and exactly the hashed payload fields, and no votes |
| `Blocks.Block.Fields` | blockchain/block.py:32-39 | the hashed payload is made of exactly the index, transactions, parent, timestamp, nonce and checkpoint flag |
| `Blocks.Block.ComputeHash` | blockchain/block.py:31-41 | the hash can be recomputed from the exported record alone: it is the hash of the payload rebuilt from `to_dict()` |
| `Blocks.HashIgnoresAnnotations` | blockchain/block.py:31-41 | two blocks that agree on the six payload fields have the same hash, whatever their votes and double voters |
| `Blocks.ZeroPrefixMeaning` | blockchain/block.py:49-55 | `startswith("0" * d)` holds exactly when the digest has at least `d` characters and the first `d` are all '0' |
| `Blocks.Search` | blockchain/block.py:50-58 | the loop's search: a returned nonce lies in the attempt range and its hash has the prefix, and an empty range finds nothing |
| `Blocks.SearchFound` | blockchain/block.py:50-58 | a nonce the search returns is below the attempt budget, its hash has the prefix, and every smaller nonce failed |
| `Blocks.SearchExhausted` | blockchain/block.py:51-59 | when the search fails, no attempt below the budget had the prefix |
| `Blocks.ZeroDifficultyFirstAttempt` | blockchain/block.py:48-55 | with difficulty 0 and a budget of at least 1, the first attempt (nonce 0) succeeds |
| `Blocks.Block.ProofOfWork` | blockchain/block.py:43-59 | success iff the search finds a nonce below the budget. On success the block's nonce is that first hit, its timestamp is that attempt's reading, and the stored hash equals the returned hash, which has `difficulty` leading zeros, so the hash invariant holds again. On failure the error is raised and the hash is not updated, while nonce and timestamp are those of the last attempt. Index, transactions, parent, flag and votes never change |
| `Blocks.Block.Mine` | blockchain/block.py:61-63 | proof-of-work with the default budget of 1,000,000 attempts, and difficulty 4 unless given. The contract is the same as `ProofOfWork`'s: success iff the search finds a nonce, the first hit and its reading on success, an unchanged hash and the last attempt's nonce and reading on failure, and all other fields unchanged |
| `Consensus.NewConsensus` | blockchain/consensus.py:12-17 | construction fails with `EmptyValidatorSet` exactly when the validator list is empty, and otherwise keeps the list and the quorum fraction |
| `Consensus.FederatedConsensus.SimulateVotes` | blockchain/consensus.py:19-23 | the simulated votes are exactly the validator list, in order |
| `Consensus.FederatedConsensus.Vote` | blockchain/consensus.py:25-36 | on a non-empty chain, the proposal is fresh, has index equal to the chain length, has the head's hash as parent, is not a checkpoint, carries the given transactions and a sealed hash, and all validators vote for it |
| `Consensus.TruncDiv` | blockchain/consensus.py:45 | the quotient rounds toward zero, as Python's `int()` does, for both signs of the numerator |
| `Consensus.RequiredVotes` | blockchain/consensus.py:45 | the required count is the floor of `n * q` when that is at least 1, and 1 otherwise, so it is never below 1 |
| `Consensus.QuorumExamples` | blockchain/consensus.py:45 | 5 validators need 2 votes at 0.51 and 3 at 0.6, and 3 validators need 1 at 0.51 |
| `Consensus.RequiredAtMostValidators` | blockchain/consensus.py:45 | with a fraction of at most 1, the required count never exceeds the number of validators |
| `Consensus.FederatedConsensus.CountedVoters` | blockchain/consensus.py:42-44 | the counted voters are exactly the distinct known validators among the votes |
| `Consensus.FederatedConsensus.ValidVoteCount` | blockchain/consensus.py:42-44 | the count never exceeds the number of votes cast or the length of the validator list |
| `Consensus.FederatedConsensus.ValidateVotes` | blockchain/consensus.py:38-46 | an accepted block carries at least the required number of votes (at least one), and the requirement is at most the number of validators |
| `Consensus.TruncatedQuorumAcceptsMinority` | blockchain/consensus.py:42-46 | with 5 validators at 0.51, two votes are accepted, though 2/5 is below both 0.51 and one half |
| `Consensus.CeilRequiredVotes` | blockchain/consensus.py:45 | the rounded-up count is at least 1, its share reaches the fraction, and one vote fewer would not |
| `Consensus.CeilQuorumExamples` | blockchain/consensus.py:45 | rounded up, 5 validators at 0.51 need 3 votes and 3 validators need 2 |
| `Consensus.CeilQuorumMeetsFraction` | blockchain/consensus.py:42-46 | under the rounded-up count, every accepted number of votes has a share of at least the fraction |
| `Consensus.AddVote` | blockchain/consensus.py:42-44 | an extra vote raises the count by one exactly when it is from a known validator who has not voted yet, and duplicates and unknown voters add nothing |
| `Consensus.CountDependsOnVoterSet` | blockchain/consensus.py:42-44 | the count depends only on the set of voters, not on their order or repetition |
| `Consensus.ValidateMonotone` | blockchain/consensus.py:42-46 | if every voter of one list is in a second list, acceptance of the first implies acceptance of the second |
| `Consensus.ValidateAppendMonotone` | blockchain/consensus.py:42-46 | appending votes to an accepted block never makes it rejected |
| `Consensus.NoVotesRejected` | blockchain/consensus.py:45-46 | a block with no votes is rejected |
| `Consensus.AcceptedHasKnownVoter` | blockchain/consensus.py:42-46 | an accepted block carries the vote of at least one known validator |
| `Consensus.SimulatedVotesValidate` | blockchain/consensus.py:19-46 | with distinct validators and a fraction of at most 1, the votes `vote` attaches always pass `validate_votes` |
| `Consensus.DuplicateValidatorsReject` | blockchain/consensus.py:15-46 | with the validator list `["a", "a"]` at fraction 1, the all-validator vote is rejected, since 2 votes are needed and only 1 voter is distinct |
| `Consensus.Dedup` | blockchain/consensus.py:15 | the list without repeats has no repeats, the same members, and no more entries |
| `Consensus.NewDistinctConsensus` | blockchain/consensus.py:12-17 | construction that drops repeats fails exactly on an empty list. Otherwise its validators are distinct and the same set, and with a fraction of at most 1 the block `vote` builds always passes `validate_votes` |
| `Chain.FindFirst` | blockchain/chain.py:68-72 | the result is the lowest position holding the target hash, or none exactly when no position holds it |
| `Chain.Hashes` | blockchain/chain.py:69-70 | the hashes of the chain's blocks, position by position |
| `Chain.LinkedAppend` | blockchain/chain.py:31-34 | appending a block whose parent is the head's hash keeps the chain linked |
| `Chain.LinkedForkSwitch` | blockchain/chain.py:77-79 | truncating after position `p` and appending a block whose parent is block `p`'s hash keeps the chain linked |
| `Chain.TriChain.constructor` | blockchain/chain.py:8-20 | a new ledger holds exactly the genesis block (index 0, no transactions, parent "0", sealed hash) and an empty buffer, satisfies the invariant, and has a fresh proof-of-history log |
| `Chain.NewTriChain` | blockchain/chain.py:8-16 | creating a ledger fails with `EmptyValidatorSet` exactly when the validators are empty. Otherwise the ledger is valid, uses the 0.51 quorum and holds only the genesis block |
| `Chain.TriChain.CreateGenesisBlock` | blockchain/chain.py:18-20 | appends one fresh block with index 0, no transactions, parent "0", nonce 0 and a sealed hash; on an empty chain the result satisfies the invariant |
| `Chain.TriChain.AddTransaction` | blockchain/chain.py:22-25 | the buffer grows by exactly the returned transaction, and the chain is unchanged |
| `Chain.TriChain.CreateMicroBlock` | blockchain/chain.py:27-37 | success iff the validators' votes pass the quorum. On success it appends exactly one block, linked to the old head, at index old length, carrying the old buffer, and it empties the buffer. On failure it raises `QuorumNotReached` and changes neither the chain nor the buffer. With distinct validators and a fraction of at most 1, it always succeeds. The invariant is kept |
| `Chain.TriChain.CreatePowCheckpoint` | blockchain/chain.py:39-44 | with difficulty 4 unless given: success iff mining the draft block succeeds. On success it appends one fresh checkpoint block with index old length, no transactions, the old head's hash as parent and the flag set, whose sealed hash has the required zeros. On failure the chain is unchanged. The buffer is never touched, and the invariant is kept |
| `Chain.TriChain.PohEvent` | blockchain/chain.py:49-50 | records one proof-of-history event and returns its digest, leaving the chain alone |
| `Chain.TriChain.ResolveAndAppend` | blockchain/chain.py:52-85 | it fails with `UnknownParentBlock` exactly when no block's hash equals the chosen block's parent, and then changes nothing. Otherwise the new chain is the old chain up to the first matching block, followed by the chosen block. Its length is at most old length + 1. The buffer is cleared, and the invariant is kept |
| `Poh.ProofOfHistory.constructor` | blockchain/poh.py:11-13 | the counter starts at 0, the digest is the hash of "TriadPoH", and no events are recorded |
| `Poh.ProofOfHistory.RecordEvent` | blockchain/poh.py:15-19 | the counter rises by exactly 1. The new digest is the hash of `previous:now:counter`, and it is the value returned. The digest stays equal to the replay of all recorded events |
| `Poh.DecimalRoundTrip` | blockchain/poh.py:17 | reading back the decimal text of a number gives the number |
| `Poh.EventText` | blockchain/poh.py:17 | the event text starts with the previous digest and a colon, and after that holds only colons and digits |
| `Poh.SplitAtLastColon` | blockchain/poh.py:17 | the part after the split holds no colon. A text with a colon is the part before, a colon and the part after. A text without one is all "after" |
| `Poh.EventTextRoundTrip` | blockchain/poh.py:17 | the previous digest, the clock reading and the counter can all be read back from an event text |
| `Poh.EventTextInjective` | blockchain/poh.py:17 | equal event texts have equal digests, readings and counters |
| `Poh.ConsecutiveTextsDiffer` | blockchain/poh.py:16-17 | two consecutive events hash different texts, whatever the digests and readings, because their counters differ |
| `Poh.SeedIsNoEvent` | blockchain/poh.py:12-17 | the seed label is never an event text |
| `Poh.Replay` | blockchain/poh.py:11-19 | the digest of an empty history is the hash of the seed label |
| `Poh.ReplaySnoc` | blockchain/poh.py:15-19 | one more reading gives the hash of the event text over the digest so far, with counter one past the history length |
| `Poh.ReplayInjective` | blockchain/poh.py:15-19 | with a collision-free hash, equal digests mean equal histories of readings (tamper evidence) |
| `Poh.ConsecutiveDigestsDiffer` | blockchain/poh.py:16-19 | with a collision-free hash, two consecutive events return different digests |
| `Scenarios.MicroBlockScenario` | tests/test_chain.py:14-20 | after one transaction and a micro block, the height is 2, the buffer is empty, and the head is the returned block |
| `Scenarios.GenesisScenario` | tests/test_chain.py:10-12 | a new ledger has height 1, and the genesis hash is the hash of its payload |
| `Scenarios.PowCheckpointScenario` | tests/test_chain.py:22-24 | a checkpoint at difficulty 2, when mined, has a hash starting with "00" and is the head |
| `Scenarios.PohEventScenario` | tests/test_chain.py:26-29 | with a collision-free hash, two events in a row return different digests |
| `Scenarios.ForkSwitchScenario` | tests/tests_forks.py:7-31 | after a micro block, attaching a block whose parent is genesis leaves height 2, and the chosen block is the head and is linked to genesis |
| `Scenarios.UnknownParentScenario` | tests/tests_forks.py:34-43 | a parent hash that matches no block is refused, and the height stays 1 |

## Left out

- SHA-256 and canonical JSON serialisation: modelled as the uninterpreted
  parameters `Hasher` and `TextHasher`. So no concrete digest is computed,
  and the malformed `separators` argument at blockchain/block.py:40 plays no
  part.
- Wall-clock time: readings are caller-supplied natural numbers, not floats.
  The float text that `time.time()` produces inside the proof-of-history
  payload is modelled as the decimal text of the reading.
- Floating point: the quorum fraction is an exact rational `num / den`. For
  some fractions, Python's float product `n * q` can round below a whole
  number, where the exact product does not. The `amount` coercion to float
  in the transaction record is not modelled: the amount is an integer.
- `Chain.TriChain.ResolveAndAppend`: takes the chosen block directly. The
  code it would call, `resolve_conflict`, and the proposal builder
  `propose_conflicting` used by the tests, are not defined in the consensus
  source. So double-voter detection, exclusion, the tie-break and the
  stamping of `double_voters` are not modelled.
- `validate_votes`' `hasattr(block, "votes")` branch: every block built by
  the constructor has a `votes` field, so that branch cannot be reached in
  the model.
- The tests `test_conflict_resolution_prefers_quorum` and
  `test_double_voting_detection_causes_rejection` in tests/test_forks.py:
  they call `propose_conflicting` and `resolve_conflict`, which the consensus
  source does not define.
- `PowCheckpointScenario`: the checkpoint test expects mining to succeed at
  difficulty 2. With an uninterpreted hash, success cannot be promised, so
  the scenario states the prefix only for the case where mining succeeds.
- `TriChain(validators)`: the raising constructor is split into a factory
  (`NewTriChain`, which returns `EmptyValidatorSet`) and a constructor that
  receives the built consensus value.
- `run_parallel` and the thread-pool executor: pure concurrency with no
  ledger logic.
- The command-line front end and the transaction dataclass' timestamp
  defaulting: argument parsing, printing, and a record with no logic.
- A block's fields could be changed by code outside the ledger, because the
  ledger keeps references to the blocks. The invariant is stated over the
  blocks' current fields and holds as long as only the ledger's methods
  touch them.
