/** The ledger: the canonical chain of blocks and the pending-transaction
    buffer, grown by voted micro blocks and proof-of-work checkpoints and
    switched to another branch by `resolve_and_append` (blockchain/chain.py). */
module Chain {
  import opened Common
  import opened Blocks
  import opened Consensus
  import opened Poh

  /** The parent hash the genesis block declares. */
  const GenesisPrevHash: Digest := "0"

  /** The stored hashes of a sequence of blocks, in order. */
  function Hashes(bs: seq<Block>): (hs: seq<Digest>)
    reads bs
    ensures |hs| == |bs|
    ensures forall i :: 0 <= i < |bs| ==> hs[i] == bs[i].hash
    decreases |bs|
  {
    if |bs| == 0 then [] else Hashes(bs[..|bs| - 1]) + [bs[|bs| - 1].hash]
  }

  /** The lowest position holding `target`, if any. */
  function FindFirst(hs: seq<Digest>, target: Digest): (r: Option<nat>)
    ensures r.Some? ==> r.value < |hs| && hs[r.value] == target
    ensures r.Some? ==> forall j :: 0 <= j < r.value ==> hs[j] != target
    ensures r.None? <==> target !in hs
    decreases |hs|
  {
    if |hs| == 0 then None
    else if hs[0] == target then Some(0)
    else
      match FindFirst(hs[1..], target)
      case None => None
      case Some(k) => Some(k + 1)
  }

  /** Chain linkage: every block names its predecessor's hash as its parent. */
  ghost predicate Linked(bs: seq<Block>)
    reads bs
  {
    forall i :: 0 < i < |bs| ==> bs[i].prevHash == bs[i - 1].hash
  }

  /** Appending a block whose parent is the head keeps the chain linked. */
  lemma LinkedAppend(bs: seq<Block>, b: Block)
    requires Linked(bs) && |bs| > 0 && b.prevHash == bs[|bs| - 1].hash
    ensures Linked(bs + [b])
  {
  }

  /** Cutting the chain after position `p` and attaching a block whose parent
      is the block at `p` keeps the chain linked. */
  lemma LinkedForkSwitch(bs: seq<Block>, p: nat, b: Block)
    requires Linked(bs) && p < |bs| && b.prevHash == bs[p].hash
    ensures Linked(bs[..p + 1] + [b])
  {
  }

  class TriChain {
    var chain: seq<Block>
    var currentTransactions: seq<Tx>
    const validators: seq<Validator>
    const consensus: FederatedConsensus
    const poh: ProofOfHistory
    /** SHA-256 over canonical block payloads. */
    const hasher: Hasher

    /** The chain is non-empty, starts with a genesis block and is linked. */
    ghost predicate Valid()
      reads this, chain, poh
    {
      && |chain| >= 1
      && chain[0].index == 0 && chain[0].transactions == [] && chain[0].prevHash == GenesisPrevHash
      && Linked(chain)
      && consensus.validators == validators && |validators| > 0
      && poh.Valid()
    }

    /** Everything `TriChain(validators)` does once the consensus object exists. */
    constructor (consensus: FederatedConsensus, hasher: Hasher, textHasher: TextHasher, now: Time)
      requires |consensus.validators| > 0
      ensures Valid() && fresh(poh)
      ensures validators == consensus.validators && this.consensus == consensus && this.hasher == hasher
      ensures |chain| == 1 && fresh(chain[0])
      ensures !chain[0].powCheckpoint && chain[0].timestamp == now && chain[0].nonce == 0
      ensures chain[0].Sealed(hasher) && chain[0].votes == []
      ensures currentTransactions == []
      ensures poh.counter == 0 && poh.lastDigest == textHasher(Seed) && poh.hasher == textHasher
    {
      chain := [];
      currentTransactions := [];
      validators := consensus.validators;
      this.consensus := consensus;
      poh := new ProofOfHistory(textHasher);
      this.hasher := hasher;
      new;
      CreateGenesisBlock(now);
    }

    /** Appends the genesis block: height 0, no transactions, parent "0". */
    method CreateGenesisBlock(now: Time)
      modifies this`chain
      ensures |chain| == |old(chain)| + 1 && chain[..|old(chain)|] == old(chain)
      ensures var g := chain[|chain| - 1];
        && fresh(g)
        && g.index == 0 && g.transactions == [] && g.prevHash == GenesisPrevHash && !g.powCheckpoint
        && g.timestamp == now && g.nonce == 0 && g.Sealed(hasher) && g.votes == []
      ensures |old(chain)| == 0 && consensus.validators == validators && |validators| > 0 && poh.Valid() ==> Valid()
    {
      var genesis := new Block(0, [], GenesisPrevHash, false, now, hasher);
      chain := chain + [genesis];
    }

    /** Adds a transaction to the pending buffer; the chain is untouched. */
    method AddTransaction(sender: string, receiver: string, amount: int, now: Time) returns (tx: Tx)
      requires Valid()
      modifies this`currentTransactions
      ensures Valid()
      ensures tx == Tx(sender, receiver, amount, now)
      ensures currentTransactions == old(currentTransactions) + [tx]
      ensures chain == old(chain)
    {
      tx := Tx(sender, receiver, amount, now);
      currentTransactions := currentTransactions + [tx];
    }

    /** Proposes the pending transactions as a voted block at the next height;
        appends it and empties the buffer only if it reaches quorum. */
    method CreateMicroBlock(now: Time) returns (r: Result<Block>)
      requires Valid()
      modifies this`chain, this`currentTransactions
      ensures Valid()
      ensures r.Ok? <==> consensus.ValidateVotes(validators)
      ensures r.Ok? ==>
        && fresh(r.value)
        && chain == old(chain) + [r.value]
        && currentTransactions == []
        && r.value.index == |old(chain)| && r.value.prevHash == old(chain)[|old(chain)| - 1].hash
        && r.value.transactions == old(currentTransactions) && !r.value.powCheckpoint
        && r.value.timestamp == now && r.value.nonce == 0 && r.value.Sealed(hasher)
        && r.value.votes == validators
      ensures r.Err? ==>
        r.error == QuorumNotReached && chain == old(chain) && currentTransactions == old(currentTransactions)
      ensures Distinct(validators) && consensus.quorumNum <= consensus.quorumDen ==> r.Ok?
    {
      if Distinct(validators) && consensus.quorumNum <= consensus.quorumDen {
        SimulatedVotesValidate(consensus);
      }
      var block := consensus.Vote(chain, currentTransactions, now, hasher);
      if consensus.ValidateVotes(block.votes) {
        currentTransactions := [];
        LinkedAppend(chain, block);
        chain := chain + [block];
        return Ok(block);
      }
      return Err(QuorumNotReached);
    }

    /** Builds an empty proof-of-work block on the head and mines it with the
        default attempt budget; appends it only if mining succeeds. The pending
        buffer is left as it is. */
    method CreatePowCheckpoint(created: Time, clock: seq<Time>, difficulty: int := DefaultDifficulty) returns (r: Result<Block>)
      requires Valid()
      requires difficulty >= 0
      requires DefaultMaxAttempts <= |clock|
      modifies this`chain
      ensures Valid()
      ensures currentTransactions == old(currentTransactions)
      ensures var head := old(chain)[|old(chain)| - 1].hash;
        var draft := Payload(|old(chain)|, [], head, created, 0, true);
        r.Ok? <==> Search(hasher, draft, ZeroPrefix(difficulty), clock, 0, DefaultMaxAttempts).Some?
      ensures r.Ok? ==>
        && fresh(r.value)
        && chain == old(chain) + [r.value]
        && r.value.index == |old(chain)| && r.value.transactions == []
        && r.value.prevHash == old(chain)[|old(chain)| - 1].hash && r.value.powCheckpoint
        && r.value.Sealed(hasher) && StartsWith(r.value.hash, ZeroPrefix(difficulty))
        && r.value.votes == []
      ensures r.Err? ==> r.error == ProofOfWorkExhausted && chain == old(chain)
    {
      var last := chain[|chain| - 1];
      var checkpoint := new Block(|chain|, [], last.hash, true, created, hasher);
      var mined := checkpoint.ProofOfWork(difficulty, DefaultMaxAttempts, clock, hasher);
      if mined.Err? {
        return Err(mined.error);
      }
      LinkedAppend(chain, checkpoint);
      chain := chain + [checkpoint];
      return Ok(checkpoint);
    }

    /** Records a proof-of-history event; the chain is untouched. */
    method PohEvent(now: Time) returns (d: Digest)
      requires Valid()
      modifies poh
      ensures Valid()
      ensures poh.counter == old(poh.counter) + 1 && poh.events == old(poh.events) + [now]
      ensures d == poh.lastDigest
    {
      d := poh.RecordEvent(now);
    }

    /** Attaches the block chosen by conflict resolution below the first
        (oldest) block whose hash is its parent hash, discarding every block
        after that parent, and clears the pending buffer. Fails, changing
        nothing, when no block of the chain is its parent. */
    method ResolveAndAppend(chosen: Block) returns (r: Result<Block>)
      requires Valid()
      modifies this`chain, this`currentTransactions
      ensures Valid()
      ensures var parent := FindFirst(old(Hashes(chain)), chosen.prevHash);
        && (r.Err? <==> parent.None?)
        && (r.Err? ==> r.error == UnknownParentBlock)
        && (r.Err? ==> chain == old(chain) && currentTransactions == old(currentTransactions))
        && (r.Ok? ==> r.value == chosen && chain == old(chain)[..parent.value + 1] + [chosen])
        && (r.Ok? ==> currentTransactions == [] && |chain| == parent.value + 2 <= |old(chain)| + 1)
    {
      var parentIndex: Option<nat> := None;
      var i := 0;
      while i < |chain|
        invariant 0 <= i <= |chain|
        invariant parentIndex.None?
        invariant forall j :: 0 <= j < i ==> chain[j].hash != chosen.prevHash
      {
        if chain[i].hash == chosen.prevHash {
          parentIndex := Some(i);
          break;
        }
        i := i + 1;
      }
      assert parentIndex == FindFirst(Hashes(chain), chosen.prevHash);
      if parentIndex.None? {
        return Err(UnknownParentBlock);
      }
      var p := parentIndex.value;
      LinkedForkSwitch(chain, p, chosen);
      chain := chain[..p + 1];
      chain := chain + [chosen];
      currentTransactions := [];
      return Ok(chosen);
    }
  }

  /** `TriChain(validators)`: fails when the validator list is empty; otherwise
      a chain holding only the genesis block, with the default 0.51 quorum. */
  method NewTriChain(validators: seq<Validator>, hasher: Hasher, textHasher: TextHasher, now: Time)
    returns (r: Result<TriChain>)
    ensures r.Err? <==> |validators| == 0
    ensures r.Err? ==> r.error == EmptyValidatorSet
    ensures r.Ok? ==>
      && fresh(r.value) && fresh(r.value.poh) && r.value.Valid()
      && r.value.validators == validators && r.value.hasher == hasher
      && r.value.consensus == FederatedConsensus(validators, DefaultQuorumNum, DefaultQuorumDen)
      && |r.value.chain| == 1 && r.value.chain[0].timestamp == now && r.value.chain[0].nonce == 0
      && !r.value.chain[0].powCheckpoint && r.value.chain[0].Sealed(hasher) && r.value.chain[0].votes == []
      && r.value.currentTransactions == []
      && r.value.poh.counter == 0 && r.value.poh.lastDigest == textHasher(Seed)
      && r.value.poh.hasher == textHasher && r.value.poh.events == []
  {
    var c := NewConsensus(validators, DefaultQuorumNum, DefaultQuorumDen);
    if c.Err? {
      return Err(c.error);
    }
    var ledger := new TriChain(c.value, hasher, textHasher, now);
    return Ok(ledger);
  }
}
