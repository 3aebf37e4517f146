/** Six of the repository's test scenarios, written as client code of the
    ledger whose postconditions are the tests' assertions. Each holds for every
    hash function and every clock, except where a precondition says otherwise. */
module Scenarios {
  import opened Common
  import opened Blocks
  import opened Consensus
  import opened Chain

  /** A new ledger holds exactly the genesis block, whose hash is its sealed
      payload hash. */
  method GenesisScenario(H: Hasher, T: Poh.TextHasher, t0: Time)
    returns (height: nat, genesisHash: Digest)
    ensures height == 1 && genesisHash == H(Payload(0, [], GenesisPrevHash, t0, 0, false))
  {
    var created := NewTriChain(["a", "b", "c"], H, T, t0);
    var ledger := created.value;
    height := |ledger.chain|;
    genesisHash := ledger.chain[0].hash;
  }

  /** A checkpoint at difficulty 2, when mining succeeds, has a hash starting
      with "00" and becomes the head. */
  method PowCheckpointScenario(H: Hasher, T: Poh.TextHasher, t0: Time, t1: Time, clock: seq<Time>)
    returns (mined: bool, prefixed: bool, headIsCheckpoint: bool)
    requires DefaultMaxAttempts <= |clock|
    ensures mined ==> prefixed && headIsCheckpoint
  {
    var created := NewTriChain(["a", "b", "c"], H, T, t0);
    var ledger := created.value;
    var chk := ledger.CreatePowCheckpoint(t1, clock, 2);
    mined := chk.Ok?;
    prefixed := mined && StartsWith(chk.value.hash, "00");
    headIsCheckpoint := mined && ledger.chain[|ledger.chain| - 1] == chk.value;
    if mined {
      assert ZeroPrefix(2) == "00";
    }
  }

  /** Two proof-of-history events in a row return different digests, for a
      hash without collisions. */
  method PohEventScenario(H: Hasher, T: Poh.TextHasher, t0: Time, t1: Time, t2: Time)
    returns (d1: Digest, d2: Digest)
    requires Poh.CollisionFree(T)
    ensures d1 != d2
  {
    var created := NewTriChain(["a", "b", "c"], H, T, t0);
    var ledger := created.value;
    d1 := ledger.PohEvent(t1);
    d2 := ledger.PohEvent(t2);
    assert ledger.poh.events == [t1, t2];
    Poh.ConsecutiveDigestsDiffer(T, [], t1, t2);
  }

  /** A transaction followed by a micro block: the buffer empties and the new
      head is the returned block, linked to genesis. */
  method MicroBlockScenario(H: Hasher, T: Poh.TextHasher, t0: Time, t1: Time, t2: Time)
    returns (height: nat, pending: nat, headIsBlock: bool)
    ensures height == 2 && pending == 0 && headIsBlock
  {
    var created := NewTriChain(["a", "b", "c"], H, T, t0);
    var ledger := created.value;
    var tx := ledger.AddTransaction("alice", "bob", 123, t1);
    assert |ledger.currentTransactions| == 1;
    var blk := ledger.CreateMicroBlock(t2);
    height := |ledger.chain|;
    pending := |ledger.currentTransactions|;
    headIsBlock := ledger.chain[height - 1] == blk.value;
  }

  /** A fork switch to an earlier parent: after one micro block, a block whose
      parent is genesis replaces the head, and the height stays 2. */
  method ForkSwitchScenario(H: Hasher, T: Poh.TextHasher, t0: Time, t1: Time, t2: Time)
    returns (height: nat, headIsChosen: bool, parentIsGenesis: bool)
    ensures height == 2 && headIsChosen && parentIsGenesis
  {
    var created := NewTriChain(["v1", "v2", "v3", "v4", "v5"], H, T, t0);
    var ledger := created.value;
    var micro := ledger.CreateMicroBlock(t1);
    assert |ledger.chain| == 2;
    var genesis := ledger.chain[0];
    var chosen := new Block(1, [], genesis.hash, false, t2, H);
    chosen.votes := ["v1", "v2", "v3"];
    assert Hashes(ledger.chain)[0] == genesis.hash;
    var resolved := ledger.ResolveAndAppend(chosen);
    height := |ledger.chain|;
    headIsChosen := ledger.chain[height - 1] == chosen;
    parentIsGenesis := ledger.chain[height - 1].prevHash == genesis.hash;
  }

  /** A parent hash that matches no block of the chain is refused and the
      height stays 1. */
  method UnknownParentScenario(H: Hasher, T: Poh.TextHasher, t0: Time, t1: Time)
    returns (failed: bool, height: nat)
    requires H(Payload(0, [], GenesisPrevHash, t0, 0, false)) != "deadbeef"
    ensures failed && height == 1
  {
    var created := NewTriChain(["v1", "v2", "v3", "v4", "v5"], H, T, t0);
    var ledger := created.value;
    var p := new Block(1, [], "deadbeef", false, t1, H);
    p.votes := ["v1", "v2", "v3"];
    assert ledger.chain[0].Fields() == Payload(0, [], GenesisPrevHash, t0, 0, false);
    assert Hashes(ledger.chain) == [ledger.chain[0].hash];
    var resolved := ledger.ResolveAndAppend(p);
    failed := resolved.Err?;
    height := |ledger.chain|;
  }
}
