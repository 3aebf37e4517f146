/** Blocks: the content hash over six fields and the bounded proof-of-work
    search (blockchain/block.py). */
module Blocks {
  import opened Common

  /** A transaction as it appears inside a block (the `to_dict()` form of the
      transaction record); opaque to the ledger beyond being hashed. */
  datatype Tx = Tx(sender: string, receiver: string, amount: int, timestamp: Time)

  /** The six fields that go into the canonical hash payload. Votes and
      double voters are not part of it. */
  datatype Payload = Payload(
    index: int,
    transactions: seq<Tx>,
    prevHash: Digest,
    timestamp: Time,
    nonce: nat,
    powCheckpoint: bool)

  /** The external (export) view of a block: the payload plus the stored hash. */
  datatype BlockRecord = BlockRecord(
    index: int,
    transactions: seq<Tx>,
    prevHash: Digest,
    powCheckpoint: bool,
    timestamp: Time,
    nonce: nat,
    hash: Digest)

  /** SHA-256 of the canonical JSON encoding of a payload, left uninterpreted. */
  type Hasher = Payload -> Digest

  /** The default number of leading zeros, and the default attempt budget. */
  const DefaultDifficulty: int := 4
  const DefaultMaxAttempts: int := 1_000_000

  /** `"0" * d` */
  function ZeroPrefix(d: nat): (p: string)
    ensures |p| == d
    ensures forall i :: 0 <= i < d ==> p[i] == '0'
  {
    seq(d, _ => '0')
  }

  /** Python's `s.startswith(prefix)`. */
  predicate StartsWith(s: string, prefix: string)
  {
    |prefix| <= |s| && s[..|prefix|] == prefix
  }

  /** A digest passes difficulty `d` exactly when its first `d` characters are '0'. */
  lemma ZeroPrefixMeaning(h: string, d: nat)
    ensures StartsWith(h, ZeroPrefix(d)) <==> d <= |h| && forall i :: 0 <= i < d ==> h[i] == '0'
  {
  }

  /** The payload hashed at attempt `k`: nonce `k` and the `k`-th clock reading. */
  function Attempt(p: Payload, k: nat, clock: seq<Time>): (q: Payload)
    requires k < |clock|
  {
    p.(nonce := k, timestamp := clock[k])
  }

  /** Attempt `k` yields a hash with the required prefix. */
  predicate Hits(H: Hasher, p: Payload, prefix: string, clock: seq<Time>, k: nat)
    requires k < |clock|
  {
    StartsWith(H(Attempt(p, k, clock)), prefix)
  }

  /** The first attempt in `[k, maxAttempts)` that hits, if any: the search the
      proof-of-work loop performs. */
  function Search(H: Hasher, p: Payload, prefix: string, clock: seq<Time>, k: nat, maxAttempts: int): (r: Option<nat>)
    requires maxAttempts <= |clock|
    ensures r.Some? ==> k <= r.value < maxAttempts && Hits(H, p, prefix, clock, r.value)
    ensures k >= maxAttempts ==> r.None?
    decreases maxAttempts - k
  {
    if k >= maxAttempts then None
    else if Hits(H, p, prefix, clock, k) then Some(k)
    else Search(H, p, prefix, clock, k + 1, maxAttempts)
  }

  /** A found nonce is the first hit: it is in range, it hits, and every
      earlier attempt missed. */
  lemma {:induction false} SearchFound(H: Hasher, p: Payload, prefix: string, clock: seq<Time>, k: nat, maxAttempts: int, n: nat)
    requires maxAttempts <= |clock|
    requires Search(H, p, prefix, clock, k, maxAttempts) == Some(n)
    ensures k <= n < maxAttempts
    ensures Hits(H, p, prefix, clock, n)
    ensures forall j :: k <= j < n ==> !Hits(H, p, prefix, clock, j)
    decreases maxAttempts - k
  {
    if !Hits(H, p, prefix, clock, k) {
      SearchFound(H, p, prefix, clock, k + 1, maxAttempts, n);
    }
  }

  /** When the search fails, no attempt in range hits. */
  lemma {:induction false} SearchExhausted(H: Hasher, p: Payload, prefix: string, clock: seq<Time>, k: nat, maxAttempts: int)
    requires maxAttempts <= |clock|
    requires Search(H, p, prefix, clock, k, maxAttempts) == None
    ensures forall j :: k <= j < maxAttempts ==> !Hits(H, p, prefix, clock, j)
    decreases maxAttempts - k
  {
    if k < maxAttempts {
      SearchExhausted(H, p, prefix, clock, k + 1, maxAttempts);
    }
  }

  /** With difficulty 0 the prefix is empty, so the first attempt succeeds. */
  lemma ZeroDifficultyFirstAttempt(H: Hasher, p: Payload, clock: seq<Time>, maxAttempts: int)
    requires 1 <= maxAttempts <= |clock|
    ensures Search(H, p, ZeroPrefix(0), clock, 0, maxAttempts) == Some(0)
  {
  }

  class Block {
    var index: int
    var transactions: seq<Tx>
    var prevHash: Digest
    var powCheckpoint: bool
    var timestamp: Time
    var nonce: nat
    var hash: Digest
    /** Consensus metadata, attached after construction; not hashed. */
    var votes: seq<Validator>
    var doubleVoters: set<Validator>

    /** The hashed payload built from the current field values. */
    function Fields(): (p: Payload)
      reads this
      ensures p.index == index && p.transactions == transactions && p.prevHash == prevHash
      ensures p.timestamp == timestamp && p.nonce == nonce && p.powCheckpoint == powCheckpoint
    {
      Payload(index, transactions, prevHash, timestamp, nonce, powCheckpoint)
    }

    /** The hash can be recomputed from the exported record alone. */
    function ComputeHash(H: Hasher): (h: Digest)
      reads this
      ensures var d := ToDict();
        h == H(Payload(d.index, d.transactions, d.prevHash, d.timestamp, d.nonce, d.powCheckpoint))
    {
      H(Fields())
    }

    /** The hash invariant: the stored hash is the hash of the current fields. */
    ghost predicate Sealed(H: Hasher)
      reads this
    {
      hash == ComputeHash(H)
    }

    function ToDict(): (r: BlockRecord)
      reads this
      ensures r.hash == hash
      ensures Payload(r.index, r.transactions, r.prevHash, r.timestamp, r.nonce, r.powCheckpoint) == Fields()
    {
      BlockRecord(index, transactions, prevHash, powCheckpoint, timestamp, nonce, hash)
    }

    constructor (index: int, transactions: seq<Tx>, prevHash: Digest, powCheckpoint: bool, now: Time, H: Hasher)
      ensures this.index == index && this.transactions == transactions
      ensures this.prevHash == prevHash && this.powCheckpoint == powCheckpoint
      ensures timestamp == now && nonce == 0
      ensures Sealed(H)
      ensures votes == [] && doubleVoters == {}
    {
      this.index := index;
      this.transactions := transactions;
      this.prevHash := prevHash;
      this.powCheckpoint := powCheckpoint;
      timestamp := now;
      nonce := 0;
      hash := H(Payload(index, transactions, prevHash, now, 0, powCheckpoint));
      votes := [];
      doubleVoters := {};
    }

    /** Tries nonces 0, 1, ... below `maxAttempts`, re-reading the clock on every
        attempt, and keeps the first hash that starts with `difficulty` zeros.
        On failure the nonce and timestamp of the last attempt stay behind but
        the stored hash is not updated. */
    method ProofOfWork(difficulty: int, maxAttempts: int, clock: seq<Time>, H: Hasher) returns (r: Result<Digest>)
      requires difficulty >= 0
      requires maxAttempts <= |clock|
      modifies this
      ensures index == old(index) && transactions == old(transactions)
      ensures prevHash == old(prevHash) && powCheckpoint == old(powCheckpoint)
      ensures votes == old(votes) && doubleVoters == old(doubleVoters)
      ensures r.Ok? <==> Search(H, old(Fields()), ZeroPrefix(difficulty), clock, 0, maxAttempts).Some?
      ensures r.Ok? ==>
        && Search(H, old(Fields()), ZeroPrefix(difficulty), clock, 0, maxAttempts) == Some(nonce)
        && nonce < maxAttempts
        && timestamp == clock[nonce]
        && hash == r.value && Sealed(H)
        && StartsWith(r.value, ZeroPrefix(difficulty))
        && forall j :: 0 <= j < nonce ==> !Hits(H, old(Fields()), ZeroPrefix(difficulty), clock, j)
      ensures r.Err? ==>
        && r.error == ProofOfWorkExhausted
        && hash == old(hash)
        && (forall j :: 0 <= j < maxAttempts ==> !Hits(H, old(Fields()), ZeroPrefix(difficulty), clock, j))
        && (maxAttempts >= 1 ==> nonce == maxAttempts - 1 && timestamp == clock[maxAttempts - 1])
        && (maxAttempts < 1 ==> nonce == old(nonce) && timestamp == old(timestamp))
    {
      var prefix := ZeroPrefix(difficulty);
      ghost var p0 := Fields();
      var attempts := 0;
      while attempts < maxAttempts
        invariant attempts == 0 || attempts <= maxAttempts
        invariant Search(H, p0, prefix, clock, 0, maxAttempts) == Search(H, p0, prefix, clock, attempts, maxAttempts)
        invariant Fields().(nonce := p0.nonce, timestamp := p0.timestamp) == p0
        invariant hash == old(hash) && votes == old(votes) && doubleVoters == old(doubleVoters)
        invariant attempts == 0 ==> nonce == old(nonce) && timestamp == old(timestamp)
        invariant attempts > 0 ==> nonce == attempts - 1 && timestamp == clock[attempts - 1]
      {
        nonce := attempts;
        timestamp := clock[attempts];
        var h := ComputeHash(H);
        if StartsWith(h, prefix) {
          hash := h;
          SearchFound(H, p0, prefix, clock, 0, maxAttempts, attempts);
          return Ok(h);
        }
        attempts := attempts + 1;
      }
      SearchExhausted(H, p0, prefix, clock, 0, maxAttempts);
      return Err(ProofOfWorkExhausted);
    }

    /** The older name for proof-of-work: the default attempt budget and, unless
        given, the default difficulty. */
    method Mine(clock: seq<Time>, H: Hasher, difficulty: int := DefaultDifficulty) returns (r: Result<Digest>)
      requires difficulty >= 0
      requires DefaultMaxAttempts <= |clock|
      modifies this
      ensures index == old(index) && transactions == old(transactions)
      ensures prevHash == old(prevHash) && powCheckpoint == old(powCheckpoint)
      ensures votes == old(votes) && doubleVoters == old(doubleVoters)
      ensures r.Ok? <==> Search(H, old(Fields()), ZeroPrefix(difficulty), clock, 0, DefaultMaxAttempts).Some?
      ensures r.Ok? ==>
        && Search(H, old(Fields()), ZeroPrefix(difficulty), clock, 0, DefaultMaxAttempts) == Some(nonce)
        && nonce < DefaultMaxAttempts
        && timestamp == clock[nonce]
        && hash == r.value && Sealed(H)
        && StartsWith(r.value, ZeroPrefix(difficulty))
        && forall j :: 0 <= j < nonce ==> !Hits(H, old(Fields()), ZeroPrefix(difficulty), clock, j)
      ensures r.Err? ==>
        && r.error == ProofOfWorkExhausted
        && hash == old(hash)
        && (forall j :: 0 <= j < DefaultMaxAttempts ==> !Hits(H, old(Fields()), ZeroPrefix(difficulty), clock, j))
        && nonce == DefaultMaxAttempts - 1 && timestamp == clock[DefaultMaxAttempts - 1]
    {
      r := ProofOfWork(difficulty, DefaultMaxAttempts, clock, H);
    }
  }

  /** The hash is a function of the six payload fields only: two blocks that
      agree on them hash alike, whatever their votes and double voters. */
  lemma HashIgnoresAnnotations(a: Block, b: Block, H: Hasher)
    requires a.index == b.index && a.transactions == b.transactions && a.prevHash == b.prevHash
    requires a.timestamp == b.timestamp && a.nonce == b.nonce && a.powCheckpoint == b.powCheckpoint
    ensures a.ComputeHash(H) == b.ComputeHash(H)
  {
  }
}
