/** Federated consensus: quorum arithmetic, simulated votes and proposals at
    the next height (blockchain/consensus.py). */
module Consensus {
  import opened Common
  import opened Blocks

  /** A positive denominator. */
  type Pos = x: int | x > 0 witness 1

  /** The ledger's default quorum, 0.51. */
  const DefaultQuorumNum: int := 51
  const DefaultQuorumDen: Pos := 100

  /** Python's `int(a / b)` for `b > 0`: the quotient rounded toward zero. */
  function TruncDiv(a: int, b: Pos): (q: int)
    ensures a >= 0 ==> 0 <= q && q * b <= a < (q + 1) * b
    ensures a < 0 ==> q <= 0 && (q - 1) * b < a <= q * b
  {
    var m := if a >= 0 then a else -a;
    var d := m / b;
    assert (d + 1) * b == d * b + b && (d - 1) * b == d * b - b;
    if a >= 0 then d else -d
  }

  /** `max(1, int(n * num / den))`: the number of valid votes a block needs. */
  function RequiredVotes(n: nat, num: int, den: Pos): (r: nat)
    ensures r >= 1
    ensures n * num >= den ==> r * den <= n * num < (r + 1) * den
    ensures n * num < den ==> r == 1
  {
    var t := TruncDiv(n * num, den);
    if t < 1 then 1 else t
  }

  /** The quorum rounds down: 5 validators at 0.51 need 2 votes, at 0.6 they
      need 3, and 3 validators at 0.51 need a single vote. */
  lemma QuorumExamples()
    ensures RequiredVotes(5, 51, 100) == 2
    ensures RequiredVotes(5, 60, 100) == 3
    ensures RequiredVotes(3, 51, 100) == 1
  {
  }

  /** As written, the quorum test accepts 2 of 5 votes at fraction 0.51, a
      share of 40%, below both the fraction and a simple majority. */
  lemma TruncatedQuorumAcceptsMinority()
    ensures var c := FederatedConsensus(["v1", "v2", "v3", "v4", "v5"], DefaultQuorumNum, DefaultQuorumDen);
      && c.ValidateVotes(["v1", "v2"])
      && 2 * DefaultQuorumDen < |c.validators| * DefaultQuorumNum
      && 2 * 2 < |c.validators|
  {
    var c := FederatedConsensus(["v1", "v2", "v3", "v4", "v5"], DefaultQuorumNum, DefaultQuorumDen);
    assert c.CountedVoters(["v1", "v2"]) == {"v1", "v2"};
  }

  /** The evidently intended count, `max(1, ceil(n * num / den))`: the least
      number of votes whose share reaches the fraction. */
  function CeilRequiredVotes(n: nat, num: int, den: Pos): (r: nat)
    ensures r >= 1
    ensures r * den >= n * num
    ensures r == 1 || (r - 1) * den < n * num
  {
    var t := TruncDiv(n * num, den);
    var c := if t * den < n * num then t + 1 else t;
    if c < 1 then 1 else c
  }

  /** Rounded up, 5 validators at 0.51 need 3 votes, and 3 at 0.51 need 2. */
  lemma CeilQuorumExamples()
    ensures CeilRequiredVotes(5, 51, 100) == 3
    ensures CeilRequiredVotes(3, 51, 100) == 2
  {
  }

  /** With the rounded-up count, any accepted number of votes has a share of
      at least the fraction. */
  lemma CeilQuorumMeetsFraction(n: nat, num: int, den: Pos, k: nat)
    requires k >= CeilRequiredVotes(n, num, den)
    ensures k * den >= n * num
  {
    var r := CeilRequiredVotes(n, num, den);
    assert k * den >= r * den by {
      assert (k - r) * den >= 0;
    }
  }

  /** A quorum fraction of at most 1 never asks for more votes than there are
      validators. */
  lemma RequiredAtMostValidators(n: nat, num: int, den: Pos)
    requires n >= 1 && num <= den
    ensures RequiredVotes(n, num, den) <= n
  {
    var r := RequiredVotes(n, num, den);
    if n * num >= den {
      assert n * num <= n * den by {
        assert n * (den - num) >= 0;
      }
      assert r * den <= n * den;
    }
  }

  /** The validator set and quorum fraction `quorumNum / quorumDen`, fixed at
      construction. */
  datatype FederatedConsensus = FederatedConsensus(validators: seq<Validator>, quorumNum: int, quorumDen: Pos)
  {
    /** Every validator votes (no network failures are simulated). */
    function SimulateVotes(): (votes: seq<Validator>)
      ensures |votes| == |validators|
      ensures forall i :: 0 <= i < |votes| ==> votes[i] == validators[i]
    {
      validators
    }

    function Required(): (r: nat)
      ensures r >= 1
    {
      RequiredVotes(|validators|, quorumNum, quorumDen)
    }

    /** The distinct voters that are known validators. */
    function CountedVoters(votes: seq<Validator>): (s: set<Validator>)
      ensures forall i :: 0 <= i < |votes| && votes[i] in validators ==> votes[i] in s
      ensures forall v :: v in s ==> v in votes && v in validators
    {
      set v | v in votes && v in validators
    }

    /** The number of counted voters: never more than the votes cast, nor
        than the validator list is long. */
    function ValidVoteCount(votes: seq<Validator>): (n: nat)
      ensures n <= |votes| && n <= |validators|
    {
      var s := CountedVoters(votes);
      SubsetCard(s, set v | v in votes);
      SubsetCard(s, set v | v in validators);
      SeqSetCard(votes);
      SeqSetCard(validators);
      |s|
    }

    /** `validate_votes`: enough distinct, known voters. An accepted block
        carries at least the required number of votes, and at least one. */
    predicate ValidateVotes(votes: seq<Validator>)
      ensures ValidateVotes(votes) ==> |votes| >= Required() >= 1
      ensures ValidateVotes(votes) ==> |validators| >= Required()
    {
      ValidVoteCount(votes) >= Required()
    }

    /** Builds the proposal at the next height on top of `chain`, with every
        validator's vote attached. */
    method Vote(chain: seq<Block>, transactions: seq<Tx>, now: Time, H: Hasher) returns (b: Block)
      requires |chain| > 0
      ensures fresh(b)
      ensures b.index == |chain| && b.prevHash == chain[|chain| - 1].hash && !b.powCheckpoint
      ensures b.transactions == transactions && b.timestamp == now && b.nonce == 0
      ensures b.Sealed(H)
      ensures b.votes == validators && b.doubleVoters == {}
    {
      var prevHash := chain[|chain| - 1].hash;
      var votes := SimulateVotes();
      b := new Block(|chain|, transactions, prevHash, false, now, H);
      b.votes := votes;
    }
  }

  /** Construction fails exactly when the validator list is empty. */
  function NewConsensus(validators: seq<Validator>, quorumNum: int, quorumDen: Pos): (r: Result<FederatedConsensus>)
    ensures r.Err? <==> |validators| == 0
    ensures r.Err? ==> r.error == EmptyValidatorSet
    ensures r.Ok? ==> r.value.validators == validators
    ensures r.Ok? ==> r.value.quorumNum == quorumNum && r.value.quorumDen == quorumDen
  {
    if |validators| == 0 then Err(EmptyValidatorSet)
    else Ok(FederatedConsensus(validators, quorumNum, quorumDen))
  }

  /** The list without repeats, keeping first occurrences in order (what
      `list(dict.fromkeys(validators))` gives). */
  function Dedup(s: seq<Validator>): (d: seq<Validator>)
    ensures Distinct(d)
    ensures forall v :: v in d <==> v in s
    ensures |d| <= |s|
    decreases |s|
  {
    if |s| == 0 then []
    else
      var init := Dedup(s[..|s| - 1]);
      if s[|s| - 1] in init then init else init + [s[|s| - 1]]
  }

  /** Construction with repeated identifiers dropped: fails exactly on an
      empty list, and otherwise every block `vote` builds passes the quorum
      test whenever the fraction is at most 1. */
  function NewDistinctConsensus(validators: seq<Validator>, quorumNum: int, quorumDen: Pos): (r: Result<FederatedConsensus>)
    ensures r.Err? <==> |validators| == 0
    ensures r.Err? ==> r.error == EmptyValidatorSet
    ensures r.Ok? ==> Distinct(r.value.validators) && forall v :: v in r.value.validators <==> v in validators
    ensures r.Ok? && quorumNum <= quorumDen ==> r.value.ValidateVotes(r.value.SimulateVotes())
  {
    if |validators| == 0 then Err(EmptyValidatorSet)
    else
      var c := FederatedConsensus(Dedup(validators), quorumNum, quorumDen);
      assert validators[0] in c.validators;
      if quorumNum <= quorumDen then SimulatedVotesValidate(c); Ok(c) else Ok(c)
  }

  /** One more vote adds one to the count exactly when it comes from a known
      validator who has not voted yet: duplicates and strangers count nothing. */
  lemma AddVote(c: FederatedConsensus, votes: seq<Validator>, v: Validator)
    ensures c.ValidVoteCount(votes + [v]) ==
      c.ValidVoteCount(votes) + (if v !in votes && v in c.validators then 1 else 0)
  {
    var before := c.CountedVoters(votes);
    var after := c.CountedVoters(votes + [v]);
    if v !in votes && v in c.validators {
      assert after == before + {v};
    } else {
      assert after == before;
    }
  }

  /** The count depends only on which identifiers voted, not on their order
      or multiplicity. */
  lemma CountDependsOnVoterSet(c: FederatedConsensus, votes: seq<Validator>, others: seq<Validator>)
    requires forall v :: v in votes <==> v in others
    ensures c.ValidVoteCount(votes) == c.ValidVoteCount(others)
  {
    assert c.CountedVoters(votes) == c.CountedVoters(others);
  }

  /** Adding votes never turns an accepted block into a rejected one. */
  lemma ValidateMonotone(c: FederatedConsensus, votes: seq<Validator>, more: seq<Validator>)
    requires forall v :: v in votes ==> v in more
    ensures c.ValidateVotes(votes) ==> c.ValidateVotes(more)
  {
    assert c.CountedVoters(votes) <= c.CountedVoters(more);
    SubsetCard(c.CountedVoters(votes), c.CountedVoters(more));
  }

  /** Appending votes to a block's vote list never rejects an accepted block. */
  lemma ValidateAppendMonotone(c: FederatedConsensus, votes: seq<Validator>, extra: seq<Validator>)
    ensures c.ValidateVotes(votes) ==> c.ValidateVotes(votes + extra)
  {
    ValidateMonotone(c, votes, votes + extra);
  }

  /** A block without votes is rejected, since at least one vote is required. */
  lemma NoVotesRejected(c: FederatedConsensus)
    ensures !c.ValidateVotes([])
  {
  }

  /** An accepted block carries the vote of at least one known validator. */
  lemma AcceptedHasKnownVoter(c: FederatedConsensus, votes: seq<Validator>)
    requires c.ValidateVotes(votes)
    ensures exists v :: v in votes && v in c.validators
  {
  }

  /** With distinct validators and a quorum fraction of at most 1, the votes
      `vote` attaches always validate. */
  lemma {:induction false} SimulatedVotesValidate(c: FederatedConsensus)
    requires |c.validators| > 0 && Distinct(c.validators)
    requires c.quorumNum <= c.quorumDen
    ensures c.ValidateVotes(c.SimulateVotes())
  {
    assert c.CountedVoters(c.validators) == set v | v in c.validators;
    DistinctSetSize(c.validators);
    RequiredAtMostValidators(|c.validators|, c.quorumNum, c.quorumDen);
  }

  /** Without distinct identifiers the previous lemma fails: `["a", "a"]` at
      quorum 1 needs two votes but only one distinct voter exists. */
  lemma DuplicateValidatorsReject()
    ensures var c := FederatedConsensus(["a", "a"], 1, 1);
      c.quorumNum <= c.quorumDen && !c.ValidateVotes(c.SimulateVotes())
  {
    var c := FederatedConsensus(["a", "a"], 1, 1);
    assert c.CountedVoters(["a", "a"]) == {"a"};
    assert c.Required() == 2;
  }

  lemma SubsetCard<T>(a: set<T>, b: set<T>)
    requires a <= b
    ensures |a| <= |b|
  {
    assert b == a + (b - a);
  }

  /** A sequence has at most as many distinct members as it is long. */
  lemma {:induction false} SeqSetCard<T>(s: seq<T>)
    ensures |set v | v in s| <= |s|
  {
    if |s| > 0 {
      var init := s[..|s| - 1];
      SeqSetCard(init);
      assert (set v | v in s) == (set v | v in init) + {s[|s| - 1]};
    } else {
      assert (set v | v in s) == {};
    }
  }

  lemma {:induction false} DistinctSetSize(s: seq<Validator>)
    requires Distinct(s)
    ensures |set v | v in s| == |s|
  {
    if |s| > 0 {
      var init := s[..|s| - 1];
      assert Distinct(init);
      DistinctSetSize(init);
      assert (set v | v in s) == (set v | v in init) + {s[|s| - 1]};
      assert s[|s| - 1] !in init;
    } else {
      assert (set v | v in s) == {};
    }
  }
}
