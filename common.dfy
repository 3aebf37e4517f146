/** Shared vocabulary of the ledger model: clock readings, digests, validator
    identifiers and the failure conditions the ledger and consensus raise. */
module Common {

  /** A reading of the wall clock. The source reads `time.time()`; here a reading
      is an abstract tick count supplied by the caller. */
  type Time = nat

  /** A hex-encoded digest, as text. */
  type Digest = string

  /** A validator identifier. */
  type Validator = string

  datatype Option<T> = None | Some(value: T)

  /** The conditions the source raises (as `ValueError` / `RuntimeError`). */
  datatype Error =
    | EmptyValidatorSet      // consensus constructed with no validators
    | QuorumNotReached       // a proposal did not collect enough valid votes
    | UnknownParentBlock     // the chosen block's parent hash is not in the chain
    | ProofOfWorkExhausted   // no nonce below the attempt budget qualified

  datatype Result<T> = Ok(value: T) | Err(error: Error)

  /** No identifier occurs twice. */
  predicate Distinct(s: seq<Validator>)
  {
    forall i, j :: 0 <= i < j < |s| ==> s[i] != s[j]
  }
}
