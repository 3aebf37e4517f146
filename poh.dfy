/** Proof of history: a rolling digest over `previous:time:counter` texts plus
    an event counter (blockchain/poh.py). */
module Poh {
  import opened Common

  /** SHA-256 of the UTF-8 bytes of a text, left uninterpreted. */
  type TextHasher = string -> Digest

  /** The label whose digest seeds the log. */
  const Seed: string := "TriadPoH"

  function Digit(d: nat): (c: char)
    requires d < 10
    ensures '0' <= c <= '9'
  {
    ('0' as int + d) as char
  }

  /** Decimal text of a natural number, as an f-string renders it. */
  function Decimal(n: nat): (s: string)
    ensures |s| >= 1
    ensures forall i :: 0 <= i < |s| ==> '0' <= s[i] <= '9'
    decreases n
  {
    if n < 10 then [Digit(n)] else Decimal(n / 10) + [Digit(n % 10)]
  }

  /** The number a string of digits denotes (reading from the right). */
  function DigitsValue(s: string): (v: int)
    ensures (forall i :: 0 <= i < |s| ==> '0' <= s[i] <= '9') ==> v >= 0
    decreases |s|
  {
    if |s| == 0 then 0 else DigitsValue(s[..|s| - 1]) * 10 + (s[|s| - 1] as int - '0' as int)
  }

  /** Reading back a decimal text gives the number. */
  lemma {:induction false} DecimalRoundTrip(n: nat)
    ensures DigitsValue(Decimal(n)) == n
    decreases n
  {
    if n >= 10 {
      var s := Decimal(n);
      assert s[..|s| - 1] == Decimal(n / 10);
      DecimalRoundTrip(n / 10);
    }
  }

  /** The text hashed for the `counter`-th event: `f"{prev}:{now}:{counter}"`. */
  function EventText(prev: Digest, now: Time, counter: nat): (s: string)
    ensures |s| >= |prev| + 4 && s[..|prev|] == prev && s[|prev|] == ':'
    ensures forall i :: |prev| < i < |s| ==> s[i] == ':' || '0' <= s[i] <= '9'
  {
    prev + ":" + Decimal(now) + ":" + Decimal(counter)
  }

  /** Splits a text at its last ':' into what comes before and after it. */
  function SplitAtLastColon(s: string): (r: (string, string))
    ensures ':' !in r.1
    ensures ':' in s ==> s == r.0 + ":" + r.1
    ensures ':' !in s ==> r == ("", s)
    decreases |s|
  {
    if |s| == 0 then ("", "")
    else if s[|s| - 1] == ':' then (s[..|s| - 1], "")
    else
      var (before, after) := SplitAtLastColon(s[..|s| - 1]);
      assert s == s[..|s| - 1] + [s[|s| - 1]];
      (before, after + [s[|s| - 1]])
  }

  lemma {:induction false} SplitAtLastColonInverse(x: string, c: string)
    requires ':' !in c
    ensures SplitAtLastColon(x + ":" + c) == (x, c)
    decreases |c|
  {
    var s := x + ":" + c;
    if |c| == 0 {
      assert s[..|s| - 1] == x;
    } else {
      var c' := c[..|c| - 1];
      assert s[..|s| - 1] == x + ":" + c';
      assert c == c' + [c[|c| - 1]];
      SplitAtLastColonInverse(x, c');
    }
  }

  /** Recovers prior digest, clock reading and counter from an event text. */
  function ParseEvent(text: string): (r: (Digest, int, int))
  {
    var (rest, counter) := SplitAtLastColon(text);
    var (prev, now) := SplitAtLastColon(rest);
    (prev, DigitsValue(now), DigitsValue(counter))
  }

  lemma NoColonInDecimal(n: nat)
    ensures ':' !in Decimal(n)
  {
  }

  /** The event text keeps each of its three parts recoverable. */
  lemma EventTextRoundTrip(prev: Digest, now: Time, counter: nat)
    ensures ParseEvent(EventText(prev, now, counter)) == (prev, now, counter)
  {
    NoColonInDecimal(now);
    NoColonInDecimal(counter);
    SplitAtLastColonInverse(prev + ":" + Decimal(now), Decimal(counter));
    SplitAtLastColonInverse(prev, Decimal(now));
    DecimalRoundTrip(now);
    DecimalRoundTrip(counter);
  }

  lemma EventTextInjective(p1: Digest, t1: Time, c1: nat, p2: Digest, t2: Time, c2: nat)
    ensures EventText(p1, t1, c1) == EventText(p2, t2, c2) ==> p1 == p2 && t1 == t2 && c1 == c2
  {
    EventTextRoundTrip(p1, t1, c1);
    EventTextRoundTrip(p2, t2, c2);
  }

  /** Two consecutive events hash different texts, whatever the digests and
      clock readings, because their counter parts differ. */
  lemma ConsecutiveTextsDiffer(d0: Digest, t1: Time, d1: Digest, t2: Time, n: nat)
    ensures EventText(d0, t1, n + 1) != EventText(d1, t2, n + 2)
  {
    EventTextInjective(d0, t1, n + 1, d1, t2, n + 2);
  }

  /** The seed label is never an event text (it has no ':'). */
  lemma SeedIsNoEvent(prev: Digest, now: Time, counter: nat)
    ensures Seed != EventText(prev, now, counter)
  {
    assert EventText(prev, now, counter)[|prev|] == ':';
    assert ':' !in Seed;
  }

  /** The digest after the events with clock readings `events`, in order. */
  function Replay(H: TextHasher, events: seq<Time>): (d: Digest)
    ensures |events| == 0 ==> d == H(Seed)
    decreases |events|
  {
    if |events| == 0 then H(Seed)
    else
      var prior := events[..|events| - 1];
      H(EventText(Replay(H, prior), events[|events| - 1], |events|))
  }

  /** One more reading `t` hashes the event text over the digest so far,
      with counter one past the history's length. */
  lemma ReplaySnoc(H: TextHasher, events: seq<Time>, t: Time)
    ensures Replay(H, events + [t]) == H(EventText(Replay(H, events), t, |events| + 1))
  {
    assert (events + [t])[..|events|] == events;
  }

  /** A hash with no collisions. */
  ghost predicate CollisionFree(H: TextHasher)
  {
    forall x, y :: H(x) == H(y) ==> x == y
  }

  lemma EventDigestIsNoSeedDigest(H: TextHasher, events: seq<Time>)
    requires CollisionFree(H) && |events| > 0
    ensures Replay(H, events) != H(Seed)
  {
    var prior := events[..|events| - 1];
    SeedIsNoEvent(Replay(H, prior), events[|events| - 1], |events|);
  }

  /** Tamper evidence: with a collision-free hash, the current digest
      determines the whole history of clock readings. */
  lemma {:induction false} ReplayInjective(H: TextHasher, a: seq<Time>, b: seq<Time>)
    requires CollisionFree(H)
    ensures Replay(H, a) == Replay(H, b) ==> a == b
    decreases |a|
  {
    if |a| > 0 {
      EventDigestIsNoSeedDigest(H, a);
    }
    if |b| > 0 {
      EventDigestIsNoSeedDigest(H, b);
    }
    if |a| > 0 && |b| > 0 {
      var ia, ib := a[..|a| - 1], b[..|b| - 1];
      EventTextInjective(Replay(H, ia), a[|a| - 1], |a|, Replay(H, ib), b[|b| - 1], |b|);
      ReplayInjective(H, ia, ib);
      if Replay(H, a) == Replay(H, b) {
        assert a == ia + [a[|a| - 1]];
        assert b == ib + [b[|b| - 1]];
      }
    }
  }

  /** With a collision-free hash, two consecutive events return different
      digests. */
  lemma ConsecutiveDigestsDiffer(H: TextHasher, events: seq<Time>, t1: Time, t2: Time)
    requires CollisionFree(H)
    ensures Replay(H, events + [t1]) != Replay(H, events + [t1, t2])
  {
    ReplayInjective(H, events + [t1], events + [t1, t2]);
  }

  class ProofOfHistory {
    var lastDigest: Digest
    var counter: nat
    const hasher: TextHasher
    /** The clock readings of the events recorded so far. */
    ghost var events: seq<Time>

    ghost predicate Valid()
      reads this
    {
      counter == |events| && lastDigest == Replay(hasher, events)
    }

    constructor (hasher: TextHasher)
      ensures Valid() && this.hasher == hasher
      ensures counter == 0 && lastDigest == hasher(Seed) && events == []
    {
      this.hasher := hasher;
      lastDigest := hasher(Seed);
      counter := 0;
      events := [];
    }

    /** Records one event at clock reading `now` and returns the new digest. */
    method RecordEvent(now: Time) returns (d: Digest)
      requires Valid()
      modifies this
      ensures Valid()
      ensures counter == old(counter) + 1 && events == old(events) + [now]
      ensures lastDigest == hasher(EventText(old(lastDigest), now, counter))
      ensures d == lastDigest
    {
      counter := counter + 1;
      var payload := EventText(lastDigest, now, counter);
      lastDigest := hasher(payload);
      ReplaySnoc(hasher, events, now);
      events := events + [now];
      d := lastDigest;
    }
  }
}
