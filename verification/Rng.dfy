/**
 The seeded generator behind a pack: HMAC blocks in counter mode, read as a stream of 32-bit
 words, and rejection sampling over it. The HMAC is any function from a counter to 32 bytes.
 */
module Rng {
  import opened Types
  import opened Cycles

  const TWO_POW_32: nat := 0x1_0000_0000
  const SEED_BYTES: nat := 32

  newtype byte = x: int | 0 <= x < 256
  type Block = b: seq<byte> | |b| == 32 witness seq(32, _ => 0 as byte)
  type Word = w: nat | w < TWO_POW_32

  function ReadUInt32BE(b: seq<byte>, i: nat): Word
    requires i + 4 <= |b|
  {
    (b[i] as nat) * 0x100_0000 + (b[i + 1] as nat) * 0x1_0000 + (b[i + 2] as nat) * 0x100 + (b[i + 3] as nat)
  }

  /** A word is read from its bytes, the most significant first: each word from exactly one group of four. */
  lemma WordOfBytes(b: seq<byte>, i: nat, w: Word)
    requires i + 4 <= |b|
    ensures ReadUInt32BE(b, i) == w <==>
            && b[i] as int == w / 0x100_0000 && b[i + 1] as int == w / 0x1_0000 % 0x100
            && b[i + 2] as int == w / 0x100 % 0x100 && b[i + 3] as int == w % 0x100
  {
    DigitsOf(b[i] as int, b[i + 1] as int, b[i + 2] as int, b[i + 3] as int, w);
  }

  lemma DigitsOf(b0: int, b1: int, b2: int, b3: int, w: Word)
    requires 0 <= b0 < 256 && 0 <= b1 < 256 && 0 <= b2 < 256 && 0 <= b3 < 256
    ensures b0 * 0x100_0000 + b1 * 0x1_0000 + b2 * 0x100 + b3 == w <==>
            b0 == w / 0x100_0000 && b1 == w / 0x1_0000 % 0x100 && b2 == w / 0x100 % 0x100 && b3 == w % 0x100
  {
    assert w / 0x1_0000 == w / 0x100 / 0x100 && w / 0x100_0000 == w / 0x1_0000 / 0x100;
  }

  /** The stream a digest stands for: word k is word k mod 8 of block k div 8. */
  function WordAt(digest: nat -> Block, k: nat): Word { ReadUInt32BE(digest(k / 8), 4 * (k % 8)) }

  /** The words accepted for `max` are those below the largest multiple of it up to 2^32. */
  function Limit(max: nat): nat
    requires 1 <= max
  {
    TWO_POW_32 - TWO_POW_32 % max
  }

  predicate InRange(max: int) { 1 <= max <= TWO_POW_32 }

  /** Word k is the first word from `from` on that `max` accepts. */
  ghost predicate FirstAccepted(digest: nat -> Block, from: nat, max: nat, k: nat)
    requires 1 <= max
  {
    from <= k && WordAt(digest, k) < Limit(max) && forall j :: from <= j < k ==> WordAt(digest, j) >= Limit(max)
  }

  class SeededRng {
    const digest: nat -> Block
    var counter: nat
    var block: seq<byte>
    var offset: nat

    ghost predicate Valid()
      reads this
    {
      if counter == 0 then block == [] && offset == 0
      else block == digest(counter - 1) && offset <= 32 && offset % 4 == 0
    }

    /** How many words have been read. */
    ghost function Drawn(): nat
      reads this
      requires Valid()
    {
      if counter == 0 then 0 else 8 * (counter - 1) + offset / 4
    }

    constructor (digest: nat -> Block)
      ensures Valid() && Drawn() == 0 && this.digest == digest
    {
      this.digest := digest;
      counter, block, offset := 0, [], 0;
    }

    /** The buffered reader hands out the stream word by word. */
    method NextUint32() returns (value: Word)
      requires Valid()
      modifies this
      ensures Valid() && Drawn() == old(Drawn()) + 1
      ensures value == WordAt(digest, old(Drawn()))
    {
      if offset == |block| {
        block := digest(counter);
        counter := counter + 1;
        offset := 0;
      }
      value := ReadUInt32BE(block, offset);
      assert (8 * (counter - 1) + offset / 4) / 8 == counter - 1;
      offset := offset + 4;
    }

    /** Rejection sampling: the residue of the first accepted word, or a RangeError that draws nothing. */
    method Int(max: int) returns (r: Option<nat>)
      requires Valid()
      requires InRange(max) ==> exists k :: k >= Drawn() && WordAt(digest, k) < Limit(max)
      modifies this
      ensures Valid()
      ensures r.None? <==> !InRange(max)
      ensures r.None? ==> Drawn() == old(Drawn())
      ensures r.Some? ==> Draws(digest, old(Drawn()), max, Drawn()) && r.value == WordAt(digest, Drawn() - 1) % max
    {
      if !InRange(max) { return None; }
      ghost var k: nat :| k >= Drawn() && WordAt(digest, k) < Limit(max);
      var value := FirstBelow(Limit(max), k);
      return Some(value % max);
    }

    /** Words are read until one lies below the limit; word k does. */
    method FirstBelow(limit: nat, ghost k: nat) returns (value: Word)
      requires Valid() && k >= Drawn() && WordAt(digest, k) < limit
      modifies this
      ensures Valid() && Drawn() > old(Drawn())
      ensures value == WordAt(digest, Drawn() - 1) && value < limit
      ensures Refused(digest, old(Drawn()), Drawn() - 1, limit)
    {
      ghost var from, at := Drawn(), Drawn();
      value := NextUint32();
      RefusedNone(digest, from, limit);
      while value >= limit
        invariant Valid() && Drawn() == at + 1 && from <= at <= k && value == WordAt(digest, at)
        invariant Refused(digest, from, at, limit)
        decreases k - at
      {
        RefusedOne(digest, from, at, limit);
        at := at + 1;
        value := NextUint32();
      }
    }
  }

  /** Words `from` up to `to` are all at or above a limit. */
  ghost predicate Refused(digest: nat -> Block, from: nat, to: nat, limit: nat) {
    forall j: nat {:trigger WordAt(digest, j)} :: from <= j < to ==> WordAt(digest, j) >= limit
  }

  lemma RefusedNone(digest: nat -> Block, from: nat, limit: nat)
    ensures Refused(digest, from, from, limit)
  {
  }

  lemma RefusedOne(digest: nat -> Block, from: nat, to: nat, limit: nat)
    requires Refused(digest, from, to, limit) && WordAt(digest, to) >= limit
    ensures Refused(digest, from, to + 1, limit)
  {
  }

  function DigestOf(hmac: (seq<byte>, nat) -> Block, seed: seq<byte>): nat -> Block { (c: nat) => hmac(seed, c) }

  /** A generator at the first word of its seed's stream; a seed of any other length is refused. */
  method NewRng(hmac: (seq<byte>, nat) -> Block, seed: seq<byte>) returns (rng: Option<SeededRng>)
    ensures rng.Some? <==> |seed| == 32
    ensures rng.Some? ==> fresh(rng.value) && rng.value.Valid() && rng.value.Drawn() == 0 && rng.value.digest == DigestOf(hmac, seed)
    // Block c of the stream is the HMAC of counter c under the seed.
    ensures rng.Some? ==> forall c: nat :: rng.value.digest(c) == hmac(seed, c)
  {
    if |seed| != SEED_BYTES { return None; }
    var r := new SeededRng(DigestOf(hmac, seed));
    return Some(r);
  }

  // ---- no bias ----

  /** The accepted words below a bound that give a residue. */
  function Giving(max: nat, residue: nat, bound: nat): set<int>
    requires 1 <= max
  {
    set w | w in Range(0, bound) && w % max == residue
  }

  /**
   For every max in [1, 2^32] each residue has exactly as many accepted words as any other, the
   accepted words are as many as that allows, and more than half of all.
   */
  lemma Unbiased(max: nat, residue: nat)
    requires InRange(max) && residue < max
    ensures |Giving(max, residue, Limit(max))| == Limit(max) / max
    ensures Limit(max) == Limit(max) / max * max
    ensures 0x8000_0000 < Limit(max) <= TWO_POW_32 < Limit(max) + max
  {
    LimitIs(max);
    GivingCount(max, residue, Limit(max) / max, Limit(max));
  }

  lemma GivingCount(max: nat, residue: nat, q: nat, bound: nat)
    requires residue < max && bound == q * max
    ensures |Giving(max, residue, bound)| == q
  {
    assert Giving(max, residue, bound) == Between(max, residue, residue + 1, bound);
    BetweenCount(max, residue, residue + 1, q);
  }

  /** The limit is the largest multiple of the bound up to 2^32, and more than half of it. */
  lemma LimitIs(max: nat)
    requires InRange(max)
    ensures Limit(max) == Limit(max) / max * max
    ensures 0x8000_0000 < Limit(max) <= TWO_POW_32
  {
    var q := TWO_POW_32 / max;
    assert TWO_POW_32 == q * max + TWO_POW_32 % max;
    assert Limit(max) == q * max;
    WholeQuotient(q, max);
    assert q >= 1;
    assert q * max >= max > TWO_POW_32 % max;
  }

  lemma WholeQuotient(q: nat, max: nat)
    requires 1 <= max
    ensures q * max / max == q
  {
    ModIs(q * max, q, 0, max);
    var d := q * max / max;
    assert q * max == d * max;
    assert d < q ==> (d + 1) * max <= q * max;
    assert d > q ==> (q + 1) * max <= d * max;
  }

  // ---- what a digest decides ----

  /** The draw for `max` that starts at word `from` ends just before word `next`. */
  ghost predicate Draws(digest: nat -> Block, from: nat, max: nat, next: nat) {
    1 <= max && from < next && FirstAccepted(digest, from, max, next - 1)
  }

  /** Where a draw ends is decided by the stream, and with it the number drawn. */
  lemma DrawsOnce(digest: nat -> Block, from: nat, max: nat, a: nat, b: nat)
    requires Draws(digest, from, max, a) && Draws(digest, from, max, b)
    ensures a == b
  {
  }

  /** A word that every bound in [1, 2^32] accepts. */
  ghost predicate LowWordFrom(digest: nat -> Block, from: nat) {
    exists k :: k >= from && WordAt(digest, k) <= 0x8000_0000
  }

  /** A stream that never stops giving low words: no draw on it runs for ever. */
  ghost predicate Fair(digest: nat -> Block) { forall from: nat :: LowWordFrom(digest, from) }

  lemma FairAccepts(digest: nat -> Block, from: nat, max: nat)
    requires Fair(digest) && InRange(max)
    ensures exists k :: k >= from && WordAt(digest, k) < Limit(max)
  {
    LimitIs(max);
    assert LowWordFrom(digest, from);
    var k :| k >= from && WordAt(digest, k) <= 0x8000_0000;
    assert WordAt(digest, k) < Limit(max);
  }
}
