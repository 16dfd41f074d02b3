/** Bucket indices of the cuckoo table.  Words are 64 bits wide; a bucket index
    is what the low `hashpower` bits of a word leave. */
module CuckooIndex {
  import opened Bits

  const WORD := 0x1_0000_0000_0000_0000

  type Word = n: nat | n < WORD
  type HashPower = p: nat | p < 32   // the table size is 1U << hashpower

  /** (a ^ b) & (2^p - 1). */
  function XorLow(p: nat, a: nat, b: nat): (n: nat)
    ensures n < Pow2(p)
  {
    if p == 0 then 0 else (a % 2 + b % 2) % 2 + 2 * XorLow(p - 1, a / 2, b / 2)
  }

  /** XorLow is the exclusive or, bit by bit, cut to the low p bits. */
  lemma {:induction false} XorLowBits(p: nat, a: nat, b: nat, j: nat)
    ensures Bit(XorLow(p, a, b), j) == if j < p then (Bit(a, j) + Bit(b, j)) % 2 else 0
  {
    if p == 0 {
      if j > 0 { XorLowBits(0, a, b, j - 1); }
    } else {
      assert XorLow(p, a, b) / 2 == XorLow(p - 1, a / 2, b / 2);
      if j > 0 { XorLowBits(p - 1, a / 2, b / 2, j - 1); }
    }
  }

  /** Flipping a bit twice. */
  lemma BitTwice(x: nat, y: nat)
    requires x < 2 && y < 2
    ensures ((x + y) % 2 + y) % 2 == x
  {
  }

  /** The last bit and the rest of a number. */
  lemma LastBit(n: nat, bit: nat, rest: nat)
    requires n == bit + 2 * rest && bit < 2
    ensures n % 2 == bit && n / 2 == rest
  {
  }

  lemma {:induction false} FlipTwice(p: nat, a: nat, b: nat)
    requires a < Pow2(p)
    ensures XorLow(p, XorLow(p, a, b), b) == a
  {
    if p > 0 {
      var flipped := XorLow(p, a, b);
      LastBit(flipped, (a % 2 + b % 2) % 2, XorLow(p - 1, a / 2, b / 2));
      BitTwice(a % 2, b % 2);
      FlipTwice(p - 1, a / 2, b / 2);
    }
  }

  function HashSize(hp: HashPower): nat {
    Pow2(hp)
  }

  /** The first bucket of a hashed key. */
  function IndexHash(hp: HashPower, hv: Word): (i: nat)
    ensures i < HashSize(hp)
  {
    hv % Pow2(hp)
  }

  /** What alt_index flips in a bucket index. */
  function Flip(hp: HashPower, hv: Word): nat {
    var tag := (hv / Pow2(hp) + 1) % WORD;
    (tag * 0x5bd1e995) % WORD
  }

  /** The other bucket of a hashed key one of whose buckets is `index`. */
  function AltIndex(hp: HashPower, hv: Word, index: nat): (i: nat)
    ensures i < HashSize(hp)
  {
    XorLow(hp, index, Flip(hp, hv))
  }

  /** Each of a key's two buckets is the alternative of the other, as the
      source promises at alt_index. */
  lemma AltIsInvolution(hp: HashPower, hv: Word, index: nat)
    requires index < HashSize(hp)
    ensures AltIndex(hp, hv, AltIndex(hp, hv, index)) == index
  {
    FlipTwice(hp, index, Flip(hp, hv));
  }
}
