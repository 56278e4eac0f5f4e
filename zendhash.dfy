/**
 * phpspy_zend_inline_hash_func (phpspy.c): the DJBX33A string hash of the
 * Zend engine, `hash = hash * 33 + c` over the bytes with 64-bit wrap-around
 * and the top bit forced on, computed eight bytes per loop turn.
 */
module ZendHash {

  const SEED: bv64 := 5381
  const TOP_BIT: bv64 := 0x8000_0000_0000_0000

  /** `*str++` through a `const char *`: the byte read as a signed char and widened to 64 bits. */
  function Widen(c: bv8): bv64 {
    if c < 0x80 then c as bv64 else (c as bv64) | 0xFFFF_FFFF_FFFF_FF00
  }

  /** `(hash << 5) + hash`, as the source writes the multiplication. */
  function ShiftAdd(h: bv64): bv64 {
    (h << 5) + h
  }

  /** One round as the source writes it: `((hash << 5) + hash) + c`. */
  function Step(h: bv64, c: bv8): bv64 {
    ShiftAdd(h) + Widen(c)
  }

  /** DJBX33A's multiplier: `h * 33` modulo 2^64. */
  function Times33(h: bv64): bv64 {
    h * 33
  }

  /** The shift-and-add of a round is multiplication by 33 modulo 2^64. */
  lemma ShiftAdd33(h: bv64)
    ensures ShiftAdd(h) == Times33(h)
  {
  }

  /** The plain left fold of the rounds over `s`, from the seed. */
  function Djb(s: seq<bv8>): bv64 {
    if s == [] then SEED else Step(Djb(s[..|s| - 1]), s[|s| - 1])
  }

  /** The unrolled hash of the first `len` bytes of `str`; `p` is how far `str` has advanced. */
  method ZendInlineHashFunc(str: seq<bv8>, len: nat) returns (hash: bv64)
    requires len <= |str|
    ensures hash == Djb(str[..len]) | TOP_BIT
    ensures hash & TOP_BIT == TOP_BIT
  {
    hash := SEED;
    var p, n := 0, len;
    assert str[..0] == [];
    while n >= 8
      invariant p + n == len
      invariant hash == Djb(str[..p])
    {
      hash := EightRounds(hash, str, p);
      p, n := p + 8, n - 8;
    }
    hash := LastRounds(hash, str, p, n);
    hash := hash | TOP_BIT;
  }

  /** The body of the unrolled loop: eight rounds over bytes `p .. p + 7`. */
  method EightRounds(hash: bv64, str: seq<bv8>, p: nat) returns (next: bv64)
    requires p + 8 <= |str| && hash == Djb(str[..p])
    ensures next == Djb(str[..p + 8])
  {
    next := Round(hash, str, p);
    next := Round(next, str, p + 1);
    next := Round(next, str, p + 2);
    next := Round(next, str, p + 3);
    next := Round(next, str, p + 4);
    next := Round(next, str, p + 5);
    next := Round(next, str, p + 6);
    next := Round(next, str, p + 7);
  }

  /** The switch on the remaining length: case k does its round and falls through to case k - 1. */
  method LastRounds(hash: bv64, str: seq<bv8>, p: nat, n: nat) returns (next: bv64)
    requires n < 8 && p + n <= |str| && hash == Djb(str[..p])
    ensures next == Djb(str[..p + n])
  {
    hide Djb;
    next := hash;
    var q := p;
    if n >= 7 { next := Round(next, str, q); q := q + 1; }
    if n >= 6 { next := Round(next, str, q); q := q + 1; }
    if n >= 5 { next := Round(next, str, q); q := q + 1; }
    if n >= 4 { next := Round(next, str, q); q := q + 1; }
    if n >= 3 { next := Round(next, str, q); q := q + 1; }
    if n >= 2 { next := Round(next, str, q); q := q + 1; }
    if n >= 1 { next := Round(next, str, q); q := q + 1; }
  }

  /** One `hash = ((hash << 5) + hash) + *str++`, extending the fold by byte `p`. */
  method Round(hash: bv64, str: seq<bv8>, p: nat) returns (next: bv64)
    requires p < |str| && hash == Djb(str[..p])
    ensures next == Djb(str[..p + 1])
  {
    next := Step(hash, str[p]);
    assert str[..p + 1][..p] == str[..p];
  }
}
