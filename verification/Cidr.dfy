/**
 * Masks and intervals of 32-bit addresses (services/api/src/lib/ssrf.ts;
 * RFC 4632, section 3.1). Bit-vector facts are proved one operator at a time
 * and combined behind names.
 */
module Cidr {

  function Mask(prefix: bv6): bv32
    requires prefix <= 32
  {
    if prefix == 0 then 0 else 0xffff_ffff << (32 - prefix)
  }

  /** The comparison the code makes: equal under the mask of the prefix. */
  predicate SameNetwork(value: bv32, base: bv32, prefix: bv6)
    requires prefix <= 32
  {
    value & Mask(prefix) == base & Mask(prefix)
  }

  /** One less than the 2^(32-p) addresses of a block of prefix p. */
  function LastOffset(prefix: bv6): bv32
    requires prefix <= 32
  {
    0xffff_ffff >> prefix
  }

  /** The addresses from the base of a block to its last. */
  predicate Within(value: bv32, base: bv32, prefix: bv6)
    requires prefix <= 32
  {
    AtMost(base, value) && AtMost(value, Sum(base, LastOffset(prefix)))
  }

  /** No address bit of the base lies below its mask. */
  predicate AlignedBase(base: bv32, prefix: bv6)
    requires prefix <= 32
  {
    base & Mask(prefix) == base
  }

  // Each operator has a name, so that a lemma unfolds only the ones it is about.

  predicate Ones(low: bv32) {
    low & (low + 1) == 0
  }

  function Clear(value: bv32, low: bv32): bv32 {
    value & !low
  }

  function Fill(value: bv32, low: bv32): bv32 {
    value | low
  }

  function Sum(base: bv32, low: bv32): bv32 {
    base + low
  }

  function Differing(value: bv32, bound: bv32): bv32 {
    value ^ bound
  }

  function Shared(value: bv32, other: bv32): bv32 {
    value & other
  }

  predicate AtMost(value: bv32, bound: bv32) {
    value <= bound
  }

  lemma MaskComplement(prefix: bv6)
    requires prefix <= 32
    ensures Mask(prefix) == !LastOffset(prefix)
  {
  }

  lemma MaskClears(value: bv32, prefix: bv6)
    requires prefix <= 32
    ensures value & Mask(prefix) == Clear(value, LastOffset(prefix))
  {
    hide LastOffset, Mask;
    MaskComplement(prefix);
  }

  lemma OffsetsAreOnes(prefix: bv6)
    requires prefix <= 32
    ensures Ones(LastOffset(prefix))
  {
  }

  lemma ClearAtMost(value: bv32, low: bv32)
    ensures AtMost(Clear(value, low), value)
  {
  }

  lemma ClearThenFill(value: bv32, low: bv32)
    ensures AtMost(value, Fill(Clear(value, low), low))
  {
  }

  lemma FillThenClear(base: bv32, low: bv32)
    ensures Differing(Clear(Fill(base, low), low), Clear(base, low)) == 0
  {
    assert ((base | low) & !low) ^ (base & !low) == 0 by {
      hide *;
    }
  }

  lemma ClearMonotone(value: bv32, bound: bv32, low: bv32)
    requires Ones(low) && AtMost(value, bound)
    ensures AtMost(Clear(value, low), Clear(bound, low))
  {
    OrderedCleared(value, bound, low);
  }

  lemma OrderedCleared(value: bv32, bound: bv32, low: bv32)
    ensures low & (low + 1) == 0 && value <= bound ==> (value & !low) <= (bound & !low)
  {
  }

  lemma NoCommonBit(value: bv32, bound: bv32, bits: bv32)
    requires AtMost(value, bound) && AtMost(bound, value)
    ensures Shared(Differing(value, bound), bits) == 0
  {
    hide AtMost;
    EqualWords(value, bound, bits);
  }

  lemma EqualWords(value: bv32, bound: bv32, bits: bv32)
    requires AtMost(value, bound) && AtMost(bound, value)
    ensures (value ^ bound) & bits == 0
  {
    OrderedWords(value, bound, bits);
  }

  lemma OrderedWords(value: bv32, bound: bv32, bits: bv32)
    requires value <= bound && bound <= value
    ensures (value ^ bound) & bits == 0
  {
  }

  lemma NoBits(value: bv32)
    requires Shared(value, value) == 0
    ensures value == 0
  {
  }

  lemma SameBits(value: bv32, bound: bv32)
    requires Differing(value, bound) == 0
    ensures value == bound
  {
  }

  lemma Antisymmetric(value: bv32, bound: bv32)
    requires AtMost(value, bound) && AtMost(bound, value)
    ensures value == bound
  {
    hide AtMost, Differing, Shared;
    NoCommonBit(value, bound, Differing(value, bound));
    NoBits(Differing(value, bound));
    SameBits(value, bound);
  }

  lemma FillIsSum(base: bv32, low: bv32)
    requires Clear(base, low) == base
    ensures Sum(base, low) == Fill(base, low)
  {
    DisjointSum(base, low);
  }

  lemma DisjointSum(base: bv32, low: bv32)
    requires base & !low == base
    ensures base + low == base | low
  {
  }

  lemma SameIsClear(value: bv32, base: bv32, prefix: bv6)
    requires prefix <= 32 && AlignedBase(base, prefix)
    ensures SameNetwork(value, base, prefix) <==> Clear(value, LastOffset(prefix)) == base
    ensures Clear(base, LastOffset(prefix)) == base
  {
    MaskClears(value, prefix);
    MaskClears(base, prefix);
    hide LastOffset, Mask, Clear;
  }

  /** The two agree for every address, every prefix length and every aligned base. */
  lemma MaskIsInterval(value: bv32, base: bv32, prefix: bv6)
    requires prefix <= 32 && AlignedBase(base, prefix)
    ensures SameNetwork(value, base, prefix) <==> Within(value, base, prefix)
  {
    hide Mask, AlignedBase, SameNetwork, LastOffset, Ones, Clear, Fill, Sum, AtMost, Differing;
    var low := LastOffset(prefix);
    SameIsClear(value, base, prefix);
    FillIsSum(base, low);
    if Clear(value, low) == base {
      ClearAtMost(value, low);
      ClearThenFill(value, low);
    }
    if Within(value, base, prefix) {
      OffsetsAreOnes(prefix);
      ClearMonotone(base, value, low);
      ClearMonotone(value, Fill(base, low), low);
      FillThenClear(base, low);
      SameBits(Clear(Fill(base, low), low), base);
      Antisymmetric(Clear(value, low), base);
    }
  }
}
