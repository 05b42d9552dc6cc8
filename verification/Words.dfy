/**
 * 32-bit words and the numbers they write in binary: what the shift and mask
 * operators of the code do to those numbers, in the terms of `Bits`. Every
 * operator has a name, so that only the one-bit lemmas look inside it.
 */
module Words {
  import opened Bits

  function Bit(v: bv32): nat {
    if v & 1 == 1 then 1 else 0
  }

  function Half(v: bv32): bv32 {
    v >> 1
  }

  function Twice(v: bv32): bv32 {
    v << 1
  }

  function Both(v: bv32, w: bv32): bv32 {
    v & w
  }

  function Either(v: bv32, w: bv32): bv32 {
    v | w
  }

  /** The number written by the low `n` bits. */
  function NatOf(v: bv32, n: nat): nat {
    if n == 0 then 0 else 2 * NatOf(Half(v), n - 1) + Bit(v)
  }

  function Word(v: bv32): nat {
    NatOf(v, 32)
  }

  lemma BitSmall(v: bv32)
    ensures Bit(v) <= 1
  {
  }

  lemma {:induction false} NatOfLow(v: bv32, n: nat, k: nat)
    requires k <= n
    ensures Low(NatOf(v, n), k) == NatOf(v, k)
    decreases n
  {
    if k == 0 {
    } else {
      hide Bit, Half;
      BitSmall(v);
      var (rest, bit) := (NatOf(Half(v), n - 1), Bit(v));
      assert (2 * rest + bit) / 2 == rest && (2 * rest + bit) % 2 == bit;
      NatOfLow(Half(v), n - 1, k - 1);
    }
  }

  lemma ZeroBits()
    ensures Half(0) == 0 && Bit(0) == 0
  {
  }

  lemma {:induction false} NatOfZero(n: nat)
    ensures NatOf(0, n) == 0
  {
    if n == 0 {
    } else {
      hide Bit, Half;
      ZeroBits();
      NatOfZero(n - 1);
    }
  }

  // -------------------------------------------------------------------- or, and

  lemma EitherBits(v: bv32, w: bv32)
    ensures Both(v, w) == 0 ==> Bit(Either(v, w)) == Bit(v) + Bit(w)
  {
  }

  lemma EitherHalf(v: bv32, w: bv32)
    ensures Half(Either(v, w)) == Either(Half(v), Half(w))
  {
  }

  lemma BothHalf(v: bv32, w: bv32)
    ensures Half(Both(v, w)) == Both(Half(v), Half(w))
  {
  }

  /** `|` of words without a common bit is addition. */
  lemma {:induction false} EitherIsSum(v: bv32, w: bv32, n: nat)
    requires Both(v, w) == 0
    ensures NatOf(Either(v, w), n) == NatOf(v, n) + NatOf(w, n)
    decreases n
  {
    hide Bit, Half, Both, Either;
    if n == 0 {
    } else {
      EitherBits(v, w);
      EitherHalf(v, w);
      BothHalf(v, w);
      ZeroBits();
      EitherIsSum(Half(v), Half(w), n - 1);
    }
  }

  /** The mask of the low `k` bits. */
  predicate OnesOf(m: bv32, k: nat) {
    if k == 0 then m == 0 else Bit(m) == 1 && OnesOf(Half(m), k - 1)
  }

  lemma MaskBit(v: bv32, m: bv32)
    ensures Bit(m) == 1 ==> Bit(Both(v, m)) == Bit(v)
  {
  }

  lemma MaskNone(v: bv32)
    ensures Both(v, 0) == 0
  {
  }

  /** `&` with that mask keeps the low `k` bits. */
  lemma {:induction false} MaskKeepsLow(v: bv32, m: bv32, k: nat, n: nat)
    requires k <= n && OnesOf(m, k)
    ensures NatOf(Both(v, m), n) == NatOf(v, k)
    decreases n
  {
    hide Both, Half, Bit;
    if k == 0 {
      MaskNone(v);
      NatOfZero(n);
    } else {
      MaskBit(v, m);
      BothHalf(v, m);
      MaskKeepsLow(Half(v), Half(m), k - 1, n - 1);
    }
  }

  lemma OneMore(m: bv32, k: nat, wider: bv32)
    requires OnesOf(m, k) && Bit(wider) == 1 && Half(wider) == m
    ensures OnesOf(wider, k + 1)
  {
    hide Half, Bit;
  }

  const TOP_CLEAR: bv32 := 0x7fff_ffff

  lemma SmallMasks()
    ensures OnesOf(31, 5) && OnesOf(255, 8)
  {
    assert OnesOf(0, 0);
    OneMore(0, 0, 1);
    OneMore(1, 1, 3);
    OneMore(3, 2, 7);
    OneMore(7, 3, 15);
    OneMore(15, 4, 31);
    OneMore(31, 5, 63);
    OneMore(63, 6, 127);
    OneMore(127, 7, 255);
  }

  lemma MiddleMask()
    ensures OnesOf(0xffff, 16)
  {
    SmallMasks();
    hide OnesOf;
    OneMore(0xff, 8, 0x1ff);
    OneMore(0x1ff, 9, 0x3ff);
    OneMore(0x3ff, 10, 0x7ff);
    OneMore(0x7ff, 11, 0xfff);
    OneMore(0xfff, 12, 0x1fff);
    OneMore(0x1fff, 13, 0x3fff);
    OneMore(0x3fff, 14, 0x7fff);
    OneMore(0x7fff, 15, 0xffff);
  }

  lemma LargeMask()
    ensures OnesOf(TOP_CLEAR, 31)
  {
    MiddleMask();
    hide OnesOf;
    OneMore(0xffff, 16, 0x1_ffff);
    OneMore(0x1_ffff, 17, 0x3_ffff);
    OneMore(0x3_ffff, 18, 0x7_ffff);
    OneMore(0x7_ffff, 19, 0xf_ffff);
    OneMore(0xf_ffff, 20, 0x1f_ffff);
    OneMore(0x1f_ffff, 21, 0x3f_ffff);
    OneMore(0x3f_ffff, 22, 0x7f_ffff);
    OneMore(0x7f_ffff, 23, 0xff_ffff);
    OneMore(0xff_ffff, 24, 0x1ff_ffff);
    OneMore(0x1ff_ffff, 25, 0x3ff_ffff);
    OneMore(0x3ff_ffff, 26, 0x7ff_ffff);
    OneMore(0x7ff_ffff, 27, 0xfff_ffff);
    OneMore(0xfff_ffff, 28, 0x1fff_ffff);
    OneMore(0x1fff_ffff, 29, 0x3fff_ffff);
    OneMore(0x3fff_ffff, 30, 0x7fff_ffff);
  }

  // -------------------------------------------------------------------- shifts

  lemma HalfBelow(v: bv32)
    ensures Half(v) == Both(Half(v), TOP_CLEAR)
  {
  }

  lemma HalfOfTwice(v: bv32)
    ensures Half(Twice(v)) == Both(v, TOP_CLEAR)
  {
  }

  lemma TwiceBit(v: bv32)
    ensures Bit(Twice(v)) == 0
  {
  }

  /** Shifting right by one halves the number. */
  lemma HalfIsHalf(v: bv32)
    ensures Word(Half(v)) == Word(v) / 2
  {
    LargeMask();
    hide Half, Twice, Both, Bit, OnesOf;
    HalfBelow(v);
    BitSmall(v);
    MaskKeepsLow(Half(v), TOP_CLEAR, 31, 32);
    assert Word(v) == 2 * NatOf(Half(v), 31) + Bit(v);
  }

  /** Shifting left by one doubles it and drops what passes bit 31. */
  lemma TwiceIsDouble(v: bv32)
    ensures Word(Twice(v)) == Low(2 * Word(v), 32)
  {
    LargeMask();
    hide Half, Twice, Both, Bit, OnesOf;
    HalfOfTwice(v);
    TwiceBit(v);
    MaskKeepsLow(v, TOP_CLEAR, 31, 31);
    NatOfLow(v, 32, 31);
    assert (2 * Word(v)) / 2 == Word(v) && (2 * Word(v)) % 2 == 0;
  }

  function Left(v: bv32, k: nat): bv32 {
    if k == 0 then v else Twice(Left(v, k - 1))
  }

  function Right(v: bv32, k: nat): bv32 {
    if k == 0 then v else Half(Right(v, k - 1))
  }

  lemma {:induction false} RightIsShr(v: bv32, k: nat)
    ensures Word(Right(v, k)) == Shr(Word(v), k)
  {
    if k == 0 {
    } else {
      hide Word, Half;
      HalfIsHalf(Right(v, k - 1));
      RightIsShr(v, k - 1);
      ShrHalf(Word(v), k - 1);
    }
  }

  lemma {:induction false} ShrHalf(x: nat, k: nat)
    ensures Shr(x, k) / 2 == Shr(x, k + 1)
  {
    if k == 0 {
    } else {
      ShrHalf(x / 2, k - 1);
    }
  }

  lemma {:induction false} LeftIsShifted(v: bv32, k: nat)
    ensures Word(Left(v, k)) == Low(Shifted(Word(v), k), 32)
  {
    if k == 0 {
      hide Half, Bit;
      NatOfLow(v, 32, 32);
    } else {
      hide Word, Low, Twice;
      TwiceIsDouble(Left(v, k - 1));
      LeftIsShifted(v, k - 1);
      LowOfDouble(Shifted(Word(v), k - 1));
    }
  }

  /** Truncating before doubling makes no difference to the truncated double. */
  lemma LowOfDouble(x: nat)
    ensures Low(2 * Low(x, 32), 32) == Low(2 * x, 32)
  {
    assert (2 * Low(x, 32)) / 2 == Low(x, 32) && (2 * x) / 2 == x;
    LowLow(x, 32, 31);
  }

  // ------------------------------------------------- the operators as they are written

  /** The left shifts of the code, by their amounts. */
  function LeftBy(v: bv32, k: nat): bv32
    requires k <= 8
  {
    match k
    case 0 => v
    case 1 => v << 1
    case 2 => v << 2
    case 3 => v << 3
    case 4 => v << 4
    case 5 => v << 5
    case 6 => v << 6
    case 7 => v << 7
    case 8 => v << 8
  }

  /** The right shifts of the code, by their amounts. */
  function RightBy(v: bv32, k: nat): bv32
    requires k <= 7
  {
    match k
    case 0 => v
    case 1 => v >> 1
    case 2 => v >> 2
    case 3 => v >> 3
    case 4 => v >> 4
    case 5 => v >> 5
    case 6 => v >> 6
    case 7 => v >> 7
  }

  lemma LeftByMore(v: bv32, k: nat)
    requires k <= 7
    ensures Twice(LeftBy(v, k)) == LeftBy(v, k + 1)
  {
    if k == 0 {
      assert Twice(v << 0) == v << 1;
    } else if k == 1 {
      assert Twice(v << 1) == v << 2;
    } else if k == 2 {
      assert Twice(v << 2) == v << 3;
    } else if k == 3 {
      assert Twice(v << 3) == v << 4;
    } else if k == 4 {
      assert Twice(v << 4) == v << 5;
    } else if k == 5 {
      assert Twice(v << 5) == v << 6;
    } else if k == 6 {
      assert Twice(v << 6) == v << 7;
    } else {
      assert Twice(v << 7) == v << 8;
    }
  }

  lemma RightByMore(v: bv32, k: nat)
    requires k <= 6
    ensures Half(RightBy(v, k)) == RightBy(v, k + 1)
  {
    if k == 0 {
      assert Half(v >> 0) == v >> 1;
    } else if k == 1 {
      assert Half(v >> 1) == v >> 2;
    } else if k == 2 {
      assert Half(v >> 2) == v >> 3;
    } else if k == 3 {
      assert Half(v >> 3) == v >> 4;
    } else if k == 4 {
      assert Half(v >> 4) == v >> 5;
    } else if k == 5 {
      assert Half(v >> 5) == v >> 6;
    } else {
      assert Half(v >> 6) == v >> 7;
    }
  }

  lemma {:induction false} LeftByIsLeft(v: bv32, k: nat)
    requires k <= 8
    ensures LeftBy(v, k) == Left(v, k)
    decreases k
  {
    hide Twice;
    if k == 0 {
    } else {
      LeftByMore(v, k - 1);
      hide LeftBy;
      LeftByIsLeft(v, k - 1);
    }
  }

  lemma {:induction false} RightByIsRight(v: bv32, k: nat)
    requires k <= 7
    ensures RightBy(v, k) == Right(v, k)
    decreases k
  {
    hide Half;
    if k == 0 {
    } else {
      RightByMore(v, k - 1);
      hide RightBy;
      RightByIsRight(v, k - 1);
    }
  }
}
