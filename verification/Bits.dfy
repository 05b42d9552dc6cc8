/**
 * Unsigned binary numbers, one bit at a time: shifting left (`Shifted`), shifting
 * right (`Shr`), keeping the low `k` bits (`Low`), and reading a sequence of
 * `k`-bit groups as one number, most significant group first.
 */
module Bits {
  import opened Arithmetic

  function Shifted(x: nat, k: nat): nat {
    if k == 0 then x else 2 * Shifted(x, k - 1)
  }

  function Low(x: nat, k: nat): nat {
    if k == 0 then 0 else 2 * Low(x / 2, k - 1) + x % 2
  }

  function Shr(x: nat, k: nat): nat {
    if k == 0 then x else Shr(x / 2, k - 1)
  }

  lemma {:induction false} ShiftedAdd(x: nat, y: nat, k: nat)
    ensures Shifted(x + y, k) == Shifted(x, k) + Shifted(y, k)
  {
    if k == 0 {
    } else {
      ShiftedAdd(x, y, k - 1);
    }
  }

  lemma {:induction false} ShiftedTwice(x: nat, j: nat, k: nat)
    ensures Shifted(Shifted(x, j), k) == Shifted(x, j + k)
  {
    if k == 0 {
    } else {
      ShiftedTwice(x, j, k - 1);
    }
  }

  lemma {:induction false} ShiftedOrder(x: nat, y: nat, k: nat)
    requires x < y
    ensures Shifted(x, k) < Shifted(y, k)
  {
    if k == 0 {
    } else {
      ShiftedOrder(x, y, k - 1);
    }
  }

  lemma {:induction false} ShiftedMonotone(x: nat, y: nat, k: nat)
    ensures x <= y <==> Shifted(x, k) <= Shifted(y, k)
  {
    if k == 0 {
    } else {
      ShiftedMonotone(x, y, k - 1);
    }
  }

  lemma {:induction false} LowBound(x: nat, k: nat)
    ensures Low(x, k) < Shifted(1, k)
  {
    if k == 0 {
    } else {
      LowBound(x / 2, k - 1);
    }
  }

  lemma {:induction false} LowFits(x: nat, k: nat)
    requires x < Shifted(1, k)
    ensures Low(x, k) == x
  {
    if k == 0 {
    } else {
      LowFits(x / 2, k - 1);
    }
  }

  /** Unmasked high bits never reach the low ones. */
  lemma {:induction false} LowLow(x: nat, j: nat, k: nat)
    requires k <= j
    ensures Low(Low(x, j), k) == Low(x, k)
  {
    if k == 0 {
    } else {
      LowLow(x / 2, j - 1, k - 1);
    }
  }

  /** Bits `d` shifted in sit below the bits that were there. */
  lemma {:induction false} LowShifted(x: nat, bits: nat, k: nat, d: nat)
    requires d < Shifted(1, k)
    ensures Low(Shifted(x, k) + d, bits + k) == Shifted(Low(x, bits), k) + d
  {
    if k == 0 {
    } else {
      LowShifted(x, bits, k - 1, d / 2);
    }
  }

  /** Adding bits below position `j` commutes with truncating to `j + k` bits. */
  lemma {:induction false} LowAdd(x: nat, j: nat, k: nat, d: nat)
    requires k <= j && d < Shifted(1, k)
    ensures Low(Low(Shifted(x, k), j) + d, j) == Low(Shifted(x, k) + d, j)
  {
    if k == 0 {
      LowLow(x, j, j);
    } else {
      var (s, low) := (Shifted(x, k - 1), Low(Shifted(x, k - 1), j - 1));
      assert (2 * s + d) / 2 == s + d / 2 && (2 * low + d) / 2 == low + d / 2;
      LowAdd(x, j - 1, k - 1, d / 2);
    }
  }

  /** The low `j + k` bits split into the `k` above and the `j` below. */
  lemma {:induction false} LowSplit(x: nat, j: nat, k: nat)
    ensures Low(x, j + k) == Shifted(Low(Shr(x, j), k), j) + Low(x, j)
  {
    if j == 0 {
    } else {
      LowSplit(x / 2, j - 1, k);
    }
  }

  lemma {:induction false} ShrShifted(x: nat, low: nat, k: nat)
    requires low < Shifted(1, k)
    ensures Shr(Shifted(x, k) + low, k) == x
    ensures Low(Shifted(x, k) + low, k) == low
  {
    if k == 0 {
    } else {
      ShrShifted(x, low / 2, k - 1);
    }
  }

  lemma {:induction false} ShiftedShr(x: nat, k: nat)
    ensures x == Shifted(Shr(x, k), k) + Low(x, k)
  {
    if k == 0 {
    } else {
      ShiftedShr(x / 2, k - 1);
    }
  }

  /** Shifting is multiplying by a power of two, and keeping the low bits is the remainder by it. */
  lemma {:induction false} ShiftedTimes(x: nat, k: nat)
    ensures Shifted(x, k) == Shifted(1, k) * x
  {
    if k == 0 {
    } else {
      ShiftedTimes(x, k - 1);
    }
  }

  lemma LowIsRemainder(x: nat, k: nat)
    ensures Shifted(1, k) >= 1 && Low(x, k) == x % Shifted(1, k)
  {
    hide Shifted, Low, Shr;
    ShiftedOrder(0, 1, k);
    ShiftedShr(x, k);
    ShiftedTimes(Shr(x, k), k);
    LowBound(x, k);
    DivModIs(x, Shifted(1, k), Shr(x, k), Low(x, k));
  }

  // -------------------------------------------------------------- bit groups

  predicate AreGroups(k: nat, ds: seq<nat>) {
    forall i :: 0 <= i < |ds| ==> ds[i] < Shifted(1, k)
  }

  function Num(k: nat, ds: seq<nat>): nat {
    if ds == [] then 0 else Shifted(Num(k, ds[..|ds| - 1]), k) + ds[|ds| - 1]
  }

  /** The last `len` groups of `k` bits of `n`. */
  function Numeral(k: nat, n: nat, len: nat): (ds: seq<nat>)
    ensures |ds| == len && AreGroups(k, ds)
    decreases len
  {
    if len == 0 then []
    else
      LowBound(n, k);
      Numeral(k, Shr(n, k), len - 1) + [Low(n, k)]
  }

  /** The bits that `len` groups take. */
  function Room(k: nat, len: nat): nat {
    if len == 0 then 0 else k + Room(k, len - 1)
  }

  lemma {:induction false} RoomOf5And8(len: nat)
    ensures Room(5, len) == 5 * len && Room(8, len) == 8 * len
  {
    if len == 0 {
    } else {
      RoomOf5And8(len - 1);
    }
  }

  lemma NumAppend(k: nat, ds: seq<nat>, d: nat)
    ensures Num(k, ds + [d]) == Shifted(Num(k, ds), k) + d
  {
    assert (ds + [d])[..|ds|] == ds;
  }

  /** A number of `len` groups is determined by its groups, and determines them. */
  lemma {:induction false} NumeralNum(k: nat, ds: seq<nat>)
    requires AreGroups(k, ds)
    ensures Numeral(k, Num(k, ds), |ds|) == ds
  {
    if ds == [] {
    } else {
      var last := |ds| - 1;
      ShrShifted(Num(k, ds[..last]), ds[last], k);
      NumeralNum(k, ds[..last]);
    }
  }

  lemma {:induction false} NumNumeral(k: nat, n: nat, len: nat)
    requires n < Shifted(1, Room(k, len))
    ensures Num(k, Numeral(k, n, len)) == n
    decreases len
  {
    if len > 0 {
      hide Shifted, Shr, Low;
      ShrRoom(n, Room(k, len - 1), k);
      ShiftedShr(n, k);
      NumNumeral(k, Shr(n, k), len - 1);
      NumAppend(k, Numeral(k, Shr(n, k), len - 1), Low(n, k));
    } else {
      assert Shifted(1, 0) == 1;
    }
  }

  lemma ShrRoom(n: nat, room: nat, k: nat)
    requires n < Shifted(1, room + k)
    ensures Shr(n, k) < Shifted(1, room)
  {
    ShiftedTwice(1, room, k);
    ShiftedShr(n, k);
    ShiftedMonotone(Shifted(1, room), Shr(n, k), k);
  }

  lemma {:induction false} NumBound(k: nat, ds: seq<nat>)
    requires AreGroups(k, ds)
    ensures Num(k, ds) < Shifted(1, Room(k, |ds|))
  {
    if ds == [] {
    } else {
      var last := |ds| - 1;
      NumBound(k, ds[..last]);
      AppendRoom(Num(k, ds[..last]), Room(k, last), k, ds[last]);
    }
  }

  lemma AppendRoom(n: nat, room: nat, k: nat, d: nat)
    requires n < Shifted(1, room) && d < Shifted(1, k)
    ensures Shifted(n, k) + d < Shifted(1, room + k)
  {
    ShiftedTwice(1, room, k);
    ShiftedMonotone(n + 1, Shifted(1, room), k);
    ShiftedAdd(n, 1, k);
  }

  lemma NumeralOfShifted(k: nat, n: nat, len: nat, room: nat, pad: nat)
    requires n < Shifted(1, room) && Room(k, len) == room + pad
    ensures Num(k, Numeral(k, Shifted(n, pad), len)) == Shifted(n, pad)
  {
    hide Shifted, Numeral, Num, Room;
    ShiftedOrder(n, Shifted(1, room), pad);
    ShiftedTwice(1, room, pad);
    NumNumeral(k, Shifted(n, pad), len);
  }

  lemma NumeralOfShr(k: nat, n: nat, len: nat, room: nat, spare: nat)
    requires n < Shifted(1, room + spare) && Room(k, len) == room
    ensures Num(k, Numeral(k, Shr(n, spare), len)) == Shr(n, spare)
  {
    hide Shifted, Shr, Numeral, Num, Room;
    ShrRoom(n, room, spare);
    NumNumeral(k, Shr(n, spare), len);
  }
}
