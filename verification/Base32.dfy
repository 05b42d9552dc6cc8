/**
 * The hand-written base32 of services/api/src/lib/totp.ts.
 *
 * The accumulator is a 32-bit integer that is never masked. Shifts are written
 * one bit at a time (`Shifted`, `Shr`), keeping the low `k` bits is `Low`, so a
 * 32-bit `<<` is `Low(Shifted(value, k), 32)`, `& 31` is `Low(.., 5)`, `& 0xff`
 * is `Low(.., 8)`, and `|` with bits that are clear in the other operand is `+`.
 * `WordReads`, `WordMasks` and `WordShifts` prove those readings of 32-bit words.
 *
 * The reference is RFC 4648, section 6: the bits of the input, padded on the
 * right to a multiple of five, are one number, and its base-32 numeral is the
 * encoding.
 */
module Base32 {
  import opened Common
  import opened Text
  import opened Bits
  import opened Words

  type byte = x: nat | x < 256

  const ALPHABET := "ABCDEFGHIJKLMNOPQRSTUVWXYZ234567"

  /** `value << k` on a 32-bit word. */
  function Shl(value: nat, k: nat): nat {
    Low(Shifted(value, k), 32)
  }

  /** `(value << k) | group`, on 32-bit words. */
  function ShiftedIn(value: bv32, k: nat, group: bv32): bv32
    requires k <= 8
  {
    Either(LeftBy(value, k), group)
  }

  /** Reading a byte or an index on 32-bit words adds it below the shifted bits. */
  lemma WordReads(value: bv32, b: bv32, index: bv32)
    ensures b < 256 ==> Word(ShiftedIn(value, 8, b)) == Shl(Word(value), 8) + Word(b)
    ensures index < 32 ==> Word(ShiftedIn(value, 5, index)) == Shl(Word(value), 5) + Word(index)
  {
    hide Word, Either, Both, LeftBy, Left, Shl;
    LeftByIsLeft(value, 8);
    LeftByIsLeft(value, 5);
    if b < 256 {
      ByteClear(value, b);
      ReadsShifted(value, 8, b);
    }
    if index < 32 {
      IndexClear(value, index);
      ReadsShifted(value, 5, index);
    }
  }

  lemma ByteClear(value: bv32, b: bv32)
    requires b < 256
    ensures Both(LeftBy(value, 8), b) == 0
  {
    assert (value << 8) & b == 0;
  }

  lemma IndexClear(value: bv32, index: bv32)
    requires index < 32
    ensures Both(LeftBy(value, 5), index) == 0
  {
    assert (value << 5) & index == 0;
  }

  lemma ReadsShifted(value: bv32, k: nat, group: bv32)
    requires Both(Left(value, k), group) == 0
    ensures Word(Either(Left(value, k), group)) == Shl(Word(value), k) + Word(group)
  {
    LeftIsShl(value, k);
    EitherWords(Left(value, k), group);
    hide *;
  }

  lemma EitherWords(v: bv32, w: bv32)
    requires Both(v, w) == 0
    ensures Word(Either(v, w)) == Word(v) + Word(w)
  {
    hide Both, Either, NatOf;
    EitherIsSum(v, w, 32);
  }

  lemma BothNamed(v: bv32, w: bv32)
    ensures v & w == Both(v, w)
  {
  }

  /** Writing on 32-bit words: the masks keep the low bits. */
  lemma WordMasks(value: bv32)
    ensures Word(value & 31) == Low(Word(value), 5) && Word(value & 255) == Low(Word(value), 8)
  {
    BothNamed(value, 31);
    BothNamed(value, 255);
    SmallMasks();
    hide Both, OnesOf, NatOf;
    MaskKeepsLow(value, 31, 5, 32);
    MaskKeepsLow(value, 255, 8, 32);
    NatOfLow(value, 32, 5);
    NatOfLow(value, 32, 8);
  }

  /** `value >>> k` and `value << k` for every amount of the two loops and of the final padding. */
  lemma WordShifts(value: bv32, k: nat)
    ensures k <= 7 ==> Word(RightBy(value, k)) == Shr(Word(value), k)
    ensures k <= 8 ==> Word(LeftBy(value, k)) == Shl(Word(value), k)
  {
    hide Word, LeftBy, RightBy, Left, Right, Shl, Shr;
    RightIsShr(value, k);
    LeftIsShl(value, k);
    if k <= 7 { RightByIsRight(value, k); }
    if k <= 8 { LeftByIsLeft(value, k); }
  }

  lemma LeftIsShl(value: bv32, k: nat)
    ensures Word(Left(value, k)) == Shl(Word(value), k)
  {
    hide Word, Left;
    LeftIsShifted(value, k);
  }

  // ----------------------------------------------------------- the reference

  function EncodedLength(n: nat): nat {
    (8 * n + 4) / 5
  }

  /** The zero bits RFC 4648 appends so that 5 divides the length. */
  function Padding(n: nat): nat {
    5 * EncodedLength(n) - 8 * n
  }

  function EncodedDigits(bytes: seq<byte>): (ds: seq<nat>)
    ensures |ds| == EncodedLength(|bytes|) && AreGroups(5, ds)
  {
    Numeral(5, Shifted(Num(8, bytes), Padding(|bytes|)), EncodedLength(|bytes|))
  }

  function Letter(d: nat): char
    requires d < 32
  {
    if d < 26 then 'A' + d as char else '2' + (d - 26) as char
  }

  predicate IsLetter(c: char) {
    'A' <= c <= 'Z' || '2' <= c <= '7'
  }

  function Index(c: char): (d: nat)
    requires IsLetter(c)
    ensures d < 32 && Letter(d) == c
  {
    if 'A' <= c <= 'Z' then (c - 'A') as nat else (c - '2') as nat + 26
  }

  /** `Letter` is indexing into the alphabet, and `Index` is the only index of a letter. */
  lemma AlphabetTable(d: nat)
    requires d < 32
    ensures ALPHABET[d] == Letter(d)
    ensures IsLetter(Letter(d)) && Index(Letter(d)) == d
  {
  }

  function Letters(ds: seq<nat>): (s: string)
    requires AreGroups(5, ds)
    ensures |s| == |ds|
  {
    Sizes();
    if ds == [] then "" else Letters(ds[..|ds| - 1]) + [Letter(ds[|ds| - 1])]
  }

  function Encoded(bytes: seq<byte>): string {
    Letters(EncodedDigits(bytes))
  }

  /** Whole bytes only: the trailing `5m mod 8` bits are dropped. */
  function DecodedBytes(ds: seq<nat>): (bytes: seq<byte>)
    ensures |bytes| == 5 * |ds| / 8
  {
    Sizes();
    Numeral(8, Shr(Num(5, ds), 5 * |ds| % 8), 5 * |ds| / 8)
  }

  function Clean(input: string): string {
    if input == "" then ""
    else (if input[0] == '=' || IsSpace(input[0]) then "" else [Upper(input[0])]) + Clean(input[1..])
  }

  /** Every space and `=` is dropped and every other character kept in upper case, in order. */
  lemma {:induction false} CleanIs(a: string, b: string, c: char)
    ensures Clean("") == "" && Clean([c]) == if c == '=' || IsSpace(c) then "" else ToUpper([c])
    ensures Clean(a + b) == Clean(a) + Clean(b)
  {
    hide IsSpace, Upper;
    assert [c][1..] == "" && Clean([c]) == (if c == '=' || IsSpace(c) then "" else [Upper(c)]) + "";
    assert ToUpper([c]) == [Upper(c)];
    if a == "" {
      assert a + b == b;
    } else {
      assert (a + b)[1..] == a[1..] + b;
      CleanIs(a[1..], b, c);
    }
  }

  predicate AllLetters(s: string) {
    forall i :: 0 <= i < |s| ==> IsLetter(s[i])
  }

  function IndexesOf(s: string): (ds: seq<nat>)
    requires AllLetters(s)
    ensures |ds| == |s| && AreGroups(5, ds)
  {
    Sizes();
    if s == "" then [] else IndexesOf(s[..|s| - 1]) + [Index(s[|s| - 1])]
  }

  lemma IndexesAppend(s: string, c: char)
    requires AllLetters(s) && IsLetter(c)
    ensures AllLetters(s + [c]) && IndexesOf(s + [c]) == IndexesOf(s) + [Index(c)]
  {
    assert (s + [c])[..|s|] == s;
  }

  datatype DecodeError = InvalidSecret

  function Decoded(input: string): Result<seq<byte>, DecodeError> {
    var cleaned := Clean(input);
    if AllLetters(cleaned) then Ok(DecodedBytes(IndexesOf(cleaned))) else Err(InvalidSecret)
  }

  lemma Sizes()
    ensures Shifted(1, 5) == 32 && Shifted(1, 8) == 256
  {
    ShiftedTwice(1, 2, 2);
    ShiftedTwice(1, 2, 3);
    ShiftedTwice(1, 4, 4);
  }

  // ---------------------------------------------------- the shift accumulator

  /** The number read so far is the number written so far, then the pending low bits. */
  ghost predicate Accounts(read: nat, written: nat, bits: nat, value: nat) {
    read == Shifted(written, bits) + Low(value, bits)
  }

  /** Reading a group of `k` bits. */
  lemma ReadGroup(read: nat, written: nat, bits: nat, value: nat, k: nat, d: nat)
    requires bits + k <= 32 && d < Shifted(1, k) && Accounts(read, written, bits, value)
    ensures Accounts(Shifted(read, k) + d, written, bits + k, Shl(value, k) + d)
  {
    hide Shifted, Low;
    ShiftedAdd(Shifted(written, bits), Low(value, bits), k);
    ShiftedTwice(written, bits, k);
    LowShifted(value, bits, k, d);
    LowAdd(value, 32, k, d);
    LowLow(Shl(value, k) + d, 32, bits + k);
    LowLow(Shifted(value, k) + d, 32, bits + k);
  }

  /** Writing the top `k` of the pending bits. */
  lemma WriteGroup(read: nat, written: nat, bits: nat, value: nat, k: nat)
    requires k <= bits && Accounts(read, written, bits, value)
    ensures Accounts(read, Shifted(written, k) + Low(Shr(value, bits - k), k), bits - k, value)
  {
    hide Shifted, Low, Shr;
    LowSplit(value, bits - k, k);
    ShiftedAdd(Shifted(written, k), Low(Shr(value, bits - k), k), bits - k);
    ShiftedTwice(written, k, bits - k);
  }

  /** The final group is the pending bits, padded with zeros on the right. */
  lemma WritePadded(read: nat, written: nat, bits: nat, value: nat)
    requires bits <= 5 && Accounts(read, written, bits, value)
    ensures Shifted(written, 5) + Low(Shl(value, 5 - bits), 5) == Shifted(read, 5 - bits)
  {
    ShiftedOrder(0, 1, 5 - bits);
    ReadGroup(read, written, bits, value, 5 - bits, 0);
  }

  /** The accumulator, with the `k`-bit groups it has written and the number it has read. */
  ghost predicate Holds(k: nat, written: seq<nat>, read: nat, bits: nat, value: nat) {
    AreGroups(k, written) && Accounts(read, Num(k, written), bits, value)
  }

  lemma Started(k: nat, j: nat)
    ensures Holds(k, [], Num(j, []), 0, 0)
  {
  }

  lemma NoShift(x: nat)
    ensures Shr(x, 0) == x && Shifted(x, 0) == x
  {
  }

  lemma ReadStep(k: nat, written: seq<nat>, j: nat, read: seq<nat>, bits: nat, value: nat, d: nat)
    requires bits + j <= 32 && d < Shifted(1, j)
    requires Holds(k, written, Num(j, read), bits, value)
    ensures Holds(k, written, Num(j, read + [d]), bits + j, Shl(value, j) + d)
  {
    NumAppend(j, read, d);
    ReadGroup(Num(j, read), Num(k, written), bits, value, j, d);
  }

  lemma WriteStep(k: nat, written: seq<nat>, read: nat, bits: nat, value: nat)
    requires k <= bits && Holds(k, written, read, bits, value)
    ensures Holds(k, written + [Low(Shr(value, bits - k), k)], read, bits - k, value)
  {
    var d := Low(Shr(value, bits - k), k);
    LowBound(Shr(value, bits - k), k);
    WriteGroup(read, Num(k, written), bits, value, k);
    NumAppend(k, written, d);
  }

  /** A drained accumulator: what was written is the numeral of what was read. */
  lemma Finished(k: nat, written: seq<nat>, read: nat, bits: nat, value: nat)
    requires Holds(k, written, read, bits, value)
    ensures written == Numeral(k, Shr(read, bits), |written|)
  {
    hide Shifted, Low, Shr, Num, Numeral, AreGroups;
    LowBound(value, bits);
    ShrShifted(Num(k, written), Low(value, bits), bits);
    NumeralNum(k, written);
  }

  lemma FinishedPadded(written: seq<nat>, read: nat, bits: nat, value: nat)
    requires bits <= 5 && Holds(5, written, read, bits, value)
    ensures var all := written + [Low(Shl(value, 5 - bits), 5)];
      all == Numeral(5, Shifted(read, 5 - bits), |all|)
  {
    hide Shifted, Low, Num, Numeral;
    var d := Low(Shl(value, 5 - bits), 5);
    LowBound(Shl(value, 5 - bits), 5);
    WritePadded(read, Num(5, written), bits, value);
    NumAppend(5, written, d);
    NumeralNum(5, written + [d]);
  }

  method Base32Encode(buffer: seq<byte>) returns (output: string)
    ensures output == Encoded(buffer)
  {
    hide Accounts, AreGroups, Num, Low, Shr, Shifted, Numeral;
    var bits: nat, value: nat := 0, 0;
    ghost var ds: seq<nat> := [];
    Sizes();
    Started(5, 8);
    output := "";
    for i := 0 to |buffer|
      invariant bits <= 4 && 5 * |ds| + bits == 8 * i
      invariant Holds(5, ds, Num(8, buffer[..i]), bits, value) && output == Letters(ds)
    {
      assert buffer[..i + 1] == buffer[..i] + [buffer[i]];
      ReadStep(5, ds, 8, buffer[..i], bits, value, buffer[i]);
      value := Shl(value, 8) + buffer[i];
      bits := bits + 8;
      while bits >= 5
        invariant bits <= 12 && 5 * |ds| + bits == 8 * (i + 1)
        invariant Holds(5, ds, Num(8, buffer[..i + 1]), bits, value) && output == Letters(ds)
      {
        WriteStep(5, ds, Num(8, buffer[..i + 1]), bits, value);
        var d := Low(Shr(value, bits - 5), 5);
        LowBound(Shr(value, bits - 5), 5);
        output := output + [Letter(d)];
        ds := ds + [d];
        bits := bits - 5;
      }
    }
    assert buffer[..|buffer|] == buffer;
    if bits > 0 {
      FinishedPadded(ds, Num(8, buffer), bits, value);
      var d := Low(Shl(value, 5 - bits), 5);
      LowBound(Shl(value, 5 - bits), 5);
      output := output + [Letter(d)];
      ds := ds + [d];
    } else {
      Finished(5, ds, Num(8, buffer), bits, value);
      NoShift(Num(8, buffer));
    }
  }

  method Base32Decode(input: string) returns (result: Result<seq<byte>, DecodeError>)
    ensures result == Decoded(input)
  {
    hide Holds, AreGroups, Num, Low, Shr, Shifted, Numeral, Clean, IndexesOf, Letter;
    var cleaned := Clean(input);
    var bits: nat, value: nat := 0, 0;
    var bytes: seq<byte> := [];
    Sizes();
    Started(8, 5);
    for i := 0 to |cleaned|
      invariant AllLetters(cleaned[..i])
      invariant bits <= 7 && 8 * |bytes| + bits == 5 * i
      invariant Holds(8, bytes, Num(5, IndexesOf(cleaned[..i])), bits, value)
    {
      if !IsLetter(cleaned[i]) {
        return Err(InvalidSecret);
      }
      var index := Index(cleaned[i]);
      assert cleaned[..i + 1] == cleaned[..i] + [cleaned[i]];
      ghost var ds := IndexesOf(cleaned[..i]);
      IndexesAppend(cleaned[..i], cleaned[i]);
      ReadStep(8, bytes, 5, ds, bits, value, index);
      value := Shl(value, 5) + index;
      bits := bits + 5;
      if bits >= 8 {
        WriteStep(8, bytes, Num(5, ds + [index]), bits, value);
        LowBound(Shr(value, bits - 8), 8);
        bytes := bytes + [Low(Shr(value, bits - 8), 8)];
        bits := bits - 8;
      }
    }
    assert cleaned[..|cleaned|] == cleaned;
    Finished(8, bytes, Num(5, IndexesOf(cleaned)), bits, value);
    result := Ok(bytes);
  }

  // ------------------------------------------------------------- the theorems

  lemma {:induction false} IndexesOfLetters(ds: seq<nat>)
    requires AreGroups(5, ds)
    ensures AllLetters(Letters(ds)) && IndexesOf(Letters(ds)) == ds
  {
    if ds == [] {
    } else {
      var last := |ds| - 1;
      Sizes();
      AlphabetTable(ds[last]);
      hide Shifted, Letter, Index, IsLetter;
      IndexesOfLetters(ds[..last]);
      IndexesAppend(Letters(ds[..last]), Letter(ds[last]));
    }
  }

  /** The padded input fits the encoded length, so the numeral really denotes it. */
  lemma EncodedValue(bytes: seq<byte>)
    ensures Num(5, EncodedDigits(bytes)) == Shifted(Num(8, bytes), Padding(|bytes|))
  {
    var (n, m) := (|bytes|, EncodedLength(|bytes|));
    ByteGroups(bytes);
    RoomOf5And8(n);
    RoomOf5And8(m);
    NumBound(8, bytes);
    NumeralOfShifted(5, Num(8, bytes), m, 8 * n, Padding(n));
  }

  /** Decoding the digits the encoder wrote gives back every byte. */
  lemma ByteGroups(bytes: seq<byte>)
    ensures AreGroups(8, bytes)
  {
    Sizes();
  }

  lemma DecodeEncodedDigits(bytes: seq<byte>)
    ensures DecodedBytes(EncodedDigits(bytes)) == bytes
  {
    hide Shifted, Shr, Num, Numeral, AreGroups;
    var pad := Padding(|bytes|);
    EncodedValue(bytes);
    ByteGroups(bytes);
    ShiftedOrder(0, 1, pad);
    ShrShifted(Num(8, bytes), 0, pad);
    NumeralNum(8, bytes);
  }

  lemma {:induction false} CleanLetters(s: string)
    requires AllLetters(s)
    ensures Clean(s) == s
  {
    if s == "" {
    } else {
      CleanLetters(s[1..]);
    }
  }

  /**
   * The round trip, for every byte sequence and for every way of typing the
   * secret: lower case, spaces and `=` padding anywhere make no difference.
   */
  lemma RoundTrip(bytes: seq<byte>, typed: string)
    ensures Clean(typed) == Encoded(bytes) ==> Decoded(typed) == Ok(bytes)
  {
    IndexesOfLetters(EncodedDigits(bytes));
    DecodeEncodedDigits(bytes);
  }

  lemma RoundTripExact(bytes: seq<byte>)
    ensures Decoded(Encoded(bytes)) == Ok(bytes)
    ensures |Encoded(bytes)| == (8 * |bytes| + 4) / 5
  {
    IndexesOfLetters(EncodedDigits(bytes));
    CleanLetters(Encoded(bytes));
    RoundTrip(bytes, Encoded(bytes));
  }

  /**
   * The other way round is not always exact: a decoded secret re-encodes to
   * itself if and only if no whole character was dropped and the dropped bits
   * were zero.
   */
  lemma CanonicalSecrets(ds: seq<nat>)
    requires AreGroups(5, ds)
    ensures EncodedDigits(DecodedBytes(ds)) == ds
       <==> 5 * |ds| % 8 < 5 && Low(Num(5, ds), 5 * |ds| % 8) == 0
  {
    hide Shifted, Low, Shr, Num, Numeral, AreGroups;
    var (m, spare) := (|ds|, 5 * |ds| % 8);
    var (x, n) := (Num(5, ds), 5 * m / 8);
    Sizes();
    var bytes := DecodedBytes(ds);
    RoomOf5And8(n);
    RoomOf5And8(m);
    NumBound(5, ds);
    NumeralOfShr(8, x, n, 8 * n, spare);
    assert Num(8, bytes) == Shr(x, spare);
    EncodedValue(bytes);
    ShiftedShr(x, spare);
    NumeralNum(5, ds);
    if spare >= 5 {
      assert EncodedLength(n) < m;
    } else {
      assert EncodedLength(n) == m && Padding(n) == spare;
      assert EncodedDigits(bytes) == Numeral(5, Shifted(Shr(x, spare), spare), m);
      if Low(x, spare) != 0 {
        assert Num(5, EncodedDigits(bytes)) != Num(5, ds);
      }
    }
  }
}
