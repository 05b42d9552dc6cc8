/**
 * One-time passwords (services/api/src/lib/totp.ts, RFC 4226 and RFC 6238).
 * HMAC-SHA1 is a parameter: some function from a key and a counter to 20 bytes.
 */
module Totp {
  import opened Common
  import opened Text
  import opened Bits
  import Base32

  type Digest = d: seq<Base32.byte> | |d| == 20 witness seq(20, _ => 0)

  type Hmac = (seq<Base32.byte>, int) -> Digest

  const WINDOW := 1

  // ------------------------------------------------------------------- HOTP

  function Offset(digest: Digest): (o: nat)
    ensures o + 3 < |digest|
  {
    assert Shifted(1, 4) == 16 by { ShiftedTwice(1, 2, 2); }
    LowBound(digest[19], 4);
    Low(digest[19], 4)
  }

  /** The four bytes at the offset, top bit masked, joined by shifts and ors. */
  function Binary(digest: Digest): nat {
    var o := Offset(digest);
    Shifted(Low(digest[o], 7), 24) + Shifted(digest[o + 1], 16) + Shifted(digest[o + 2], 8) + digest[o + 3]
  }

  function Code(digest: Digest): string {
    PadStart(Decimal(Binary(digest) % 1_000_000), 6, '0')
  }

  lemma ByteFits(b: Base32.byte)
    ensures b < Shifted(1, 8)
  {
    Base32.Sizes();
  }

  lemma OffsetIsLastDigit(digest: Digest)
    ensures Offset(digest) == digest[19] % 16
  {
    LowIsRemainder(digest[19], 4);
    assert Shifted(1, 4) == 16 by { ShiftedTwice(1, 2, 2); }
  }

  lemma TwoTo31()
    ensures Shifted(1, 31) == 0x8000_0000
  {
    ShiftedTwice(1, 8, 8);
    ShiftedTwice(1, 16, 8);
    ShiftedTwice(1, 24, 7);
    ShiftedTimes(Shifted(1, 8), 8);
    ShiftedTimes(Shifted(1, 16), 8);
    ShiftedTimes(Shifted(1, 24), 7);
    Base32.Sizes();
    assert Shifted(1, 7) == 128 by { ShiftedTwice(1, 4, 3); ShiftedTwice(1, 2, 2); }
  }

  function BigEndian(a: nat, b: nat, c: nat, d: nat): nat {
    ((a * 256 + b) * 256 + c) * 256 + d
  }

  /**
   * RFC 4226, section 5.3: the low half of the last byte is the offset, and the
   * four bytes there, most significant first, without the top bit, the number.
   */
  lemma BinaryIsDynamicTruncation(digest: Digest)
    ensures var o := digest[19] % 16;
      && Binary(digest) == Low(Num(8, digest[o..o + 4]), 31)
      && Binary(digest) == BigEndian(digest[o], digest[o + 1], digest[o + 2], digest[o + 3]) % 0x8000_0000
  {
    hide Shifted, Low, Offset, Binary, Num, BigEndian;
    OffsetIsLastDigit(digest);
    BinaryIsLow(digest);
    var o := digest[19] % 16;
    FourBytes(digest[o..o + 4]);
    FourBytesBigEndian(digest[o], digest[o + 1], digest[o + 2], digest[o + 3]);
    LowIsRemainder(Num(8, digest[o..o + 4]), 31);
    TwoTo31();
  }

  lemma FourBytesBigEndian(a: nat, b: nat, c: nat, d: nat)
    ensures BigEndian(a, b, c, d) == Shifted(Shifted(Shifted(a, 8) + b, 8) + c, 8) + d
  {
    hide Shifted;
    Base32.Sizes();
    ShiftedTimes(a, 8);
    ShiftedTimes(Shifted(a, 8) + b, 8);
    ShiftedTimes(Shifted(Shifted(a, 8) + b, 8) + c, 8);
  }

  lemma BinaryIsLow(digest: Digest)
    ensures var o := Offset(digest); Binary(digest) == Low(Num(8, digest[o..o + 4]), 31)
  {
    hide Shifted, Low, Offset;
    var o := Offset(digest);
    var (a, b, c, d) := (digest[o], digest[o + 1], digest[o + 2], digest[o + 3]);
    ByteFits(b);
    ByteFits(c);
    ByteFits(d);
    var n1, n2, n3 := a, Shifted(a, 8) + b, Shifted(Shifted(a, 8) + b, 8) + c;
    assert Num(8, digest[o..o + 4]) == Shifted(n3, 8) + d by { FourBytes(digest[o..o + 4]); }
    LowShifted(n3, 23, 8, d);
    LowShifted(n2, 15, 8, c);
    LowShifted(n1, 7, 8, b);
    var low := Low(a, 7);
    ShiftedAdd(Shifted(low, 8), b, 8);
    ShiftedTwice(low, 8, 8);
    ShiftedAdd(Shifted(low, 16) + Shifted(b, 8), c, 8);
    ShiftedAdd(Shifted(low, 16), Shifted(b, 8), 8);
    ShiftedTwice(low, 16, 8);
    ShiftedTwice(b, 8, 8);
  }

  lemma FourBytes(s: seq<nat>)
    requires |s| == 4
    ensures Num(8, s) == Shifted(Shifted(Shifted(s[0], 8) + s[1], 8) + s[2], 8) + s[3]
  {
    hide Shifted;
    assert Shifted(0, 8) == 0 by { NothingShifted(8); }
    assert s[..1] == [] + [s[0]] && s[..2] == s[..1] + [s[1]] && s[..3] == s[..2] + [s[2]] && s == s[..3] + [s[3]];
    NumAppend(8, [], s[0]);
    NumAppend(8, s[..1], s[1]);
    NumAppend(8, s[..2], s[2]);
    NumAppend(8, s[..3], s[3]);
  }

  lemma {:induction false} NothingShifted(k: nat)
    ensures Shifted(0, k) == 0
  {
    if k == 0 {
    } else {
      NothingShifted(k - 1);
    }
  }

  /** Six decimal digits, denoting the truncated value modulo a million. */
  lemma CodeIsSixDigits(digest: Digest)
    ensures |Code(digest)| == 6 && AllDigits(Code(digest))
    ensures DecimalValue(Code(digest)) == Binary(digest) % 1_000_000
  {
    var n := Binary(digest) % 1_000_000;
    assert Power10(6) == 1_000_000;
    DecimalWidth(n, 6);
    DecimalReads(n);
    PadStartValue(Decimal(n), 6);
  }

  function Hotp(hmac: Hmac, secret: seq<Base32.byte>, counter: int): string {
    Code(hmac(secret, counter))
  }

  // ------------------------------------------------------------------- TOTP

  lemma HotpWellFormed(hmac: Hmac, secret: seq<Base32.byte>, counter: int)
    ensures WellFormed(Hotp(hmac, secret, counter))
  {
    CodeIsSixDigits(hmac(secret, counter));
  }

  /** Milliseconds to thirty-second steps. */
  function CurrentStep(at: nat): nat {
    at / 1000 / 30
  }

  /** Steps are thirty seconds long and count from the epoch. */
  lemma StepIsThirtySeconds(at: nat)
    ensures 30_000 * CurrentStep(at) <= at < 30_000 * (CurrentStep(at) + 1)
  {
  }

  function WithoutSpaces(s: string): string {
    if s == "" then "" else (if IsSpace(s[0]) then "" else [s[0]]) + WithoutSpaces(s[1..])
  }

  /** Every space is dropped and every other character kept, in order. */
  lemma WithoutSpacesIs(a: string, b: string, c: char)
    ensures WithoutSpaces("") == "" && WithoutSpaces([c]) == if IsSpace(c) then "" else [c]
    ensures WithoutSpaces(a + b) == WithoutSpaces(a) + WithoutSpaces(b)
  {
    hide IsSpace;
    WithoutSpacesJoins(a, b);
    assert [c][1..] == "";
  }

  lemma {:induction false} WithoutSpacesJoins(a: string, b: string)
    ensures WithoutSpaces(a + b) == WithoutSpaces(a) + WithoutSpaces(b)
  {
    if a == "" {
      assert a + b == b;
    } else {
      hide IsSpace;
      assert (a + b)[1..] == a[1..] + b;
      WithoutSpacesJoins(a[1..], b);
    }
  }

  predicate WellFormed(code: string) {
    |code| == 6 && AllDigits(code)
  }

  predicate Fresh(step: int, lastStep: Option<int>) {
    lastStep == None || step > lastStep.value
  }

  predicate Accepts(hmac: Hmac, secret: seq<Base32.byte>, code: string, lastStep: Option<int>, step: int) {
    Fresh(step, lastStep) && Hotp(hmac, secret, step) == code
  }

  /** The first acceptable step from `step` to the end of the window. */
  function FirstMatch(hmac: Hmac, secret: seq<Base32.byte>, code: string, lastStep: Option<int>, step: int, end: int)
    : (r: Option<int>)
    ensures r.Some? ==> step <= r.value <= end && Accepts(hmac, secret, code, lastStep, r.value)
    ensures r.Some? ==> forall s :: step <= s < r.value ==> !Accepts(hmac, secret, code, lastStep, s)
    ensures r.None? ==> forall s :: step <= s <= end ==> !Accepts(hmac, secret, code, lastStep, s)
    decreases end - step
  {
    if step > end then None
    else if Accepts(hmac, secret, code, lastStep, step) then Some(step)
    else FirstMatch(hmac, secret, code, lastStep, step + 1, end)
  }

  /** `None` is `{ valid: false }`; `Some(step)` is a match at that step. */
  function Verified(hmac: Hmac, secretBase32: string, code: string, lastStep: Option<int>, at: nat)
    : Result<Option<int>, Base32.DecodeError>
  {
    var cleaned := WithoutSpaces(code);
    if !WellFormed(cleaned) then Ok(None)
    else match Base32.Decoded(secretBase32)
      case Err(e) => Err(e)
      case Ok(secret) =>
        var now := CurrentStep(at);
        Ok(FirstMatch(hmac, secret, cleaned, lastStep, now - WINDOW, now + WINDOW))
  }

  method VerifyTotp(hmac: Hmac, secretBase32: string, code: string, lastStep: Option<int>, at: nat)
    returns (result: Result<Option<int>, Base32.DecodeError>)
    ensures result == Verified(hmac, secretBase32, code, lastStep, at)
  {
    hide Hotp, WithoutSpaces, WellFormed, Base32.Decoded;
    var cleaned := WithoutSpaces(code);
    if !WellFormed(cleaned) {
      return Ok(None);
    }
    var decoded := Base32.Base32Decode(secretBase32);
    if decoded.Err? {
      return Err(decoded.error);
    }
    var secret := decoded.value;
    var now := CurrentStep(at);
    var offset := -WINDOW;
    while offset <= WINDOW
      invariant -WINDOW <= offset <= WINDOW + 1
      invariant FirstMatch(hmac, secret, cleaned, lastStep, now - WINDOW, now + WINDOW)
             == FirstMatch(hmac, secret, cleaned, lastStep, now + offset, now + WINDOW)
    {
      var step := now + offset;
      if lastStep.Some? && step <= lastStep.value {
        // already used
      } else if Hotp(hmac, secret, step) == cleaned {
        return Ok(Some(step));
      }
      offset := offset + 1;
    }
    result := Ok(None);
  }

  /** Some step within one of `now` (RFC 6238, section 5.2), not yet used, has this code. */
  ghost predicate Current(hmac: Hmac, secret: seq<Base32.byte>, code: string, lastStep: Option<int>, now: int) {
    exists step :: now - 1 <= step <= now + 1 && Accepts(hmac, secret, code, lastStep, step)
  }

  lemma FirstMatchExactly(hmac: Hmac, secret: seq<Base32.byte>, code: string, lastStep: Option<int>, now: int)
    ensures FirstMatch(hmac, secret, code, lastStep, now - 1, now + 1).Some?
       <==> Current(hmac, secret, code, lastStep, now)
    ensures Current(hmac, secret, code, lastStep, now) ==> WellFormed(code)
  {
    hide Hotp, WellFormed;
    if step :| now - 1 <= step <= now + 1 && Accepts(hmac, secret, code, lastStep, step) {
      HotpWellFormed(hmac, secret, step);
    }
  }

  /**
   * A typed code is accepted if and only if it is the code of an unused step of
   * the window, however the secret was typed in.
   */
  lemma VerifiedExactly(hmac: Hmac, secret: seq<Base32.byte>, typed: string, code: string, lastStep: Option<int>, at: nat)
    ensures var result := Verified(hmac, typed, code, lastStep, at);
      Base32.Clean(typed) == Base32.Encoded(secret) ==>
        && result.Ok?
        && (result.value.Some? <==> Current(hmac, secret, WithoutSpaces(code), lastStep, CurrentStep(at)))
  {
    hide Hotp, WithoutSpaces, WellFormed, Base32.Decoded, Base32.Clean, Base32.Encoded, Current, FirstMatch;
    Base32.RoundTrip(secret, typed);
    FirstMatchExactly(hmac, secret, WithoutSpaces(code), lastStep, CurrentStep(at));
  }
}
