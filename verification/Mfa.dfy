/**
 * One user's second factor over time (services/api/src/modules/mfa.routes.ts):
 * the `user_mfa` row, the backup codes, and the five requests that change them.
 * Requests are served one at a time; SHA-256 and HMAC-SHA1 are parameters.
 */
module Mfa {
  import opened Common
  import opened Text
  import Totp

  datatype Primitives = Primitives(sha256: string -> string, hmac: Totp.Hmac)

  /** A row of `user_mfa`: the secret, whether it was confirmed, the last step used. */
  datatype Row = Row(secret: string, confirmed: bool, lastStep: Option<int>)

  datatype BackupCode = BackupCode(hash: string, used: bool)

  datatype State = State(row: Option<Row>, codes: seq<BackupCode>)

  datatype Outcome =
    | Rejected
    | Done
    | ByTotp(step: int)
    | ByBackup(hash: string)

  datatype Event =
    | Enroll(secret: string)
    | Confirm(code: string, at: nat, issued: seq<string>)
    | Login(code: string, at: nat)
    | Regenerate(code: string, at: nat, issued: seq<string>)
    | Disable(passwordOk: bool)

  // ------------------------------------------------------------ the transitions

  function Normalised(code: string): string {
    if code == "" then ""
    else (if IsSpace(code[0]) || code[0] == '-' then "" else [Upper(code[0])]) + Normalised(code[1..])
  }

  /** `UPDATE ... WHERE code_hash = h AND used_at IS NULL`: every unused row with the hash. */
  function Spend(codes: seq<BackupCode>, hash: string): (r: seq<BackupCode>)
    ensures |r| == |codes|
    ensures forall i :: 0 <= i < |codes| ==>
      r[i] == if codes[i].hash == hash then BackupCode(hash, true) else codes[i]
  {
    if codes == [] then []
    else
      [if codes[0].hash == hash then BackupCode(hash, true) else codes[0]] + Spend(codes[1..], hash)
  }

  function Issued(p: Primitives, issued: seq<string>): (codes: seq<BackupCode>)
    ensures |codes| == |issued|
    ensures forall i :: 0 <= i < |issued| ==> codes[i] == BackupCode(p.sha256(Normalised(issued[i])), false)
  {
    if issued == [] then [] else [BackupCode(p.sha256(Normalised(issued[0])), false)] + Issued(p, issued[1..])
  }

  /** `verifyMfaCode`. */
  function Verify(p: Primitives, s: State, code: string, at: nat): (State, Outcome) {
    if s.row.None? || !s.row.value.confirmed then (s, Rejected)
    else
      var row := s.row.value;
      match Totp.Verified(p.hmac, row.secret, code, row.lastStep, at)
      case Err(_) => (s, Rejected)
      case Ok(Some(step)) => (s.(row := Some(row.(lastStep := Some(step)))), ByTotp(step))
      case Ok(None) =>
        var hash := p.sha256(Normalised(code));
        if |Normalised(code)| == 8 && exists c <- s.codes :: c.hash == hash && !c.used
        then (s.(codes := Spend(s.codes, hash)), ByBackup(hash))
        else (s, Rejected)
  }

  function Step(p: Primitives, s: State, e: Event): (State, Outcome) {
    match e
    case Enroll(secret) =>
      if s.row.Some? && s.row.value.confirmed then (s, Rejected)
      else (s.(row := Some(Row(secret, false, None))), Done)
    case Confirm(code, at, issued) =>
      if s.row.None? || s.row.value.confirmed then (s, Rejected)
      else (match Totp.Verified(p.hmac, s.row.value.secret, code, None, at)
        case Ok(Some(step)) =>
          (State(Some(s.row.value.(confirmed := true, lastStep := Some(step))), Issued(p, issued)), ByTotp(step))
        case _ => (s, Rejected))
    case Login(code, at) => Verify(p, s, code, at)
    case Regenerate(code, at, issued) =>
      var (s', outcome) := Verify(p, s, code, at);
      if outcome == Rejected then (s', outcome) else (s'.(codes := Issued(p, issued)), outcome)
    case Disable(passwordOk) =>
      if passwordOk then (State(None, []), Done) else (s, Rejected)
  }

  // --------------------------------------------------------- the stored records

  class UserMfa {
    const p: Primitives
    var row: Option<Row>
    var codes: seq<BackupCode>

    constructor (p: Primitives)
      ensures this.p == p && Current() == State(None, [])
    {
      this.p := p;
      row, codes := None, [];
    }

    ghost function Current(): State
      reads this
    {
      State(row, codes)
    }

    method Enroll(secret: string) returns (outcome: Outcome)
      modifies this
      ensures (Current(), outcome) == Step(p, old(Current()), Event.Enroll(secret))
    {
      if row.Some? && row.value.confirmed {
        return Rejected;
      }
      row := Some(Row(secret, false, None));
      outcome := Done;
    }

    method Confirm(code: string, at: nat, issued: seq<string>) returns (outcome: Outcome)
      modifies this
      ensures (Current(), outcome) == Step(p, old(Current()), Event.Confirm(code, at, issued))
    {
      if row.None? || row.value.confirmed {
        return Rejected;
      }
      var result := Totp.VerifyTotp(p.hmac, row.value.secret, code, None, at);
      if result.Err? || result.value.None? {
        return Rejected;
      }
      row := Some(row.value.(confirmed := true, lastStep := Some(result.value.value)));
      Issue(issued);
      outcome := ByTotp(result.value.value);
    }

    /** One transaction: delete every code, then insert the new ones one by one. */
    method Issue(issued: seq<string>)
      modifies this`codes
      ensures codes == Issued(p, issued)
    {
      ghost var all := Issued(p, issued);
      hide Normalised, Issued;
      var inserted: seq<BackupCode> := [];
      for i := 0 to |issued|
        invariant inserted == all[..i]
      {
        var code := BackupCode(p.sha256(Normalised(issued[i])), false);
        assert all[..i + 1] == all[..i] + [code];
        inserted := inserted + [code];
      }
      codes := inserted;
    }

    method VerifyMfaCode(code: string, at: nat) returns (outcome: Outcome)
      modifies this
      ensures (Current(), outcome) == Verify(p, old(Current()), code, at)
    {
      if row.None? || !row.value.confirmed {
        return Rejected;
      }
      var result := Totp.VerifyTotp(p.hmac, row.value.secret, code, row.value.lastStep, at);
      if result.Err? {
        return Rejected;
      }
      if result.value.Some? {
        row := Some(row.value.(lastStep := result.value));
        return ByTotp(result.value.value);
      }
      var normalised := Normalised(code);
      if |normalised| != 8 {
        return Rejected;
      }
      var hash := p.sha256(normalised);
      if exists c <- codes :: c.hash == hash && !c.used {
        codes := Spend(codes, hash);
        outcome := ByBackup(hash);
      } else {
        outcome := Rejected;
      }
    }

    method Regenerate(code: string, at: nat, issued: seq<string>) returns (outcome: Outcome)
      modifies this
      ensures (Current(), outcome) == Step(p, old(Current()), Event.Regenerate(code, at, issued))
    {
      outcome := VerifyMfaCode(code, at);
      if outcome != Rejected {
        Issue(issued);
      }
    }

    method Disable(passwordOk: bool) returns (outcome: Outcome)
      modifies this
      ensures (Current(), outcome) == Step(p, old(Current()), Event.Disable(passwordOk))
    {
      if !passwordOk {
        return Rejected;
      }
      row, codes := None, [];
      outcome := Done;
    }
  }

  // ---------------------------------------------------------------- whole runs

  /** The state after a run of requests. */
  function After(p: Primitives, s: State, events: seq<Event>): State
    decreases |events|
  {
    if events == [] then s else After(p, Step(p, s, events[0]).0, events[1..])
  }

  /** The outcome of the k-th request of a run. */
  function OutcomeAt(p: Primitives, s: State, events: seq<Event>, k: nat): Outcome
    requires k < |events|
  {
    Step(p, After(p, s, events[..k]), events[k]).1
  }

  lemma {:induction false} AfterSplit(p: Primitives, s: State, events: seq<Event>, i: nat, j: nat)
    requires i <= j <= |events|
    ensures After(p, s, events[..j]) == After(p, After(p, s, events[..i]), events[i..j])
    decreases i
  {
    if i == 0 {
      assert events[..j] == events[0..j];
    } else {
      var tail := events[1..];
      assert events[..j][1..] == tail[..j - 1] && events[..i][1..] == tail[..i - 1];
      assert events[i..j] == tail[i - 1..j - 1];
      AfterSplit(p, Step(p, s, events[0]).0, tail, i - 1, j - 1);
    }
  }

  /** The row is in use and no step up to `step` can be accepted any more. */
  ghost predicate UsedUpTo(s: State, step: int) {
    s.row.Some? && s.row.value.confirmed && s.row.value.lastStep.Some? && s.row.value.lastStep.value >= step
  }

  lemma TotpAdvances(p: Primitives, s: State, e: Event, step: int)
    requires UsedUpTo(s, step) && e != Disable(true)
    ensures var (s', outcome) := Step(p, s, e);
      UsedUpTo(s', step) && (outcome.ByTotp? ==> outcome.step > step && UsedUpTo(s', outcome.step))
  {
  }

  lemma TotpAccepted(p: Primitives, s: State, e: Event)
    requires Step(p, s, e).1.ByTotp?
    ensures UsedUpTo(Step(p, s, e).0, Step(p, s, e).1.step)
    ensures e.Confirm? || e.Login? || e.Regenerate?
    ensures var now := Totp.CurrentStep(e.at); now - 1 <= Step(p, s, e).1.step <= now + 1
  {
  }

  lemma {:induction false} StaysUsed(p: Primitives, s: State, events: seq<Event>, step: int)
    requires UsedUpTo(s, step) && Disable(true) !in events
    ensures UsedUpTo(After(p, s, events), step)
    decreases |events|
  {
    if events == [] {
    } else {
      TotpAdvances(p, s, events[0], step);
      StaysUsed(p, Step(p, s, events[0]).0, events[1..], step);
    }
  }

  /**
   * One-time passwords are single use, over any run from any state and with
   * any clock readings: until the factor is disabled, every accepted step (the
   * confirming one included) is later than all steps accepted before it, and
   * each is within one step of the clock that accepted it.
   */
  lemma TotpSingleUse(p: Primitives, s: State, events: seq<Event>, i: nat, j: nat)
    requires i < j < |events|
    ensures var (first, second) := (OutcomeAt(p, s, events, i), OutcomeAt(p, s, events, j));
      first.ByTotp? && second.ByTotp? ==>
        && (Disable(true) !in events[i..j] ==> first.step < second.step)
        && var now := Totp.CurrentStep(events[j].at); now - 1 <= second.step <= now + 1
  {
    var (first, second) := (OutcomeAt(p, s, events, i), OutcomeAt(p, s, events, j));
    if first.ByTotp? && second.ByTotp? {
      hide Step;
      var before := After(p, s, events[..i]);
      TotpAccepted(p, before, events[i]);
      TotpAccepted(p, After(p, s, events[..j]), events[j]);
      if Disable(true) !in events[i..j] {
        AfterSplit(p, s, events, i, j);
        assert events[i..j][0] == events[i] && events[i..j][1..] == events[i + 1..j];
        StaysUsed(p, Step(p, before, events[i]).0, events[i + 1..j], first.step);
        TotpAdvances(p, After(p, s, events[..j]), events[j], first.step);
      }
    }
  }

  /** No unused backup code has this hash. */
  ghost predicate NoneLeft(s: State, hash: string) {
    forall i :: 0 <= i < |s.codes| ==> s.codes[i].hash == hash ==> s.codes[i].used
  }

  /** The request may put this hash back among the unused codes. */
  ghost predicate Reissues(p: Primitives, e: Event, hash: string) {
    (e.Confirm? || e.Regenerate?) && exists i :: 0 <= i < |e.issued| && p.sha256(Normalised(e.issued[i])) == hash
  }

  lemma SpentStaysSpent(p: Primitives, s: State, e: Event, hash: string)
    requires NoneLeft(s, hash) && !Reissues(p, e, hash)
    ensures NoneLeft(Step(p, s, e).0, hash) && Step(p, s, e).1 != ByBackup(hash)
  {
  }

  lemma {:induction false} StaysSpent(p: Primitives, s: State, events: seq<Event>, hash: string)
    requires NoneLeft(s, hash) && forall e <- events :: !Reissues(p, e, hash)
    ensures NoneLeft(After(p, s, events), hash)
    decreases |events|
  {
    if events == [] {
    } else {
      SpentStaysSpent(p, s, events[0], hash);
      StaysSpent(p, Step(p, s, events[0]).0, events[1..], hash);
    }
  }

  lemma BackupSpent(p: Primitives, s: State, e: Event)
    requires Step(p, s, e).1.ByBackup? && !Reissues(p, e, Step(p, s, e).1.hash)
    ensures NoneLeft(Step(p, s, e).0, Step(p, s, e).1.hash)
  {
  }

  /**
   * Backup codes are single use, over any run from any state: a code accepted
   * twice was issued again in between (by the first of the two requests at the
   * earliest).
   */
  lemma BackupSingleUse(p: Primitives, s: State, events: seq<Event>, i: nat, j: nat, hash: string)
    requires i < j < |events|
    requires OutcomeAt(p, s, events, i) == ByBackup(hash) && OutcomeAt(p, s, events, j) == ByBackup(hash)
    ensures exists k :: i <= k < j && Reissues(p, events[k], hash)
  {
    if forall k :: i <= k < j ==> !Reissues(p, events[k], hash) {
      var after := Step(p, After(p, s, events[..i]), events[i]).0;
      BackupSpent(p, After(p, s, events[..i]), events[i]);
      AfterSplit(p, s, events, i, j);
      assert events[i..j][0] == events[i] && events[i..j][1..] == events[i + 1..j];
      StaysSpent(p, after, events[i + 1..j], hash);
      BackupNeedsUnused(p, After(p, s, events[..j]), events[j], hash);
      assert false;
    }
  }

  lemma BackupNeedsUnused(p: Primitives, s: State, e: Event, hash: string)
    requires Step(p, s, e).1 == ByBackup(hash)
    ensures !NoneLeft(s, hash)
  {
  }

  // ------------------------------------------------------------ what is accepted

  /** Codes are compared without spaces and hyphens and in capitals. */
  lemma {:induction false} NormalisedIs(a: string, b: string, c: char)
    ensures Normalised("") == "" && Normalised([c]) == if IsSpace(c) || c == '-' then "" else ToUpper([c])
    ensures Normalised(a + b) == Normalised(a) + Normalised(b)
  {
    hide IsSpace, Upper;
    NormalisedJoins(a, b);
    assert [c][1..] == "" && ToUpper([c]) == [Upper(c)];
  }

  lemma {:induction false} NormalisedJoins(a: string, b: string)
    ensures Normalised(a + b) == Normalised(a) + Normalised(b)
  {
    if a == "" {
      assert a + b == b;
    } else {
      hide IsSpace, Upper;
      assert (a + b)[1..] == a[1..] + b;
      NormalisedJoins(a[1..], b);
    }
  }

  /** Eight characters that hash to an unused backup code. */
  ghost predicate IsBackup(p: Primitives, s: State, code: string) {
    |Normalised(code)| == 8 && exists c <- s.codes :: c.hash == p.sha256(Normalised(code)) && !c.used
  }

  /** The code is that of an unused step within one of the clock's. */
  ghost predicate IsCurrent(p: Primitives, secret: seq<Totp.Base32.byte>, row: Row, code: string, at: nat) {
    Totp.Current(p.hmac, secret, Totp.WithoutSpaces(code), row.lastStep, Totp.CurrentStep(at))
  }

  /**
   * A login passes if and only if the factor is confirmed and the code is current
   * or an unused backup code; the first is tried first and advances the step, the
   * second spends the code, and a refusal changes nothing.
   */
  lemma LoginAccepts(p: Primitives, s: State, code: string, at: nat, secret: seq<Totp.Base32.byte>)
    requires s.row.Some? ==> Totp.Base32.Clean(s.row.value.secret) == Totp.Base32.Encoded(secret)
    ensures var (s', outcome) := Step(p, s, Login(code, at));
      && (outcome.ByTotp? <==> s.row.Some? && s.row.value.confirmed && IsCurrent(p, secret, s.row.value, code, at))
      && (outcome != Rejected <==>
          && s.row.Some? && s.row.value.confirmed
          && (IsCurrent(p, secret, s.row.value, code, at) || IsBackup(p, s, code)))
      && (outcome.ByTotp? ==> s' == State(Some(s.row.value.(lastStep := Some(outcome.step))), s.codes))
      && (outcome.ByBackup? ==> s'.row == s.row && Spent(s.codes, s'.codes, p.sha256(Normalised(code))))
      && (outcome == Rejected ==> s' == s)
  {
    hide Normalised, Totp.Current, Totp.Verified, Totp.WithoutSpaces, Totp.CurrentStep;
    hide Totp.Base32.Clean, Totp.Base32.Encoded;
    if s.row.Some? {
      Totp.VerifiedExactly(p.hmac, secret, s.row.value.secret, code, s.row.value.lastStep, at);
    }
  }

  /** Exactly the codes with this hash are used up. */
  predicate Spent(before: seq<BackupCode>, after: seq<BackupCode>, hash: string) {
    && |after| == |before|
    && forall i :: 0 <= i < |before| ==>
        after[i] == BackupCode(before[i].hash, before[i].used || before[i].hash == hash)
  }

  /**
   * A confirmation passes if and only if it is the first and its code is current;
   * fresh backup codes then replace any others.
   */
  lemma ConfirmAccepts(p: Primitives, s: State, code: string, at: nat, issued: seq<string>,
                       secret: seq<Totp.Base32.byte>)
    requires s.row.Some? ==> Totp.Base32.Clean(s.row.value.secret) == Totp.Base32.Encoded(secret)
    ensures var (s', outcome) := Step(p, s, Confirm(code, at, issued));
      && (outcome.ByTotp? <==>
          && s.row.Some? && !s.row.value.confirmed
          && IsCurrent(p, secret, s.row.value.(lastStep := None), code, at))
      && (outcome.ByTotp? ==>
          && s'.row == Some(Row(s.row.value.secret, true, Some(outcome.step)))
          && FreshCodes(p, issued, s'.codes))
      && (!outcome.ByTotp? ==> outcome == Rejected && s' == s)
  {
    hide Normalised, Totp.Current, Totp.Verified, Totp.WithoutSpaces, Totp.CurrentStep;
    hide Totp.Base32.Clean, Totp.Base32.Encoded;
    if s.row.Some? {
      Totp.VerifiedExactly(p.hmac, secret, s.row.value.secret, code, None, at);
    }
  }

  /** One unused code for each text, kept as the hash of its normal form. */
  predicate FreshCodes(p: Primitives, issued: seq<string>, codes: seq<BackupCode>) {
    && |codes| == |issued|
    && forall i :: 0 <= i < |issued| ==> codes[i].hash == p.sha256(Normalised(issued[i])) && !codes[i].used
  }

  /** The other requests: enrolling until confirmed, codes renewed by a login's code, all gone with the password. */
  lemma OtherRequests(p: Primitives, s: State, secret: string, code: string, at: nat, issued: seq<string>)
    ensures Step(p, s, Enroll(secret))
         == if s.row.Some? && s.row.value.confirmed then (s, Rejected)
            else (State(Some(Row(secret, false, None)), s.codes), Done)
    ensures Step(p, s, Disable(true)) == (State(None, []), Done) && Step(p, s, Disable(false)) == (s, Rejected)
    ensures var (s', outcome) := Step(p, s, Login(code, at));
      var (s'', outcome') := Step(p, s, Regenerate(code, at, issued));
      && outcome' == outcome && s''.row == s'.row
      && (outcome == Rejected ==> s'' == s) && (outcome != Rejected ==> FreshCodes(p, issued, s''.codes))
  {
    hide Normalised, Totp.Verified;
  }

  // -------------------------------------------------------------- codes stay good

  /** The factor is confirmed, and some unused code has this hash. */
  ghost predicate Good(s: State, hash: string) {
    && s.row.Some? && s.row.value.confirmed
    && exists i :: 0 <= i < |s.codes| && s.codes[i] == BackupCode(hash, false)
  }

  lemma StaysGood(p: Primitives, s: State, e: Event, hash: string)
    requires Good(s, hash) && e != Disable(true) && !(e.Regenerate? && Step(p, s, e).1 != Rejected)
    ensures var (s', outcome) := Step(p, s, e);
      s'.row.Some? && s'.row.value.secret == s.row.value.secret && (Good(s', hash) <==> outcome != ByBackup(hash))
  {
    hide Normalised, Totp.Verified;
    var i :| 0 <= i < |s.codes| && s.codes[i] == BackupCode(hash, false);
    var (s', outcome) := Step(p, s, e);
    assert outcome != ByBackup(hash) ==> s'.codes[i] == BackupCode(hash, false);
  }

  /** Up to its end, the run neither disables the factor, nor renews the codes, nor uses this one. */
  ghost predicate Untouched(p: Primitives, s: State, events: seq<Event>, hash: string)
    decreases |events|
  {
    events == [] || (
      && events[0] != Disable(true)
      && !(events[0].Regenerate? && Step(p, s, events[0]).1 != Rejected)
      && Step(p, s, events[0]).1 != ByBackup(hash)
      && Untouched(p, Step(p, s, events[0]).0, events[1..], hash))
  }

  /** A backup code stays good over every run that does not touch it. */
  lemma {:induction false} BackupStaysGood(p: Primitives, s: State, events: seq<Event>, hash: string)
    requires Good(s, hash) && Untouched(p, s, events, hash)
    ensures var s' := After(p, s, events); Good(s', hash) && s'.row.value.secret == s.row.value.secret
    decreases |events|
  {
    if events == [] {
    } else {
      hide Good, Step;
      StaysGood(p, s, events[0], hash);
      BackupStaysGood(p, Step(p, s, events[0]).0, events[1..], hash);
    }
  }

  /** So however it is typed, it then lets its user in. */
  lemma BackupLetsIn(p: Primitives, s: State, events: seq<Event>, code: string, at: nat, secret: seq<Totp.Base32.byte>)
    requires Good(s, p.sha256(Normalised(code))) && Untouched(p, s, events, p.sha256(Normalised(code)))
    requires |Normalised(code)| == 8 && Totp.Base32.Clean(s.row.value.secret) == Totp.Base32.Encoded(secret)
    ensures Step(p, After(p, s, events), Login(code, at)).1 != Rejected
  {
    hide After, Step, Untouched, Normalised, IsCurrent, Spent, Totp.Base32.Clean, Totp.Base32.Encoded;
    BackupStaysGood(p, s, events, p.sha256(Normalised(code)));
    var s' := After(p, s, events);
    LoginAccepts(p, s', code, at, secret);
    var i :| 0 <= i < |s'.codes| && s'.codes[i] == BackupCode(p.sha256(Normalised(code)), false);
    assert s'.codes[i] in s'.codes;
  }
}
