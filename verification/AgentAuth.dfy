/**
 * Signed requests between the API and the server agent
 * (services/server-agent/src/auth.ts, services/api/src/lib/agent-client.ts).
 * HMAC-SHA256 under the shared token, and `Number(...)`, are parameters.
 */
module AgentAuth {
  import opened Common
  import opened Text

  /** The keyed hash, the reading of a timestamp (`None` unless finite), and `maxClockSkewMs`. */
  datatype Setup = Setup(mac: string -> string, number: string -> Option<real>, skew: real)

  /** What a signature covers. */
  datatype Fields = Fields(timestamp: string, nonce: string, verb: string, path: string, body: string)

  /** A request as received; a missing header is `None`. */
  datatype Request = Request(
    timestamp: Option<string>, nonce: Option<string>, signature: Option<string>,
    verb: string, path: string, body: string)

  datatype Verdict = Accepted | Rejected(reason: string)

  type Seen = map<string, real>

  const PRUNE_AT := 512

  // --------------------------------------------------------------- the signature

  function Message(f: Fields): string {
    Join([f.timestamp, f.nonce, ToUpper(f.verb), f.path, f.body], '\n')
  }

  function Sign(setup: Setup, f: Fields): string {
    setup.mac(Message(f))
  }

  predicate Missing(header: Option<string>) {
    header.None? || header.value == ""
  }

  function FieldsOf(r: Request): Fields
    requires r.timestamp.Some? && r.nonce.Some?
  {
    Fields(r.timestamp.value, r.nonce.value, r.verb, r.path, r.body)
  }

  // ----------------------------------------------------------------- verification

  function Abs(x: real): real {
    if x < 0.0 then -x else x
  }

  function Pruned(seen: Seen, now: real, skew: real): Seen {
    if |seen| < PRUNE_AT then seen
    else map n | n in seen && !(now - seen[n] > skew * 2.0) :: seen[n]
  }

  function Verify(setup: Setup, seen: Seen, r: Request, now: real): (Seen, Verdict) {
    if Missing(r.timestamp) || Missing(r.nonce) || Missing(r.signature) then
      (seen, Rejected("missing signature headers"))
    else if |r.nonce.value| < 16 || |r.nonce.value| > 128 then (seen, Rejected("malformed nonce"))
    else match setup.number(r.timestamp.value)
      case None => (seen, Rejected("malformed timestamp"))
      case Some(sentAt) =>
        if Abs(now - sentAt) > setup.skew then (seen, Rejected("timestamp outside the accepted window"))
        else if r.nonce.value in seen then (seen, Rejected("nonce replayed"))
        else if r.signature.value != Sign(setup, FieldsOf(r)) then (seen, Rejected("signature mismatch"))
        else (Pruned(seen, now, setup.skew)[r.nonce.value := now], Accepted)
  }

  class Verifier {
    const setup: Setup
    var seenNonces: Seen

    constructor (setup: Setup)
      ensures this.setup == setup && seenNonces == map[]
    {
      this.setup, seenNonces := setup, map[];
    }

    method PruneNonces(now: real)
      modifies this
      ensures seenNonces == Pruned(old(seenNonces), now, setup.skew)
    {
      if |seenNonces| < PRUNE_AT {
        return;
      }
      var (all, kept, left) := (seenNonces, seenNonces, seenNonces);
      while left != map[]
        invariant left.Keys <= all.Keys && kept.Keys <= all.Keys
        invariant forall n <- kept :: kept[n] == all[n]
        invariant forall n <- all :: n in kept <==> n in left || !(now - all[n] > setup.skew * 2.0)
        decreases |left|
      {
        var nonce :| nonce in left;
        if now - all[nonce] > setup.skew * 2.0 {
          kept := kept - {nonce};
        }
        assert (left - {nonce}).Keys < left.Keys;
        left := left - {nonce};
      }
      seenNonces := kept;
    }

    method Check(r: Request, now: real) returns (verdict: Verdict)
      modifies this
      ensures (seenNonces, verdict) == Verify(setup, old(seenNonces), r, now)
    {
      hide Message;
      if Missing(r.timestamp) || Missing(r.nonce) || Missing(r.signature) {
        return Rejected("missing signature headers");
      }
      var nonce := r.nonce.value;
      if |nonce| < 16 || |nonce| > 128 {
        return Rejected("malformed nonce");
      }
      var sentAt := setup.number(r.timestamp.value);
      if sentAt.None? {
        return Rejected("malformed timestamp");
      }
      if Abs(now - sentAt.value) > setup.skew {
        return Rejected("timestamp outside the accepted window");
      }
      if nonce in seenNonces {
        return Rejected("nonce replayed");
      }
      if r.signature.value != Sign(setup, FieldsOf(r)) {
        return Rejected("signature mismatch");
      }
      PruneNonces(now);
      seenNonces := seenNonces[nonce := now];
      verdict := Accepted;
    }
  }

  // ------------------------------------------------------------------ whole runs

  datatype Arrival = Arrival(request: Request, now: real)

  ghost predicate ClockAdvances(run: seq<Arrival>) {
    forall i, j :: 0 <= i < j < |run| ==> run[i].now <= run[j].now
  }

  function After(setup: Setup, seen: Seen, run: seq<Arrival>): Seen
    decreases |run|
  {
    if run == [] then seen else After(setup, Verify(setup, seen, run[0].request, run[0].now).0, run[1..])
  }

  ghost predicate AcceptedAt(setup: Setup, seen: Seen, run: seq<Arrival>, i: nat)
    requires i < |run|
  {
    Verify(setup, After(setup, seen, run[..i]), run[i].request, run[i].now).1 == Accepted
  }

  /** The time a request claims to have been sent. */
  function SentAt(setup: Setup, r: Request): real {
    if r.timestamp.Some? && setup.number(r.timestamp.value).Some? then setup.number(r.timestamp.value).value else 0.0
  }

  /**
   * A nonce used with a request sent at `sent` is either still remembered, from
   * no earlier than a skew before `sent`, or was forgotten so late that only a
   * request sent after `sent` can be accepted now.
   */
  ghost predicate Guarded(setup: Setup, seen: Seen, nonce: string, sent: real, now: real) {
    if nonce in seen then sent <= seen[nonce] + setup.skew else now - setup.skew > sent
  }

  lemma GuardKept(setup: Setup, seen: Seen, a: Arrival, nonce: string, sent: real, before: real)
    requires Guarded(setup, seen, nonce, sent, before) && before <= a.now
    ensures var (seen', verdict) := Verify(setup, seen, a.request, a.now);
      && Guarded(setup, seen', nonce, sent, a.now)
      && (verdict == Accepted && a.request.nonce == Some(nonce) ==> SentAt(setup, a.request) > sent)
  {
    hide Sign;
  }

  lemma {:induction false} GuardKeptOver(
    setup: Setup, seen: Seen, run: seq<Arrival>, nonce: string, sent: real, before: real, until: real)
    requires Guarded(setup, seen, nonce, sent, before) && before <= until
    requires ClockAdvances(run) && forall i :: 0 <= i < |run| ==> before <= run[i].now <= until
    ensures Guarded(setup, After(setup, seen, run), nonce, sent, until)
    decreases |run|
  {
    if run == [] {
    } else {
      hide Verify;
      GuardKept(setup, seen, run[0], nonce, sent, before);
      var tail := run[1..];
      assert forall i :: 0 <= i < |tail| ==> tail[i] == run[i + 1];
      GuardKeptOver(setup, Verify(setup, seen, run[0].request, run[0].now).0, tail, nonce, sent, run[0].now, until);
    }
  }

  lemma AcceptedGuards(setup: Setup, seen: Seen, a: Arrival)
    requires Verify(setup, seen, a.request, a.now).1 == Accepted
    ensures a.request.nonce.Some? && a.request.timestamp.Some? && a.request.signature.Some?
    ensures var seen' := Verify(setup, seen, a.request, a.now).0;
      Guarded(setup, seen', a.request.nonce.value, SentAt(setup, a.request), a.now)
    ensures a.request.signature.value == Sign(setup, FieldsOf(a.request))
  {
    hide Sign;
  }

  lemma {:induction false} AfterSplit(setup: Setup, seen: Seen, run: seq<Arrival>, i: nat, j: nat)
    requires i < j <= |run|
    ensures After(setup, seen, run[..j])
         == After(setup, Verify(setup, After(setup, seen, run[..i]), run[i].request, run[i].now).0, run[i + 1..j])
    decreases i
  {
    hide Verify;
    assert run[..j][0] == run[0] && run[..j][1..] == run[1..][..j - 1];
    if i == 0 {
      assert run[1..][..j - 1] == run[1..j];
    } else {
      assert run[..i][1..] == run[1..][..i - 1] && run[i + 1..j] == run[1..][i..j - 1];
      AfterSplit(setup, Verify(setup, seen, run[0].request, run[0].now).0, run[1..], i - 1, j - 1);
    }
  }

  /**
   * Over any run with a clock that does not go back, pruning included, a nonce
   * is accepted again only for a request sent strictly later.
   */
  lemma NonceOrder(setup: Setup, seen: Seen, run: seq<Arrival>, i: nat, j: nat)
    requires ClockAdvances(run) && i < j < |run|
    requires AcceptedAt(setup, seen, run, i) && AcceptedAt(setup, seen, run, j)
    requires run[i].request.nonce == run[j].request.nonce
    ensures SentAt(setup, run[i].request) < SentAt(setup, run[j].request)
  {
    hide Verify, After, Guarded;
    var s := After(setup, seen, run[..i]);
    var s' := Verify(setup, s, run[i].request, run[i].now).0;
    AcceptedGuards(setup, s, run[i]);
    var (nonce, sent) := (run[i].request.nonce.value, SentAt(setup, run[i].request));
    AfterSplit(setup, seen, run, i, j);
    var between := run[i + 1..j];
    assert forall k :: 0 <= k < |between| ==> between[k] == run[i + 1 + k];
    GuardKeptOver(setup, s', between, nonce, sent, run[i].now, run[j].now);
    GuardKept(setup, After(setup, seen, run[..j]), run[j], nonce, sent, run[j].now);
  }

  /** No signed request is accepted twice. */
  lemma NoReplay(setup: Setup, seen: Seen, run: seq<Arrival>, i: nat, j: nat)
    requires ClockAdvances(run) && i < j < |run|
    requires AcceptedAt(setup, seen, run, i) && AcceptedAt(setup, seen, run, j)
    ensures run[i].request.timestamp.Some? && run[i].request.nonce.Some?
    ensures run[j].request.timestamp.Some? && run[j].request.nonce.Some?
    ensures FieldsOf(run[i].request) != FieldsOf(run[j].request)
  {
    hide Verify, After;
    AcceptedGuards(setup, After(setup, seen, run[..i]), run[i]);
    AcceptedGuards(setup, After(setup, seen, run[..j]), run[j]);
    if run[i].request.nonce == run[j].request.nonce {
      NonceOrder(setup, seen, run, i, j);
    }
  }

  // ---------------------------------------------------------------- authenticity

  predicate LineFree(s: string) {
    '\n' !in s
  }

  predicate Signable(f: Fields) {
    LineFree(f.timestamp) && LineFree(f.nonce) && LineFree(ToUpper(f.verb)) && LineFree(f.path)
  }

  /** A first line ends at the first line feed. */
  lemma FirstLine(a: string, s: string, b: string, t: string)
    requires LineFree(a) && LineFree(b) && a + ['\n'] + s == b + ['\n'] + t
    ensures a == b && s == t
  {
    FindInConcat(a, s, '\n');
    FindInConcat(b, t, '\n');
    var whole := a + ['\n'] + s;
    assert whole[..|a|] == a && whole[..|b|] == b;
    assert whole[|a| + 1..] == s && (b + ['\n'] + t)[|b| + 1..] == t;
  }

  lemma MessageLines(f: Fields)
    ensures Message(f) == f.timestamp + ['\n'] + (f.nonce + ['\n'] + (ToUpper(f.verb) + ['\n'] + (f.path + ['\n'] + f.body)))
  {
    JoinCons(f.timestamp, [f.nonce, ToUpper(f.verb), f.path, f.body]);
    JoinCons(f.nonce, [ToUpper(f.verb), f.path, f.body]);
    JoinCons(ToUpper(f.verb), [f.path, f.body]);
    JoinCons(f.path, [f.body]);
    assert Join([f.body], '\n') == f.body;
    hide Join;
    assert [f.path] + [f.body] == [f.path, f.body];
    assert [ToUpper(f.verb)] + [f.path, f.body] == [ToUpper(f.verb), f.path, f.body];
    assert [f.nonce] + [ToUpper(f.verb), f.path, f.body] == [f.nonce, ToUpper(f.verb), f.path, f.body];
    assert [f.timestamp] + [f.nonce, ToUpper(f.verb), f.path, f.body]
      == [f.timestamp, f.nonce, ToUpper(f.verb), f.path, f.body];
  }

  lemma JoinCons(part: string, parts: seq<string>)
    requires parts != []
    ensures Join([part] + parts, '\n') == part + ['\n'] + Join(parts, '\n')
  {
    assert ([part] + parts)[1..] == parts;
  }

  /** The five fields can be read back from what is signed: the verb up to case, the rest exactly. */
  lemma MessageInjective(f: Fields, g: Fields)
    requires Signable(f) && Signable(g) && Message(f) == Message(g)
    ensures f.(verb := ToUpper(f.verb)) == g.(verb := ToUpper(g.verb))
  {
    hide Message, LineFree;
    MessageLines(f);
    MessageLines(g);
    var (v, w) := (ToUpper(f.verb), ToUpper(g.verb));
    var (f4, g4) := (f.path + ['\n'] + f.body, g.path + ['\n'] + g.body);
    var (f3, g3) := (v + ['\n'] + f4, w + ['\n'] + g4);
    FirstLine(f.timestamp, f.nonce + ['\n'] + f3, g.timestamp, g.nonce + ['\n'] + g3);
    FirstLine(f.nonce, f3, g.nonce, g3);
    FirstLine(v, f4, w, g4);
    FirstLine(f.path, f.body, g.path, g.body);
  }

  ghost predicate CollisionFree(setup: Setup) {
    forall m, n :: setup.mac(m) == setup.mac(n) ==> m == n
  }

  /**
   * An accepted request whose signature came from signing some fields is a
   * request for those fields: same time, nonce, path and body, same verb.
   */
  lemma AcceptedWasSigned(setup: Setup, seen: Seen, a: Arrival, signed: Fields)
    requires CollisionFree(setup)
    requires Verify(setup, seen, a.request, a.now).1 == Accepted
    requires a.request.signature == Some(Sign(setup, signed)) && Signable(signed)
    requires a.request.timestamp.Some? && a.request.nonce.Some? && Signable(FieldsOf(a.request))
    ensures FieldsOf(a.request).(verb := ToUpper(a.request.verb)) == signed.(verb := ToUpper(signed.verb))
  {
    hide Verify, Message;
    AcceptedGuards(setup, seen, a);
    MessageInjective(FieldsOf(a.request), signed);
  }

  /** A line feed in the path is what the condition is for: it can trade places with the body. */
  lemma LineFeedsCollide(f: Fields, line: string)
    ensures Message(f.(path := f.path + ['\n'] + line)) == Message(f.(body := line + ['\n'] + f.body))
  {
    MessageLines(f.(path := f.path + ['\n'] + line));
    MessageLines(f.(body := line + ['\n'] + f.body));
    assert f.path + ['\n'] + line + ['\n'] + f.body == f.path + ['\n'] + (line + ['\n'] + f.body);
  }

  // ------------------------------------------------------------ what is accepted

  /**
   * Exactly what is accepted: all three headers, a nonce of 16 to 128 characters
   * that is not remembered, a time within the skew on either side, and the hash
   * of the five fields one to a line.
   */
  lemma AcceptedIff(setup: Setup, seen: Seen, r: Request, now: real)
    ensures Verify(setup, seen, r, now).1 == Accepted <==>
      && r.timestamp.Some? && r.nonce.Some? && r.signature.Some?
      && r.timestamp.value != "" && r.signature.value != ""
      && 16 <= |r.nonce.value| <= 128 && r.nonce.value !in seen
      && (var sentAt := setup.number(r.timestamp.value);
          sentAt.Some? && now - setup.skew <= sentAt.value <= now + setup.skew)
      && r.signature.value == setup.mac(
          r.timestamp.value + ['\n']
          + (r.nonce.value + ['\n'] + (ToUpper(r.verb) + ['\n'] + (r.path + ['\n'] + r.body))))
  {
    hide Message, ToUpper;
    if r.timestamp.Some? && r.nonce.Some? {
      MessageLines(FieldsOf(r));
    }
  }

  /**
   * What is remembered afterwards: an accepted nonce with its time; of the others
   * all, or from 512 on those not older than twice the skew. A refusal changes
   * nothing.
   */
  lemma RememberedExactly(setup: Setup, seen: Seen, r: Request, now: real, nonce: string)
    ensures var (seen', verdict) := Verify(setup, seen, r, now);
      if verdict != Accepted then seen' == seen
      else if r.nonce == Some(nonce) then nonce in seen' && seen'[nonce] == now
      else
        && (nonce in seen' <==> nonce in seen && (|seen| < 512 || now - 2.0 * setup.skew <= seen[nonce]))
        && (nonce in seen' ==> seen'[nonce] == seen[nonce])
  {
    hide Sign;
  }

  lemma {:induction false} RememberedWereAccepted(setup: Setup, run: seq<Arrival>, nonce: string)
    requires nonce in After(setup, map[], run)
    ensures exists i :: 0 <= i < |run| && AcceptedAt(setup, map[], run, i) && run[i].request.nonce == Some(nonce)
    decreases |run|
  {
    if run == [] {
    } else {
      var last := |run| - 1;
      LastStep(setup, run);
      hide Verify, After;
      var before := After(setup, map[], run[..last]);
      RememberedExactly(setup, before, run[last].request, run[last].now, nonce);
      if nonce in before {
        RememberedWereAccepted(setup, run[..last], nonce);
        var i :| 0 <= i < last && AcceptedAt(setup, map[], run[..last], i) && run[i].request.nonce == Some(nonce);
        assert run[..last][..i] == run[..i];
        assert AcceptedAt(setup, map[], run, i);
      } else {
        assert AcceptedAt(setup, map[], run, last);
      }
    }
  }

  lemma LastStep(setup: Setup, run: seq<Arrival>)
    requires run != []
    ensures var last := run[|run| - 1];
      After(setup, map[], run)
      == Verify(setup, After(setup, map[], run[..|run| - 1]), last.request, last.now).0
  {
    hide Verify;
    AfterSplit(setup, map[], run, |run| - 1, |run|);
    assert run[..|run|] == run && run[|run|..|run|] == [];
  }

  /**
   * Nothing but the request itself and earlier uses of its nonce can have it
   * refused: at the end of any run from a new verifier, a request signed and
   * timed as it should be is accepted if its nonce was never accepted before.
   */
  lemma FreshAccepted(setup: Setup, run: seq<Arrival>, r: Request, now: real)
    requires r.timestamp.Some? && r.timestamp.value != "" && r.nonce.Some? && 16 <= |r.nonce.value| <= 128
    requires r.signature == Some(Sign(setup, FieldsOf(r))) && r.signature.value != ""
    requires setup.number(r.timestamp.value).Some? && Abs(now - SentAt(setup, r)) <= setup.skew
    requires forall i :: 0 <= i < |run| && run[i].request.nonce == r.nonce ==> !AcceptedAt(setup, map[], run, i)
    ensures Verify(setup, After(setup, map[], run), r, now).1 == Accepted
  {
    hide After, Sign, AcceptedAt;
    if r.nonce.value in After(setup, map[], run) {
      RememberedWereAccepted(setup, run, r.nonce.value);
      assert false;
    }
  }
}
