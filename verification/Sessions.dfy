/**
 * Refresh-token sessions (services/api/src/modules/auth.routes.ts). Each SQL
 * statement is one atomic step, requests run one after another, and a row's
 * index stands for its id. Tokens are known only by their hashes.
 */
module Sessions {
  datatype Row = Row(user: string, hash: string, expiresAt: int, revoked: bool)

  /** The table, and for the record the sign-in that each row goes back to. */
  datatype State = State(rows: seq<Row>, origins: seq<nat>)

  const EMPTY := State([], [])

  /** A request. `drawn` is the hash of the token drawn for it. */
  datatype Request =
    | Login(user: string, drawn: string, expiresAt: int)
    | Refresh(presented: string, at: int, drawn: string, expiresAt: int)
    | Logout(presented: string)
    | Delete(id: nat, user: string)
    | Reset(user: string)

  datatype Outcome = Issued(id: nat) | Done | UnknownToken | Reused | Expired | HashTaken

  // -------------------------------------------------------------- the statements

  /** `SELECT ... WHERE refresh_token_hash = $1`: the first row with the hash. */
  function FindHash(rows: seq<Row>, hash: string): (i: nat)
    ensures i <= |rows| && (i < |rows| ==> rows[i].hash == hash)
    ensures forall j :: 0 <= j < i ==> rows[j].hash != hash
  {
    if rows == [] || rows[0].hash == hash then 0 else
      var k := FindHash(rows[1..], hash);
      assert forall j :: 0 < j < 1 + k ==> rows[j] == rows[1..][j - 1];
      1 + k
  }

  /** `UPDATE sessions SET revoked_at = NOW()` for the rows a condition selects. */
  function Revoke(rows: seq<Row>, selects: (nat, Row) -> bool): (after: seq<Row>)
    ensures |after| == |rows|
    ensures forall i :: 0 <= i < |rows| ==> after[i] == rows[i].(revoked := rows[i].revoked || selects(i, rows[i]))
  {
    seq(|rows|, i requires 0 <= i < |rows| => rows[i].(revoked := rows[i].revoked || selects(i, rows[i])))
  }

  function RevokeUser(rows: seq<Row>, user: string): seq<Row> {
    Revoke(rows, (i, row: Row) => row.user == user)
  }

  /** The insertion of `issueSession`; the unique index on the hash may refuse it. */
  function Insert(s: State, row: Row, origin: nat): (State, Outcome) {
    if FindHash(s.rows, row.hash) < |s.rows| then (s, HashTaken)
    else (State(s.rows + [row], s.origins + [origin]), Issued(|s.rows|))
  }

  /** The sign-in of a row. */
  function OriginOf(s: State, i: nat): nat {
    if i < |s.origins| then s.origins[i] else i
  }

  // ---------------------------------------------------------------- the requests

  function Step(s: State, request: Request): (State, Outcome) {
    match request
    case Login(user, hash, expiresAt) => Insert(s, Row(user, hash, expiresAt, false), |s.rows|)
    case Refresh(presented, at, hash, expiresAt) =>
      var i := FindHash(s.rows, presented);
      if i == |s.rows| then (s, UnknownToken)
      else if s.rows[i].revoked then (s.(rows := RevokeUser(s.rows, s.rows[i].user)), Reused)
      else if s.rows[i].expiresAt < at then (s, Expired)
      else
        var rotated := Revoke(s.rows, (j, row: Row) => j == i);
        Insert(s.(rows := rotated), Row(s.rows[i].user, hash, expiresAt, false), OriginOf(s, i))
    case Logout(presented) => (s.(rows := Revoke(s.rows, (j, row: Row) => row.hash == presented)), Done)
    case Delete(id, user) => (s.(rows := Revoke(s.rows, (j, row: Row) => j == id && row.user == user)), Done)
    case Reset(user) => (s.(rows := RevokeUser(s.rows, user)), Done)
  }

  class SessionStore {
    var rows: seq<Row>
    ghost var origins: seq<nat>

    constructor ()
      ensures Current() == EMPTY
    {
      rows, origins := [], [];
    }

    ghost function Current(): State
      reads this
    {
      State(rows, origins)
    }

    method IssueSession(user: string, hash: string, expiresAt: int, ghost origin: nat) returns (outcome: Outcome)
      modifies this
      ensures (Current(), outcome) == Insert(old(Current()), Row(user, hash, expiresAt, false), origin)
    {
      if FindHash(rows, hash) < |rows| {
        return HashTaken;
      }
      outcome := Issued(|rows|);
      rows, origins := rows + [Row(user, hash, expiresAt, false)], origins + [origin];
    }

    method SignIn(user: string, hash: string, expiresAt: int) returns (outcome: Outcome)
      modifies this
      ensures (Current(), outcome) == Step(old(Current()), Login(user, hash, expiresAt))
    {
      outcome := IssueSession(user, hash, expiresAt, |rows|);
    }

    /** Not one transaction: a refused insertion leaves the presented session revoked. */
    method Rotate(presented: string, at: int, hash: string, expiresAt: int) returns (outcome: Outcome)
      modifies this
      ensures (Current(), outcome) == Step(old(Current()), Refresh(presented, at, hash, expiresAt))
    {
      var i := FindHash(rows, presented);
      if i == |rows| {
        return UnknownToken;
      }
      var session := rows[i];
      if session.revoked {
        rows := RevokeUser(rows, session.user);
        return Reused;
      }
      if session.expiresAt < at {
        return Expired;
      }
      rows := Revoke(rows, (j, row: Row) => j == i);
      outcome := IssueSession(session.user, hash, expiresAt, OriginOf(Current(), i));
    }

    method SignOut(presented: string) returns (outcome: Outcome)
      modifies this
      ensures (Current(), outcome) == Step(old(Current()), Logout(presented))
    {
      rows := Revoke(rows, (j, row: Row) => row.hash == presented);
      outcome := Done;
    }

    method DeleteSession(id: nat, user: string) returns (outcome: Outcome)
      modifies this
      ensures (Current(), outcome) == Step(old(Current()), Delete(id, user))
    {
      rows := Revoke(rows, (j, row: Row) => j == id && row.user == user);
      outcome := Done;
    }

    method ResetPassword(user: string) returns (outcome: Outcome)
      modifies this
      ensures (Current(), outcome) == Step(old(Current()), Reset(user))
    {
      rows := RevokeUser(rows, user);
      outcome := Done;
    }
  }

  // ------------------------------------------------------------------ whole runs

  function After(s: State, requests: seq<Request>): State
    decreases |requests|
  {
    if requests == [] then s else After(Step(s, requests[0]).0, requests[1..])
  }

  predicate UniqueHashes(rows: seq<Row>) {
    forall i, j :: 0 <= i < j < |rows| ==> rows[i].hash != rows[j].hash
  }

  /** A row goes back to a row no later than itself, of the same user. */
  predicate Rooted(s: State) {
    && |s.origins| == |s.rows|
    && forall i :: 0 <= i < |s.rows| ==>
      s.origins[i] <= i && s.rows[s.origins[i]].user == s.rows[i].user && s.origins[s.origins[i]] == s.origins[i]
  }

  /** Of all the sessions that go back to one sign-in, at most one is not revoked. */
  predicate OneLivePerSignIn(s: State) {
    forall i, j :: 0 <= i < j < |s.rows| && j < |s.origins| && s.origins[i] == s.origins[j] ==>
      s.rows[i].revoked || s.rows[j].revoked
  }

  predicate Sound(s: State) {
    UniqueHashes(s.rows) && Rooted(s) && OneLivePerSignIn(s)
  }

  /** Every row keeps its user, hash and expiry, and stays revoked once it is. */
  predicate Keeps(rows: seq<Row>, later: seq<Row>) {
    && |rows| <= |later|
    && forall i :: 0 <= i < |rows| ==>
      && later[i].user == rows[i].user && later[i].hash == rows[i].hash && later[i].expiresAt == rows[i].expiresAt
      && (rows[i].revoked ==> later[i].revoked)
  }

  lemma StepKeeps(s: State, request: Request)
    ensures Keeps(s.rows, Step(s, request).0.rows)
  {
  }

  lemma RevokingSound(s: State, rows: seq<Row>)
    requires Sound(s) && |rows| == |s.rows| && Keeps(s.rows, rows)
    ensures Sound(s.(rows := rows))
  {
  }

  lemma InsertSound(s: State, row: Row, origin: nat)
    requires Sound(s) && origin <= |s.rows|
    requires origin < |s.rows| ==> s.origins[origin] == origin && s.rows[origin].user == row.user
    requires forall i :: 0 <= i < |s.rows| && s.origins[i] == origin ==> s.rows[i].revoked
    ensures Sound(Insert(s, row, origin).0)
  {
  }

  lemma StepSound(s: State, request: Request)
    requires Sound(s)
    ensures Sound(Step(s, request).0)
  {
    hide Sound;
    match request
    case Login(user, hash, expiresAt) =>
      LoginSound(s, Row(user, hash, expiresAt, false));
    case Refresh(presented, at, hash, expiresAt) =>
      RefreshSound(s, presented, at, hash, expiresAt);
    case _ =>
      RevokingSound(s, Step(s, request).0.rows);
  }

  lemma LoginSound(s: State, row: Row)
    requires Sound(s)
    ensures Sound(Insert(s, row, |s.rows|).0)
  {
    InsertSound(s, row, |s.rows|);
  }

  lemma RefreshSound(s: State, presented: string, at: int, hash: string, expiresAt: int)
    requires Sound(s)
    ensures Sound(Step(s, Refresh(presented, at, hash, expiresAt)).0)
  {
    hide Insert;
    var i := FindHash(s.rows, presented);
    if i < |s.rows| {
      if s.rows[i].revoked {
        RevokingSound(s, RevokeUser(s.rows, s.rows[i].user));
      } else if s.rows[i].expiresAt >= at {
        var rotated := Revoke(s.rows, (j, row: Row) => j == i);
        RevokingSound(s, rotated);
        InsertSound(s.(rows := rotated), Row(s.rows[i].user, hash, expiresAt, false), s.origins[i]);
      }
    }
  }

  /** Over any run, each sign-in has at most one live session. */
  lemma {:induction false} RunSound(s: State, requests: seq<Request>)
    requires Sound(s)
    ensures Sound(After(s, requests)) && Keeps(s.rows, After(s, requests).rows)
    decreases |requests|
  {
    if requests == [] {
    } else {
      hide Sound, Step;
      StepSound(s, requests[0]);
      StepKeeps(s, requests[0]);
      RunSound(Step(s, requests[0]).0, requests[1..]);
    }
  }

  /** In particular from an empty table. */
  lemma OneLiveSession(requests: seq<Request>)
    ensures var s := After(EMPTY, requests); |s.origins| == |s.rows| && OneLivePerSignIn(s)
  {
    hide After;
    RunSound(EMPTY, requests);
  }

  // ------------------------------------------------------------- single requests

  ghost predicate HasHash(s: State, hash: string) {
    exists i :: 0 <= i < |s.rows| && s.rows[i].hash == hash
  }

  /** The presented token is that of a session neither revoked nor expired. */
  ghost predicate Live(s: State, hash: string, at: int) {
    exists i :: 0 <= i < |s.rows| && s.rows[i].hash == hash && !s.rows[i].revoked && s.rows[i].expiresAt >= at
  }

  lemma Found(s: State, i: nat)
    requires UniqueHashes(s.rows) && i < |s.rows|
    ensures FindHash(s.rows, s.rows[i].hash) == i
  {
  }

  lemma LiveFound(s: State, hash: string, at: int)
    requires UniqueHashes(s.rows)
    ensures var i := FindHash(s.rows, hash);
      Live(s, hash, at) <==> i < |s.rows| && !s.rows[i].revoked && s.rows[i].expiresAt >= at
    ensures HasHash(s, hash) <==> FindHash(s.rows, hash) < |s.rows|
  {
    if Live(s, hash, at) {
      var k :| 0 <= k < |s.rows| && s.rows[k].hash == hash && !s.rows[k].revoked && s.rows[k].expiresAt >= at;
      Found(s, k);
    }
  }

  /** Revoking moves no hash. */
  lemma {:induction false} SameHashes(rows: seq<Row>, after: seq<Row>, hash: string)
    requires |rows| == |after| && Keeps(rows, after)
    ensures FindHash(after, hash) == FindHash(rows, hash)
  {
    if rows == [] {
    } else {
      SameHashes(rows[1..], after[1..], hash);
    }
  }

  /** Rotation succeeds exactly for a live token, and then exchanges it for one new session of the same sign-in. */
  lemma RotatesIff(s: State, presented: string, at: int, hash: string, expiresAt: int)
    requires Sound(s)
    ensures var (s', outcome) := Step(s, Refresh(presented, at, hash, expiresAt));
      && (outcome.Issued? <==> Live(s, presented, at) && !HasHash(s, hash))
      && (outcome.Issued? ==> outcome.id == |s.rows| && Exchanged(s, s', FindHash(s.rows, presented), hash, expiresAt))
  {
    hide Live, HasHash, UniqueHashes, OneLivePerSignIn, FindHash;
    LiveFound(s, presented, at);
    LiveFound(s, hash, at);
    var i := FindHash(s.rows, presented);
    SameHashes(s.rows, Revoke(s.rows, (j, row: Row) => j == i), hash);
  }

  /** Only row `i` changed, by being revoked; the new row is live, for the same user and sign-in. */
  predicate Exchanged(s: State, s': State, i: nat, hash: string, expiresAt: int) {
    && i < |s.rows| && |s'.rows| == |s.rows| + 1 && |s'.origins| == |s.origins| + 1 == |s'.rows|
    && !s.rows[i].revoked && s'.rows[i].revoked
    && (forall j :: 0 <= j < |s.rows| && j != i ==> s'.rows[j] == s.rows[j])
    && s'.rows[|s.rows|] == Row(s.rows[i].user, hash, expiresAt, false)
    && s'.origins[..|s.rows|] == s.origins && s'.origins[|s.rows|] == s.origins[i]
  }

  /** A token that was exchanged, signed out, deleted or reset is never exchanged again. */
  lemma RevokedForever(s: State, i: nat, requests: seq<Request>, at: int, hash: string, expiresAt: int)
    requires Sound(s) && i < |s.rows| && s.rows[i].revoked
    ensures Step(After(s, requests), Refresh(s.rows[i].hash, at, hash, expiresAt)).1 == Reused
  {
    hide After;
    RunSound(s, requests);
    Found(After(s, requests), i);
  }

  /** So no token is ever exchanged twice in a run. */
  lemma ExchangedOnce(s: State, presented: string, at: int, hash: string, expiresAt: int,
                      requests: seq<Request>, at': int, hash': string, expiresAt': int)
    requires Sound(s) && Step(s, Refresh(presented, at, hash, expiresAt)).1.Issued?
    ensures var s' := Step(s, Refresh(presented, at, hash, expiresAt)).0;
      Step(After(s', requests), Refresh(presented, at', hash', expiresAt')).1 == Reused
  {
    hide After, Step, Sound;
    var s' := Step(s, Refresh(presented, at, hash, expiresAt)).0;
    RotatesIff(s, presented, at, hash, expiresAt);
    StepSound(s, Refresh(presented, at, hash, expiresAt));
    StepKeeps(s, Refresh(presented, at, hash, expiresAt));
    RevokedForever(s', FindHash(s.rows, presented), requests, at', hash', expiresAt');
  }

  /** A refused rotation changes nothing, except that a taken hash costs the presented session, and a replay all. */
  lemma RefusedRotation(s: State, presented: string, at: int, hash: string, expiresAt: int)
    requires Sound(s)
    ensures var (s', outcome) := Step(s, Refresh(presented, at, hash, expiresAt));
      && (outcome == UnknownToken <==> !HasHash(s, presented))
      && (outcome == HashTaken <==> Live(s, presented, at) && HasHash(s, hash))
      && (outcome == UnknownToken || outcome == Expired ==> s' == s)
      && (outcome == HashTaken ==> s'.origins == s.origins && OneRevoked(s.rows, s'.rows, FindHash(s.rows, presented)))
  {
    hide Live, HasHash, UniqueHashes, OneLivePerSignIn, FindHash;
    LiveFound(s, presented, at);
    LiveFound(s, hash, at);
    var i := FindHash(s.rows, presented);
    SameHashes(s.rows, Revoke(s.rows, (j, row: Row) => j == i), hash);
  }

  predicate OneRevoked(before: seq<Row>, after: seq<Row>, i: nat) {
    && |after| == |before| && i < |before| && after[i] == before[i].(revoked := true)
    && forall j :: 0 <= j < |before| && j != i ==> after[j] == before[j]
  }

  /** Signing out ends the presented token's session and touches no other, not even one rotated from it. */
  lemma SignOutEndsOne(s: State, presented: string)
    requires Sound(s)
    ensures var s' := Step(s, Logout(presented)).0; var i := FindHash(s.rows, presented);
      s'.origins == s.origins && if i < |s.rows| then OneRevoked(s.rows, s'.rows, i) else s'.rows == s.rows
  {
    hide Rooted, OneLivePerSignIn;
    var (i, after) := (FindHash(s.rows, presented), Step(s, Logout(presented)).0.rows);
    forall j | 0 <= j < |s.rows| && s.rows[j].hash == presented ensures j == i {
      Found(s, j);
    }
  }

  /** A session is deleted for its own user only. */
  lemma DeletesOwn(s: State, id: nat, user: string)
    ensures var s' := Step(s, Delete(id, user)).0;
      if id < |s.rows| && s.rows[id].user == user then OneRevoked(s.rows, s'.rows, id) else s'.rows == s.rows
  {
  }

  /** No session of the user is live, and no other user's session changed. */
  predicate SignedOutEverywhere(before: seq<Row>, after: seq<Row>, user: string) {
    && |after| == |before|
    && forall i :: 0 <= i < |before| ==>
      if before[i].user == user then after[i].revoked else after[i] == before[i]
  }

  /**
   * A replayed token ends every session of its user, whatever sign-in they go
   * back to, and a password reset does the same.
   */
  lemma ReuseEndsAll(s: State, presented: string, at: int, hash: string, expiresAt: int)
    ensures var (s', outcome) := Step(s, Refresh(presented, at, hash, expiresAt));
      var i := FindHash(s.rows, presented);
      outcome == Reused ==> i < |s.rows| && SignedOutEverywhere(s.rows, s'.rows, s.rows[i].user)
    ensures forall user :: SignedOutEverywhere(s.rows, Step(s, Reset(user)).0.rows, user)
  {
  }

  /**
   * So it is the user's sessions that a replay ends, not those of one sign-in:
   * any revoked token takes any other session of its user with it, whichever
   * sign-in that one goes back to.
   */
  lemma ReuseCrossesSignIns(s: State, i: nat, j: nat, at: int, hash: string, expiresAt: int)
    requires Sound(s) && i < |s.rows| && j < |s.rows|
    requires s.rows[i].revoked && s.rows[i].user == s.rows[j].user
    ensures var (s', outcome) := Step(s, Refresh(s.rows[i].hash, at, hash, expiresAt));
      outcome == Reused && s'.rows[j].revoked && s'.origins == s.origins
  {
    hide Rooted, OneLivePerSignIn;
    Found(s, i);
    ReuseEndsAll(s, s.rows[i].hash, at, hash, expiresAt);
  }

  /** Every session this changes goes back to the presented token's sign-in. */
  predicate StaysInFamily(s: State, after: seq<Row>, i: nat)
    requires |s.origins| == |s.rows| == |after| && i < |s.rows|
  {
    forall j :: 0 <= j < |s.rows| && after[j] != s.rows[j] ==> s.origins[j] == s.origins[i]
  }

  /** The user is signed in through this sign-in only. */
  predicate OnlySignIn(s: State, i: nat)
    requires |s.origins| == |s.rows| && i < |s.rows|
  {
    forall j :: 0 <= j < |s.rows| && s.rows[j].user == s.rows[i].user && !s.rows[j].revoked ==>
      s.origins[j] == s.origins[i]
  }

  /**
   * A replay stays within the token's own family if and only if every live
   * session of the user goes back to the same sign-in.
   */
  lemma ReuseStaysInFamilyIff(s: State, i: nat, at: int, hash: string, expiresAt: int)
    requires Sound(s) && i < |s.rows| && s.rows[i].revoked
    ensures var after := Step(s, Refresh(s.rows[i].hash, at, hash, expiresAt)).0.rows;
      |after| == |s.rows| && (StaysInFamily(s, after, i) <==> OnlySignIn(s, i))
  {
    Found(s, i);
    ReuseEndsAll(s, s.rows[i].hash, at, hash, expiresAt);
    StepKeeps(s, Refresh(s.rows[i].hash, at, hash, expiresAt));
  }

  // -------------------------------------------------------------- coming and going

  /** A sign-in with a new hash adds one live session, which is its own origin; with a taken one it does nothing. */
  lemma SignsIn(s: State, user: string, hash: string, expiresAt: int)
    ensures var (s', outcome) := Step(s, Login(user, hash, expiresAt));
      if HasHash(s, hash) then s' == s && outcome == HashTaken
      else
        && outcome == Issued(|s.rows|)
        && s'.rows == s.rows + [Row(user, hash, expiresAt, false)] && s'.origins == s.origins + [|s.rows|]
  {
  }

  /** The answer to a presented token, by the row that has it. */
  lemma RefreshAnswers(s: State, i: nat, at: int, hash: string, expiresAt: int)
    requires UniqueHashes(s.rows) && i < |s.rows|
    ensures Step(s, Refresh(s.rows[i].hash, at, hash, expiresAt)).1
         == if s.rows[i].revoked then Reused
            else if s.rows[i].expiresAt < at then Expired
            else if HasHash(s, hash) then HashTaken
            else Issued(|s.rows|)
  {
    hide UniqueHashes;
    Found(s, i);
    var rotated := Revoke(s.rows, (j, row: Row) => j == i);
    SameHashes(s.rows, rotated, hash);
    assert HasHash(s, hash) <==> FindHash(s.rows, hash) < |s.rows|;
  }

  /** What ends session `i`: its own exchange, sign-out or deletion, a reset, or a replay by its user. */
  ghost predicate Ends(s: State, request: Request, i: nat)
    requires i < |s.rows|
  {
    match request
    case Login(_, _, _) => false
    case Refresh(presented, at, _, _) =>
      || (presented == s.rows[i].hash && at <= s.rows[i].expiresAt)
      || exists j :: 0 <= j < |s.rows| && s.rows[j].hash == presented && s.rows[j].revoked
           && s.rows[j].user == s.rows[i].user
    case Logout(presented) => presented == s.rows[i].hash
    case Delete(id, user) => id == i && user == s.rows[i].user
    case Reset(user) => user == s.rows[i].user
  }

  lemma EndsExactly(s: State, request: Request, i: nat)
    requires UniqueHashes(s.rows) && i < |s.rows|
    ensures var after := Step(s, request).0.rows;
      i < |after| && after[i] == s.rows[i].(revoked := s.rows[i].revoked || Ends(s, request, i))
  {
    hide UniqueHashes;
    StepKeeps(s, request);
    if request.Refresh? {
      var k := FindHash(s.rows, request.presented);
      forall j | 0 <= j < |s.rows| && s.rows[j].hash == request.presented ensures j == k {
        Found(s, j);
      }
    }
  }

  /** Some request of the run ends session `i` when its turn comes. */
  ghost predicate EndedWithin(s: State, requests: seq<Request>, i: nat)
    requires i < |s.rows|
    decreases |requests|
  {
    requests != [] && (
      || Ends(s, requests[0], i)
      || (i < |Step(s, requests[0]).0.rows| && EndedWithin(Step(s, requests[0]).0, requests[1..], i)))
  }

  /** Over any run a session keeps its owner, token and expiry, and is ended only by what should end it. */
  lemma {:induction false} EndedIff(s: State, requests: seq<Request>, i: nat)
    requires Sound(s) && i < |s.rows|
    ensures var after := After(s, requests).rows;
      i < |after| && after[i] == s.rows[i].(revoked := s.rows[i].revoked || EndedWithin(s, requests, i))
    decreases |requests|
  {
    if requests == [] {
    } else {
      hide Step, Rooted, OneLivePerSignIn, Ends, UniqueHashes;
      EndsExactly(s, requests[0], i);
      StepSound(s, requests[0]);
      EndedIff(Step(s, requests[0]).0, requests[1..], i);
    }
  }
}
