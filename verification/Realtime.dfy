/**
 * Delivery of change events (services/api/src/modules/realtime.ts) and the
 * grouped authorization behind it (services/api/src/lib/realtime-authz.ts).
 * The project database is a value: what it answers while one event is decided.
 */
module Realtime {
  import opened Common
  import opened Text

  type Value = string

  type Row = map<string, Value>

  /** `claims` is the verified token payload, as its JSON text. */
  datatype Identity = Identity(bypassRls: bool, userId: Option<string>, claims: Option<string>)

  /** The JSON text `request.jwt.claims` is set to. */
  type Claims = string

  datatype Event = Event(
    schema: Option<string>, table: Option<string>, kind: string, record: Option<Row>, oldRecord: Option<Row>
  )

  datatype Meta = Meta(primaryKey: seq<string>, rlsEnabled: bool, rlsEnforceable: bool)

  datatype Lookup = Failed | Unknown | Found(meta: Meta)

  /** `visible` is the answer of one probe; `None` when any of its statements fails. */
  datatype Database = Database(
    connects: bool,
    catalogue: (string, string) -> Lookup,
    visible: (string, string, seq<(string, Value)>, Claims) -> Option<bool>
  )

  datatype Subscription = Subscription(socket: nat, projectId: string, topics: set<string>, identity: Identity)

  function User(identity: Identity): Option<string> {
    if identity.userId == Some("") then None else identity.userId
  }

  function IdentityKey(identity: Identity): string {
    if identity.bypassRls then "service_role"
    else match User(identity)
      case None => "anon"
      case Some(id) => "user:" + id
  }

  function Hex(n: nat): char
    requires n < 16
  {
    "0123456789abcdef"[n]
  }

  function Escaped(c: char): string {
    if c == '"' || c == '\\' then ['\\', c]
    else if c == '\n' then "\\n"
    else if c == '\r' then "\\r"
    else if c == '\t' then "\\t"
    else if c as int == 8 then "\\b"
    else if c as int == 12 then "\\f"
    else if c as int < 32 then "\\u00" + [Hex(c as int / 16), Hex(c as int % 16)]
    else [c]
  }

  function Escape(text: string): string {
    if text == "" then "" else Escaped(text[0]) + Escape(text[1..])
  }

  /** `JSON.stringify` of the verified claims, or of the ones made up for a bare identity. */
  function ClaimsFor(identity: Identity): Claims {
    if identity.claims.Some? then identity.claims.value
    else match User(identity)
      case None => "{\"role\":\"anon\"}"
      case Some(id) => "{\"sub\":\"" + Escape(id) + "\",\"role\":\"authenticated\"}"
  }

  /** An escape's first two characters say how long it is. */
  lemma EscapedShape(c: char)
    ensures var e := Escaped(c);
      && e != "" && (e[0] != '\\' ==> |e| == 1)
      && (e[0] == '\\' ==> |e| >= 2 && |e| == if e[1] == 'u' then 6 else 2)
  {
    hide Hex;
  }

  lemma SameEscaped(x: char, y: char)
    requires Escaped(x) == Escaped(y)
    ensures x == y
  {
    hide Hex;
    var (s, t) := (Escaped(x), Escaped(y));
    if |s| == 6 {
      assert s[4] == Hex(x as int / 16) && s[5] == Hex(x as int % 16);
      assert t[4] == Hex(y as int / 16) && t[5] == Hex(y as int % 16);
      SameHex(x as int / 16, y as int / 16);
      SameHex(x as int % 16, y as int % 16);
    }
  }

  lemma SameHex(a: nat, b: nat)
    requires a < 16 && b < 16 && Hex(a) == Hex(b)
    ensures a == b
  {
  }

  /** No escape is the beginning of another. */
  lemma EscapedPrefixFree(x: char, y: char, u: string, v: string)
    requires Escaped(x) + u == Escaped(y) + v
    ensures x == y && u == v
  {
    hide Escaped;
    var (s, t) := (Escaped(x), Escaped(y));
    EscapedShape(x);
    EscapedShape(y);
    var whole := s + u;
    assert whole[0] == s[0] == t[0];
    if s[0] == '\\' {
      assert whole[1] == s[1] == t[1];
    }
    assert s == whole[..|s|] && t == whole[..|t|];
    assert whole[|s|..] == u && whole[|t|..] == v;
    SameEscaped(x, y);
  }

  lemma {:induction false} EscapeInjective(a: string, b: string)
    requires Escape(a) == Escape(b)
    ensures a == b
  {
    hide Escaped;
    if a != "" && b != "" {
      EscapedPrefixFree(a[0], b[0], Escape(a[1..]), Escape(b[1..]));
      EscapeInjective(a[1..], b[1..]);
    } else if a != "" {
      EscapedShape(a[0]);
    } else if b != "" {
      EscapedShape(b[0]);
    }
  }

  /** Verified claims are presented as they are; without them and without a user the role is `anon`. */
  lemma ClaimsAre(identity: Identity)
    ensures identity.claims.Some? ==> ClaimsFor(identity) == identity.claims.value
    ensures identity.claims.None? && (identity.userId.None? || identity.userId.value == "") ==>
      ClaimsFor(identity) == "{\"role\":\"anon\"}"
  {
  }

  /** Identities without verified claims are told apart by the made-up ones exactly as they are by user. */
  lemma BareClaimsIff(a: Identity, b: Identity)
    requires a.claims.None? && b.claims.None?
    ensures ClaimsFor(a) == ClaimsFor(b) <==> User(a) == User(b)
  {
    hide Escape, User;
    var (x, y) := (ClaimsFor(a), ClaimsFor(b));
    var (head, tail) := ("{\"sub\":\"", "\",\"role\":\"authenticated\"}");
    if x == y && User(a).Some? && User(b).Some? {
      var (e, f) := (Escape(User(a).value), Escape(User(b).value));
      assert x == head + e + tail && y == head + f + tail;
      assert e == x[|head|..|head| + |e|] && f == y[|head|..|head| + |f|];
      EscapeInjective(User(a).value, User(b).value);
    }
    assert User(a).Some? ==> x[2] == 's';
    assert User(b).Some? ==> y[2] == 's';
    assert "{\"role\":\"anon\"}"[2] == 'r';
  }

  function SchemaOf(event: Event): string {
    if event.schema.Some? then event.schema.value else "public"
  }

  function TableOf(event: Event): string {
    if event.table.Some? then event.table.value else "*"
  }

  function RowOf(event: Event): Option<Row> {
    if event.kind == "DELETE" || event.record.None? then event.oldRecord else event.record
  }

  predicate IsIdentifier(name: string) {
    && name != "" && !('0' <= name[0] <= '9') && name[0] != '$'
    && forall c <- name :: 'a' <= c <= 'z' || 'A' <= c <= 'Z' || '0' <= c <= '9' || c == '_' || c == '$'
  }

  /** Identifiers grow from a letter or underscore by letters, digits, `_` and `$`. */
  lemma IdentifierGrows(name: string, c: char)
    ensures !IsIdentifier("")
    ensures IsIdentifier([c]) <==> 'A' <= c <= 'Z' || 'a' <= c <= 'z' || c == '_'
    ensures name != "" ==>
        (IsIdentifier(name + [c]) <==>
          && IsIdentifier(name)
          && ('A' <= c <= 'Z' || 'a' <= c <= 'z' || '0' <= c <= '9' || c == '_' || c == '$'))
  {
    assert [c][0] == c && (name != "" ==> (name + [c])[0] == name[0]);
    assert forall d :: d in [c] <==> d == c;
    assert forall d :: d in name + [c] <==> d in name || d == c;
    assert c in [c] && c in name + [c];
  }

  // ------------------------------------------------------- one identity, one probe

  /** What the table and the row say before any identity is looked at. */
  datatype Verdict = Refuse | Everyone | Probe(key: seq<(string, Value)>)

  function KeyValues(columns: seq<string>, row: Row): Option<seq<(string, Value)>> {
    if columns == [] then Some([])
    else if columns[0] !in row then None
    else match KeyValues(columns[1..], row)
      case None => None
      case Some(rest) => Some([(columns[0], row[columns[0]])] + rest)
  }

  /** The probe's text can be built: every name in it is an identifier. */
  predicate Quotable(event: Event, columns: seq<string>) {
    IsIdentifier(SchemaOf(event)) && IsIdentifier(TableOf(event)) && forall c <- columns :: IsIdentifier(c)
  }

  function Decide(meta: Lookup, event: Event, row: Row): Verdict {
    if !meta.Found? then Refuse
    else if !meta.meta.rlsEnabled then Everyone
    else if !meta.meta.rlsEnforceable || meta.meta.primaryKey == [] then Refuse
    else match KeyValues(meta.meta.primaryKey, row)
      case None => Refuse
      case Some(key) => if Quotable(event, meta.meta.primaryKey) then Probe(key) else Refuse
  }

  function VerdictOf(db: Database, meta: Lookup, event: Event): Verdict {
    match RowOf(event)
    case None => Refuse
    case Some(row) => if db.connects then Decide(meta, event, row) else Refuse
  }

  /** Asking the database about one identity alone. */
  predicate MayReceive(db: Database, meta: Lookup, event: Event, identity: Identity) {
    identity.bypassRls ||
    match VerdictOf(db, meta, event)
    case Refuse => false
    case Everyone => true
    case Probe(key) => db.visible(SchemaOf(event), TableOf(event), key, ClaimsFor(identity)) == Some(true)
  }

  // ---------------------------------------------------------------- authorization

  const META_TTL_MS := 30000

  datatype CacheEntry = CacheEntry(meta: Meta, at: int)

  type Cache = map<string, CacheEntry>

  function CacheKey(projectId: string, event: Event): string {
    projectId + ":" + SchemaOf(event) + "." + TableOf(event)
  }

  predicate IsFresh(cache: Cache, key: string, now: int) {
    key in cache && now - cache[key].at < META_TTL_MS
  }

  function SeenMeta(cache: Cache, key: string, now: int, fetched: Lookup): Lookup {
    if IsFresh(cache, key, now) then Found(cache[key].meta) else fetched
  }

  function CacheAfter(cache: Cache, key: string, now: int, fetched: Lookup): Cache {
    if IsFresh(cache, key, now) || !fetched.Found? then cache else cache[key := CacheEntry(fetched.meta, now)]
  }

  type Identities = map<string, Identity>

  /** Does the decision get as far as reading the table's metadata? */
  ghost predicate ReadsMeta(db: Database, event: Event, identities: Identities) {
    RowOf(event).Some? && db.connects && exists key <- identities :: !identities[key].bypassRls
  }

  class Authorizer {
    var metaCache: Cache

    constructor ()
      ensures metaCache == map[]
    {
      metaCache := map[];
    }

    method TableMeta(db: Database, projectId: string, event: Event, now: int) returns (meta: Lookup)
      modifies this
      ensures var (key, fetched) := (CacheKey(projectId, event), db.catalogue(SchemaOf(event), TableOf(event)));
        && meta == SeenMeta(old(metaCache), key, now, fetched)
        && metaCache == CacheAfter(old(metaCache), key, now, fetched)
    {
      var key := CacheKey(projectId, event);
      if IsFresh(metaCache, key, now) {
        return Found(metaCache[key].meta);
      }
      meta := db.catalogue(SchemaOf(event), TableOf(event));
      if meta.Found? {
        metaCache := metaCache[key := CacheEntry(meta.meta, now)];
      }
    }

    /** The keys of exactly the identities that may receive the event. */
    method AuthorizeEvent(db: Database, projectId: string, event: Event, now: int, identities: Identities)
      returns (allowed: set<string>)
      modifies this
      ensures var (key, fetched) := (CacheKey(projectId, event), db.catalogue(SchemaOf(event), TableOf(event)));
        var meta := SeenMeta(old(metaCache), key, now, fetched);
        && allowed == (set k | k in identities && MayReceive(db, meta, event, identities[k]))
        && metaCache == (
          if ReadsMeta(db, event, identities) then CacheAfter(old(metaCache), key, now, fetched)
          else old(metaCache))
    {
      hide SeenMeta, CacheAfter, KeyValues, Quotable, CacheKey;
      allowed := set k | k in identities && identities[k].bypassRls;
      var needChecking := set k | k in identities && !identities[k].bypassRls;
      if needChecking == {} {
        assert forall k <- identities :: k !in needChecking ==> identities[k].bypassRls;
        return;
      }
      var row := RowOf(event);
      if row.None? || !db.connects {
        return;
      }
      ghost var bound :| bound in needChecking;
      var meta := TableMeta(db, projectId, event, now);
      var verdict := Decide(meta, event, row.value);
      if verdict.Refuse? {
        return;
      }
      if verdict.Everyone? {
        allowed := allowed + needChecking;
        return;
      }
      var left := needChecking;
      while left != {}
        invariant left <= needChecking
        invariant allowed == set k | k in identities && k !in left && MayReceive(db, meta, event, identities[k])
      {
        var k :| k in left;
        var visible := db.visible(SchemaOf(event), TableOf(event), verdict.key, ClaimsFor(identities[k]));
        if visible == Some(true) {
          allowed := allowed + {k};
        }
        left := left - {k};
      }
    }
  }

  /** One reading of a table's metadata: when, under which key, and what the catalogue would answer. */
  datatype Reading = Reading(key: string, now: int, fetched: Lookup)

  function Answer(cache: Cache, reading: Reading): Lookup {
    SeenMeta(cache, reading.key, reading.now, reading.fetched)
  }

  function CacheOf(readings: seq<Reading>): Cache {
    if readings == [] then map[]
    else
      var last := readings[|readings| - 1];
      CacheAfter(CacheOf(readings[..|readings| - 1]), last.key, last.now, last.fetched)
  }

  /** The catalogue answered this for the key, less than thirty seconds before. */
  ghost predicate AnsweredLately(readings: seq<Reading>, key: string, meta: Meta, now: int) {
    exists r <- readings :: r.key == key && r.fetched == Found(meta) && now - r.now < 30_000
  }

  lemma {:induction false} RememberedWereAnswered(readings: seq<Reading>, key: string)
    requires key in CacheOf(readings)
    ensures var entry := CacheOf(readings)[key];
      exists r <- readings :: r.key == key && r.fetched == Found(entry.meta) && r.now == entry.at
  {
    if readings == [] {
    } else {
      var (init, last) := (readings[..|readings| - 1], readings[|readings| - 1]);
      assert readings == init + [last];
      assert last in readings;
      if CacheOf(readings) != CacheOf(init) && key == last.key {
        assert CacheOf(readings)[key] == CacheEntry(last.fetched.meta, last.now);
      } else {
        RememberedWereAnswered(init, key);
      }
    }
  }

  /** Over any run, metadata acted on is what the catalogue said under that key less than thirty seconds ago. */
  lemma MetadataIsRecent(readings: seq<Reading>, reading: Reading)
    ensures var answer := Answer(CacheOf(readings), reading);
      answer.Found? ==> AnsweredLately(readings + [reading], reading.key, answer.meta, reading.now)
  {
    hide CacheOf;
    var (cache, all) := (CacheOf(readings), readings + [reading]);
    if IsFresh(cache, reading.key, reading.now) {
      RememberedWereAnswered(readings, reading.key);
      var entry := cache[reading.key];
      var r :| r in readings && r.key == reading.key && r.fetched == Found(entry.meta) && r.now == entry.at;
      assert r in all;
    } else {
      assert reading in all;
    }
  }

  /** A table found in the catalogue is not asked for again for thirty seconds; one not found is asked for each time. */
  lemma RememberedThirtySeconds(readings: seq<Reading>, reading: Reading, again: Reading)
    requires again.key == reading.key && again.now >= reading.now
    requires reading.key in CacheOf(readings) ==> reading.now - CacheOf(readings)[reading.key].at >= 30_000
    ensures Answer(CacheOf(readings + [reading]), again)
         == if reading.fetched.Found? && again.now < reading.now + 30_000 then reading.fetched else again.fetched
  {
    assert (readings + [reading])[..|readings|] == readings;
  }

  /**
   * Names are told apart by the cache key as the text before and after its one
   * colon; tables of two schemas share a key exactly when their dotted names agree.
   */
  lemma SameCacheKeyIff(p: string, q: string, a: Event, b: Event)
    requires ':' !in p && ':' !in q
    ensures CacheKey(p, a) == CacheKey(q, b)
       <==> p == q && SchemaOf(a) + "." + TableOf(a) == SchemaOf(b) + "." + TableOf(b)
  {
    var (x, y) := (SchemaOf(a) + "." + TableOf(a), SchemaOf(b) + "." + TableOf(b));
    assert CacheKey(p, a) == p + [':'] + x && CacheKey(q, b) == q + [':'] + y;
    if CacheKey(p, a) == CacheKey(q, b) {
      FindInConcat(p, x, ':');
      FindInConcat(q, y, ':');
      assert (p + [':'] + x)[|p| + 1..] == x && (q + [':'] + y)[|q| + 1..] == y;
      assert p == (p + [':'] + x)[..|p|] && q == (q + [':'] + y)[..|q|];
    }
  }

  /** With schema names free of dots, as identifiers are, the key is the project, the schema and the table. */
  lemma CacheKeyInjective(p: string, q: string, a: Event, b: Event)
    requires ':' !in p && ':' !in q && '.' !in SchemaOf(a) && '.' !in SchemaOf(b)
    requires CacheKey(p, a) == CacheKey(q, b)
    ensures p == q && SchemaOf(a) == SchemaOf(b) && TableOf(a) == TableOf(b)
  {
    hide SchemaOf, TableOf, CacheKey;
    SameCacheKeyIff(p, q, a, b);
    var (s, t, u, v) := (SchemaOf(a), TableOf(a), SchemaOf(b), TableOf(b));
    FindInConcat(s, t, '.');
    FindInConcat(u, v, '.');
    assert (s + ['.'] + t)[|s| + 1..] == t && (u + ['.'] + v)[|u| + 1..] == v;
    assert s == (s + ['.'] + t)[..|s|] && u == (u + ['.'] + v)[..|u|];
  }

  // -------------------------------------------------------------------- delivery

  predicate Interested(sub: Subscription, projectId: string, event: Event) {
    && sub.projectId == projectId
    && (SchemaOf(event) + "." + TableOf(event) in sub.topics || SchemaOf(event) + ".*" in sub.topics)
  }

  function Listening(subs: seq<Subscription>, projectId: string, event: Event): seq<Subscription> {
    if subs == [] then []
    else (if Interested(subs[0], projectId, event) then [subs[0]] else []) + Listening(subs[1..], projectId, event)
  }

  /** One identity per key: that of the last subscription with the key. */
  function Grouped(subs: seq<Subscription>): Identities {
    if subs == [] then map[]
    else
      var last := |subs| - 1;
      Grouped(subs[..last])[IdentityKey(subs[last].identity) := subs[last].identity]
  }

  function Selected(subs: seq<Subscription>, allowed: set<string>): seq<Subscription> {
    if subs == [] then []
    else (if IdentityKey(subs[0].identity) in allowed then [subs[0]] else []) + Selected(subs[1..], allowed)
  }

  function Allowed(db: Database, meta: Lookup, event: Event, identities: Identities): set<string> {
    set k | k in identities && MayReceive(db, meta, event, identities[k])
  }

  /** The subscriptions an event is sent to. */
  function Delivered(db: Database, meta: Lookup, event: Event, projectId: string, subs: seq<Subscription>)
    : seq<Subscription>
  {
    var interested := Listening(subs, projectId, event);
    Selected(interested, Allowed(db, meta, event, Grouped(interested)))
  }

  method GroupIdentities(interested: seq<Subscription>) returns (identities: Identities)
    ensures identities == Grouped(interested)
  {
    identities := map[];
    for i := 0 to |interested|
      invariant identities == Grouped(interested[..i])
    {
      assert interested[..i + 1][..i] == interested[..i];
      identities := identities[IdentityKey(interested[i].identity) := interested[i].identity];
    }
    assert interested[..|interested|] == interested;
  }

  method SendTo(interested: seq<Subscription>, allowed: set<string>) returns (sent: seq<Subscription>)
    ensures sent == Selected(interested, allowed)
  {
    sent := [];
    for i := 0 to |interested|
      invariant sent + Selected(interested[i..], allowed) == Selected(interested, allowed)
    {
      assert interested[i..][0] == interested[i] && interested[i..][1..] == interested[i + 1..];
      if IdentityKey(interested[i].identity) in allowed {
        sent := sent + [interested[i]];
      }
    }
  }

  method Deliver(authorizer: Authorizer, db: Database, projectId: string, event: Event, now: int,
                 subs: seq<Subscription>)
    returns (sent: seq<Subscription>)
    modifies authorizer
    ensures var fetched := db.catalogue(SchemaOf(event), TableOf(event));
      var meta := SeenMeta(old(authorizer.metaCache), CacheKey(projectId, event), now, fetched);
      sent == Delivered(db, meta, event, projectId, subs)
  {
    hide MayReceive, SeenMeta, CacheAfter, CacheKey, ReadsMeta, Grouped, Interested, IdentityKey;
    var interested := Listening(subs, projectId, event);
    if interested == [] {
      return [];
    }
    var identities := GroupIdentities(interested);
    var allowed := authorizer.AuthorizeEvent(db, projectId, event, now, identities);
    sent := SendTo(interested, allowed);
  }

  // ---------------------------------------------------------------- the theorems

  lemma {:induction false} ListeningMembers(subs: seq<Subscription>, projectId: string, event: Event, sub: Subscription)
    ensures sub in Listening(subs, projectId, event) <==> sub in subs && Interested(sub, projectId, event)
  {
    if subs == [] {
    } else {
      hide Interested;
      ListeningMembers(subs[1..], projectId, event, sub);
      assert subs == [subs[0]] + subs[1..];
    }
  }

  lemma {:induction false} SelectedMembers(subs: seq<Subscription>, allowed: set<string>, sub: Subscription)
    ensures sub in Selected(subs, allowed) <==> sub in subs && IdentityKey(sub.identity) in allowed
  {
    if subs == [] {
    } else {
      hide IdentityKey;
      SelectedMembers(subs[1..], allowed, sub);
      assert subs == [subs[0]] + subs[1..];
    }
  }

  /** Two identities share a key exactly when both bypass, or neither does and they are the same user. */
  lemma SharedKeyIff(a: Identity, b: Identity)
    ensures IdentityKey(a) == IdentityKey(b)
       <==> (a.bypassRls && b.bypassRls) || (!a.bypassRls && !b.bypassRls && User(a) == User(b))
  {
    var (x, y) := (IdentityKey(a), IdentityKey(b));
    if !a.bypassRls && User(a).Some? {
      assert x[0] == 'u' && x[5..] == User(a).value;
    }
    if !b.bypassRls && User(b).Some? {
      assert y[0] == 'u' && y[5..] == User(b).value;
    }
    assert "anon"[0] == 'a' && "service_role"[0] == 's';
  }

  /** The group of a subscription is represented by one of the interested identities with its key. */
  lemma {:induction false} Represented(subs: seq<Subscription>, sub: Subscription)
    requires sub in subs
    ensures var (identities, key) := (Grouped(subs), IdentityKey(sub.identity));
      && key in identities
      && exists other <- subs :: other.identity == identities[key] && IdentityKey(other.identity) == key
  {
    hide IdentityKey;
    var (last, key) := (|subs| - 1, IdentityKey(sub.identity));
    assert subs == subs[..last] + [subs[last]];
    assert subs[last] in subs;
    if IdentityKey(subs[last].identity) != key {
      Represented(subs[..last], sub);
    }
  }

  /** Who represents a subscription's group in this event. */
  function Representative(subs: seq<Subscription>, sub: Subscription): Identity
    requires sub in subs
  {
    Represented(subs, sub);
    Grouped(subs)[IdentityKey(sub.identity)]
  }

  /** Of the interested subscriptions with one key, the last represents them. */
  lemma {:induction false} LastRepresents(subs: seq<Subscription>, i: nat)
    requires i < |subs| && forall j :: i < j < |subs| ==> IdentityKey(subs[j].identity) != IdentityKey(subs[i].identity)
    ensures IdentityKey(subs[i].identity) in Grouped(subs)
    ensures Grouped(subs)[IdentityKey(subs[i].identity)] == subs[i].identity
  {
    hide IdentityKey;
    var last := |subs| - 1;
    if i == last {
    } else {
      LastRepresents(subs[..last], i);
    }
  }

  /** Delivery asks about representatives only. */
  lemma DeliveredIff(db: Database, meta: Lookup, event: Event, projectId: string,
                     subs: seq<Subscription>, sub: Subscription)
    ensures var interested := Listening(subs, projectId, event);
      sub in Delivered(db, meta, event, projectId, subs)
      <==> sub in interested && MayReceive(db, meta, event, Representative(interested, sub))
  {
    hide MayReceive, Interested, IdentityKey, Grouped, Listening;
    var interested := Listening(subs, projectId, event);
    ListeningMembers(subs, projectId, event, sub);
    SelectedMembers(interested, Allowed(db, meta, event, Grouped(interested)), sub);
    if sub in interested {
      Represented(interested, sub);
    }
  }

  /**
   * Only subscriptions of the event's own project that ask for its table, or for
   * the whole of its schema, are sent it; those that bypass row-level security
   * all are.
   */
  lemma DeliveredWithinProject(db: Database, meta: Lookup, event: Event, projectId: string,
                               subs: seq<Subscription>, sub: Subscription, schema: string, table: string)
    requires schema == match event.schema { case Some(name) => name case None => "public" }
    requires table == match event.table { case Some(name) => name case None => "*" }
    ensures sub in Delivered(db, meta, event, projectId, subs) ==>
        && sub in subs && sub.projectId == projectId
        && (schema + "." + table in sub.topics || schema + ".*" in sub.topics)
    ensures
        && sub in subs && sub.projectId == projectId && sub.identity.bypassRls
        && (schema + "." + table in sub.topics || schema + ".*" in sub.topics)
        ==> sub in Delivered(db, meta, event, projectId, subs)
  {
    hide Delivered, Listening, Representative;
    DeliveredIff(db, meta, event, projectId, subs, sub);
    ListeningMembers(subs, projectId, event, sub);
    if sub in Listening(subs, projectId, event) {
      RepresentativeAgrees(Listening(subs, projectId, event), sub);
    }
  }

  lemma {:induction false} ListeningCounts(subs: seq<Subscription>, projectId: string, event: Event, sub: Subscription)
    ensures multiset(Listening(subs, projectId, event))[sub]
         == if Interested(sub, projectId, event) then multiset(subs)[sub] else 0
  {
    if subs == [] {
    } else {
      hide Interested;
      ListeningCounts(subs[1..], projectId, event, sub);
      assert subs == [subs[0]] + subs[1..];
    }
  }

  lemma {:induction false} SelectedCounts(subs: seq<Subscription>, allowed: set<string>, sub: Subscription)
    ensures multiset(Selected(subs, allowed))[sub]
         == if IdentityKey(sub.identity) in allowed then multiset(subs)[sub] else 0
  {
    if subs == [] {
    } else {
      hide IdentityKey;
      SelectedCounts(subs[1..], allowed, sub);
      assert subs == [subs[0]] + subs[1..];
    }
  }

  /** An event is sent to a subscription as often as the subscription occurs, or not at all. */
  lemma DeliveredOnceEach(db: Database, meta: Lookup, event: Event, projectId: string,
                          subs: seq<Subscription>, sub: Subscription)
    ensures var sent := Delivered(db, meta, event, projectId, subs);
      sub in sent ==> multiset(sent)[sub] == multiset(subs)[sub]
  {
    hide MayReceive, Interested, IdentityKey, Listening, Selected, Grouped;
    var interested := Listening(subs, projectId, event);
    ListeningCounts(subs, projectId, event, sub);
    SelectedCounts(interested, Allowed(db, meta, event, Grouped(interested)), sub);
  }

  /** Interested subscriptions of one user present the same claims. */
  ghost predicate SameKeySameClaims(subs: seq<Subscription>) {
    forall a <- subs, b <- subs ::
      !a.identity.bypassRls && IdentityKey(a.identity) == IdentityKey(b.identity)
      ==> ClaimsFor(a.identity) == ClaimsFor(b.identity)
  }

  lemma ClaimsDecide(db: Database, meta: Lookup, event: Event, a: Identity, b: Identity)
    requires a.bypassRls == b.bypassRls && (a.bypassRls || ClaimsFor(a) == ClaimsFor(b))
    ensures MayReceive(db, meta, event, a) == MayReceive(db, meta, event, b)
  {
  }

  lemma RepresentativeAgrees(subs: seq<Subscription>, sub: Subscription)
    requires sub in subs
    ensures Representative(subs, sub).bypassRls == sub.identity.bypassRls
    ensures SameKeySameClaims(subs) && !sub.identity.bypassRls ==>
        ClaimsFor(Representative(subs, sub)) == ClaimsFor(sub.identity)
    ensures exists other <- subs :: other.identity == Representative(subs, sub)
  {
    hide IdentityKey, ClaimsFor, Grouped;
    Represented(subs, sub);
    var other :| other in subs && other.identity == Representative(subs, sub)
      && IdentityKey(other.identity) == IdentityKey(sub.identity);
    SharedKeyIff(other.identity, sub.identity);
  }

  /** Each interested subscription is sent the event exactly when it may receive it by itself. */
  ghost predicate Refines(db: Database, meta: Lookup, event: Event, projectId: string, subs: seq<Subscription>) {
    forall sub <- subs ::
      sub in Delivered(db, meta, event, projectId, subs)
      <==> Interested(sub, projectId, event) && MayReceive(db, meta, event, sub.identity)
  }

  /** Grouped delivery refines individual checks whenever sharing a key means sharing claims. */
  lemma GroupedRefines(db: Database, meta: Lookup, event: Event, projectId: string, subs: seq<Subscription>)
    requires SameKeySameClaims(Listening(subs, projectId, event))
    ensures Refines(db, meta, event, projectId, subs)
  {
    hide MayReceive, Interested, Delivered, Representative, Listening, SameKeySameClaims, ClaimsFor;
    var interested := Listening(subs, projectId, event);
    forall sub | sub in subs
      ensures sub in Delivered(db, meta, event, projectId, subs)
         <==> Interested(sub, projectId, event) && MayReceive(db, meta, event, sub.identity)
    {
      DeliveredIff(db, meta, event, projectId, subs, sub);
      ListeningMembers(subs, projectId, event, sub);
      if sub in interested {
        RepresentativeAgrees(interested, sub);
        ClaimsDecide(db, meta, event, Representative(interested, sub), sub.identity);
      }
    }
  }

  /** The event reaches the probe: it carries a row, and its table could have one of the row's columns as key. */
  ghost predicate Probeable(event: Event, column: string) {
    RowOf(event).Some? && column in RowOf(event).value && Quotable(event, [column])
  }

  /** A table guarded by row-level security with this column as its key. */
  function Guarded(column: string): Lookup {
    Found(Meta([column], true, true))
  }

  /** A database that shows the row to these claims and to no others. */
  function Only(claims: Claims): Database {
    Database(true, (s, t) => Unknown, (s, t, k, c) => Some(c == claims))
  }

  lemma OnlyShows(event: Event, column: string, claims: Claims, identity: Identity)
    requires Probeable(event, column) && !identity.bypassRls
    ensures MayReceive(Only(claims), Guarded(column), event, identity) <==> ClaimsFor(identity) == claims
  {
    hide ClaimsFor, Quotable;
    var row := RowOf(event).value;
    assert [column][0] in row;
    assert KeyValues([column][1..], row) == Some([]);
    assert KeyValues([column], row).Some?;
  }

  /**
   * And only then: if two subscriptions share a key but not their claims, some
   * database makes grouped delivery differ from individual checks.
   */
  lemma GroupingExactIff(event: Event, column: string, projectId: string, subs: seq<Subscription>)
    requires Probeable(event, column)
    ensures (forall db, meta :: Refines(db, meta, event, projectId, subs))
       <==> SameKeySameClaims(Listening(subs, projectId, event))
  {
    hide Refines, Listening, Probeable, IdentityKey, ClaimsFor, Interested;
    var interested := Listening(subs, projectId, event);
    if SameKeySameClaims(interested) {
      forall db, meta ensures Refines(db, meta, event, projectId, subs) {
        GroupedRefines(db, meta, event, projectId, subs);
      }
    } else {
      var a, b :| a in interested && b in interested && !a.identity.bypassRls
        && IdentityKey(a.identity) == IdentityKey(b.identity) && ClaimsFor(a.identity) != ClaimsFor(b.identity);
      SharedKeyIff(a.identity, b.identity);
      assert Representative(interested, a) == Representative(interested, b);
      var sub := if ClaimsFor(Representative(interested, a)) != ClaimsFor(a.identity) then a else b;
      Misrepresented(event, column, projectId, subs, sub);
    }
  }

  lemma Misrepresented(event: Event, column: string, projectId: string, subs: seq<Subscription>, sub: Subscription)
    requires Probeable(event, column)
    requires sub in Listening(subs, projectId, event) && !sub.identity.bypassRls
    requires ClaimsFor(Representative(Listening(subs, projectId, event), sub)) != ClaimsFor(sub.identity)
    ensures exists db, meta :: !Refines(db, meta, event, projectId, subs)
  {
    hide MayReceive, Listening, Delivered, Probeable, IdentityKey, ClaimsFor, Interested, Only, Guarded, Representative;
    var interested := Listening(subs, projectId, event);
    var claims := ClaimsFor(sub.identity);
    ListeningMembers(subs, projectId, event, sub);
    RepresentativeAgrees(interested, sub);
    OnlyShows(event, column, claims, sub.identity);
    OnlyShows(event, column, claims, Representative(interested, sub));
    DeliveredIff(Only(claims), Guarded(column), event, projectId, subs, sub);
    assert !Refines(Only(claims), Guarded(column), event, projectId, subs);
  }

  // ---------------------------------------------------------------- failing closed

  lemma {:induction false} KeyMissing(columns: seq<string>, row: Row)
    ensures KeyValues(columns, row).None? <==> exists c <- columns :: c !in row
  {
    if columns == [] {
    } else {
      KeyMissing(columns[1..], row);
      assert columns == [columns[0]] + columns[1..];
    }
  }

  /** Exactly when no RLS-bound subscription can be confirmed, whatever a probe would say, and when all are. */
  lemma RefusedIff(db: Database, meta: Lookup, event: Event)
    ensures VerdictOf(db, meta, event).Refuse? <==>
      || RowOf(event).None? || !db.connects || !meta.Found?
      || (meta.meta.rlsEnabled && (
          || !meta.meta.rlsEnforceable || meta.meta.primaryKey == []
          || !Quotable(event, meta.meta.primaryKey) || exists c <- meta.meta.primaryKey :: c !in RowOf(event).value))
    ensures VerdictOf(db, meta, event).Everyone? <==>
      RowOf(event).Some? && db.connects && meta.Found? && !meta.meta.rlsEnabled
  {
    hide Quotable, KeyValues;
    if RowOf(event).Some? && meta.Found? {
      KeyMissing(meta.meta.primaryKey, RowOf(event).value);
    }
  }

  /** Each column with its value in the row. */
  function KeyOf(columns: seq<string>, row: Row): seq<(string, Value)>
    requires forall c <- columns :: c in row
  {
    seq(|columns|, i requires 0 <= i < |columns| => (columns[i], row[columns[i]]))
  }

  lemma {:induction false} KeyValuesAre(columns: seq<string>, row: Row)
    requires forall c <- columns :: c in row
    ensures KeyValues(columns, row) == Some(KeyOf(columns, row))
  {
    if columns == [] {
    } else {
      assert forall c <- columns[1..] :: c in row;
      KeyValuesAre(columns[1..], row);
      assert KeyOf(columns, row) == [(columns[0], row[columns[0]])] + KeyOf(columns[1..], row);
    }
  }

  /**
   * What it takes for an identity bound by row-level security to be sent an event:
   * the row judged is the old one of a DELETE and otherwise the new one if the
   * event carries one, and the probe asks for its primary key under the
   * identity's own claims.
   */
  lemma ReceivesIff(db: Database, meta: Lookup, event: Event, identity: Identity,
                    schema: string, table: string, row: Option<Row>)
    requires schema == match event.schema { case Some(name) => name case None => "public" }
    requires table == match event.table { case Some(name) => name case None => "*" }
    requires row == if event.kind != "DELETE" && event.record.Some? then event.record else event.oldRecord
    requires !identity.bypassRls
    ensures MayReceive(db, meta, event, identity) <==>
      && row.Some? && db.connects && meta.Found?
      && (meta.meta.rlsEnabled ==>
          && meta.meta.rlsEnforceable && meta.meta.primaryKey != []
          && IsIdentifier(schema) && IsIdentifier(table)
          && (forall c <- meta.meta.primaryKey :: c in row.value && IsIdentifier(c))
          && db.visible(schema, table, KeyOf(meta.meta.primaryKey, row.value), ClaimsFor(identity)) == Some(true))
  {
    hide IsIdentifier, KeyValues, KeyOf, ClaimsFor;
    if row.Some? && meta.Found? {
      var columns := meta.meta.primaryKey;
      KeyMissing(columns, row.value);
      if forall c <- columns :: c in row.value {
        KeyValuesAre(columns, row.value);
      }
    }
  }

  /** A refused event reaches the bypassing subscriptions and no others. */
  lemma FailsClosed(db: Database, meta: Lookup, event: Event, projectId: string,
                    subs: seq<Subscription>, sub: Subscription)
    requires VerdictOf(db, meta, event).Refuse? && sub in subs
    ensures sub in Delivered(db, meta, event, projectId, subs)
       <==> Interested(sub, projectId, event) && sub.identity.bypassRls
  {
    hide VerdictOf, Interested, Delivered, Representative, Listening;
    DeliveredIff(db, meta, event, projectId, subs, sub);
    ListeningMembers(subs, projectId, event, sub);
    if sub in Listening(subs, projectId, event) {
      RepresentativeAgrees(Listening(subs, projectId, event), sub);
    }
  }

  /** The same database, except that every probe under these claims fails. */
  function Failing(db: Database, claims: Claims): Database {
    db.(visible := (s, t, k, c) => if c == claims then None else db.visible(s, t, k, c))
  }

  /** A failing probe takes away its own identity's deliveries and changes no others. */
  lemma FailureIsLocal(db: Database, meta: Lookup, event: Event, projectId: string,
                       subs: seq<Subscription>, sub: Subscription, claims: Claims)
    requires SameKeySameClaims(Listening(subs, projectId, event)) && VerdictOf(db, meta, event).Probe? && sub in subs
    ensures sub in Delivered(Failing(db, claims), meta, event, projectId, subs)
       <==>
        && sub in Delivered(db, meta, event, projectId, subs)
        && (sub.identity.bypassRls || ClaimsFor(sub.identity) != claims)
  {
    hide Interested, Delivered, Listening, SameKeySameClaims, ClaimsFor;
    GroupedRefines(db, meta, event, projectId, subs);
    GroupedRefines(Failing(db, claims), meta, event, projectId, subs);
  }
}
