/**
 * The per-project connection pools (services/api/src/db/pool-manager.ts).
 *
 * A `get` that misses runs in pieces: it looks the project up, awaits the
 * credentials, awaits the quota, and then sizes and opens a pool in one go.
 * Other requests, evictions and the reaper may run at either await, so the
 * model is a state machine over those pieces, in any order.
 */
module PoolManager {
  import opened Common
  import opened Arithmetic

  /** PROJECT_BUDGET, MIN_PER_PROJECT and MAX_PER_PROJECT. */
  datatype Config = Config(budget: nat, min: nat, max: nat)

  /** A cached pool: its identity, when it was last asked for, and the slice it was given. */
  datatype Entry = Entry(pool: nat, lastUsed: int, max: int)

  type Pools = map<string, Entry>

  const IDLE_MS := 300_000
  const PRESSURE_MS := 30_000

  // ------------------------------------------------------------ slices and totals

  function Min(x: int, y: int): int {
    if x < y then x else y
  }

  function Max(x: int, y: int): int {
    if x > y then x else y
  }

  function SliceFor(cfg: Config, activePools: nat, quotaMax: Option<int>): (slice: int)
    ensures slice >= cfg.min
    ensures quotaMax.Some? && cfg.min <= quotaMax.value ==> slice <= quotaMax.value
    ensures cfg.min <= cfg.max ==> slice <= cfg.max
  {
    var fairShare := cfg.budget / Max(1, activePools);
    var ceiling := if quotaMax.None? then cfg.max else Min(cfg.max, quotaMax.value);
    Max(cfg.min, Min(ceiling, fairShare))
  }

  /** The connections promised to all the pools of the map. */
  ghost function Total(pools: Pools): int
    decreases |pools|
  {
    if pools == map[] then 0
    else
      var k :| k in pools;
      pools[k].max + Total(pools - {k})
  }

  lemma {:induction false} TotalWithout(pools: Pools, k: string)
    requires k in pools
    ensures Total(pools) == pools[k].max + Total(pools - {k})
    decreases |pools|
  {
    var j :| j in pools && Total(pools) == pools[j].max + Total(pools - {j});
    if j != k {
      TotalWithout(pools - {j}, k);
      TotalWithout(pools - {k}, j);
      assert pools - {j} - {k} == pools - {k} - {j};
    }
  }

  lemma TotalPut(pools: Pools, k: string, e: Entry)
    ensures Total(pools[k := e]) == e.max + Total(pools - {k})
  {
    TotalWithout(pools[k := e], k);
    assert pools[k := e] - {k} == pools - {k};
  }

  lemma TotalTouch(pools: Pools, k: string, now: int)
    requires k in pools
    ensures Total(pools[k := pools[k].(lastUsed := now)]) == Total(pools)
  {
    TotalPut(pools, k, pools[k].(lastUsed := now));
    TotalWithout(pools, k);
  }

  predicate Sized(pools: Pools, min: nat) {
    forall k <- pools :: pools[k].max >= min
  }

  /** Dropping pools never raises the total. */
  lemma {:induction false} TotalShrinks(some: Pools, pools: Pools)
    requires Sized(pools, 0) && some.Keys <= pools.Keys && forall k <- some :: some[k] == pools[k]
    ensures 0 <= Total(some) <= Total(pools)
    decreases |pools|
  {
    if pools == map[] {
      assert some == map[];
    } else {
      var k :| k in pools && Total(pools) == pools[k].max + Total(pools - {k});
      if k in some { TotalWithout(some, k); }
      assert k !in some ==> some - {k} == some;
      TotalShrinks(some - {k}, pools - {k});
    }
  }

  /** `n` pools of at least `min` connections hold at least `n * min`. */
  lemma {:induction false} TotalAtLeast(pools: Pools, min: nat)
    requires Sized(pools, min)
    ensures min * |pools| <= Total(pools)
    decreases |pools|
  {
    if pools == map[] {
    } else {
      var k :| k in pools && Total(pools) == pools[k].max + Total(pools - {k});
      assert |pools - {k}| == |pools| - 1 by { assert pools.Keys - {k} == (pools - {k}).Keys; }
      TotalAtLeast(pools - {k}, min);
      MulDist(min, |pools| - 1, 1);
    }
  }

  // ----------------------------------------------------------------- the manager

  /** The entries a reap keeps. */
  function Kept(pools: Pools, cutoff: int): Pools {
    map k | k in pools && pools[k].lastUsed >= cutoff :: pools[k]
  }

  function PoolIds(pools: Pools): set<nat> {
    set k | k in pools :: pools[k].pool
  }

  /** A `get` that missed: its project, and whether its credentials have arrived. */
  datatype Waiting = Waiting(project: string, hasCredentials: bool)

  /**
   * The map, the pools constructed and not yet handed to `end()`, the requests
   * suspended at an await, and the next pool identity.
   */
  datatype State = State(pools: Pools, open: set<nat>, waiting: map<nat, Waiting>, next: nat)

  const INITIAL := State(map[], {}, map[], 0)

  datatype Event =
    | Get(request: nat, project: string, now: int)
    | Credentials(request: nat, found: bool)
    | Quota(request: nat, quotaMax: Option<int>, now: int)
    | Evict(project: string)
    | Reap(now: int)

  datatype Outcome = Opened(pool: nat, max: int) | Refused

  function Reaped(s: State, cutoff: int): State {
    var kept := Kept(s.pools, cutoff);
    s.(pools := kept, open := s.open - (PoolIds(s.pools) - PoolIds(kept)))
  }

  ghost predicate Fits(cfg: Config, pools: Pools, slice: int) {
    Total(pools) + slice <= cfg.budget
  }

  /** Reclaim idle pools first if the slice does not fit. */
  ghost function Reclaimed(cfg: Config, s: State, slice: int, now: int): State {
    if Fits(cfg, s.pools, slice) then s else Reaped(s, now - PRESSURE_MS)
  }

  function Placed(s: State, project: string, slice: int, now: int): State {
    s.(pools := s.pools[project := Entry(s.next, now, slice)], open := s.open + {s.next}, next := s.next + 1)
  }

  /** The piece of `get` after the last await: size, reclaim if needed, refuse or open. */
  ghost function Open(cfg: Config, s: State, project: string, quotaMax: Option<int>, now: int): (State, Outcome) {
    var slice := SliceFor(cfg, |s.pools| + 1, quotaMax);
    var t := Reclaimed(cfg, s, slice, now);
    if Fits(cfg, t.pools, slice) then (Placed(t, project, slice, now), Opened(t.next, slice)) else (t, Refused)
  }

  function Evicted(s: State, project: string): State {
    if project !in s.pools then s
    else s.(pools := s.pools - {project}, open := s.open - {s.pools[project].pool})
  }

  ghost function Step(cfg: Config, s: State, e: Event): State {
    match e
    case Get(request, project, now) =>
      if project in s.pools then s.(pools := s.pools[project := s.pools[project].(lastUsed := now)])
      else s.(waiting := s.waiting[request := Waiting(project, false)])
    case Credentials(request, found) =>
      if request !in s.waiting then s
      else if found then s.(waiting := s.waiting[request := s.waiting[request].(hasCredentials := true)])
      else s.(waiting := s.waiting - {request})
    case Quota(request, quotaMax, now) =>
      if request !in s.waiting || !s.waiting[request].hasCredentials then s
      else Open(cfg, s.(waiting := s.waiting - {request}), s.waiting[request].project, quotaMax, now).0
    case Evict(project) => Evicted(s, project)
    case Reap(now) => Reaped(s, now - IDLE_MS)
  }

  ghost function Run(cfg: Config, s: State, events: seq<Event>): State
    decreases |events|
  {
    if events == [] then s else Run(cfg, Step(cfg, s, events[0]), events[1..])
  }

  // ----------------------------------------------------------- as the class does it

  class Manager {
    const cfg: Config
    var pools: Pools
    ghost var open: set<nat>
    ghost var waiting: map<nat, Waiting>
    var next: nat

    ghost function Current(): State
      reads this
    {
      State(pools, open, waiting, next)
    }

    constructor (cfg: Config)
      ensures this.cfg == cfg && Current() == INITIAL
    {
      this.cfg := cfg;
      pools, open, waiting, next := map[], {}, map[], 0;
    }

    method Allocated() returns (total: int)
      ensures total == Total(pools)
    {
      total := 0;
      var rest := pools;
      while rest != map[]
        invariant total + Total(rest) == Total(pools)
        decreases |rest|
      {
        var k :| k in rest;
        TotalWithout(rest, k);
        assert (rest - {k}).Keys < rest.Keys;
        total := total + rest[k].max;
        rest := rest - {k};
      }
    }

    /** The lookup of `get`; a miss suspends the request. */
    method Lookup(ghost request: nat, project: string, now: int) returns (hit: Option<nat>)
      modifies this
      ensures Current() == Step(cfg, old(Current()), Get(request, project, now))
      ensures hit == if project in old(pools) then Some(old(pools)[project].pool) else None
    {
      if project in pools {
        hit := Some(pools[project].pool);
        pools := pools[project := pools[project].(lastUsed := now)];
      } else {
        hit := None;
        waiting := waiting[request := Waiting(project, false)];
      }
    }

    method ReapBefore(cutoff: int)
      modifies this
      ensures Current() == Reaped(old(Current()), cutoff)
    {
      var kept := pools;
      var left := pools;
      while left != map[]
        invariant left.Keys <= pools.Keys && kept.Keys <= pools.Keys
        invariant forall k <- kept :: kept[k] == pools[k]
        invariant forall k <- pools :: k in kept <==> k in left || pools[k].lastUsed >= cutoff
        decreases |left|
      {
        var id :| id in left;
        if pools[id].lastUsed < cutoff {
          kept := kept - {id};
        }
        assert (left - {id}).Keys < left.Keys;
        left := left - {id};
      }
      assert kept == Kept(pools, cutoff);
      open := open - (PoolIds(pools) - PoolIds(kept));
      pools := kept;
    }

    /** What `get` does once the quota has arrived. */
    method OpenPool(project: string, quotaMax: Option<int>, now: int) returns (outcome: Outcome)
      modifies this
      ensures (Current(), outcome) == Open(cfg, old(Current()), project, quotaMax, now)
    {
      var slice := SliceFor(cfg, |pools| + 1, quotaMax);
      var promised := Allocated();
      if promised + slice > cfg.budget {
        ReapBefore(now - PRESSURE_MS);
      }
      promised := Allocated();
      if promised + slice > cfg.budget {
        return Refused;
      }
      outcome := Opened(next, slice);
      pools := pools[project := Entry(next, now, slice)];
      open, next := open + {next}, next + 1;
    }

    method EvictProject(project: string)
      modifies this
      ensures Current() == Evicted(old(Current()), project)
    {
      if project !in pools {
        return;
      }
      open := open - {pools[project].pool};
      pools := pools - {project};
    }
  }

  // ------------------------------------------------------------------ the budget

  ghost predicate Safe(cfg: Config, s: State) {
    Total(s.pools) <= cfg.budget && Sized(s.pools, cfg.min)
  }

  lemma ReapedSafe(cfg: Config, s: State, cutoff: int)
    requires Safe(cfg, s)
    ensures Safe(cfg, Reaped(s, cutoff))
  {
    TotalShrinks(Kept(s.pools, cutoff), s.pools);
  }

  lemma PlacedSafe(cfg: Config, s: State, project: string, slice: int, now: int)
    requires Safe(cfg, s) && Fits(cfg, s.pools, slice) && slice >= cfg.min
    ensures Safe(cfg, Placed(s, project, slice, now))
  {
    TotalPut(s.pools, project, Entry(s.next, now, slice));
    TotalShrinks(s.pools - {project}, s.pools);
  }

  lemma OpenSafe(cfg: Config, s: State, project: string, quotaMax: Option<int>, now: int)
    requires Safe(cfg, s)
    ensures Safe(cfg, Open(cfg, s, project, quotaMax, now).0)
  {
    hide Safe, Fits, Placed, Reaped, SliceFor;
    var slice := SliceFor(cfg, |s.pools| + 1, quotaMax);
    ReapedSafe(cfg, s, now - PRESSURE_MS);
    var t := Reclaimed(cfg, s, slice, now);
    if Fits(cfg, t.pools, slice) {
      PlacedSafe(cfg, t, project, slice, now);
    }
  }

  lemma StepSafe(cfg: Config, s: State, e: Event)
    requires Safe(cfg, s)
    ensures Safe(cfg, Step(cfg, s, e))
  {
    hide Open, Reaped;
    match e {
      case Get(request, project, now) =>
        if project in s.pools { TotalTouch(s.pools, project, now); }
      case Quota(request, quotaMax, now) =>
        if request in s.waiting {
          OpenSafe(cfg, s.(waiting := s.waiting - {request}), s.waiting[request].project, quotaMax, now);
        }
      case Evict(project) => TotalShrinks(s.pools - {project}, s.pools);
      case Reap(now) => ReapedSafe(cfg, s, now - IDLE_MS);
      case Credentials(request, found) =>
    }
  }

  lemma {:induction false} RunSafe(cfg: Config, s: State, events: seq<Event>)
    requires Safe(cfg, s)
    ensures Safe(cfg, Run(cfg, s, events))
    decreases |events|
  {
    if events == [] {
    } else {
      StepSafe(cfg, s, events[0]);
      RunSafe(cfg, Step(cfg, s, events[0]), events[1..]);
    }
  }

  /**
   * The budget holds over every interleaving: the pools never promise more than
   * the budget, each has at least the minimum, and so there are at most
   * budget/min of them.
   */
  lemma BudgetKept(cfg: Config, events: seq<Event>)
    ensures var s := Run(cfg, INITIAL, events);
      && Total(s.pools) <= cfg.budget
      && (forall k <- s.pools :: s.pools[k].max >= cfg.min)
      && cfg.min * |s.pools| <= cfg.budget
  {
    RunSafe(cfg, INITIAL, events);
    TotalAtLeast(Run(cfg, INITIAL, events).pools, cfg.min);
  }

  // ------------------------------------------------------------- no pool is lost

  /** Pool identities are not reused. */
  ghost predicate Numbered(s: State) {
    && (forall k <- s.pools :: s.pools[k].pool < s.next)
    && (forall j, k :: j in s.pools && k in s.pools && j != k ==> s.pools[j].pool != s.pools[k].pool)
    && (forall p <- s.open :: p < s.next)
  }

  /** Every open pool can be found through the map, and only those. */
  ghost predicate Tracked(s: State) {
    s.open == PoolIds(s.pools)
  }

  /** At most one suspended request per project, and none for a project already in the map. */
  ghost predicate Apart(s: State) {
    && (forall r, q :: r in s.waiting && q in s.waiting && r != q ==> s.waiting[r].project != s.waiting[q].project)
    && (forall r <- s.waiting :: s.waiting[r].project !in s.pools)
  }

  /** A miss does not start while another miss on the same project is suspended. */
  ghost predicate NoOverlap(s: State, e: Event) {
    e.Get? && e.project !in s.pools ==>
      e.request !in s.waiting && forall r <- s.waiting :: s.waiting[r].project != e.project
  }

  ghost predicate NeverOverlaps(cfg: Config, s: State, events: seq<Event>)
    decreases |events|
  {
    events == [] || (NoOverlap(s, events[0]) && NeverOverlaps(cfg, Step(cfg, s, events[0]), events[1..]))
  }

  lemma IdsWithout(pools: Pools, some: Pools)
    requires some.Keys <= pools.Keys && forall k <- some :: some[k] == pools[k]
    requires forall j, k :: j in pools && k in pools && j != k ==> pools[j].pool != pools[k].pool
    ensures PoolIds(some) == PoolIds(pools) - (PoolIds(pools) - PoolIds(some))
    ensures forall k <- pools :: k !in some ==> pools[k].pool !in PoolIds(some)
  {
  }

  lemma ReapedTracked(s: State, cutoff: int)
    requires Numbered(s)
    ensures Numbered(Reaped(s, cutoff))
    ensures Tracked(s) ==> Tracked(Reaped(s, cutoff))
  {
    IdsWithout(s.pools, Kept(s.pools, cutoff));
  }

  lemma EvictedTracked(s: State, project: string)
    requires Numbered(s)
    ensures Numbered(Evicted(s, project))
    ensures Tracked(s) ==> Tracked(Evicted(s, project))
  {
    if project in s.pools {
      IdsWithout(s.pools, s.pools - {project});
      var ids := PoolIds(s.pools - {project});
      forall p | p in PoolIds(s.pools) && p != s.pools[project].pool ensures p in ids {
        var k :| k in s.pools && s.pools[k].pool == p;
        assert k in s.pools - {project};
      }
    }
  }

  lemma PlacedTracked(s: State, project: string, slice: int, now: int)
    requires Numbered(s)
    ensures Numbered(Placed(s, project, slice, now))
    ensures Tracked(s) ==> (Tracked(Placed(s, project, slice, now)) <==> project !in s.pools)
  {
    PutTracked(s.pools, project, s.next, Placed(s, project, slice, now).pools);
  }

  /**
   * Opening keeps every open pool in the map if and only if the project had no
   * pool there: otherwise the entry is overwritten and its pool is lost.
   */
  lemma OpenTracked(cfg: Config, s: State, project: string, quotaMax: Option<int>, now: int)
    requires Numbered(s) && Tracked(s)
    ensures var (s', outcome) := Open(cfg, s, project, quotaMax, now);
      && Numbered(s')
      && (outcome.Refused? ==> Tracked(s'))
      && (outcome.Opened? ==> (Tracked(s') <==> project !in Reclaimed(cfg, s, outcome.max, now).pools))
  {
    hide Fits, SliceFor, Placed, Reaped, Tracked, Numbered;
    var slice := SliceFor(cfg, |s.pools| + 1, quotaMax);
    ReapedTracked(s, now - PRESSURE_MS);
    PlacedTracked(Reclaimed(cfg, s, slice, now), project, slice, now);
  }

  lemma PutTracked(pools: Pools, project: string, id: nat, after: Pools)
    requires project in after && after[project].pool == id && id !in PoolIds(pools)
    requires after.Keys == pools.Keys + {project} && forall k <- pools :: k != project ==> after[k] == pools[k]
    requires forall j, k :: j in pools && k in pools && j != k ==> pools[j].pool != pools[k].pool
    ensures PoolIds(after) == PoolIds(pools) + {id} <==> project !in pools
    ensures PoolIds(after) <= PoolIds(pools) + {id}
  {
    if project in pools {
      assert pools[project].pool in PoolIds(pools);
      assert pools[project].pool !in PoolIds(after);
    } else {
      forall p | p in PoolIds(pools) ensures p in PoolIds(after) {
        var k :| k in pools && pools[k].pool == p;
        assert k in after;
      }
      assert project in after;
    }
  }

  lemma TouchedTracked(s: State, project: string, now: int)
    requires Numbered(s) && Tracked(s) && project in s.pools
    ensures var s' := s.(pools := s.pools[project := s.pools[project].(lastUsed := now)]);
      Numbered(s') && Tracked(s')
  {
    var pools := s.pools[project := s.pools[project].(lastUsed := now)];
    assert forall k <- s.pools :: k in pools && pools[k].pool == s.pools[k].pool;
    forall p | p in PoolIds(s.pools) ensures p in PoolIds(pools) {
      var k :| k in s.pools && s.pools[k].pool == p;
      assert k in pools;
    }
  }

  lemma OpenedPools(cfg: Config, s: State, project: string, quotaMax: Option<int>, now: int)
    ensures Open(cfg, s, project, quotaMax, now).0.pools.Keys <= s.pools.Keys + {project}
    ensures Open(cfg, s, project, quotaMax, now).0.waiting == s.waiting
    ensures Open(cfg, s, project, quotaMax, now).1.Opened? ==>
      Reclaimed(cfg, s, Open(cfg, s, project, quotaMax, now).1.max, now).pools.Keys <= s.pools.Keys
  {
    hide Fits, SliceFor;
  }

  lemma QuotaTracked(cfg: Config, s: State, request: nat, quotaMax: Option<int>, now: int)
    requires Numbered(s) && Tracked(s) && Apart(s)
    requires request in s.waiting
    ensures var s' := Open(cfg, s.(waiting := s.waiting - {request}), s.waiting[request].project, quotaMax, now).0;
      Numbered(s') && Tracked(s') && Apart(s')
  {
    hide Open, Reclaimed, PoolIds;
    var (project, before) := (s.waiting[request].project, s.(waiting := s.waiting - {request}));
    OpenTracked(cfg, before, project, quotaMax, now);
    OpenedPools(cfg, before, project, quotaMax, now);
  }

  lemma StepApart(cfg: Config, s: State, e: Event)
    requires Apart(s) && NoOverlap(s, e)
    ensures Apart(Step(cfg, s, e))
  {
    hide Open, Reclaimed, PoolIds;
    if e.Quota? && e.request in s.waiting {
      OpenedPools(cfg, s.(waiting := s.waiting - {e.request}), s.waiting[e.request].project, e.quotaMax, e.now);
    }
  }

  lemma StepTracked(cfg: Config, s: State, e: Event)
    requires Numbered(s) && Tracked(s) && Apart(s) && NoOverlap(s, e)
    ensures var s' := Step(cfg, s, e); Numbered(s') && Tracked(s') && Apart(s')
  {
    hide Open, PoolIds, Apart, NoOverlap, Reaped, Evicted;
    StepApart(cfg, s, e);
    match e {
      case Get(request, project, now) =>
        if project in s.pools { TouchedTracked(s, project, now); }
      case Quota(request, quotaMax, now) =>
        if request in s.waiting { QuotaTracked(cfg, s, request, quotaMax, now); }
      case Evict(project) => EvictedTracked(s, project);
      case Reap(now) => ReapedTracked(s, now - IDLE_MS);
      case Credentials(request, found) =>
    }
  }

  lemma {:induction false} RunTracked(cfg: Config, s: State, events: seq<Event>)
    requires Numbered(s) && Tracked(s) && Apart(s) && NeverOverlaps(cfg, s, events)
    ensures Tracked(Run(cfg, s, events))
    decreases |events|
  {
    if events == [] {
    } else {
      StepTracked(cfg, s, events[0]);
      RunTracked(cfg, Step(cfg, s, events[0]), events[1..]);
    }
  }

  /** When no two misses on one project overlap, no open pool is ever out of the map's reach. */
  lemma NoPoolLost(cfg: Config, events: seq<Event>)
    requires NeverOverlaps(cfg, INITIAL, events)
    ensures var s := Run(cfg, INITIAL, events); s.open == PoolIds(s.pools)
  {
    RunTracked(cfg, INITIAL, events);
  }

  ghost predicate Lost(s: State, pool: nat) {
    pool in s.open && pool < s.next && forall k <- s.pools :: s.pools[k].pool != pool
  }

  lemma OpenKeepsLost(cfg: Config, s: State, project: string, quotaMax: Option<int>, now: int, pool: nat)
    requires Lost(s, pool)
    ensures Lost(Open(cfg, s, project, quotaMax, now).0, pool)
  {
    hide SliceFor, Fits;
  }

  lemma {:induction false} LostForever(cfg: Config, s: State, pool: nat, events: seq<Event>)
    requires Lost(s, pool)
    ensures Lost(Run(cfg, s, events), pool)
    decreases |events|
  {
    if events == [] {
    } else {
      hide Open;
      var e := events[0];
      if e.Quota? && e.request in s.waiting {
        OpenKeepsLost(cfg, s.(waiting := s.waiting - {e.request}), s.waiting[e.request].project, e.quotaMax, e.now, pool);
      }
      LostForever(cfg, Step(cfg, s, e), pool, events[1..]);
    }
  }

  // ------------------------------------------------- exactly when a pool is lost

  /** The state in which a request that has its quota opens, idle pools reclaimed if need be. */
  ghost function BeforePlacing(cfg: Config, s: State, request: nat, quotaMax: Option<int>, now: int): State {
    var before := s.(waiting := s.waiting - {request});
    Reclaimed(cfg, before, SliceFor(cfg, |s.pools| + 1, quotaMax), now)
  }

  /** The step opens a pool for a project that still has one in the map. */
  ghost predicate Overwrites(cfg: Config, s: State, e: Event) {
    && e.Quota? && e.request in s.waiting && s.waiting[e.request].hasCredentials
    && var t := BeforePlacing(cfg, s, e.request, e.quotaMax, e.now);
    && Fits(cfg, t.pools, SliceFor(cfg, |s.pools| + 1, e.quotaMax))
    && s.waiting[e.request].project in t.pools
  }

  ghost predicate NeverOverwrites(cfg: Config, s: State, events: seq<Event>)
    decreases |events|
  {
    events == [] || (!Overwrites(cfg, s, events[0]) && NeverOverwrites(cfg, Step(cfg, s, events[0]), events[1..]))
  }

  lemma SameTracking(s: State, t: State)
    requires t == s.(waiting := t.waiting)
    ensures Numbered(s) ==> Numbered(t)
    ensures Tracked(s) ==> Tracked(t)
  {
  }

  lemma OpenOutcome(cfg: Config, s: State, project: string, quotaMax: Option<int>, now: int)
    ensures var slice := SliceFor(cfg, |s.pools| + 1, quotaMax);
      var (t, outcome) := (Reclaimed(cfg, s, slice, now), Open(cfg, s, project, quotaMax, now).1);
      if Fits(cfg, t.pools, slice) then outcome.Opened? && outcome.max == slice else outcome.Refused?
  {
    hide Fits, SliceFor, Placed, Reaped, Reclaimed;
  }

  lemma QuotaTrackedIff(cfg: Config, s: State, e: Event)
    requires Numbered(s) && Tracked(s) && e.Quota?
    ensures var s' := Step(cfg, s, e); Numbered(s') && (Tracked(s') <==> !Overwrites(cfg, s, e))
  {
    hide Fits, SliceFor, PoolIds, Placed, Reaped, Open, Reclaimed, Tracked, Numbered;
    if e.request in s.waiting && s.waiting[e.request].hasCredentials {
      var before := s.(waiting := s.waiting - {e.request});
      SameTracking(s, before);
      OpenOutcome(cfg, before, s.waiting[e.request].project, e.quotaMax, e.now);
      OpenTracked(cfg, before, s.waiting[e.request].project, e.quotaMax, e.now);
    }
  }

  lemma StepTrackedIff(cfg: Config, s: State, e: Event)
    requires Numbered(s) && Tracked(s)
    ensures var s' := Step(cfg, s, e); Numbered(s') && (Tracked(s') <==> !Overwrites(cfg, s, e))
  {
    hide Open, PoolIds, Reaped, Evicted, BeforePlacing, Fits;
    match e {
      case Get(request, project, now) =>
        if project in s.pools { TouchedTracked(s, project, now); }
      case Quota(request, quotaMax, now) => QuotaTrackedIff(cfg, s, e);
      case Evict(project) => EvictedTracked(s, project);
      case Reap(now) => ReapedTracked(s, now - IDLE_MS);
      case Credentials(request, found) =>
    }
  }

  /** The overwritten pool stays open, out of the map's reach, for every later run. */
  lemma OverwriteLosesPool(cfg: Config, s: State, e: Event, events: seq<Event>)
    requires Numbered(s) && Overwrites(cfg, s, e)
    requires s.waiting[e.request].project in s.pools && s.pools[s.waiting[e.request].project].pool in s.open
    ensures Lost(Run(cfg, Step(cfg, s, e), events), s.pools[s.waiting[e.request].project].pool)
  {
    var project := s.waiting[e.request].project;
    OverwrittenLost(cfg, s, e);
    LostForever(cfg, Step(cfg, s, e), s.pools[project].pool, events);
  }

  lemma OverwrittenLost(cfg: Config, s: State, e: Event)
    requires Numbered(s) && Overwrites(cfg, s, e)
    requires s.waiting[e.request].project in s.pools && s.pools[s.waiting[e.request].project].pool in s.open
    ensures Lost(Step(cfg, s, e), s.pools[s.waiting[e.request].project].pool)
  {
    hide Fits, SliceFor;
    var (project, t) := (s.waiting[e.request].project, BeforePlacing(cfg, s, e.request, e.quotaMax, e.now));
    assert t.pools[project] == s.pools[project] && s.pools[project].pool in PoolIds(t.pools);
  }

  lemma OverwrittenKnown(cfg: Config, s: State, e: Event)
    requires Tracked(s) && Overwrites(cfg, s, e)
    ensures s.waiting[e.request].project in s.pools && s.pools[s.waiting[e.request].project].pool in s.open
  {
    hide Fits, SliceFor;
  }

  /** From any state in order, a run keeps every open pool in the map if and only if no step of it overwrites one. */
  lemma {:induction false} RunTrackedIff(cfg: Config, s: State, events: seq<Event>)
    requires Numbered(s) && Tracked(s)
    ensures Tracked(Run(cfg, s, events)) <==> NeverOverwrites(cfg, s, events)
    decreases |events|
  {
    if events == [] {
    } else {
      hide Tracked, Numbered, Overwrites, Step;
      StepTrackedIff(cfg, s, events[0]);
      if Overwrites(cfg, s, events[0]) {
        OverwrittenKnown(cfg, s, events[0]);
        LostUntracked(cfg, s, events);
      } else {
        RunTrackedIff(cfg, Step(cfg, s, events[0]), events[1..]);
      }
    }
  }

  lemma LostUntracked(cfg: Config, s: State, events: seq<Event>)
    requires events != [] && Numbered(s) && Tracked(s) && Overwrites(cfg, s, events[0])
    ensures !Tracked(Run(cfg, s, events))
  {
    hide Overwrites, Step, Numbered;
    OverwrittenKnown(cfg, s, events[0]);
    OverwriteLosesPool(cfg, s, events[0], events[1..]);
  }

  /**
   * The exact condition over whole runs: the open pools are those of the map if
   * and only if no request opened a pool for a project that still had one.
   */
  lemma NoPoolLostIff(cfg: Config, events: seq<Event>)
    ensures var s := Run(cfg, INITIAL, events);
      s.open == PoolIds(s.pools) <==> NeverOverwrites(cfg, INITIAL, events)
  {
    RunTrackedIff(cfg, INITIAL, events);
  }

  /** Two misses on one project, both suspended before either opens. */
  function Misses(project: string, now: int): seq<Event> {
    [Get(0, project, now), Get(1, project, now), Credentials(0, true), Credentials(1, true)]
  }

  /** Then both go on. */
  function TwoMisses(project: string, now: int): seq<Event> {
    Misses(project, now) + [Quota(0, None, now), Quota(1, None, now)]
  }

  function Suspended(project: string): State {
    INITIAL.(waiting := map[0 := Waiting(project, true), 1 := Waiting(project, true)])
  }

  lemma BothSuspend(cfg: Config, project: string, now: int)
    ensures Run(cfg, INITIAL, Misses(project, now)) == Suspended(project)
  {
    hide Open;
    var (one, events) := (Waiting(project, false), Misses(project, now));
    var two := Waiting(project, true);
    assert Run(cfg, Suspended(project), events[4..]) == Suspended(project);
    assert Step(cfg, INITIAL.(waiting := map[0 := two, 1 := one]), events[3]) == Suspended(project);
    assert Step(cfg, INITIAL.(waiting := map[0 := one, 1 := one]), events[2])
      == INITIAL.(waiting := map[0 := two, 1 := one]);
    RunCons(cfg, INITIAL.(waiting := map[0 := two, 1 := one]), events[3..]);
    RunCons(cfg, INITIAL.(waiting := map[0 := one, 1 := one]), events[2..]);
    RunCons(cfg, INITIAL.(waiting := map[0 := one]), events[1..]);
    RunCons(cfg, INITIAL, events);
  }

  lemma RunCons(cfg: Config, s: State, events: seq<Event>)
    requires events != []
    ensures Run(cfg, s, events) == Run(cfg, Step(cfg, s, events[0]), events[1..])
  {
  }

  lemma {:induction false} RunConcat(cfg: Config, s: State, a: seq<Event>, b: seq<Event>)
    ensures Run(cfg, s, a + b) == Run(cfg, Run(cfg, s, a), b)
    decreases |a|
  {
    if a == [] {
      assert a + b == b;
    } else {
      hide Step;
      assert (a + b)[1..] == a[1..] + b;
      RunConcat(cfg, Step(cfg, s, a[0]), a[1..], b);
    }
  }

  /** A suspended request whose slice fits places its pool. */
  lemma QuotaPlaces(cfg: Config, s: State, request: nat, now: int)
    requires request in s.waiting && s.waiting[request].hasCredentials
    requires Fits(cfg, s.pools, SliceFor(cfg, |s.pools| + 1, None))
    ensures Step(cfg, s, Quota(request, None, now))
         == Placed(
              s.(waiting := s.waiting - {request}), s.waiting[request].project,
              SliceFor(cfg, |s.pools| + 1, None), now)
  {
    hide SliceFor, Fits;
  }

  /** The first request has opened, the second is still suspended. */
  function OneOpen(project: string, now: int, max: int): State {
    State(map[project := Entry(0, now, max)], {0}, map[1 := Waiting(project, true)], 1)
  }

  lemma FirstOpens(cfg: Config, project: string, now: int)
    requires SliceFor(cfg, 1, None) <= cfg.budget
    ensures Step(cfg, Suspended(project), Quota(0, None, now)) == OneOpen(project, now, SliceFor(cfg, 1, None))
  {
    hide SliceFor, Step;
    QuotaPlaces(cfg, Suspended(project), 0, now);
    assert Suspended(project).waiting - {0} == map[1 := Waiting(project, true)];
  }

  lemma SecondOpens(cfg: Config, project: string, now: int, max: int)
    requires max + SliceFor(cfg, 2, None) <= cfg.budget
    ensures var s := Step(cfg, OneOpen(project, now, max), Quota(1, None, now));
      s.open == {0, 1} && PoolIds(s.pools) == {1}
  {
    hide SliceFor, Step;
    var s := OneOpen(project, now, max);
    OnlyPool(project, Entry(0, now, max));
    assert |s.pools| == 1;
    QuotaPlaces(cfg, s, 1, now);
    var pools := Step(cfg, s, Quota(1, None, now)).pools;
    assert pools.Keys == {project} && pools[project].pool == 1;
  }

  /** Wherever two slices fit the budget, that run loses the first pool: two are open and the map knows one. */
  lemma OverlapLosesPool(cfg: Config, project: string, now: int)
    requires SliceFor(cfg, 1, None) + SliceFor(cfg, 2, None) <= cfg.budget
    ensures var s := Run(cfg, INITIAL, TwoMisses(project, now)); s.open == {0, 1} && PoolIds(s.pools) == {1}
  {
    assert SliceFor(cfg, 2, None) >= cfg.min;
    hide SliceFor, Step, Run, Suspended, OneOpen, Misses, PoolIds;
    BothSuspend(cfg, project, now);
    RunConcat(cfg, INITIAL, Misses(project, now), [Quota(0, None, now), Quota(1, None, now)]);
    RunTwo(cfg, Suspended(project), Quota(0, None, now), Quota(1, None, now));
    FirstOpens(cfg, project, now);
    SecondOpens(cfg, project, now, SliceFor(cfg, 1, None));
  }

  lemma OnlyPool(project: string, entry: Entry)
    ensures Total(map[project := entry]) == entry.max
  {
    var none: Pools := map[];
    TotalPut(none, project, entry);
    assert none - {project} == none;
  }

  lemma RunTwo(cfg: Config, s: State, a: Event, b: Event)
    ensures Run(cfg, s, [a, b]) == Step(cfg, Step(cfg, s, a), b)
  {
    hide Step;
    RunCons(cfg, s, [a, b]);
    RunCons(cfg, Step(cfg, s, a), [b]);
    assert [a, b][1..] == [b] && [b][1..] == [];
  }

  // --------------------------------------------------- in use, idle, under pressure

  /** The timer closes exactly the pools that nobody asked for in the last five minutes. */
  lemma ReapExactly(cfg: Config, s: State, now: int)
    ensures var after := Step(cfg, s, Reap(now));
      && (forall p :: p in after.pools <==> p in s.pools && s.pools[p].lastUsed >= now - 300_000)
      && (forall p <- after.pools :: after.pools[p] == s.pools[p])
      && (forall id <- s.open - after.open :: exists p :: p in s.pools && p !in after.pools && s.pools[p].pool == id)
  {
  }

  /** A pool asked for at `t` outlives exactly the reaps of the five minutes that follow. */
  lemma HitOutlivesReap(cfg: Config, s: State, request: nat, p: string, t: int, now: int)
    requires p in s.pools
    ensures p in Step(cfg, Step(cfg, s, Get(request, p, t)), Reap(now)).pools <==> now <= t + 300_000
  {
  }

  /** So does one opened at `t`. */
  lemma OpenOutlivesReap(cfg: Config, s: State, p: string, quotaMax: Option<int>, t: int, now: int)
    requires Open(cfg, s, p, quotaMax, t).1.Opened?
    ensures p in Step(cfg, Open(cfg, s, p, quotaMax, t).0, Reap(now)).pools <==> now <= t + 300_000
  {
    hide SliceFor, Fits;
  }

  /** The project's pool was asked for at `t` or later. */
  predicate UsedSince(s: State, p: string, t: int) {
    p in s.pools && s.pools[p].lastUsed >= t
  }

  /** An event that cannot close a pool used at `t`: no eviction, and no reclaiming that comes too late. */
  predicate Spares(e: Event, p: string, t: int) {
    match e
    case Get(_, q, now) => q == p ==> now >= t
    case Credentials(_, _) => true
    case Quota(_, _, now) => t <= now <= t + 30_000
    case Evict(q) => q != p
    case Reap(now) => now <= t + 300_000
  }

  lemma StepKeepsUsed(cfg: Config, s: State, e: Event, p: string, t: int)
    requires UsedSince(s, p, t) && Spares(e, p, t)
    ensures UsedSince(Step(cfg, s, e), p, t)
  {
    hide SliceFor, Fits;
  }

  lemma {:induction false} RunKeepsUsed(cfg: Config, s: State, events: seq<Event>, p: string, t: int)
    requires UsedSince(s, p, t) && forall e <- events :: Spares(e, p, t)
    ensures UsedSince(Run(cfg, s, events), p, t)
    decreases |events|
  {
    if events == [] {
    } else {
      hide Step;
      StepKeepsUsed(cfg, s, events[0], p, t);
      RunKeepsUsed(cfg, Step(cfg, s, events[0]), events[1..], p, t);
    }
  }

  /**
   * Using a pool keeps it: after a hit at `t`, whatever else is asked for,
   * opened, evicted or reaped, the project is in the map as long as it is not
   * evicted itself, the timer comes within five minutes and opens within thirty
   * seconds of the hit.
   */
  lemma UseKeepsPool(cfg: Config, s: State, request: nat, p: string, t: int, events: seq<Event>)
    requires p in s.pools && forall e <- events :: Spares(e, p, t)
    ensures p in Run(cfg, Step(cfg, s, Get(request, p, t)), events).pools
  {
    RunKeepsUsed(cfg, Step(cfg, s, Get(request, p, t)), events, p, t);
  }

  /** The pools asked for in the last thirty seconds. */
  function Recent(pools: Pools, now: int): Pools {
    map p | p in pools && pools[p].lastUsed >= now - 30_000 :: pools[p]
  }

  /**
   * Exactly when and how a request opens: beside all pools if the slice fits,
   * else beside the recent ones if it fits there, else not at all; pools are
   * closed only when the slice does not fit beside them.
   */
  lemma OpenExactly(cfg: Config, s: State, project: string, quotaMax: Option<int>, now: int)
    ensures var slice := SliceFor(cfg, |s.pools| + 1, quotaMax); var recent := Recent(s.pools, now);
      var (s', outcome) := Open(cfg, s, project, quotaMax, now); var entry := Entry(s.next, now, slice);
      if Total(s.pools) + slice <= cfg.budget then
        s'.pools == s.pools[project := entry] && outcome == Opened(s.next, slice)
      else if Total(recent) + slice <= cfg.budget then
        s'.pools == recent[project := entry] && outcome == Opened(s.next, slice)
      else s'.pools == recent && outcome == Refused
  {
    hide SliceFor, Total;
    assert Kept(s.pools, now - PRESSURE_MS) == Recent(s.pools, now);
  }

  /** An eviction removes and closes the project's pool and no other; a request without credentials never opens. */
  lemma OtherStepsExactly(cfg: Config, s: State, project: string, request: nat, quotaMax: Option<int>, now: int)
    ensures var after := Step(cfg, s, Evict(project));
      && after.pools == s.pools - {project}
      && after.open == s.open - (if project in s.pools then {s.pools[project].pool} else {})
    ensures request in s.waiting && !s.waiting[request].hasCredentials ==>
      Step(cfg, s, Quota(request, quotaMax, now)) == s
    ensures var failed := Step(cfg, s, Credentials(request, false));
      Step(cfg, failed, Quota(request, quotaMax, now)) == failed
  {
    hide Open;
  }

  /**
   * The slice is the largest number of connections within the maximum, the
   * quota and an equal share of the budget, but never less than the minimum.
   */
  lemma SliceExactly(cfg: Config, active: nat, quotaMax: Option<int>, k: int)
    ensures k <= SliceFor(cfg, active, quotaMax) <==>
      || k <= cfg.min
      || (k <= cfg.max && (quotaMax.Some? ==> k <= quotaMax.value)
          && k * (if active == 0 then 1 else active) <= cfg.budget)
  {
    DivAtLeast(cfg.budget, Max(1, active), k);
  }
}
