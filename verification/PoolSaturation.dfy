/**
 * How full the allocator of services/api/src/db/pool-manager.ts gets: the exact
 * outcome of every open in a row, when no project has a quota of its own and no
 * pool has been idle.
 */
module PoolSaturation {
  import opened Common
  import opened Arithmetic
  import opened PoolManager

  ghost predicate Sane(cfg: Config) {
    cfg.budget >= cfg.max >= cfg.min > 0
  }

  /** Full-size pools the budget holds. */
  function Full(cfg: Config): nat
    requires cfg.max > 0
  {
    cfg.budget / cfg.max
  }

  /** One pool of one connection less than the maximum still fits exactly. */
  predicate OneMore(cfg: Config)
    requires cfg.max > 0
  {
    cfg.budget % cfg.max == cfg.max - 1 && cfg.min <= cfg.max - 1
  }

  /** The outcome of the open after `n` others: the slice it gets, or a refusal. */
  function Expected(cfg: Config, n: nat): Option<int>
    requires cfg.max > 0
  {
    if n < Full(cfg) then Some(cfg.max)
    else if n == Full(cfg) && OneMore(cfg) then Some(cfg.max - 1)
    else None
  }

  // ------------------------------------------------------------------- the slices

  lemma BudgetSplit(cfg: Config)
    requires Sane(cfg)
    ensures cfg.budget == cfg.max * Full(cfg) + cfg.budget % cfg.max && Full(cfg) >= 1
  {
    DivMod(cfg.budget, cfg.max);
    DivAtLeast(cfg.budget, cfg.max, 1);
  }

  /** While full-size pools fit, the fair share is at least the maximum. */
  lemma FullSlice(cfg: Config, n: nat)
    requires Sane(cfg) && n < Full(cfg)
    ensures SliceFor(cfg, n + 1, None) == cfg.max
    ensures cfg.max * n + cfg.max <= cfg.budget
  {
    BudgetSplit(cfg);
    MulOrder(cfg.max, n + 1, Full(cfg));
    MulDist(cfg.max, n, 1);
    DivAtLeast(cfg.budget, n + 1, cfg.max);
  }

  lemma ShareBelow(b: nat, k: nat, m: nat, r: nat)
    requires b == m * k + r && r < m
    ensures b / (k + 1) < m
  {
    DivAtLeast(b, k + 1, m);
    MulDist(m, k, 1);
  }

  lemma ShareExact(b: nat, k: nat, m: nat, r: nat)
    requires b == m * k + r && r == m - 1
    ensures b / (k + 1) == r
  {
    ShareBelow(b, k, m, r);
    DivAtLeast(b, k + 1, r);
    MulDist(r, k, 1);
    MulDist(k, m, -1);
  }

  lemma ShareAbove(b: nat, k: nat, m: nat, r: nat)
    requires b == m * k + r && r + 2 <= m && k >= 1
    ensures b / (k + 1) > r
  {
    DivAtLeast(b, k + 1, r + 1);
    MulDist(k + 1, r, 1);
    MulDist(r, k, 1);
    MulOrder(k, r + 2, m);
    MulDist(k, r, 2);
  }

  /** The next fair share is below the maximum; it fits only as `OneMore`. */
  lemma NextSlice(cfg: Config)
    requires Sane(cfg)
    ensures var slice := SliceFor(cfg, Full(cfg) + 1, None); var spare := cfg.budget % cfg.max;
      && (OneMore(cfg) ==> slice == spare == cfg.max - 1)
      && (!OneMore(cfg) ==> slice > spare)
  {
    BudgetSplit(cfg);
    var (k, m, r) := (Full(cfg), cfg.max, cfg.budget % cfg.max);
    ShareBelow(cfg.budget, k, m, r);
    if r == m - 1 {
      ShareExact(cfg.budget, k, m, r);
    } else {
      ShareAbove(cfg.budget, k, m, r);
    }
  }

  // --------------------------------------------------------------- opens in a row

  /** No pool would be reclaimed under pressure. */
  ghost predicate Busy(pools: Pools, now: int) {
    forall k <- pools :: pools[k].lastUsed >= now - PRESSURE_MS
  }

  lemma BusyStays(cfg: Config, s: State, project: string, now: int)
    requires Busy(s.pools, now)
    ensures Reclaimed(cfg, s, SliceFor(cfg, |s.pools| + 1, None), now).pools == s.pools
    ensures Busy(Open(cfg, s, project, None, now).0.pools, now)
  {
    assert Kept(s.pools, now - PRESSURE_MS) == s.pools;
  }

  /** What the map holds after `n` opens in a row: so many pools, promising so much. */
  ghost predicate Stage(cfg: Config, pools: Pools, n: nat)
    requires cfg.max > 0
  {
    if n <= Full(cfg) then |pools| == n && Total(pools) == cfg.max * n
    else if OneMore(cfg) then |pools| == Full(cfg) + 1 && Total(pools) == cfg.budget
    else |pools| == Full(cfg) && Total(pools) == cfg.max * Full(cfg)
  }

  function Max0(outcome: Outcome): Option<int> {
    match outcome case Opened(_, max) => Some(max) case Refused => None
  }

  lemma PutNew(pools: Pools, project: string, e: Entry)
    requires project !in pools
    ensures |pools[project := e]| == |pools| + 1 && Total(pools[project := e]) == Total(pools) + e.max
  {
    TotalPut(pools, project, e);
    assert pools - {project} == pools;
  }

  /** With every pool busy, an open either adds its own pool or changes nothing. */
  lemma OpenBusy(cfg: Config, s: State, project: string, now: int)
    requires Busy(s.pools, now)
    ensures var slice := SliceFor(cfg, |s.pools| + 1, None); var (s', outcome) := Open(cfg, s, project, None, now);
      && Busy(s'.pools, now)
      && if Fits(cfg, s.pools, slice)
         then s'.pools == s.pools[project := Entry(s.next, now, slice)] && Max0(outcome) == Some(slice)
         else s'.pools == s.pools && Max0(outcome) == None
  {
    hide SliceFor;
    BusyStays(cfg, s, project, now);
  }

  /** At each stage the next slice fits exactly when another pool is expected, and is then the expected one. */
  lemma StageFits(cfg: Config, pools: Pools, n: nat)
    requires Sane(cfg) && Stage(cfg, pools, n)
    ensures var slice := SliceFor(cfg, |pools| + 1, None);
      Expected(cfg, n) == if Fits(cfg, pools, slice) then Some(slice) else None
  {
    hide Full, OneMore, Total;
    BudgetSplit(cfg);
    NextSlice(cfg);
    if n < Full(cfg) {
      FullSlice(cfg, n);
    }
    hide SliceFor;
    SliceAtLeast(cfg, |pools| + 1);
  }

  lemma SliceAtLeast(cfg: Config, active: nat)
    ensures SliceFor(cfg, active, None) >= cfg.min
  {
  }

  lemma StageMoves(cfg: Config, pools: Pools, n: nat, after: Pools)
    requires Sane(cfg) && Stage(cfg, pools, n)
    requires Expected(cfg, n).None? ==> after == pools
    requires Expected(cfg, n).Some? ==> |after| == |pools| + 1 && Total(after) == Total(pools) + Expected(cfg, n).value
    ensures Stage(cfg, after, n + 1)
  {
    hide Full, OneMore, Total;
    BudgetSplit(cfg);
    MulDist(cfg.max, n, 1);
    OneMoreSpare(cfg);
  }

  lemma OneMoreSpare(cfg: Config)
    requires Sane(cfg)
    ensures OneMore(cfg) ==> cfg.budget % cfg.max == cfg.max - 1
  {
  }

  lemma OpenNext(cfg: Config, s: State, project: string, now: int, n: nat)
    requires Sane(cfg) && Stage(cfg, s.pools, n) && Busy(s.pools, now) && project !in s.pools
    ensures var (s', outcome) := Open(cfg, s, project, None, now);
      && Max0(outcome) == Expected(cfg, n)
      && Stage(cfg, s'.pools, n + 1) && Busy(s'.pools, now)
      && s'.pools.Keys <= s.pools.Keys + {project}
  {
    hide SliceFor, Expected, Stage, Open, Busy, Max0, Total, Fits;
    OpenBusy(cfg, s, project, now);
    StageFits(cfg, s.pools, n);
    PutNew(s.pools, project, Entry(s.next, now, SliceFor(cfg, |s.pools| + 1, None)));
    StageMoves(cfg, s.pools, n, Open(cfg, s, project, None, now).0.pools);
  }

  /** A project opening a pool, and when. */
  datatype Opening = Opening(project: string, now: int)

  ghost predicate DistinctProjects(opens: seq<Opening>) {
    forall i, j :: 0 <= i < j < |opens| ==> opens[i].project != opens[j].project
  }

  /** The outcomes of the openings, one after another. */
  ghost function Outcomes(cfg: Config, s: State, opens: seq<Opening>): seq<Option<int>>
    decreases |opens|
  {
    if opens == [] then []
    else
      var (s', outcome) := Open(cfg, s, opens[0].project, None, opens[0].now);
      [Max0(outcome)] + Outcomes(cfg, s', opens[1..])
  }

  /** At every opening, no pool of the map has been idle. */
  ghost predicate NeverIdle(cfg: Config, s: State, opens: seq<Opening>)
    decreases |opens|
  {
    opens == [] ||
    (Busy(s.pools, opens[0].now) && NeverIdle(cfg, Open(cfg, s, opens[0].project, None, opens[0].now).0, opens[1..]))
  }

  lemma StillDistinct(opens: seq<Opening>, before: set<string>, after: set<string>)
    requires opens != [] && DistinctProjects(opens) && forall o <- opens :: o.project !in before
    requires after <= before + {opens[0].project}
    ensures DistinctProjects(opens[1..]) && forall o <- opens[1..] :: o.project !in after
  {
    assert forall i :: 0 <= i < |opens| - 1 ==> opens[1..][i] == opens[i + 1];
  }

  lemma {:induction false} OutcomesFrom(cfg: Config, s: State, opens: seq<Opening>, n: nat)
    requires Sane(cfg) && Stage(cfg, s.pools, n) && NeverIdle(cfg, s, opens)
    requires DistinctProjects(opens) && forall o <- opens :: o.project !in s.pools
    ensures |Outcomes(cfg, s, opens)| == |opens|
    ensures forall i :: 0 <= i < |opens| ==> Outcomes(cfg, s, opens)[i] == Expected(cfg, n + i)
    decreases |opens|
  {
    if opens == [] {
    } else {
      hide Stage, Busy, Open, Expected, Max0;
      var later := opens[1..];
      OpenNext(cfg, s, opens[0].project, opens[0].now, n);
      var s' := Open(cfg, s, opens[0].project, None, opens[0].now).0;
      StillDistinct(opens, s.pools.Keys, s'.pools.Keys);
      hide DistinctProjects;
      OutcomesFrom(cfg, s', later, n + 1);
    }
  }

  /**
   * Exact saturation: from an empty map, distinct projects opening in a row, at
   * any times with no pool idle, get budget/max pools of the maximum size, then
   * one of a single connection less if that is exactly what remains and the
   * minimum allows it, then refusals.
   */
  lemma ExactSaturation(cfg: Config, opens: seq<Opening>)
    requires Sane(cfg) && DistinctProjects(opens) && NeverIdle(cfg, INITIAL, opens)
    ensures var outcomes := Outcomes(cfg, INITIAL, opens);
      |outcomes| == |opens| && forall i :: 0 <= i < |opens| ==> outcomes[i] == Expected(cfg, i)
  {
    OutcomesFrom(cfg, INITIAL, opens, 0);
  }

  // ---------------------------------------------------- idleness by the clock alone

  /** Each opening comes at most thirty seconds after every earlier one. */
  ghost predicate Close(opens: seq<Opening>) {
    forall i, j :: 0 <= i < j < |opens| ==> opens[i].now >= opens[j].now - PRESSURE_MS
  }

  /** Every pool of the map was used recently enough for all the openings. */
  ghost predicate BusyFor(pools: Pools, opens: seq<Opening>) {
    forall i :: 0 <= i < |opens| ==> Busy(pools, opens[i].now)
  }

  lemma OpenBusyFor(cfg: Config, s: State, opens: seq<Opening>)
    requires opens != [] && Close(opens) && BusyFor(s.pools, opens)
    ensures BusyFor(Open(cfg, s, opens[0].project, None, opens[0].now).0.pools, opens[1..])
  {
    hide SliceFor, Fits;
    BusyStays(cfg, s, opens[0].project, opens[0].now);
    forall i | 0 <= i < |opens[1..]|
      ensures Busy(Open(cfg, s, opens[0].project, None, opens[0].now).0.pools, opens[1..][i].now)
    {
      assert opens[1..][i] == opens[i + 1] && Busy(s.pools, opens[i + 1].now);
    }
  }

  lemma {:induction false} CloseNeverIdle(cfg: Config, s: State, opens: seq<Opening>)
    requires Close(opens) && BusyFor(s.pools, opens)
    ensures NeverIdle(cfg, s, opens)
    decreases |opens|
  {
    if opens == [] {
    } else {
      OpenBusyFor(cfg, s, opens);
      hide Open, Busy;
      assert forall i :: 0 <= i < |opens| - 1 ==> opens[1..][i] == opens[i + 1];
      CloseNeverIdle(cfg, Open(cfg, s, opens[0].project, None, opens[0].now).0, opens[1..]);
    }
  }

  /** The same for openings known to come close together, in whatever order their clocks read. */
  lemma CloseSaturation(cfg: Config, opens: seq<Opening>)
    requires Sane(cfg) && DistinctProjects(opens) && Close(opens)
    ensures var outcomes := Outcomes(cfg, INITIAL, opens);
      |outcomes| == |opens| && forall i :: 0 <= i < |opens| ==> outcomes[i] == Expected(cfg, i)
  {
    CloseNeverIdle(cfg, INITIAL, opens);
    ExactSaturation(cfg, opens);
  }
}
