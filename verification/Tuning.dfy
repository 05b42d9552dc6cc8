/**
 * PostgreSQL memory settings from the hardware (services/server-agent/src/ops/provision.ts).
 * Sizes are whole megabytes; `Math.floor(b * 0.4)` is taken as `2 * b / 5`.
 */
module Tuning {
  import opened Arithmetic

  function Max(a: int, b: int): int {
    if a >= b then a else b
  }

  function Min(a: int, b: int): int {
    if a <= b then a else b
  }

  /** Half of the memory, in megabytes. */
  function Budget(memoryBytes: nat): nat {
    memoryBytes / 2097152
  }

  function SharedBuffers(budget: nat): nat {
    Max(128, Min(2 * budget / 5, 8192))
  }

  function WorkMem(budget: nat): nat {
    Max(4, Min(64, budget / 64))
  }

  /** How many connections fit in what the buffers leave, before clamping. */
  function Quotient(budget: nat): int {
    (budget - SharedBuffers(budget)) / (2 * WorkMem(budget))
  }

  datatype Tuned = Tuned(maxConnections: nat, sharedBuffersMb: nat, workMemMb: nat, maintenanceWorkMemMb: nat) {
    /** What the settings let PostgreSQL use: its buffers, and two sorts per connection. */
    function Total(): nat {
      sharedBuffersMb + maxConnections * (2 * workMemMb)
    }
  }

  function TunePostgres(memoryBytes: nat): Tuned {
    var budget := Budget(memoryBytes);
    Tuned(
      Max(20, Min(200, Quotient(budget))),
      SharedBuffers(budget),
      WorkMem(budget),
      Max(64, Min(1024, budget / 16))
    )
  }

  lemma ClampedFits(room: int, unit: nat, connections: nat)
    requires unit >= 1 && connections == Max(20, Min(200, room / unit))
    ensures connections * unit <= room <==> room / unit >= 20
    ensures room / unit < 20 ==> connections * unit == 20 * unit
  {
    DivAtLeast(room, unit, 20);
    if room / unit >= 20 {
      MulOrder(unit, connections, room / unit);
      DivMod(room, unit);
    }
  }

  /** The settings stay within the budget exactly when at least twenty connections fit before clamping. */
  lemma WithinBudgetIff(memoryBytes: nat)
    ensures TunePostgres(memoryBytes).Total() <= Budget(memoryBytes) <==> Quotient(Budget(memoryBytes)) >= 20
  {
    var (b, t) := (Budget(memoryBytes), TunePostgres(memoryBytes));
    ClampedFits(b - SharedBuffers(b), 2 * WorkMem(b), t.maxConnections);
  }

  /** From a budget of 320 MB the overshoot is at most one connection's share, a thirty-second of the budget. */
  lemma OvershootBound(memoryBytes: nat)
    requires Budget(memoryBytes) >= 320
    ensures var (b, t) := (Budget(memoryBytes), TunePostgres(memoryBytes));
      t.Total() <= b + 2 * t.workMemMb && 32 * (b + 2 * t.workMemMb) <= 33 * b
  {
    var (b, t) := (Budget(memoryBytes), TunePostgres(memoryBytes));
    ClampedFits(b - SharedBuffers(b), 2 * WorkMem(b), t.maxConnections);
    Shares(b);
  }

  lemma Shares(budget: nat)
    requires budget >= 320
    ensures 5 * SharedBuffers(budget) <= 2 * budget && 64 * WorkMem(budget) <= budget
    ensures 38 * WorkMem(budget) <= budget - SharedBuffers(budget)
  {
  }

  /** From 4267 MB on there is no overshoot at all, and with less than 288 MB there always is. */
  lemma LargeAndSmallBudgets(memoryBytes: nat)
    ensures Budget(memoryBytes) >= 4267 ==> TunePostgres(memoryBytes).Total() <= Budget(memoryBytes)
    ensures Budget(memoryBytes) < 288 ==> TunePostgres(memoryBytes).Total() == 288
    ensures 288 <= Budget(memoryBytes) < 320 ==> TunePostgres(memoryBytes).Total() <= Budget(memoryBytes)
  {
    var (b, t) := (Budget(memoryBytes), TunePostgres(memoryBytes));
    WithinBudgetIff(memoryBytes);
    if b >= 4267 {
      assert WorkMem(b) == 64 && b - SharedBuffers(b) >= 2560;
    } else if b < 320 {
      assert WorkMem(b) == 4 && SharedBuffers(b) == 128;
    }
  }

  /** So on every machine the settings fit in 288 MB or in 33/32 of the budget. */
  lemma AlwaysBounded(memoryBytes: nat)
    ensures var total := TunePostgres(memoryBytes).Total();
      total <= 288 || 32 * total <= 33 * Budget(memoryBytes)
  {
    LargeAndSmallBudgets(memoryBytes);
    if Budget(memoryBytes) >= 320 { OvershootBound(memoryBytes); }
  }

  /** Every setting is the largest that its share of the budget allows, within its two bounds. */
  lemma TunedExactly(memoryBytes: nat, b: nat)
    requires 2_097_152 * b <= memoryBytes < 2_097_152 * (b + 1)
    ensures var Tuned(connections, shared, work, maintenance) := TunePostgres(memoryBytes);
      && (b < 320 ==> shared == 128) && (b >= 20480 ==> shared == 8192)
      && (320 <= b < 20480 ==> 5 * shared <= 2 * b < 5 * (shared + 1))
      && (b < 256 ==> work == 4) && (b >= 4096 ==> work == 64)
      && (256 <= b < 4096 ==> 64 * work <= b < 64 * (work + 1))
      && (b < 1024 ==> maintenance == 64) && (b >= 16384 ==> maintenance == 1024)
      && (1024 <= b < 16384 ==> 16 * maintenance <= b < 16 * (maintenance + 1))
      && 20 <= connections <= 200
      && (connections > 20 ==> shared + connections * (2 * work) <= b)
      && (connections < 200 ==> b < shared + (connections + 1) * (2 * work))
  {
    assert Budget(memoryBytes) == b;
    var (s, w) := (SharedBuffers(b), WorkMem(b));
    MostThatFit(b - s, 2 * w, Max(20, Min(200, Quotient(b))));
  }

  lemma MostThatFit(room: int, unit: nat, connections: nat)
    requires unit >= 1 && connections == Max(20, Min(200, room / unit))
    ensures connections > 20 ==> connections * unit <= room
    ensures connections < 200 ==> room < (connections + 1) * unit
  {
    DivMod(room, unit);
    ClampedFits(room, unit, connections);
    if connections < 200 {
      MulOrder(unit, room / unit + 1, connections + 1);
    }
  }

  /** An 8 GB machine is over budget: twenty connections where nineteen fit. */
  lemma EightGigabytes()
    ensures TunePostgres(8589934592) == Tuned(20, 1638, 64, 256) && Budget(8589934592) == 4096
    ensures TunePostgres(8589934592).Total() == 4198
  {
  }
}
