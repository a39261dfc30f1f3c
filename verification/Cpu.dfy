/**
 CPU limits: verification (verifyPlatformContainerResources, daemon/daemon_unix.go), updates
 (UpdateContainer, container/container_unix.go) and the quota emitted to the runtime
 (getCPUResources, daemon/daemon_unix.go). Fields are 64-bit and multiplication wraps.
 */
module Cpu {
  import opened Wrappers

  const MaxInt64 := 0x7fff_ffff_ffff_ffff
  const MinInt64 := -0x8000_0000_0000_0000
  const Nano := 1_000_000_000
  /** 100 ms in microseconds. */
  const Period := 100_000

  type int64 = x: int | MinInt64 <= x <= MaxInt64 witness 0

  /** Two's complement wrap-around. */
  function Wrap64(x: int): int64 {
    var m := x % 0x1_0000_0000_0000_0000;
    if m > MaxInt64 then m - 0x1_0000_0000_0000_0000 else m
  }

  /** The value is the only 64-bit one that differs from the argument by a multiple of 2^64. */
  lemma Wrap64Is(x: int, y: int64)
    ensures Wrap64(x) == y <==> (x - y) % 0x1_0000_0000_0000_0000 == 0
  {
  }

  /** Division that truncates toward zero. */
  function Quotient(x: int, d: int): int
    requires d > 0
  {
    if x >= 0 then x / d else -(-x / d)
  }

  lemma QuotientIs(x: int)
    ensures var q := Quotient(x, 1_000_000_000);
            && (x >= 0 ==> 1_000_000_000 * q <= x < 1_000_000_000 * (q + 1))
            && (x < 0 ==> 1_000_000_000 * (q - 1) < x <= 1_000_000_000 * q)
  {
  }

  datatype Res = Res(nanoCPUs: int64, cpuPeriod: int64, cpuQuota: int64, cpuShares: int64, memory: int64,
                     memorySwap: int64)

  datatype SysInfo = SysInfo(cfsPeriod: bool, cfsQuota: bool, shares: bool, numCPU: nat)

  /** The request passes the CPU checks. */
  predicate Acceptable(sys: SysInfo, r: Res) {
    && !(r.nanoCPUs > 0 && r.cpuPeriod > 0)
    && !(r.nanoCPUs > 0 && r.cpuQuota > 0)
    && !(r.nanoCPUs > 0 && (!sys.cfsPeriod || !sys.cfsQuota))
    && 0 <= r.nanoCPUs <= Wrap64(sys.numCPU * Nano)
    && ((r.cpuPeriod > 0 && !sys.cfsPeriod) || r.cpuPeriod == 0 || 1000 <= r.cpuPeriod <= 1000000)
    && ((r.cpuQuota > 0 && !sys.cfsQuota) || !(0 < r.cpuQuota < 1000))
  }

  /** The request with unsupported settings discarded. */
  function Discarded(sys: SysInfo, r: Res): Res {
    r.(cpuShares := if r.cpuShares > 0 && !sys.shares then 0 else r.cpuShares,
       cpuPeriod := if r.cpuPeriod > 0 && !sys.cfsPeriod then 0 else r.cpuPeriod,
       cpuQuota := if r.cpuQuota > 0 && !sys.cfsQuota then 0 else r.cpuQuota)
  }

  /** Each reason to refuse a request, and no other. */
  lemma RefusedIff(sys: SysInfo, r: Res)
    ensures !Acceptable(sys, r) <==>
            || (r.nanoCPUs > 0 && (r.cpuPeriod > 0 || r.cpuQuota > 0))
            || (r.nanoCPUs > 0 && (!sys.cfsPeriod || !sys.cfsQuota))
            || r.nanoCPUs < 0 || r.nanoCPUs > Wrap64(sys.numCPU * 1_000_000_000)
            || (r.cpuPeriod != 0 && (r.cpuPeriod < 1000 || r.cpuPeriod > 1000000)
                && !(r.cpuPeriod > 0 && !sys.cfsPeriod))
            || (0 < r.cpuQuota < 1000 && sys.cfsQuota)
  {
  }

  /** What the kernel does not support is dropped if positive; nothing else changes. */
  lemma DiscardedMeans(sys: SysInfo, r: Res)
    ensures var d := Discarded(sys, r);
            && d.nanoCPUs == r.nanoCPUs && d.memory == r.memory && d.memorySwap == r.memorySwap
            && d.cpuShares == (if !sys.shares && r.cpuShares > 0 then 0 else r.cpuShares)
            && d.cpuPeriod == (if !sys.cfsPeriod && r.cpuPeriod > 0 then 0 else r.cpuPeriod)
            && d.cpuQuota == (if !sys.cfsQuota && r.cpuQuota > 0 then 0 else r.cpuQuota)
  {
  }

  // ---------------------------------------------------------------------------------------
  // Updates

  /** The update contradicts what is already set. */
  predicate Conflicts(c: Res, r: Res) {
    || (r.nanoCPUs > 0 && (c.cpuPeriod > 0 || c.cpuQuota > 0))
    || ((r.cpuPeriod > 0 || r.cpuQuota > 0) && c.nanoCPUs > 0)
  }

  function Set(was: int64, wanted: int64): int64 { if wanted != 0 then wanted else was }

  predicate MemoryRejected(c: Res, r: Res) { r.memory != 0 && r.memory > c.memorySwap && r.memorySwap == 0 }

  /** The stored resources after UpdateContainer: untouched, partly or wholly updated. */
  function Updated(c: Res, r: Res): Res {
    if Conflicts(c, r) then c else
      if MemoryRejected(c, r) then Overlay(c, r)
      else Overlay(c, r).(memory := Set(c.memory, r.memory), memorySwap := Set(c.memorySwap, r.memorySwap))
  }

  /** The CPU fields as an update without the conflict check would leave them. */
  function Overlay(c: Res, r: Res): Res {
    c.(nanoCPUs := Set(c.nanoCPUs, r.nanoCPUs), cpuPeriod := Set(c.cpuPeriod, r.cpuPeriod),
       cpuQuota := Set(c.cpuQuota, r.cpuQuota), cpuShares := Set(c.cpuShares, r.cpuShares))
  }

  /**
   An update is refused untouched if it sets NanoCPUs next to a stored period or quota or the other
   way round. Otherwise its CPU settings other than zero replace the stored ones, and so do its
   memory settings unless the memory limit would exceed the stored swap limit.
   */
  lemma UpdateMeans(c: Res, r: Res)
    ensures var u := Updated(c, r);
            var conflict := (r.nanoCPUs > 0 && (c.cpuPeriod > 0 || c.cpuQuota > 0))
                            || (c.nanoCPUs > 0 && (r.cpuPeriod > 0 || r.cpuQuota > 0));
            var tooMuch := r.memory != 0 && r.memory > c.memorySwap && r.memorySwap == 0;
            && (conflict ==> u == c)
            && (!conflict ==>
                  && u.nanoCPUs == (if r.nanoCPUs != 0 then r.nanoCPUs else c.nanoCPUs)
                  && u.cpuPeriod == (if r.cpuPeriod != 0 then r.cpuPeriod else c.cpuPeriod)
                  && u.cpuQuota == (if r.cpuQuota != 0 then r.cpuQuota else c.cpuQuota)
                  && u.cpuShares == (if r.cpuShares != 0 then r.cpuShares else c.cpuShares)
                  && u.memory == (if r.memory != 0 && !tooMuch then r.memory else c.memory)
                  && u.memorySwap == (if r.memorySwap != 0 then r.memorySwap else c.memorySwap))
  {
  }

  /** Positive NanoCPUs never coexists with a positive period or quota. */
  predicate Coherent(c: Res) { c.nanoCPUs > 0 ==> c.cpuPeriod <= 0 && c.cpuQuota <= 0 }

  /** One update request: verified, applied, and possibly rolled back to the configuration before it. */
  datatype Update = Update(sys: SysInfo, request: Res, rolledBack: bool)

  function Apply(c: Res, u: Update): Res {
    if !Acceptable(u.sys, u.request) || u.rolledBack then c else Updated(c, Discarded(u.sys, u.request))
  }

  function ApplyAll(c: Res, us: seq<Update>): Res
    decreases |us|
  {
    if us == [] then c else ApplyAll(Apply(c, us[0]), us[1..])
  }

  /** What creation stores: an accepted request with unsupported settings discarded. */
  ghost predicate Created(sys: SysInfo, c: Res) { exists r :: Acceptable(sys, r) && c == Discarded(sys, r) }

  lemma CreatedIsCoherent(sys: SysInfo, c: Res)
    requires Created(sys, c)
    ensures Coherent(c) && c.nanoCPUs >= 0 && c.cpuPeriod >= 0
  {
  }

  /** Across any updates, also ones that are rejected halfway, the settings stay coherent. */
  lemma {:induction false} UpdatesStayCoherent(c: Res, us: seq<Update>)
    requires Coherent(c) && c.nanoCPUs >= 0
    ensures Coherent(ApplyAll(c, us)) && ApplyAll(c, us).nanoCPUs >= 0
    decreases |us|
  {
    if us != [] {
      UpdatesStayCoherent(Apply(c, us[0]), us[1..]);
    }
  }

  /**
   The conflict check is exactly what coherence needs, except that it also refuses NanoCPUs
   together with a negative quota that would have cleared the old one.
   */
  lemma RejectionIsNeeded(sys: SysInfo, c: Res, r: Res)
    requires Coherent(c) && Acceptable(sys, r) && c.cpuPeriod >= 0
    ensures !Coherent(Overlay(c, r)) <==>
            Conflicts(c, r) && !(r.nanoCPUs > 0 && r.cpuQuota < 0 && c.cpuPeriod == 0)
  {
  }

  /** The configured number of CPUs is one that some accepted request asked for, or zero. */
  lemma {:induction false} NanoWithinLimit(c: Res, us: seq<Update>, limit: int)
    requires 0 <= c.nanoCPUs <= limit
    requires forall i | 0 <= i < |us| :: Wrap64(us[i].sys.numCPU * Nano) <= limit
    ensures 0 <= ApplyAll(c, us).nanoCPUs <= limit
    decreases |us|
  {
    if us != [] {
      NanoWithinLimit(Apply(c, us[0]), us[1..], limit);
    }
  }

  // ---------------------------------------------------------------------------------------
  // The emitted quota

  datatype LinuxCPU = LinuxCPU(shares: int, period: Option<int>, quota: Option<int>)

  function QuotaOf(nanoCPUs: int64): int { Quotient(Wrap64(nanoCPUs * Period), Nano) }

  /** What the runtime gets: period and quota as stored, or else from NanoCPUs. */
  function Emitted(c: Res): Option<LinuxCPU> {
    if c.cpuShares < 0 then None else
      Some(LinuxCPU(
        c.cpuShares,
        if c.cpuPeriod != 0 then Some(c.cpuPeriod % 0x1_0000_0000_0000_0000)
        else if c.nanoCPUs > 0 then Some(Period) else None,
        if c.cpuQuota != 0 then Some(c.cpuQuota as int)
        else if c.nanoCPUs > 0 then Some(QuotaOf(c.nanoCPUs)) else None))
  }

  /** Shares always go out, and stored periods and quotas as they are; without NanoCPUs there are no others. */
  lemma EmittedMeans(c: Res)
    ensures c.cpuShares < 0 <==> Emitted(c).None?
    ensures c.cpuShares >= 0 ==>
              var e := Emitted(c).value;
              && e.shares == c.cpuShares
              && (c.cpuPeriod > 0 ==> e.period == Some(c.cpuPeriod as int))
              && (c.cpuPeriod < 0 ==> e.period == Some(c.cpuPeriod + 0x1_0000_0000_0000_0000))
              && (c.cpuQuota != 0 ==> e.quota == Some(c.cpuQuota as int))
              && (c.nanoCPUs <= 0 && c.cpuPeriod == 0 ==> e.period == None)
              && (c.nanoCPUs <= 0 && c.cpuQuota == 0 ==> e.quota == None)
              && (c.nanoCPUs > 0 && c.cpuPeriod == 0 ==> e.period == Some(100_000))
  {
  }

  method GetCPUResources(c: Res) returns (r: Option<LinuxCPU>)
    ensures r == Emitted(c)
  {
    if c.cpuShares < 0 {
      return None;
    }
    var cpu := LinuxCPU(c.cpuShares, None, None);
    if c.nanoCPUs > 0 {
      var quota := Quotient(Wrap64(c.nanoCPUs * Period), Nano);
      cpu := cpu.(period := Some(Period), quota := Some(quota));
    }
    if c.cpuPeriod != 0 {
      // an unsigned conversion: a negative period wraps to a large one
      cpu := cpu.(period := Some(c.cpuPeriod % 0x1_0000_0000_0000_0000));
    }
    if c.cpuQuota != 0 {
      cpu := cpu.(quota := Some(c.cpuQuota as int));
    }
    r := Some(cpu);
  }

  /** The product fits, and the quota is NanoCPUs/10000 rounded down, exactly up to 92233.72 CPUs. */
  lemma QuotaIsExactIff(nanoCPUs: int64)
    requires nanoCPUs > 0
    ensures QuotaOf(nanoCPUs) == nanoCPUs / 10_000 <==> nanoCPUs <= 92_233_720_368_547
  {
    var p := nanoCPUs * Period;
    assert p / Nano == nanoCPUs / 10_000;
    if nanoCPUs <= 92_233_720_368_547 {
      assert Wrap64(p) == p;
    } else {
      assert p > MaxInt64;
      assert Quotient(Wrap64(p), Nano) <= 9_223_372_036;
      if p < 9_223_372_037 * Nano {
        assert p % 0x1_0000_0000_0000_0000 == p;
        assert Wrap64(p) < 0;
      }
    }
  }

  /**
   With up to 92233 CPUs every accepted NanoCPUs gives the exact quota, at most 100000 per CPU;
   with more CPUs some accepted value overflows.
   */
  lemma QuotaIsExactForMachineIff(sys: SysInfo)
    requires sys.numCPU * Nano <= MaxInt64 && sys.cfsPeriod && sys.cfsQuota
    ensures (forall r: Res | Acceptable(sys, r) && r.nanoCPUs > 0 :: QuotaOf(r.nanoCPUs) == r.nanoCPUs / 10_000)
            <==> sys.numCPU <= 92_233
    ensures sys.numCPU <= 92_233 ==>
              forall r: Res | Acceptable(sys, r) && r.nanoCPUs > 0 :: QuotaOf(r.nanoCPUs) <= sys.numCPU * Period
  {
    assert Wrap64(sys.numCPU * Nano) == sys.numCPU * Nano;
    if sys.numCPU <= 92_233 {
      forall r: Res | Acceptable(sys, r) && r.nanoCPUs > 0
        ensures QuotaOf(r.nanoCPUs) == r.nanoCPUs / 10_000 <= sys.numCPU * Period
      {
        QuotaIsExactIff(r.nanoCPUs);
      }
    } else {
      var n: int64 := 92_234 * Nano;
      QuotaIsExactIff(n);
      assert Acceptable(sys, Res(n, 0, 0, 0, 0, 0));
    }
  }

  /** No accepted setting makes the stored period negative. */
  lemma {:induction false} PeriodStaysNonNegative(c: Res, us: seq<Update>)
    requires c.cpuPeriod >= 0
    ensures ApplyAll(c, us).cpuPeriod >= 0
    decreases |us|
  {
    if us != [] {
      PeriodStaysNonNegative(Apply(c, us[0]), us[1..]);
    }
  }

  /** From creation through any updates on one machine the settings are coherent and within its limit. */
  lemma CreatedThenUpdated(sys: SysInfo, c: Res, us: seq<Update>)
    requires Created(sys, c) && sys.numCPU <= 92_233
    requires forall i | 0 <= i < |us| :: us[i].sys == sys
    ensures var e := ApplyAll(c, us);
            Coherent(e) && e.cpuPeriod >= 0 && 0 <= e.nanoCPUs <= sys.numCPU * Nano
  {
    CreatedIsCoherent(sys, c);
    UpdatesStayCoherent(c, us);
    PeriodStaysNonNegative(c, us);
    assert Wrap64(sys.numCPU * Nano) == sys.numCPU * Nano;
    NanoWithinLimit(c, us, sys.numCPU * Nano);
  }

  /**
   After creation and any updates on a machine with up to 92233 CPUs, a positive NanoCPUs is emitted
   with the period of 100 ms. The quota emitted with it is exactly NanoCPUs/10000, which is at most
   100000 per CPU, if and only if no quota is stored; a stored one is negative and lifts the limit.
   */
  lemma LimitIsEmittedIff(sys: SysInfo, c: Res, us: seq<Update>)
    requires Created(sys, c) && sys.numCPU <= 92_233
    requires forall i | 0 <= i < |us| :: us[i].sys == sys
    ensures var e := ApplyAll(c, us);
            e.nanoCPUs > 0 && e.cpuShares >= 0 ==>
              && Emitted(e).Some? && Emitted(e).value.period == Some(Period)
              && (Emitted(e).value.quota == Some(e.nanoCPUs / 10_000) <==> e.cpuQuota == 0)
              && (e.cpuQuota != 0 ==> e.cpuQuota < 0 && Emitted(e).value.quota == Some(e.cpuQuota as int))
              && e.nanoCPUs / 10_000 <= sys.numCPU * Period
  {
    CreatedThenUpdated(sys, c, us);
    var e := ApplyAll(c, us);
    if e.nanoCPUs > 0 {
      QuotaIsExactIff(e.nanoCPUs);
      assert e.nanoCPUs / 10_000 >= 0;
    }
  }

  /** A request for a number of CPUs with a negative quota is accepted, and the quota emitted is the negative one. */
  lemma NegativeQuotaLiftsLimit(sys: SysInfo, nanoCPUs: int64, quota: int64)
    requires sys.cfsPeriod && sys.cfsQuota && sys.numCPU * Nano <= MaxInt64
    requires 0 < nanoCPUs <= sys.numCPU * Nano && quota < 0
    ensures var c := Res(nanoCPUs, 0, quota, 0, 0, 0);
            Acceptable(sys, c) && Created(sys, c) && Emitted(c) == Some(LinuxCPU(0, Some(Period), Some(quota as int)))
  {
    var c := Res(nanoCPUs, 0, quota, 0, 0, 0);
    assert Wrap64(sys.numCPU * Nano) == sys.numCPU * Nano;
    assert Acceptable(sys, c) && c == Discarded(sys, c);
  }

  // ---------------------------------------------------------------------------------------
  // Objects

  class Resources {
    var nanoCPUs: int64
    var cpuPeriod: int64
    var cpuQuota: int64
    var cpuShares: int64
    var memory: int64
    var memorySwap: int64

    ghost function Value(): Res
      reads this
    {
      Res(nanoCPUs, cpuPeriod, cpuQuota, cpuShares, memory, memorySwap)
    }

    constructor (r: Res)
      ensures Value() == r
    {
      nanoCPUs, cpuPeriod, cpuQuota := r.nanoCPUs, r.cpuPeriod, r.cpuQuota;
      cpuShares, memory, memorySwap := r.cpuShares, r.memory, r.memorySwap;
    }

    /** Checks the request and discards what the kernel does not support, in one pass. */
    method VerifyCPU(sys: SysInfo) returns (ok: bool)
      modifies this
      ensures ok <==> Acceptable(sys, old(Value()))
      ensures ok ==> Value() == Discarded(sys, old(Value()))
    {
      if nanoCPUs > 0 && cpuPeriod > 0 {
        return false;
      }
      if nanoCPUs > 0 && cpuQuota > 0 {
        return false;
      }
      if nanoCPUs > 0 && (!sys.cfsPeriod || !sys.cfsQuota) {
        return false;
      }
      if nanoCPUs < 0 || nanoCPUs > Wrap64(sys.numCPU * Nano) {
        return false;
      }
      if cpuShares > 0 && !sys.shares {
        cpuShares := 0;
      }
      if cpuPeriod > 0 && !sys.cfsPeriod {
        cpuPeriod := 0;
      }
      if cpuPeriod != 0 && (cpuPeriod < 1000 || cpuPeriod > 1000000) {
        return false;
      }
      if cpuQuota > 0 && !sys.cfsQuota {
        cpuQuota := 0;
      }
      if cpuQuota > 0 && cpuQuota < 1000 {
        return false;
      }
      ok := true;
    }

    /** Reports failure also when the memory check stops the update after the CPU fields were set. */
    method UpdateContainer(r: Res) returns (ok: bool)
      modifies this
      ensures Value() == Updated(old(Value()), r)
      ensures ok <==> !Conflicts(old(Value()), r) && !MemoryRejected(old(Value()), r)
    {
      if r.nanoCPUs > 0 && cpuPeriod > 0 {
        return false;
      }
      if r.nanoCPUs > 0 && cpuQuota > 0 {
        return false;
      }
      if r.cpuPeriod > 0 && nanoCPUs > 0 {
        return false;
      }
      if r.cpuQuota > 0 && nanoCPUs > 0 {
        return false;
      }
      cpuShares := Set(cpuShares, r.cpuShares);
      nanoCPUs := Set(nanoCPUs, r.nanoCPUs);
      cpuPeriod := Set(cpuPeriod, r.cpuPeriod);
      cpuQuota := Set(cpuQuota, r.cpuQuota);
      if r.memory != 0 {
        if r.memory > memorySwap && r.memorySwap == 0 {
          return false;
        }
        memory := r.memory;
      }
      memorySwap := Set(memorySwap, r.memorySwap);
      ok := true;
    }
  }
}
