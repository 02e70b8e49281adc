/** Wake admission (control-plane/internal/wake/admit.go). Percentages are exact rationals. */
module Admit {
  import opened Common
  import opened Pressure

  const TWO_64 := 0x1_0000_0000_0000_0000

  datatype AdmitConfig = AdmitConfig(wakeCostMB: nat, floorPct: real)

  datatype Reason = WakesRefused | LowMemory

  datatype Outcome = Admitted(pct: real) | Denied(pct: real, reason: Reason) | ReadError

  function WithDefaults(c: AdmitConfig): AdmitConfig {
    AdmitConfig(if c.wakeCostMB == 0 then 800 else c.wakeCostMB, if c.floorPct == 0.0 then 10.0 else c.floorPct)
  }

  /** The cost in KB, a 64-bit product. */
  function CostKB(c: AdmitConfig): nat {
    c.wakeCostMB * 1024 % TWO_64
  }

  /** The cost in percent of the total. Without a total it is infinite, or not a number, and
      then no comparison with it holds: such a reading never admits, although it counts as 100
      percent available, and neither does a second reading after it. */
  function CostPct(c: AdmitConfig, total: nat): Option<real> {
    if total == 0 then None else Some(CostKB(c) as real * 100.0 / total as real)
  }

  predicate Fits(m: MemInfo, cost: Option<real>, floor: real) {
    cost.Some? && AvailablePct(m) - cost.value >= floor
  }

  /** `first` and `second` are what /proc/meminfo holds before and after the synchronous tick,
      if it can be read; `refused` is the shared flag, if there is one. */
  method Admit(c: AdmitConfig, first: Option<MemInfo>, refused: Option<bool>, second: Option<MemInfo>)
    returns (o: Outcome, ticked: bool)
    ensures o.Admitted? <==>
      first.Some?
      && var cfg := WithDefaults(c);
         var cost := CostPct(cfg, first.value.total);
      && (Fits(first.value, cost, cfg.floorPct)
          || (refused != Some(true) && second.Some? && Fits(second.value, cost, cfg.floorPct)))
    ensures o.ReadError? <==> first.None? || (ticked && second.None?)
    ensures ticked <==>
      && first.Some? && refused != Some(true)
      && var cfg := WithDefaults(c);
         !Fits(first.value, CostPct(cfg, first.value.total), cfg.floorPct)
    ensures o.Denied? && o.reason == WakesRefused <==> first.Some? && refused == Some(true) && !o.Admitted?
    ensures !o.ReadError? ==> o.pct == AvailablePct(if ticked then second.value else first.value)
  {
    var cfg := WithDefaults(c);
    ticked := false;
    if first.None? {
      return ReadError, ticked;
    }
    var pct := AvailablePct(first.value);
    var cost := CostPct(cfg, first.value.total);
    if cost.Some? && pct - cost.value >= cfg.floorPct {
      return Admitted(pct), ticked;
    }
    if refused == Some(true) {
      return Denied(pct, WakesRefused), ticked;
    }
    ticked := true;
    if second.None? {
      return ReadError, ticked;
    }
    pct := AvailablePct(second.value);
    if cost.Some? && pct - cost.value >= cfg.floorPct {
      return Admitted(pct), ticked;
    }
    return Denied(pct, LowMemory), ticked;
  }

  // --- the same test on integers ----------------------------------------------------------------

  lemma {:induction false} ScaleBy(x: real, y: real, t: real)
    requires t > 0.0
    ensures x >= y <==> x * t >= y * t
  {
    if x >= y {
      assert (x - y) * t >= 0.0;
    } else {
      assert (y - x) * t > 0.0;
    }
  }

  lemma {:induction false} PercentTimes(part: real, total: real)
    requires total > 0.0
    ensures part * 100.0 / total * total == part * 100.0
  {
  }

  /** What is not configured costs 800 MB and leaves ten percent. */
  lemma {:induction false} DefaultsAre(c: AdmitConfig)
    ensures WithDefaults(c).wakeCostMB > 0 && WithDefaults(c).floorPct != 0.0
    ensures c.wakeCostMB == 0 ==> WithDefaults(c).wakeCostMB == 800
    ensures c.wakeCostMB != 0 ==> WithDefaults(c).wakeCostMB == c.wakeCostMB
    ensures c.floorPct == 0.0 ==> WithDefaults(c).floorPct == 10.0
    ensures c.floorPct != 0.0 ==> WithDefaults(c).floorPct == c.floorPct
  {
  }

  /** With a whole-number floor the first test is one between integers: what is left after the
      cost of so many MB, in KB and wrapped to 64 bits, times 100, is at least the floor times the
      total. */
  lemma {:induction false} FirstTestOnIntegers(c: AdmitConfig, m: MemInfo, floor: int)
    requires m.total > 0
    ensures Fits(m, CostPct(c, m.total), floor as real) <==>
      100 * (m.available - c.wakeCostMB * 1024 % 0x1_0000_0000_0000_0000) >= floor * m.total
  {
    var t, a, k, f := m.total as real, m.available as real, CostKB(c) as real, floor as real;
    PercentTimes(a, t);
    PercentTimes(k, t);
    ScaleBy(a * 100.0 / t - k * 100.0 / t, f, t);
    assert (a * 100.0 / t - k * 100.0 / t) * t == (a - k) * 100.0;
    assert (a - k) * 100.0 == (100 * (m.available - CostKB(c))) as real;
    assert f * t == (floor * m.total) as real;
  }

  /** The second test takes the cost relative to the first reading's total. */
  lemma {:induction false} SecondTestOnIntegers(c: AdmitConfig, first: MemInfo, second: MemInfo, floor: int)
    requires first.total > 0 && second.total > 0
    ensures Fits(second, CostPct(c, first.total), floor as real) <==>
      var cost := c.wakeCostMB * 1024 % 0x1_0000_0000_0000_0000;
      100 * (second.available * first.total - cost * second.total) >= floor * (first.total * second.total)
  {
    var t, u, a, k, f := first.total as real, second.total as real, second.available as real, CostKB(c) as real,
      floor as real;
    var x, y := a * 100.0 / u, k * 100.0 / t;
    PercentTimes(a, u);
    PercentTimes(k, t);
    assert t * u > 0.0;
    ScaleBy(x - y, f, t * u);
    assert x * (t * u) == x * u * t;
    assert y * (t * u) == y * t * u;
    assert (x - y) * (t * u) == x * (t * u) - y * (t * u);
    assert (x - y) * (t * u) == a * 100.0 * t - k * 100.0 * u;
    IntegerForm(second.available, first.total, CostKB(c), second.total, floor);
  }

  lemma {:induction false} IntegerForm(a: nat, t: nat, k: nat, u: nat, floor: int)
    ensures a as real * 100.0 * t as real - k as real * 100.0 * u as real == (100 * (a * t - k * u)) as real
    ensures floor as real * (t as real * u as real) == (floor * (t * u)) as real
  {
    assert (a * t) as real == a as real * t as real;
    assert (k * u) as real == k as real * u as real;
    assert (t * u) as real == t as real * u as real;
    assert (floor * (t * u)) as real == floor as real * (t * u) as real;
  }
}
