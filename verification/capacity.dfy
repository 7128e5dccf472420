/** Capacity advice: how many units of each kind a poll needs, over exact ratios. */
module Capacities {
  import opened Aggregates
  import opened Domain

  datatype Capacity = Capacity(voteApi: int, consumers: int, redisMasters: int, kafkaPartitions: int)

  const VOTES_PER_API_POD: int := 70_000
  const VOTES_PER_MASTER: int := 80_000
  const VOTES_PER_CONSUMER: int := 30_000
  const PEAK_SHARE: real := 0.5
  const PEAK_WINDOW: real := 15.0
  const SAFETY: real := 2.0
  const BASELINE_API: int := 2
  const DEFAULT_DRAIN: int := 5 * 60 * SECOND

  /** Whole units for a load, always one more than the quotient's whole part. */
  function CeilUnits(load: real, perUnit: int): int
    requires load >= 0.0 && perUnit > 0
  {
    Max(1, (load / perUnit as real).Floor + 1)
  }

  function EffectiveDrain(drainWindow: int): (d: int)
    ensures d > 0
  {
    if drainWindow <= 0 then DEFAULT_DRAIN else drainWindow
  }

  function PeakRate(votes: int): real {
    votes as real * PEAK_SHARE / PEAK_WINDOW
  }

  /** Votes per second to drain within the window. */
  function DrainRate(votes: int, drainWindow: int): real {
    votes as real / (EffectiveDrain(drainWindow) as real / SECOND as real)
  }

  lemma RatesNonNegative(votes: int, drainWindow: int)
    requires votes >= 0
    ensures PeakRate(votes) >= 0.0 && DrainRate(votes, drainWindow) >= 0.0
  {
    DivisionNonNegative(votes as real, EffectiveDrain(drainWindow) as real / SECOND as real);
  }

  lemma DivisionNonNegative(x: real, y: real)
    requires x >= 0.0 && y > 0.0
    ensures x / y >= 0.0
  {
    assert x / y * y == x;
  }

  function CapacityFor(votes: int, drainWindow: int): Capacity {
    if votes <= 0 then Capacity(BASELINE_API, 0, 0, 1)
    else
      RatesNonNegative(votes, drainWindow);
      var drain := DrainRate(votes, drainWindow) * SAFETY;
      Capacity(Max(BASELINE_API, CeilUnits(PeakRate(votes) * SAFETY, VOTES_PER_API_POD)),
               CeilUnits(drain, VOTES_PER_CONSUMER), CeilUnits(drain, VOTES_PER_MASTER),
               CeilUnits(drain, VOTES_PER_CONSUMER))
  }

  /** The advice strictly exceeds the load, and one unit less does not: never short, never a spare unit. */
  lemma UnitsAreTight(load: real, perUnit: int)
    requires load >= 0.0 && perUnit > 0
    ensures (CeilUnits(load, perUnit) * perUnit) as real > load
    ensures ((CeilUnits(load, perUnit) - 1) * perUnit) as real <= load
  {
    var r := perUnit as real;
    var q := load / r;
    assert q * r == load;
    DivisionNonNegative(load, r);
    var k := q.Floor;
    assert k as real <= q < (k + 1) as real;
    assert (k + 1) as real * r > q * r && k as real * r <= q * r;
    assert ((k + 1) * perUnit) as real == (k + 1) as real * r;
    assert (k * perUnit) as real == k as real * r;
  }

  lemma UnitsMonotone(a: real, b: real, perUnit: int)
    requires 0.0 <= a <= b && perUnit > 0
    ensures CeilUnits(a, perUnit) <= CeilUnits(b, perUnit)
  {
    DivisionMonotone(a, b, perUnit as real);
  }

  lemma DivisionMonotone(a: real, b: real, r: real)
    requires a <= b && r > 0.0
    ensures a / r <= b / r
  {
    assert (b / r - a / r) * r == b - a;
  }

  lemma DivisionAntitone(x: real, r: real, s: real)
    requires x >= 0.0 && 0.0 < r <= s
    ensures x / s <= x / r
  {
    DivisionNonNegative(x, s);
    assert x / s * r <= x / s * s == x == x / r * r;
    assert (x / r - x / s) * r >= 0.0;
  }

  lemma RateTimesWindow(votes: int, drainWindow: int)
    ensures DrainRate(votes, drainWindow) * SAFETY * (EffectiveDrain(drainWindow) as real / SECOND as real) ==
            (2 * votes) as real
  {
    var seconds := EffectiveDrain(drainWindow) as real / SECOND as real;
    assert seconds > 0.0;
    assert votes as real / seconds * seconds == votes as real;
  }

  /** This many units, working for the whole window, get through more than the target. */
  ghost predicate Outruns(units: int, perUnit: int, seconds: real, target: real) {
    (units * perUnit) as real * seconds > target
  }

  lemma UnitsOutrun(load: real, perUnit: int, seconds: real, target: real)
    requires load >= 0.0 && perUnit > 0 && seconds > 0.0 && load * seconds == target
    ensures Outruns(CeilUnits(load, perUnit), perUnit, seconds, target)
  {
    UnitsAreTight(load, perUnit);
    Faster((CeilUnits(load, perUnit) * perUnit) as real, load, seconds);
  }

  /** The advised masters and consumers can take twice the expected votes within the drain window. */
  lemma DrainFitsTheWindow(votes: int, drainWindow: int)
    requires votes > 0
    ensures var c, seconds := CapacityFor(votes, drainWindow), EffectiveDrain(drainWindow) as real / SECOND as real;
            && Outruns(c.redisMasters, VOTES_PER_MASTER, seconds, (2 * votes) as real)
            && Outruns(c.consumers, VOTES_PER_CONSUMER, seconds, (2 * votes) as real)
  {
    RatesNonNegative(votes, drainWindow);
    RateTimesWindow(votes, drainWindow);
    var load, seconds := DrainRate(votes, drainWindow) * SAFETY, EffectiveDrain(drainWindow) as real / SECOND as real;
    UnitsOutrun(load, VOTES_PER_MASTER, seconds, (2 * votes) as real);
    UnitsOutrun(load, VOTES_PER_CONSUMER, seconds, (2 * votes) as real);
  }

  lemma Faster(a: real, b: real, seconds: real)
    requires a > b && seconds > 0.0
    ensures a * seconds > b * seconds
  {
    assert (a - b) * seconds > 0.0;
  }

  ghost predicate AtMost(a: Capacity, b: Capacity) {
    && a.voteApi <= b.voteApi && a.consumers <= b.consumers
    && a.redisMasters <= b.redisMasters && a.kafkaPartitions <= b.kafkaPartitions
  }

  /** More votes never lower the advice. */
  lemma MonotoneInVotes(a: int, b: int, drainWindow: int)
    requires a <= b
    ensures AtMost(CapacityFor(a, drainWindow), CapacityFor(b, drainWindow))
  {
    if a > 0 {
      RatesNonNegative(a, drainWindow);
      RatesNonNegative(b, drainWindow);
      DivisionMonotone(a as real, b as real, EffectiveDrain(drainWindow) as real / SECOND as real);
      UnitsMonotone(PeakRate(a) * SAFETY, PeakRate(b) * SAFETY, VOTES_PER_API_POD);
      UnitsMonotone(DrainRate(a, drainWindow) * SAFETY, DrainRate(b, drainWindow) * SAFETY, VOTES_PER_CONSUMER);
      UnitsMonotone(DrainRate(a, drainWindow) * SAFETY, DrainRate(b, drainWindow) * SAFETY, VOTES_PER_MASTER);
    }
  }

  /** A longer drain window never raises the advice. */
  lemma AntitoneInWindow(votes: int, shorter: int, longer: int)
    requires 0 < shorter <= longer
    ensures AtMost(CapacityFor(votes, longer), CapacityFor(votes, shorter))
  {
    if votes > 0 {
      RatesNonNegative(votes, shorter);
      RatesNonNegative(votes, longer);
      DivisionMonotone(shorter as real, longer as real, SECOND as real);
      DivisionAntitone(votes as real, shorter as real / SECOND as real, longer as real / SECOND as real);
      UnitsMonotone(DrainRate(votes, longer) * SAFETY, DrainRate(votes, shorter) * SAFETY, VOTES_PER_CONSUMER);
      UnitsMonotone(DrainRate(votes, longer) * SAFETY, DrainRate(votes, shorter) * SAFETY, VOTES_PER_MASTER);
    }
  }

  /** Enough units for the load and not one more. */
  ghost predicate Tight(units: int, perUnit: int, load: real) {
    (units * perUnit) as real > load && ((units - 1) * perUnit) as real <= load
  }

  ghost function Seconds(drainWindow: int): real {
    if drainWindow <= 0 then 300.0 else drainWindow as real / 1_000_000_000.0
  }

  lemma LoadsWrittenOut(votes: int, drainWindow: int)
    requires votes > 0
    ensures PeakRate(votes) * SAFETY == votes as real / 15.0
    ensures DrainRate(votes, drainWindow) * SAFETY == votes as real / Seconds(drainWindow) * 2.0
  {
  }

  /**
   * The advice, written out: masters at 80000 votes a second and consumers at 30000 take twice the votes within the
   * drain window, with a partition for each consumer, and pods at 70000 take a fifteenth of the votes a second, two at
   * least.
   */
  lemma AdviceExactly(votes: int, drainWindow: int)
    ensures votes <= 0 ==> CapacityFor(votes, drainWindow) == Capacity(2, 0, 0, 1)
    ensures votes > 0 ==>
              var c, load := CapacityFor(votes, drainWindow), votes as real / Seconds(drainWindow) * 2.0;
              && Tight(c.redisMasters, 80_000, load) && Tight(c.consumers, 30_000, load)
              && c.kafkaPartitions == c.consumers
              && c.voteApi >= 2 && (c.voteApi * 70_000) as real > votes as real / 15.0
              && (c.voteApi > 2 ==> Tight(c.voteApi, 70_000, votes as real / 15.0))
  {
    if votes > 0 {
      RatesNonNegative(votes, drainWindow);
      LoadsWrittenOut(votes, drainWindow);
      CeilIsTight(DrainRate(votes, drainWindow) * SAFETY, 80_000);
      CeilIsTight(DrainRate(votes, drainWindow) * SAFETY, 30_000);
      CeilIsTight(PeakRate(votes) * SAFETY, 70_000);
    }
  }

  lemma CeilIsTight(load: real, perUnit: int)
    requires load >= 0.0 && perUnit > 0
    ensures Tight(CeilUnits(load, perUnit), perUnit, load)
  {
    UnitsAreTight(load, perUnit);
  }
}
