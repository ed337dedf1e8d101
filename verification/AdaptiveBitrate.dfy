/** The phone's bitrate controller.  Its factors are exact rationals, and Int(...) cuts towards zero. */
module AdaptiveBitrate {
  datatype Policy = Static(kbps: int) | Adaptive(minKbps: int, maxKbps: int)

  datatype Controller = Controller(policy: Policy, current: int, targetFps: int, lastAdjustAt: real)

  /** A metrics snapshot, and the time at which it is consumed. */
  datatype Snapshot = Snapshot(fps: real, now: real)

  function Cut(numerator: int, denominator: int): int
    requires denominator > 0
  {
    if numerator >= 0 then numerator / denominator else -(-numerator / denominator)
  }

  function Max(a: int, b: int): int { if a < b then b else a }
  function Min(a: int, b: int): int { if a < b then a else b }

  function Lowered(minKbps: int, current: int): int { Max(minKbps, Cut(current * 8, 10)) }
  function Raised(maxKbps: int, current: int): int { Min(maxKbps, Cut(current * 11, 10)) }

  predicate Low(fps: real, target: int) { fps < target as real * 0.85 }
  predicate High(fps: real, target: int) { fps >= target as real * 0.98 }

  function Start(policy: Policy): int { if policy.Static? then policy.kbps else policy.maxKbps }

  /** A snapshot that changes the bitrate, or would if it were not at its bound. */
  predicate Adjusts(c: Controller, s: Snapshot) {
    && c.policy.Adaptive? && s.now - c.lastAdjustAt > 2.0
    && (Low(s.fps, c.targetFps) || (High(s.fps, c.targetFps) && c.current < c.policy.maxKbps))
  }

  function Consumed(c: Controller, s: Snapshot): Controller {
    if !Adjusts(c, s) then c
    else if Low(s.fps, c.targetFps) then c.(current := Lowered(c.policy.minKbps, c.current), lastAdjustAt := s.now)
    else c.(current := Raised(c.policy.maxKbps, c.current), lastAdjustAt := s.now)
  }

  datatype Event = Consume(snapshot: Snapshot) | Update(policy: Policy, targetFps: int)

  function Step(c: Controller, e: Event): Controller {
    match e
    case Consume(s) => Consumed(c, s)
    case Update(p, fps) => c.(policy := p, targetFps := fps, current := Start(p))
  }

  function Run(c: Controller, es: seq<Event>): Controller
    decreases |es|
  {
    if es == [] then c else Run(Step(c, es[0]), es[1..])
  }

  // ---------- the class ----------

  class AdaptiveBitrateController {
    var policy: Policy
    var currentKbps: int
    var targetFps: int
    var lastAdjustAt: real
    /** What the encoder was told, oldest first. */
    var told: seq<int>

    function Value(): Controller reads this { Controller(policy, currentKbps, targetFps, lastAdjustAt) }

    constructor (policy: Policy, targetFps: int)
      ensures Value() == Controller(policy, Start(policy), targetFps, 0.0) && told == []
    {
      this.policy, this.targetFps, lastAdjustAt, told := policy, targetFps, 0.0, [];
      currentKbps := if policy.Static? then policy.kbps else policy.maxKbps;
    }

    method UpdatePolicy(policy: Policy, targetFps: int)
      modifies this
      ensures Value() == Step(old(Value()), Update(policy, targetFps))
      ensures told == old(told) + [currentKbps]
    {
      this.policy, this.targetFps := policy, targetFps;
      currentKbps := if policy.Static? then policy.kbps else policy.maxKbps;
      told := told + [currentKbps];
    }

    method ConsumeSnapshot(s: Snapshot) returns (kbps: int)
      modifies this
      ensures Value() == Step(old(Value()), Consume(s)) && kbps == currentKbps
      ensures told == old(told) + if Adjusts(old(Value()), s) then [currentKbps] else []
    {
      if policy.Static? { return currentKbps; }
      if !(s.now - lastAdjustAt > 2.0) { return currentKbps; }
      var low, high := targetFps as real * 0.85, targetFps as real * 0.98;
      if s.fps < low {
        currentKbps := Max(policy.minKbps, Cut(currentKbps * 8, 10));
        told := told + [currentKbps];
        lastAdjustAt := s.now;
      } else if s.fps >= high && currentKbps < policy.maxKbps {
        currentKbps := Min(policy.maxKbps, Cut(currentKbps * 11, 10));
        told := told + [currentKbps];
        lastAdjustAt := s.now;
      }
      return currentKbps;
    }
  }

  // ---------- the bounds ----------

  predicate SanePolicy(p: Policy) { p.Adaptive? ==> 0 <= p.minKbps <= p.maxKbps }
  predicate Sane(e: Event) { e.Update? ==> SanePolicy(e.policy) }

  predicate InBounds(c: Controller) {
    SanePolicy(c.policy) && (c.policy.Adaptive? ==> c.policy.minKbps <= c.current <= c.policy.maxKbps)
  }

  lemma {:induction false} RunStaysInBounds(c: Controller, es: seq<Event>)
    requires InBounds(c) && forall e <- es :: Sane(e)
    ensures InBounds(Run(c, es))
    decreases |es|
  {
    hide Low, High;
    if es != [] {
      assert es[0] in es;
      RunStaysInBounds(Step(c, es[0]), es[1..]);
    }
  }

  /** On every run, whatever the snapshots and policies, the bitrate stays within its policy's bounds. */
  lemma BitrateStaysInBounds(p: Policy, fps: int, es: seq<Event>)
    requires SanePolicy(p) && forall e <- es :: Sane(e)
    ensures InBounds(Run(Controller(p, Start(p), fps, 0.0), es))
  {
    hide Run;
    RunStaysInBounds(Controller(p, Start(p), fps, 0.0), es);
  }

  // ---------- one snapshot ----------

  /** a / 10 of b, cut to a whole number of kilobits. */
  predicate TenthsOf(a: int, b: int, r: int) { 10 * r <= a * b < 10 * r + 10 }

  lemma StepDown(minKbps: int, current: int)
    requires 0 <= minKbps <= current
    ensures var r := Lowered(minKbps, current); TenthsOf(8, current, r) || (r == minKbps && 8 * current < 10 * minKbps)
  {
  }

  lemma StepUp(maxKbps: int, current: int)
    requires 0 <= current < maxKbps
    ensures var r := Raised(maxKbps, current);
      r <= maxKbps && (TenthsOf(11, current, r) || (r == maxKbps && 11 * current > 10 * maxKbps))
  {
  }

  /** THE POLICY: within two seconds of the last adjustment, or with a fixed bitrate, nothing happens. Otherwise a
      rate below 85 percent of the target takes the bitrate to eight tenths or to the minimum, one of 98 percent or
      more, below the maximum, takes it to eleven tenths or to the maximum, and between them it stays. */
  lemma SnapshotMeans(c: Controller, s: Snapshot)
    requires InBounds(c)
    ensures var d := Step(c, Consume(s));
      var due := c.policy.Adaptive? && s.now - c.lastAdjustAt > 2.0;
      var t := c.targetFps as real;
      && d.policy == c.policy && d.targetFps == c.targetFps
      && (!due ==> d == c)
      && (due && 100.0 * s.fps < 85.0 * t ==>
            && d.lastAdjustAt == s.now
            && (TenthsOf(8, c.current, d.current)
                || (d.current == c.policy.minKbps && 8 * c.current < 10 * c.policy.minKbps)))
      && (due && 100.0 * s.fps >= 85.0 * t && 100.0 * s.fps >= 98.0 * t && c.current < c.policy.maxKbps ==>
            && d.lastAdjustAt == s.now
            && (TenthsOf(11, c.current, d.current)
                || (d.current == c.policy.maxKbps && 11 * c.current > 10 * c.policy.maxKbps)))
      && (due && 100.0 * s.fps >= 85.0 * t && (100.0 * s.fps < 98.0 * t || c.current == c.policy.maxKbps) ==> d == c)
  {
    hide Lowered, Raised, TenthsOf;
    if c.policy.Adaptive? {
      StepDown(c.policy.minKbps, c.current);
      if c.current < c.policy.maxKbps { StepUp(c.policy.maxKbps, c.current); }
    }
  }

  /** A policy starts at its fixed bitrate, or at its maximum, and leaves the cooldown running. */
  lemma PolicyStartsHigh(c: Controller, p: Policy, fps: int)
    ensures var d := Step(c, Update(p, fps));
      && d.policy == p && d.targetFps == fps && d.lastAdjustAt == c.lastAdjustAt
      && (p.Static? ==> d.current == p.kbps) && (p.Adaptive? ==> d.current == p.maxKbps)
  {
  }

  // ---------- the cooldown ----------

  /** When the bitrate was adjusted in a run. */
  function AdjustTimes(c: Controller, es: seq<Event>): seq<real>
    decreases |es|
  {
    if es == [] then [] else
    (if es[0].Consume? && Adjusts(c, es[0].snapshot) then [es[0].snapshot.now] else []) +
    AdjustTimes(Step(c, es[0]), es[1..])
  }

  predicate SpacedFrom(last: real, ts: seq<real>) {
    ts != [] ==> ts[0] - last > 2.0 && forall i | 0 <= i < |ts| - 1 :: ts[i + 1] - ts[i] > 2.0
  }

  /** Adjustments are always more than two seconds apart, across changes of policy too. */
  lemma {:induction false} AdjustmentsAreSpaced(c: Controller, es: seq<Event>)
    ensures SpacedFrom(c.lastAdjustAt, AdjustTimes(c, es))
    decreases |es|
  {
    hide Low, High, Lowered, Raised;
    if es != [] {
      var rest := AdjustTimes(Step(c, es[0]), es[1..]);
      AdjustmentsAreSpaced(Step(c, es[0]), es[1..]);
      if es[0].Consume? && Adjusts(c, es[0].snapshot) {
        var ts := [es[0].snapshot.now] + rest;
        forall i | 0 <= i < |ts| - 1 ensures ts[i + 1] - ts[i] > 2.0 {
          if i > 0 { assert rest[i] - rest[i - 1] > 2.0; }
        }
      } else {
        assert [] + rest == rest;
      }
    }
  }

  // ---------- sustained low and high rates ----------

  /** Snapshots that come at least a cooldown apart and all see the same kind of rate. */
  predicate AllAdjustable(last: real, ss: seq<Snapshot>)
    decreases |ss|
  {
    ss == [] || (ss[0].now - last > 2.0 && AllAdjustable(ss[0].now, ss[1..]))
  }

  function Events(ss: seq<Snapshot>): (es: seq<Event>)
    ensures |es| == |ss|
  {
    if ss == [] then [] else [Consume(ss[0])] + Events(ss[1..])
  }

  function Power(b: nat, n: nat): (p: nat)
    ensures b > 0 ==> p > 0
  {
    if n == 0 then 1 else ProductIsNat(b, Power(b, n - 1))
  }

  function ProductIsNat(a: nat, b: nat): (p: nat)
    ensures p == a * b
    ensures a > 0 && b > 0 ==> p > 0
  {
    ProductSign(a, b);
    a * b
  }

  lemma ProductSign(a: nat, b: nat)
    ensures 0 <= a * b && (a > 0 && b > 0 ==> a * b > 0)
  {
  }

  /** Under sustained low rates n snapshots multiply the bitrate by at most 0.8 to the n, or reach the
      minimum. */
  lemma {:induction false} LowRatesShrinkGeometrically(c: Controller, ss: seq<Snapshot>)
    requires InBounds(c) && c.policy.Adaptive? && AllAdjustable(c.lastAdjustAt, ss)
    requires forall s <- ss :: Low(s.fps, c.targetFps)
    ensures var r := Run(c, Events(ss));
      && r.policy == c.policy && c.policy.minKbps <= r.current <= c.current
      && (r.current == c.policy.minKbps || r.current * Power(10, |ss|) <= c.current * Power(8, |ss|))
    decreases |ss|
  {
    hide Low, High, Power;
    if ss == [] {
      NoPower();
      assert Events(ss) == [];
    } else {
      var d := Consumed(c, ss[0]);
      assert Low(ss[0].fps, c.targetFps);
      assert Run(c, Events(ss)) == Run(d, Events(ss[1..])) by {
        assert Events(ss)[1..] == Events(ss[1..]);
      }
      LoweredShrinks(c.policy.minKbps, c.current);
      LowRatesShrinkGeometrically(d, ss[1..]);
      MorePower(|ss|);
      var r := Run(d, Events(ss[1..])).current;
      if r != c.policy.minKbps {
        ShrinkFurther(r, d.current, c.current, Power(10, |ss| - 1), Power(8, |ss| - 1));
      }
    }
  }

  lemma NoPower() ensures Power(10, 0) == 1 && Power(8, 0) == 1 {}

  lemma MorePower(n: nat)
    requires n > 0
    ensures Power(10, n) == 10 * Power(10, n - 1) && Power(8, n) == 8 * Power(8, n - 1)
  {
  }

  lemma LoweredShrinks(minKbps: int, current: int)
    requires 0 <= minKbps <= current
    ensures minKbps <= Lowered(minKbps, current) <= current
    ensures Lowered(minKbps, current) == minKbps || 10 * Lowered(minKbps, current) <= 8 * current
  {
  }

  /** r t <= d e and 10 d <= 8 c give 10 r t <= 8 c e. */
  lemma ShrinkFurther(r: int, d: int, c: int, t: nat, e: nat)
    requires r * t <= d * e && 10 * d <= 8 * c
    ensures r * (10 * t) <= c * (8 * e)
  {
    assert r * (10 * t) == 10 * (r * t);
    assert 10 * (d * e) == (10 * d) * e <= (8 * c) * e == c * (8 * e);
  }

  /** So the minimum is reached as soon as 0.8 to the n has brought the start below one above it. */
  lemma {:induction false} LowRatesReachMinimum(c: Controller, ss: seq<Snapshot>)
    requires InBounds(c) && c.policy.Adaptive? && AllAdjustable(c.lastAdjustAt, ss)
    requires forall s <- ss :: Low(s.fps, c.targetFps)
    requires c.current * Power(8, |ss|) < (c.policy.minKbps + 1) * Power(10, |ss|)
    ensures Run(c, Events(ss)).current == c.policy.minKbps
  {
    hide Run, Low, Power, InBounds, AllAdjustable;
    StartIsAboveMinimum(c);
    LowRatesShrinkGeometrically(c, ss);
    TimesOrder(c.policy.minKbps + 1, Run(c, Events(ss)).current, Power(10, |ss|));
  }

  lemma StartIsAboveMinimum(c: Controller)
    requires InBounds(c) && c.policy.Adaptive?
    ensures 0 <= c.policy.minKbps <= c.current
  {
  }

  lemma TimesOrder(a: int, b: int, t: nat)
    ensures a <= b ==> a * t <= b * t
  {
  }

  /** And in any case after as many snapshots as there are kilobits above the minimum. */
  lemma {:induction false} LowRatesReachMinimumWithin(c: Controller, ss: seq<Snapshot>)
    requires InBounds(c) && c.policy.Adaptive? && AllAdjustable(c.lastAdjustAt, ss)
    requires forall s <- ss :: Low(s.fps, c.targetFps)
    requires |ss| >= c.current - c.policy.minKbps
    ensures Run(c, Events(ss)).current == c.policy.minKbps
    decreases |ss|
  {
    hide Low, High;
    if ss == [] {
      assert Events(ss) == [];
    } else {
      assert Low(ss[0].fps, c.targetFps);
      assert Events(ss)[1..] == Events(ss[1..]);
      LowRatesReachMinimumWithin(Consumed(c, ss[0]), ss[1..]);
    }
  }

  /** Ten is where raising by a tenth starts to raise at all. */
  lemma RaisedGrowsIff(maxKbps: int, current: int)
    requires 0 <= current < maxKbps
    ensures current <= Raised(maxKbps, current) <= maxKbps
    ensures Raised(maxKbps, current) > current <==> current >= 10
  {
  }

  /** Sustained high rates, long enough, reach the maximum exactly when the bitrate is there already or at
      least 10 kbps; below that it never moves. */
  lemma {:induction false} HighRatesReachMaximumIff(c: Controller, ss: seq<Snapshot>)
    requires InBounds(c) && c.policy.Adaptive? && AllAdjustable(c.lastAdjustAt, ss)
    requires forall s <- ss :: High(s.fps, c.targetFps) && !Low(s.fps, c.targetFps)
    requires |ss| >= c.policy.maxKbps - c.current
    ensures Run(c, Events(ss)).current == c.policy.maxKbps <==> c.current == c.policy.maxKbps || c.current >= 10
    decreases |ss|
  {
    hide Low, High, Raised;
    if ss == [] {
      assert Events(ss) == [];
    } else {
      var d := Consumed(c, ss[0]);
      assert High(ss[0].fps, c.targetFps) && !Low(ss[0].fps, c.targetFps);
      assert Run(c, Events(ss)) == Run(d, Events(ss[1..])) by {
        assert Events(ss)[1..] == Events(ss[1..]);
      }
      if c.current == c.policy.maxKbps {
        AtMaximum(c, ss);
      } else {
        RaisedGrowsIff(c.policy.maxKbps, c.current);
        if c.current >= 10 { HighRatesReachMaximumIff(d, ss[1..]); } else { Stuck(c, ss); }
      }
    }
  }

  lemma {:induction false} AtMaximum(c: Controller, ss: seq<Snapshot>)
    requires c.policy.Adaptive? && c.current == c.policy.maxKbps
    requires forall s <- ss :: !Low(s.fps, c.targetFps)
    ensures Run(c, Events(ss)) == c
    decreases |ss|
  {
    hide Low, High, Raised;
    if ss != [] {
      assert !Low(ss[0].fps, c.targetFps);
      assert Events(ss)[1..] == Events(ss[1..]);
      AtMaximum(c, ss[1..]);
    }
  }

  lemma {:induction false} Stuck(c: Controller, ss: seq<Snapshot>)
    requires c.policy.Adaptive? && 0 <= c.current < 10 && c.current < c.policy.maxKbps
    requires forall s <- ss :: !Low(s.fps, c.targetFps)
    ensures Run(c, Events(ss)).current == c.current
    decreases |ss|
  {
    hide Low, High, Raised;
    if ss != [] {
      assert !Low(ss[0].fps, c.targetFps);
      assert Events(ss)[1..] == Events(ss[1..]);
      RaisedGrowsIff(c.policy.maxKbps, c.current);
      Stuck(Consumed(c, ss[0]), ss[1..]);
    }
  }
}
