/** Difficulty retargeting: the work the next block must carry, from the recent
    blocks of its selected chain, in saturating machine arithmetic. */
module Difficulty {
  import opened Words

  datatype TimedWork = TimedWork(timestampMs: u64, work: u128)

  datatype Retarget = Retarget(targetIntervalMs: u64, window: u64, maxFactor: u64, minWork: u128)

  function Max(a: u64, b: u64): u64 {
    if a < b then b else a
  }

  function Max128(a: u128, b: u128): u128 {
    if a < b then b else a
  }

  function TotalWork(s: seq<TimedWork>): u128 {
    if s == [] then 0 else SaturatingAdd128(TotalWork(s[..|s| - 1]), s[|s| - 1].work)
  }

  /** The last `window + 1` samples. */
  function Recent(cfg: Retarget, s: seq<TimedWork>): (r: seq<TimedWork>)
    ensures |r| <= cfg.window as nat + 1 && |r| <= |s|
  {
    if |s| > cfg.window as nat + 1 then s[|s| - (cfg.window as nat + 1)..] else s
  }

  function Average(s: seq<TimedWork>): u128
    requires 0 < |s| <= U64_MAX as nat
  {
    TotalWork(s) / |s| as u128
  }

  function Factor(cfg: Retarget): (f: u128)
    ensures 1 <= f
  {
    Max(cfg.maxFactor, 1) as u128
  }

  function Lower(cfg: Retarget, avg: u128): u128 {
    Max128(avg / Factor(cfg), cfg.minWork)
  }

  function Upper(cfg: Retarget, avg: u128): u128 {
    Max128(SaturatingMul128(avg, Factor(cfg)), cfg.minWork)
  }

  /** The bounds handed to `clamp` are never inverted, so it cannot panic. */
  lemma BoundsInOrder(cfg: Retarget, avg: u128)
    ensures Lower(cfg, avg) <= Upper(cfg, avg)
  {
    hide Factor, SaturatingMul128;
    BoundsOf(avg, Factor(cfg));
  }

  lemma BoundsOf(a: u128, f: u128)
    requires 1 <= f
    ensures a / f <= SaturatingMul128(a, f)
  {
    hide SaturatingMul128;
    var q := a / f;
    QuotientBelow(a as nat, f as nat);
    assert q as nat == a as nat / f as nat;
  }

  lemma QuotientBelow(a: nat, f: nat)
    requires 1 <= f
    ensures a / f <= a <= a * f
  {
    assert a == (a / f) * f + a % f;
    assert a * f == a + a * (f - 1);
  }

  function Clamp(x: u128, lower: u128, upper: u128): u128
    requires lower <= upper
  {
    if x < lower then lower else if upper < x then upper else x
  }

  function Expected(cfg: Retarget, s: seq<TimedWork>): (e: u64)
    requires 2 <= |s| <= U64_MAX as nat
    ensures 1 <= e
  {
    Max(SaturatingMul((|s| - 1) as u64, cfg.targetIntervalMs), 1)
  }

  function Actual(s: seq<TimedWork>): (a: u64)
    requires 2 <= |s|
    ensures 1 <= a
  {
    Max(SaturatingSub(s[|s| - 1].timestampMs, s[0].timestampMs), 1)
  }

  /** avg * expected / actual */
  function Scaled(cfg: Retarget, s: seq<TimedWork>, avg: u128): u128
    requires 2 <= |s| <= U64_MAX as nat
  {
    SaturatingMul128(avg, Expected(cfg, s) as u128) / Actual(s) as u128
  }

  function NextWork(cfg: Retarget, recent: seq<TimedWork>): u128
    requires cfg.window < U64_MAX
  {
    var samples := Recent(cfg, recent);
    if |samples| < 2 then cfg.minWork
    else
      var avg := Average(samples);
      BoundsInOrder(cfg, avg);
      Max128(Clamp(Scaled(cfg, samples, avg), Lower(cfg, avg), Upper(cfg, avg)), cfg.minWork)
  }

  /** The retarget changes work by at most the factor, above the floor. */
  lemma NextWorkBounded(cfg: Retarget, recent: seq<TimedWork>)
    requires cfg.window < U64_MAX && 2 <= |Recent(cfg, recent)|
    ensures var avg := Average(Recent(cfg, recent));
      Lower(cfg, avg) <= NextWork(cfg, recent) <= Upper(cfg, avg)
  {
    BoundsInOrder(cfg, Average(Recent(cfg, recent)));
  }

  lemma LessByFactor(a: nat, b: nat, m: nat)
    requires a * m < b * m
    ensures a < b
  {
  }

  lemma DivideByMore(n: nat, a: nat, b: nat)
    requires 0 < a <= b
    ensures n / b <= n / a
  {
    var q, r := n / b, n / a;
    assert q * b <= n < (r + 1) * a;
    assert q * a <= q * b;
    LessByFactor(q, r + 1, a);
  }

  lemma ScaledFalls(cfg: Retarget, s: seq<TimedWork>, s': seq<TimedWork>, avg: u128)
    requires 2 <= |s| == |s'| <= U64_MAX as nat && Actual(s) <= Actual(s')
    ensures Scaled(cfg, s', avg) <= Scaled(cfg, s, avg)
  {
    hide Actual, SaturatingMul128;
    var n := SaturatingMul128(avg, Expected(cfg, s) as u128);
    DivideByMore(n as nat, Actual(s) as nat, Actual(s') as nat);
  }

  /** A later last timestamp never raises the result. */
  lemma LaterNeverHarder(cfg: Retarget, recent: seq<TimedWork>, later: u64)
    requires cfg.window < U64_MAX && recent != [] && recent[|recent| - 1].timestampMs <= later
    ensures var last := TimedWork(later, recent[|recent| - 1].work);
      NextWork(cfg, recent[..|recent| - 1] + [last]) <= NextWork(cfg, recent)
  {
    var n := |recent| - 1;
    var recent' := recent[..n] + [TimedWork(later, recent[n].work)];
    var s, s' := Recent(cfg, recent), Recent(cfg, recent');
    if 2 <= |s| {
      var m := |s| - 1;
      assert s'[..m] == s[..m] && s'[m] == recent'[n] && s[m] == recent[n];
      assert Average(s') == Average(s) && Actual(s) <= Actual(s');
      BoundsInOrder(cfg, Average(s));
      ScaledFalls(cfg, s, s', Average(s));
      hide Scaled, Average, Lower, Upper, Actual, Recent;
    }
  }

  /** Only the last `window + 1` samples matter: dropping older ones loses nothing. */
  lemma WindowSuffices(cfg: Retarget, older: seq<TimedWork>, s: seq<TimedWork>)
    requires cfg.window < U64_MAX && |s| == cfg.window as nat + 1
    ensures NextWork(cfg, older + s) == NextWork(cfg, s)
  {
    assert Recent(cfg, older + s) == s == Recent(cfg, s);
  }

  // ------------------------------------------------------------- in plain numbers

  ghost function Least(a: nat, b: nat): nat {
    if a < b then a else b
  }

  ghost function Most(a: nat, b: nat): nat {
    if a < b then b else a
  }

  /** `q` is how often `d` goes into `n`. */
  ghost predicate Goes(q: nat, n: nat, d: nat) {
    q * d <= n < (q + 1) * d
  }

  ghost function PlainSum(s: seq<TimedWork>): nat {
    if s == [] then 0 else PlainSum(s[..|s| - 1]) + s[|s| - 1].work as nat
  }

  ghost predicate IsAverage(s: seq<TimedWork>, avg: nat) {
    Goes(avg, Least(PlainSum(s), U128_MAX as nat), |s|)
  }

  ghost function Times(a: nat, b: nat): nat {
    a * b
  }

  /** The time `n` samples should span: one interval from each to the next. */
  ghost function Due(cfg: Retarget, n: nat): nat {
    if n < 2 then 1 else Most(Least(Times(n - 1, cfg.targetIntervalMs as nat), U64_MAX as nat), 1)
  }

  /** The time they do span. */
  ghost function Taken(s: seq<TimedWork>): nat {
    if s != [] && s[0].timestampMs < s[|s| - 1].timestampMs
    then s[|s| - 1].timestampMs as nat - s[0].timestampMs as nat else 1
  }

  ghost function Product(a: nat, b: nat): nat {
    Least(Times(a, b), U128_MAX as nat)
  }

  /** The average changed at most by the factor, and not below the floor. */
  ghost function Bounded(cfg: Retarget, avg: nat, scaled: nat): nat {
    var factor := Most(cfg.maxFactor as nat, 1);
    Most(cfg.minWork as nat, Least(Product(avg, factor), Most(avg / factor, scaled)))
  }

  /** The average, times the time the samples should span over the time they do. */
  ghost predicate TargetFrom(cfg: Retarget, s: seq<TimedWork>, avg: nat, scaled: nat, w: nat) {
    && IsAverage(s, avg) && Goes(scaled, Product(avg, Due(cfg, |s|)), Taken(s))
    && w == Bounded(cfg, avg, scaled)
  }

  /** The samples looked at: the last `window + 1`. */
  ghost function Sampled(cfg: Retarget, all: seq<TimedWork>): seq<TimedWork> {
    all[|all| - Least(|all|, cfg.window as nat + 1)..]
  }

  /** `w` is what the next block must carry, after the blocks sampled in `all`. */
  ghost predicate IsTarget(cfg: Retarget, all: seq<TimedWork>, w: nat) {
    if |Sampled(cfg, all)| < 2 then w == cfg.minWork as nat
    else exists avg: nat, scaled: nat :: TargetFrom(cfg, Sampled(cfg, all), avg, scaled, w)
  }

  lemma {:induction false} TotalIsSum(s: seq<TimedWork>)
    ensures TotalWork(s) as nat == Least(PlainSum(s), U128_MAX as nat)
  {
    if s != [] {
      TotalIsSum(s[..|s| - 1]);
    }
  }

  lemma QuotientGoes(n: nat, d: nat)
    requires 0 < d
    ensures Goes(n / d, n, d)
  {
    assert n == (n / d) * d + n % d;
  }

  lemma GoesOnce(n: nat, d: nat, q: nat, r: nat)
    requires Goes(q, n, d) && Goes(r, n, d)
    ensures q == r
  {
    LessByFactor(q, r + 1, d);
    LessByFactor(r, q + 1, d);
  }

  lemma AverageIs(s: seq<TimedWork>)
    requires 0 < |s| <= U64_MAX as nat
    ensures IsAverage(s, Average(s) as nat)
  {
    hide TotalWork, PlainSum, Goes;
    TotalIsSum(s);
    QuotientGoes(TotalWork(s) as nat, |s|);
    assert Average(s) as nat == TotalWork(s) as nat / |s|;
  }

  lemma ProductIs(a: u128, b: u128)
    ensures SaturatingMul128(a, b) as nat == Product(a as nat, b as nat)
  {
  }

  lemma ExpectedIs(cfg: Retarget, s: seq<TimedWork>)
    requires 2 <= |s| <= U64_MAX as nat
    ensures Expected(cfg, s) as nat == Due(cfg, |s|)
  {
  }

  lemma ActualIs(s: seq<TimedWork>)
    requires 2 <= |s|
    ensures Actual(s) as nat == Taken(s)
  {
  }

  lemma ScaledIs(cfg: Retarget, s: seq<TimedWork>, avg: u128)
    requires 2 <= |s| <= U64_MAX as nat
    ensures Goes(Scaled(cfg, s, avg) as nat, Product(avg as nat, Due(cfg, |s|)), Taken(s))
  {
    hide Expected, Actual, Due, Taken, Product, Goes, SaturatingMul128;
    ExpectedIs(cfg, s);
    ActualIs(s);
    ProductIs(avg, Expected(cfg, s) as u128);
    var product := SaturatingMul128(avg, Expected(cfg, s) as u128);
    QuotientGoes(product as nat, Actual(s) as nat);
    assert Scaled(cfg, s, avg) as nat == product as nat / Actual(s) as nat;
  }

  lemma FactorIs(cfg: Retarget)
    ensures Factor(cfg) as nat == Most(cfg.maxFactor as nat, 1)
  {
  }

  lemma LowerIs(cfg: Retarget, avg: u128)
    ensures Lower(cfg, avg) as nat == Most(avg as nat / Most(cfg.maxFactor as nat, 1), cfg.minWork as nat)
  {
    FactorIs(cfg);
    hide Factor;
    assert (avg / Factor(cfg)) as nat == avg as nat / Factor(cfg) as nat;
  }

  lemma UpperIs(cfg: Retarget, avg: u128)
    ensures Upper(cfg, avg) as nat == Most(Product(avg as nat, Most(cfg.maxFactor as nat, 1)), cfg.minWork as nat)
  {
    hide Factor, Product, SaturatingMul128;
    FactorIs(cfg);
    ProductIs(avg, Factor(cfg));
  }

  lemma FactorWithin(avg: u128, factor: nat)
    requires 1 <= factor
    ensures avg as nat / factor <= Product(avg as nat, factor)
  {
    QuotientBelow(avg as nat, factor);
  }

  lemma ClampedIsBounded(cfg: Retarget, avg: u128, scaled: u128)
    requires Lower(cfg, avg) <= Upper(cfg, avg)
    ensures Max128(Clamp(scaled, Lower(cfg, avg), Upper(cfg, avg)), cfg.minWork) as nat ==
      Bounded(cfg, avg as nat, scaled as nat)
  {
    hide Lower, Upper, Product;
    LowerIs(cfg, avg);
    UpperIs(cfg, avg);
    FactorWithin(avg, Most(cfg.maxFactor as nat, 1));
    var l := avg as nat / Most(cfg.maxFactor as nat, 1);
  }

  lemma RecentIsSampled(cfg: Retarget, all: seq<TimedWork>)
    ensures Recent(cfg, all) == Sampled(cfg, all)
  {
  }

  /** The target the code computes is this one. */
  lemma NextWorkIsTarget(cfg: Retarget, all: seq<TimedWork>)
    requires cfg.window < U64_MAX
    ensures IsTarget(cfg, all, NextWork(cfg, all) as nat)
  {
    hide Recent, Sampled, Average, Scaled, Lower, Upper, Clamp, Max128, Bounded, IsAverage, Goes, Product, Taken, Due;
    RecentIsSampled(cfg, all);
    var s := Recent(cfg, all);
    if 2 <= |s| {
      var avg := Average(s);
      AverageIs(s);
      ScaledIs(cfg, s, avg);
      BoundsInOrder(cfg, avg);
      ClampedIsBounded(cfg, avg, Scaled(cfg, s, avg));
      assert TargetFrom(cfg, s, avg as nat, Scaled(cfg, s, avg) as nat, NextWork(cfg, all) as nat);
    }
  }

  /** And there is only one. */
  lemma TargetOnce(cfg: Retarget, all: seq<TimedWork>, w: nat, w': nat)
    requires IsTarget(cfg, all, w) && IsTarget(cfg, all, w')
    ensures w == w'
  {
    hide Sampled, Goes, Bounded, Product, Taken, Due, IsAverage;
    var s := Sampled(cfg, all);
    if 2 <= |s| {
      var avg: nat, scaled: nat :| TargetFrom(cfg, s, avg, scaled, w);
      var avg': nat, scaled': nat :| TargetFrom(cfg, s, avg', scaled', w');
      AverageOnce(s, avg, avg');
      GoesOnce(Product(avg, Due(cfg, |s|)), Taken(s), scaled, scaled');
    }
  }

  lemma AverageOnce(s: seq<TimedWork>, avg: nat, avg': nat)
    requires IsAverage(s, avg) && IsAverage(s, avg')
    ensures avg == avg'
  {
    hide Goes;
    GoesOnce(Least(PlainSum(s), U128_MAX as nat), |s|, avg, avg');
  }

  /** Samples within the window, spanning `taken` milliseconds where `due` were expected. */
  ghost predicate Spans(cfg: Retarget, s: seq<TimedWork>, due: nat, taken: nat) {
    && 2 <= |s| <= cfg.window as nat + 1 && 1 <= taken
    && s[|s| - 1].timestampMs as nat == s[0].timestampMs as nat + taken
    && due == (|s| - 1) * cfg.targetIntervalMs as nat && 1 <= due <= U64_MAX as nat
  }

  lemma SpansPlainly(cfg: Retarget, s: seq<TimedWork>, due: nat, taken: nat)
    requires Spans(cfg, s, due, taken)
    ensures Due(cfg, |s|) == due && Taken(s) == taken && Sampled(cfg, s) == s && 2 <= |s|
  {
  }

  /** Neither the floor nor a bound is met. */
  ghost predicate InBetween(cfg: Retarget, avg: nat, w: nat) {
    var factor := Most(cfg.maxFactor as nat, 1);
    cfg.minWork as nat < w && avg / factor < w < avg * factor
  }

  /** Work scales with the time the samples should have taken over the time they took,
      where neither a bound nor a word's limit is in the way. */
  lemma PaceDecides(cfg: Retarget, s: seq<TimedWork>, avg: nat, due: nat, taken: nat, w: nat)
    requires Spans(cfg, s, due, taken) && IsTarget(cfg, s, w) && IsAverage(s, avg) && avg * due <= U128_MAX as nat
    requires InBetween(cfg, avg, w)
    ensures w * taken <= avg * due < (w + 1) * taken
  {
    hide IsTarget, IsAverage, Spans, Goes, InBetween, Bounded;
    var scaled := TargetScales(cfg, s, avg, due, taken, w);
    GoesBelow(scaled, avg * due, taken);
    BetweenBounds(cfg, avg, scaled, w);
    GoesPlainly(w, avg * due, taken);
  }

  lemma GoesPlainly(q: nat, n: nat, d: nat)
    requires Goes(q, n, d)
    ensures q * d <= n < (q + 1) * d
  {
  }

  lemma GoesBelow(q: nat, n: nat, d: nat)
    requires Goes(q, n, d)
    ensures q <= n
  {
    if d > 0 {
      QuotientBelow(q, d);
    }
  }

  lemma BetweenBounds(cfg: Retarget, avg: nat, scaled: nat, w: nat)
    requires w == Bounded(cfg, avg, scaled) && InBetween(cfg, avg, w) && scaled <= U128_MAX as nat
    ensures w == scaled
  {
    var factor := Most(cfg.maxFactor as nat, 1);
    var low, high := avg / factor, avg * factor;
  }

  lemma TargetScales(cfg: Retarget, s: seq<TimedWork>, avg: nat, due: nat, taken: nat, w: nat) returns (scaled: nat)
    requires Spans(cfg, s, due, taken) && IsTarget(cfg, s, w) && IsAverage(s, avg) && avg * due <= U128_MAX as nat
    ensures Goes(scaled, avg * due, taken) && w == Bounded(cfg, avg, scaled)
  {
    hide Sampled, Goes, Bounded, Taken, Due, IsAverage, Spans, Product;
    SpansPlainly(cfg, s, due, taken);
    var avg': nat, r: nat :| TargetFrom(cfg, s, avg', r, w);
    AverageOnce(s, avg, avg');
    ProductPlainly(avg, due);
    scaled := r;
  }

  lemma ProductPlainly(a: nat, b: nat)
    requires a * b <= U128_MAX as nat
    ensures Product(a, b) == a * b
  {
  }

  /** Samples exactly on pace leave the work at their average, above the floor. */
  lemma OnPaceKeepsWork(cfg: Retarget, s: seq<TimedWork>, avg: nat, due: nat, w: nat)
    requires Spans(cfg, s, due, due) && IsTarget(cfg, s, w) && IsAverage(s, avg) && avg * due <= U128_MAX as nat
    ensures w == Most(avg, cfg.minWork as nat)
  {
    hide Goes, Bounded, IsAverage, Spans, IsTarget;
    SpansOnPace(cfg, s, due);
    var scaled := TargetScales(cfg, s, avg, due, due, w);
    GoesWhole(avg, due);
    GoesOnce(avg * due, due, scaled, avg);
    AverageIsWord(s, avg);
    BoundedByItself(cfg, avg);
  }

  lemma SpansOnPace(cfg: Retarget, s: seq<TimedWork>, due: nat)
    requires Spans(cfg, s, due, due)
    ensures 1 <= due
  {
  }

  lemma GoesWhole(a: nat, d: nat)
    requires 1 <= d
    ensures Goes(a, a * d, d)
  {
    assert (a + 1) * d == a * d + d;
  }

  lemma AverageIsWord(s: seq<TimedWork>, avg: nat)
    requires IsAverage(s, avg)
    ensures avg <= U128_MAX as nat
  {
    hide PlainSum, Goes;
    GoesBelow(avg, Least(PlainSum(s), U128_MAX as nat), |s|);
  }

  lemma BoundedByItself(cfg: Retarget, avg: nat)
    requires avg <= U128_MAX as nat
    ensures Bounded(cfg, avg, avg) == Most(avg, cfg.minWork as nat)
  {
    var factor := Most(cfg.maxFactor as nat, 1);
    QuotientBelow(avg, factor);
    var low, high := avg / factor, avg * factor;
  }
}
