/** When a track that keeps failing may be tried again: exponential backoff, clamped in the exponent
    and capped at 30 days. Times are reals, in seconds. */
module RetryBackoff {
  import opened Reals
  import opened Wrappers

  const BACKOFF_MAX_SECONDS := 2592000.0
  const BACKOFF_MAX_EXPONENT: nat := 20

  /** `retryCooldown` is the scheduler's own cooldown in seconds, 0 when it is off; `maxRetries` is
      0 when tracks are never given up. */
  datatype Config = Config(maxRetries: int, backoff: bool, retryCooldown: real)

  function Pow2(k: nat): (p: real)
    ensures p >= 1.0
  {
    if k == 0 then 1.0 else 2.0 * Pow2(k - 1)
  }

  function Base(cfg: Config): real {
    if cfg.retryCooldown != 0.0 then cfg.retryCooldown else 86400.0
  }

  function Exponent(failures: int): (e: nat)
    ensures e <= BACKOFF_MAX_EXPONENT
  {
    var e := if failures - 1 > 0 then failures - 1 else 0;
    if e < BACKOFF_MAX_EXPONENT then e else BACKOFF_MAX_EXPONENT
  }

  function Capped(base: real, factor: real): real {
    Min(base * factor, BACKOFF_MAX_SECONDS)
  }

  /** The wait the code computes. */
  function Wait(base: real, failures: int): real {
    Capped(base, Pow2(Exponent(failures)))
  }

  /** None: given up for good. */
  function RetryAt(failures: int, lastFailure: real, cfg: Config): Option<real> {
    if cfg.maxRetries > 0 && failures >= cfg.maxRetries then None
    else if !cfg.backoff then Some(0.0)
    else Some(lastFailure + Wait(Base(cfg), failures))
  }

  /** The wait as documented, with no clamp on the exponent. */
  function DocumentedWait(base: real, failures: int): real
    requires failures >= 1
  {
    Capped(base, Pow2(failures - 1))
  }

  lemma {:induction false} Pow2Grows(j: nat, k: nat)
    requires j <= k
    ensures Pow2(j) <= Pow2(k)
    decreases k
  {
    if j < k {
      Pow2Grows(j, k - 1);
    }
  }

  lemma Scale(base: real, x: real, y: real)
    requires base >= 0.0 && x <= y
    ensures base * x <= base * y
  {
    assert base * (y - x) >= 0.0;
  }

  lemma {:induction false} PowAdd(j: nat, k: nat)
    ensures Pow2(j + k) == Pow2(j) * Pow2(k)
  {
    if k > 0 {
      PowAdd(j, k - 1);
    }
  }

  lemma ClampFactor()
    ensures Pow2(BACKOFF_MAX_EXPONENT) == 1048576.0
  {
    assert Pow2(5) == 32.0;
    assert Pow2(10) == 1024.0 by { PowAdd(5, 5); }
    PowAdd(10, 10);
  }

  /** A larger factor never shortens the wait. */
  lemma CappedGrows(base: real, p: real, q: real)
    requires base > 0.0 && p <= q
    ensures Capped(base, p) <= Capped(base, q)
  {
    var x, y := base * p, base * q;
    assert x <= y by { Scale(base, p, q); }
    assert Capped(base, p) == Min(x, BACKOFF_MAX_SECONDS) && Capped(base, q) == Min(y, BACKOFF_MAX_SECONDS);
  }

  /** Below the cap, doubling the factor lengthens the wait. */
  lemma BelowTheCap(base: real, p: real)
    requires base > 0.0 && p >= 1.0 && Capped(base, p) < BACKOFF_MAX_SECONDS
    ensures Capped(base, p) < Capped(base, 2.0 * p)
  {
    var wait := base * p;
    Scale(base, 1.0, p);
    assert base * (2.0 * p) == wait + wait;
  }

  /** Where the clamped wait reaches the cap, the clamp on the exponent is hidden. */
  lemma ClampHidden(base: real, clamp: nat, failures: int)
    requires base > 0.0 && failures >= 1 && clamp == BACKOFF_MAX_EXPONENT
    requires Capped(base, Pow2(clamp)) == BACKOFF_MAX_SECONDS
    ensures Wait(base, failures) == DocumentedWait(base, failures)
  {
    var exponent: nat := failures - 1;
    if exponent > clamp {
      assert Exponent(failures) == clamp;
      Pow2Grows(clamp, exponent);
      CappedGrows(base, Pow2(clamp), Pow2(exponent));
    } else {
      assert Exponent(failures) == exponent;
    }
  }

  /** Where it does not, the clamp shows as soon as it takes effect. */
  lemma ClampShows(base: real, clamp: nat)
    requires base > 0.0 && clamp == BACKOFF_MAX_EXPONENT
    requires Capped(base, Pow2(clamp)) < BACKOFF_MAX_SECONDS
    ensures Wait(base, clamp + 2) < DocumentedWait(base, clamp + 2)
  {
    assert Exponent(clamp + 2) == clamp;
    assert Pow2(clamp + 1) == 2.0 * Pow2(clamp);
    BelowTheCap(base, Pow2(clamp));
  }

  /** The clamp on the exponent never shows, for any number of failures, exactly when the clamped
      wait already reaches the cap. For whole seconds that is a base of at least 3. */
  lemma ClampNeverShows(base: real)
    requires base > 0.0
    ensures (forall failures :: failures >= 1 ==> Wait(base, failures) == DocumentedWait(base, failures))
            <==> base * 1048576.0 >= BACKOFF_MAX_SECONDS
    ensures base >= 3.0 ==> base * 1048576.0 >= BACKOFF_MAX_SECONDS
    ensures base <= 2.0 ==> base * 1048576.0 < BACKOFF_MAX_SECONDS
  {
    var clamp := BACKOFF_MAX_EXPONENT;
    ClampFactor();
    assert Capped(base, Pow2(clamp)) == Min(base * 1048576.0, BACKOFF_MAX_SECONDS);
    if base * 1048576.0 >= BACKOFF_MAX_SECONDS {
      forall failures | failures >= 1
        ensures Wait(base, failures) == DocumentedWait(base, failures)
      {
        ClampHidden(base, clamp, failures);
      }
    } else {
      ClampShows(base, clamp);
    }
  }

  /** More failures never shorten the wait. */
  lemma WaitGrows(base: real, j: int, k: int)
    requires base > 0.0 && j <= k
    ensures Wait(base, j) <= Wait(base, k)
  {
    Pow2Grows(Exponent(j), Exponent(k));
    CappedGrows(base, Pow2(Exponent(j)), Pow2(Exponent(k)));
  }

  /** The wait is never shorter than the base or 30 days, and never longer than 30 days. */
  lemma WaitBounds(base: real, failures: int)
    requires base > 0.0
    ensures Min(base, BACKOFF_MAX_SECONDS) <= Wait(base, failures) <= BACKOFF_MAX_SECONDS
  {
    CappedGrows(base, 1.0, Pow2(Exponent(failures)));
    assert Capped(base, 1.0) == Min(base, BACKOFF_MAX_SECONDS);
  }

  lemma CappedDoubles(base: real, p: real)
    requires base >= 0.0 && p >= 1.0
    ensures Capped(base, 2.0 * p) == Min(2.0 * Capped(base, p), BACKOFF_MAX_SECONDS)
  {
    var wait := base * p;
    assert base * (2.0 * p) == 2.0 * wait;
  }

  /** After the first failure the wait is the scheduler's own cooldown, or a day if that is off, and at most
      30 days; each failure up to the twentieth doubles the one before, up to the cap. */
  lemma WaitDoubles(cfg: Config, failures: int)
    requires cfg.retryCooldown >= 0.0
    ensures cfg.retryCooldown == 0.0 ==> Wait(Base(cfg), 1) == 86400.0
    ensures cfg.retryCooldown > 0.0 ==> Wait(Base(cfg), 1) == Min(cfg.retryCooldown, BACKOFF_MAX_SECONDS)
    ensures 1 <= failures <= BACKOFF_MAX_EXPONENT ==>
              Wait(Base(cfg), failures + 1) == Min(2.0 * Wait(Base(cfg), failures), BACKOFF_MAX_SECONDS)
  {
    if 1 <= failures <= BACKOFF_MAX_EXPONENT {
      assert Exponent(failures) == failures - 1 && Exponent(failures + 1) == failures;
      CappedDoubles(Base(cfg), Pow2(failures - 1));
    }
  }

  // ----- which tracks of an album are deferred

  datatype Count = Count(failures: int, lastFailure: real)

  datatype Deferral = Deferral(failures: int, retryAt: Option<real>)

  function Deferred(count: Count, cfg: Config): Deferral {
    Deferral(count.failures, RetryAt(count.failures, count.lastFailure, cfg))
  }

  /** Whether a track with this history waits at time `now`. */
  predicate Waits(count: Count, cfg: Config, now: real) {
    var retryAt := RetryAt(count.failures, count.lastFailure, cfg);
    retryAt.None? || now < retryAt.value
  }

  /** The titles to skip this run. `counts` is None when the history could not be read. */
  method ComputeDeferredTracks(albumId: Option<int>, titles: seq<string>, counts: Option<map<string, Count>>,
                               cfg: Config, now: real)
    returns (deferred: map<string, Deferral>)
    requires now >= 0.0
    ensures albumId.None? || albumId.value < 0 || counts.None? ==> deferred == map[]
    ensures albumId.Some? && albumId.value >= 0 && counts.Some? ==>
              forall t :: t in deferred <==> t in titles && t in counts.value && Waits(counts.value[t], cfg, now)
    ensures counts.Some? ==>
              forall t :: t in deferred ==> t in counts.value && deferred[t] == Deferred(counts.value[t], cfg)
    ensures counts.Some? ==>
              forall t :: t in deferred ==>
                && t in counts.value && deferred[t].failures == counts.value[t].failures
                && (deferred[t].retryAt.None? || now < deferred[t].retryAt.value)
  {
    deferred := map[];
    if albumId.None? || albumId.value < 0 || (!cfg.backoff && cfg.maxRetries <= 0) || counts.None? {
      return;
    }
    var known := counts.value;
    for i := 0 to |titles|
      invariant forall t :: t in deferred <==> t in titles[..i] && t in known && Waits(known[t], cfg, now)
      invariant forall t :: t in deferred ==> deferred[t] == Deferred(known[t], cfg)
    {
      var title := titles[i];
      assert titles[..i + 1] == titles[..i] + [title];
      if title !in known {
        continue;
      }
      var info := known[title];
      var retryAt := RetryAt(info.failures, info.lastFailure, cfg);
      if retryAt.None? || now < retryAt.value {
        deferred := deferred[title := Deferral(info.failures, retryAt)];
      }
    }
    assert titles[..|titles|] == titles;
  }

  /** A track that waits has been given up, or failed within the last 30 days; and once its wait is
      over it does not wait any more. */
  lemma NoOneWaitsLongerThanThirtyDays(count: Count, cfg: Config, now: real)
    requires cfg.retryCooldown >= 0.0 && now >= 0.0
    ensures Waits(count, cfg, now) ==>
              (cfg.maxRetries > 0 && count.failures >= cfg.maxRetries)
              || (cfg.backoff && now < count.lastFailure + BACKOFF_MAX_SECONDS)
    ensures !(cfg.maxRetries > 0 && count.failures >= cfg.maxRetries) && cfg.backoff ==>
              (Waits(count, cfg, now) <==> now - count.lastFailure < Wait(Base(cfg), count.failures))
  {
    WaitBounds(Base(cfg), count.failures);
  }

  /** A track waits for good exactly if it has failed as often as is allowed. */
  lemma WaitsForGoodExactlyWhen(count: Count, cfg: Config)
    ensures (forall now :: now >= 0.0 ==> Waits(count, cfg, now))
            <==> cfg.maxRetries > 0 && count.failures >= cfg.maxRetries
    ensures !cfg.backoff && !(cfg.maxRetries > 0 && count.failures >= cfg.maxRetries) ==>
              forall now :: now >= 0.0 ==> !Waits(count, cfg, now)
  {
    var retryAt := RetryAt(count.failures, count.lastFailure, cfg);
    if retryAt.Some? {
      assert !Waits(count, cfg, Max(retryAt.value, 0.0));
    }
  }
}
