/** The token bucket: how many acquisitions any interleaving of tasks is granted. */
module TokenBucket {

  datatype Config = Config(rate: real, burst: nat)

  datatype Bucket = Bucket(tokens: real, last: real)

  predicate ValidBucket(cfg: Config, b: Bucket) {
    0.0 <= b.tokens <= cfg.burst as real
  }

  function Least(a: real, b: real): real {
    if a <= b then a else b
  }

  /** Tokens that accrue in a stretch of time. */
  function Accrued(cfg: Config, elapsed: real): real {
    cfg.rate * elapsed
  }

  lemma AccruedAdds(cfg: Config, a: real, b: real)
    requires cfg.rate > 0.0 && a >= 0.0 && b >= 0.0
    ensures Accrued(cfg, a + b) == Accrued(cfg, a) + Accrued(cfg, b)
    ensures Accrued(cfg, a) >= 0.0 && Accrued(cfg, b) >= 0.0
  {
  }

  /** The time in which one token accrues. */
  function Pause(cfg: Config): real
    requires cfg.rate > 0.0
  {
    1.0 / cfg.rate
  }

  lemma PauseIs(cfg: Config)
    requires cfg.rate > 0.0
    ensures Pause(cfg) == 1.0 / cfg.rate > 0.0
  {
  }

  lemma AccruedOfNap(cfg: Config, nap: real)
    requires cfg.rate > 0.0
    ensures nap >= Pause(cfg) ==> Accrued(cfg, nap) >= 1.0
    ensures nap > 0.0 ==> Accrued(cfg, nap) > 0.0
    ensures Accrued(cfg, 0.0) == 0.0
  {
    assert cfg.rate * (1.0 / cfg.rate) == 1.0;
    if nap >= 1.0 / cfg.rate {
      assert cfg.rate * (nap - 1.0 / cfg.rate) >= 0.0;
    }
  }

  /** The account of a waiting task that naps for a pause. */
  lemma Napped(cfg: Config, start: real, resumed: real, t: real, due: real)
    requires cfg.rate > 0.0 && start <= resumed && resumed + Pause(cfg) <= t <= due
    ensures Accrued(cfg, t - start) >= Accrued(cfg, resumed - start) + 1.0
    ensures Accrued(cfg, due - resumed) >= Accrued(cfg, due - t) + 1.0 && Accrued(cfg, due - t) >= 0.0
  {
    PauseIs(cfg);
    AccruedOfNap(cfg, t - resumed);
    hide Accrued, Pause;
    AccruedAdds(cfg, t - resumed, resumed - start);
    AccruedAdds(cfg, due - t, t - resumed);
  }

  lemma NotDue(cfg: Config, start: real, resumed: real, due: real)
    requires cfg.rate > 0.0 && start <= resumed < due
    ensures 0.0 <= Accrued(cfg, resumed - start) < Accrued(cfg, due - start) && Accrued(cfg, due - resumed) > 0.0
  {
    AccruedOfNap(cfg, due - resumed);
    hide Accrued, Pause;
    AccruedAdds(cfg, due - resumed, resumed - start);
  }

  /** After a pause there is a token. */
  lemma GrantedAfterPause(cfg: Config, b: Bucket, now: real)
    requires cfg.rate > 0.0 && cfg.burst >= 1 && ValidBucket(cfg, b) && now >= b.last + Pause(cfg)
    ensures Granted(cfg, b, now)
  {
    PauseIs(cfg);
    AccruedOfNap(cfg, now - b.last);
    hide Accrued, Pause;
  }

  function Replenish(cfg: Config, b: Bucket, now: real): Bucket {
    if now > b.last
    then Bucket(Least(b.tokens + Accrued(cfg, now - b.last), cfg.burst as real), now)
    else b
  }

  /** One pass through the lock at a given instant: replenish, then take a token if there is one. */
  function AfterAttempt(cfg: Config, b: Bucket, now: real): Bucket {
    var r := Replenish(cfg, b, now);
    if r.tokens >= 1.0 then r.(tokens := r.tokens - 1.0) else r
  }

  predicate Granted(cfg: Config, b: Bucket, now: real) {
    Replenish(cfg, b, now).tokens >= 1.0
  }

  lemma LastAttempt(cfg: Config, b: Bucket, now: real)
    requires b.last <= now
    ensures AfterAttempt(cfg, b, now).last == now
  {
  }

  // ----- any interleaving is a sequence of attempts in lock order -----

  function StateAfter(cfg: Config, b: Bucket, times: seq<real>): Bucket {
    if times == [] then b else AfterAttempt(cfg, StateAfter(cfg, b, times[..|times| - 1]), times[|times| - 1])
  }

  /** Acquisitions granted at instants from s to t. */
  function GrantedWithin(cfg: Config, b: Bucket, times: seq<real>, s: real, t: real): nat {
    if times == [] then 0
    else
      var n := |times| - 1;
      GrantedWithin(cfg, b, times[..n], s, t)
      + if s <= times[n] <= t && Granted(cfg, StateAfter(cfg, b, times[..n]), times[n]) then 1 else 0
  }

  predicate Monotone(b: Bucket, times: seq<real>) {
    && (forall i :: 0 <= i < |times| ==> b.last <= times[i])
    && forall i, j :: 0 <= i <= j < |times| ==> times[i] <= times[j]
  }

  lemma AttemptKeepsValid(cfg: Config, b: Bucket, now: real)
    requires cfg.rate > 0.0 && ValidBucket(cfg, b)
    ensures ValidBucket(cfg, AfterAttempt(cfg, b, now))
  {
    if now > b.last {
      AccruedAdds(cfg, now - b.last, 0.0);
    }
    hide Accrued;
  }

  lemma {:induction false} RunKeepsValid(cfg: Config, b: Bucket, times: seq<real>)
    requires cfg.rate > 0.0 && ValidBucket(cfg, b) && Monotone(b, times)
    ensures ValidBucket(cfg, StateAfter(cfg, b, times))
    ensures StateAfter(cfg, b, times).last == if times == [] then b.last else times[|times| - 1]
  {
    if times != [] {
      var n := |times| - 1;
      RunKeepsValid(cfg, b, times[..n]);
      AttemptKeepsValid(cfg, StateAfter(cfg, b, times[..n]), times[n]);
    }
  }

  /** Tokens and the grant of one attempt together come from what was there and what has accrued. */
  lemma AttemptSpends(cfg: Config, b: Bucket, now: real)
    requires cfg.rate > 0.0 && ValidBucket(cfg, b) && b.last <= now
    ensures var spent := AfterAttempt(cfg, b, now).tokens + if Granted(cfg, b, now) then 1.0 else 0.0;
            spent <= cfg.burst as real && spent <= b.tokens + Accrued(cfg, now - b.last)
  {
    AccruedAdds(cfg, now - b.last, 0.0);
    hide Accrued;
  }

  /** Before the window nothing counts; inside it, grants and tokens together grow with time only. */
  lemma {:induction false} WindowAccount(cfg: Config, b: Bucket, times: seq<real>, s: real, t: real)
    requires cfg.rate > 0.0 && ValidBucket(cfg, b) && Monotone(b, times) && s <= t && times != []
    ensures var now := times[|times| - 1];
            var count := GrantedWithin(cfg, b, times, s, t) as real;
            && (now < s ==> count == 0.0)
            && (s <= now <= t ==>
                  count + StateAfter(cfg, b, times).tokens <= cfg.burst as real + Accrued(cfg, now - s))
            && count <= cfg.burst as real + Accrued(cfg, t - s)
  {
    hide Accrued, AfterAttempt, Granted;
    var n := |times| - 1;
    var now := times[n];
    RunKeepsValid(cfg, b, times[..n]);
    RunKeepsValid(cfg, b, times);
    AttemptSpends(cfg, StateAfter(cfg, b, times[..n]), now);
    AccruedAdds(cfg, t - s, 0.0);
    if n > 0 {
      WindowAccount(cfg, b, times[..n], s, t);
      var previous := times[n - 1];
      assert times[..n][n - 1] == previous <= now;
      AccruedAdds(cfg, now - previous, 0.0);
      if s <= previous && now <= t {
        AccruedAdds(cfg, now - previous, previous - s);
      }
    }
    if s <= now <= t {
      AccruedAdds(cfg, t - now, now - s);
    }
  }

  /** In every window [s, t], however tasks interleave, at most burst + rate * (t - s) are granted. */
  lemma WindowBound(cfg: Config, b: Bucket, times: seq<real>, s: real, t: real)
    requires cfg.rate > 0.0 && ValidBucket(cfg, b) && Monotone(b, times) && s <= t
    ensures GrantedWithin(cfg, b, times, s, t) as real <= cfg.burst as real + Accrued(cfg, t - s)
    ensures ValidBucket(cfg, StateAfter(cfg, b, times))
  {
    hide Accrued;
    RunKeepsValid(cfg, b, times);
    AccruedAdds(cfg, t - s, 0.0);
    if times != [] {
      WindowAccount(cfg, b, times, s, t);
    }
  }

  // ----- the bound is reached -----

  /** A full bucket emptied at once, then one attempt per 1/rate. */
  function Eager(cfg: Config, n: nat): (times: seq<real>)
    requires cfg.rate > 0.0
    ensures |times| == n
  {
    seq(n, i => if i < cfg.burst then 0.0 else (i - cfg.burst + 1) as real / cfg.rate)
  }

  lemma {:induction false} EagerIsGranted(cfg: Config, n: nat)
    requires cfg.rate > 0.0 && cfg.burst >= 1
    ensures var b := Bucket(cfg.burst as real, 0.0);
            && Monotone(b, Eager(cfg, n))
            && StateAfter(cfg, b, Eager(cfg, n)) == Drained(cfg, n)
            && forall t :: (forall i :: 0 <= i < n ==> Eager(cfg, n)[i] <= t) ==>
                 GrantedWithin(cfg, b, Eager(cfg, n), 0.0, t) == n
  {
    EagerMonotone(cfg, n);
    var b, times := Bucket(cfg.burst as real, 0.0), Eager(cfg, n);
    if n > 0 {
      var init := Eager(cfg, n - 1);
      EagerIsGranted(cfg, n - 1);
      assert times[..n - 1] == init;
      EagerStep(cfg, n - 1);
      hide Accrued, Eager, Monotone, Granted, AfterAttempt;
      forall t | forall i :: 0 <= i < n ==> times[i] <= t
        ensures GrantedWithin(cfg, b, times, 0.0, t) == n
      {
        assert forall i :: 0 <= i < n - 1 ==> init[i] == times[i];
        assert GrantedWithin(cfg, b, init, 0.0, t) == n - 1;
        assert times[n - 1] <= t;
      }
    }
  }

  /** State of the eager run after n attempts, all of them granted. */
  function Drained(cfg: Config, n: nat): Bucket
    requires cfg.rate > 0.0
  {
    if n <= cfg.burst then Bucket((cfg.burst - n) as real, 0.0)
    else Bucket(0.0, (n - cfg.burst) as real / cfg.rate)
  }

  lemma EagerStep(cfg: Config, n: nat)
    requires cfg.rate > 0.0 && cfg.burst >= 1
    ensures var now := Eager(cfg, n + 1)[n];
            && 0.0 <= now
            && Granted(cfg, Drained(cfg, n), now) && AfterAttempt(cfg, Drained(cfg, n), now) == Drained(cfg, n + 1)
  {
    hide Accrued;
    if n >= cfg.burst {
      StepIsOneToken(cfg, n - cfg.burst);
      assert 0 as real / cfg.rate == 0.0;
    }
  }

  lemma StepIsOneToken(cfg: Config, j: int)
    requires cfg.rate > 0.0 && j >= 0
    ensures (j + 1) as real / cfg.rate > j as real / cfg.rate >= 0.0
    ensures Accrued(cfg, (j + 1) as real / cfg.rate - j as real / cfg.rate) == 1.0
  {
  }

  lemma EagerMonotone(cfg: Config, n: nat)
    requires cfg.rate > 0.0
    ensures Monotone(Bucket(cfg.burst as real, 0.0), Eager(cfg, n))
  {
    var times := Eager(cfg, n);
    forall i, j | 0 <= i <= j < n
      ensures 0.0 <= times[i] <= times[j]
    {
      QuotientGrows(i - cfg.burst + 1, j - cfg.burst + 1, cfg.rate);
    }
  }

  lemma QuotientGrows(i: int, j: int, rate: real)
    requires rate > 0.0 && i <= j
    ensures i as real / rate <= j as real / rate
    ensures 0 <= i ==> 0.0 <= i as real / rate
  {
  }

  /** For every k there is a run that is granted burst + k acquisitions in a window of k/rate: the bound is exact. */
  lemma WindowBoundIsReached(cfg: Config, k: nat)
    requires cfg.rate > 0.0 && cfg.burst >= 1
    ensures var b, times, t := Bucket(cfg.burst as real, 0.0), Eager(cfg, cfg.burst + k), k as real / cfg.rate;
            && Monotone(b, times)
            && GrantedWithin(cfg, b, times, 0.0, t) as real == cfg.burst as real + Accrued(cfg, t)
  {
    var n := cfg.burst + k;
    var times := Eager(cfg, n);
    EagerIsGranted(cfg, n);
    assert Accrued(cfg, k as real / cfg.rate) == k as real;
    forall i | 0 <= i < n
      ensures times[i] <= k as real / cfg.rate
    {
      hide Accrued;
      QuotientGrows(i - cfg.burst + 1, k, cfg.rate);
      QuotientGrows(0, k, cfg.rate);
    }
    hide Accrued, Monotone, Eager, Drained;
  }
}
