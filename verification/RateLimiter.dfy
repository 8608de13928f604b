/** The rate limiter object and its acquire loop. */
module RateLimiter {
  import opened TokenBucket

  /** A monotonic clock; time passes by any amount between two readings. */
  class Clock {
    var now: real
    ghost var late: real

    /** Time that passes in between counts as lateness. */
    method Read() returns (t: real)
      modifies this
      ensures t == now >= old(now) && late - old(late) == now - old(now)
    {
      var passed: real :| passed >= 0.0;
      now, late := now + passed, late + passed;
      t := now;
    }

    method Sleep(duration: real)
      modifies this
      ensures now >= old(now) && now >= old(now) + duration
      ensures duration >= 0.0 ==> late - old(late) == now - old(now) - duration
    {
      var overrun: real :| overrun >= 0.0;
      now, late := now + (if duration >= 0.0 then duration else 0.0) + overrun, late + overrun;
    }
  }

  class TokenBucketRateLimiter {
    const cfg: Config
    const clock: Clock
    var bucket: Bucket

    ghost predicate Valid()
      reads this, clock
    {
      cfg.rate > 0.0 && ValidBucket(cfg, bucket) && bucket.last <= clock.now
    }

    constructor (rate: real, burstSize: nat, clock: Clock)
      requires rate > 0.0
      modifies clock
      ensures Valid() && cfg == Config(rate, burstSize) && this.clock == clock
      ensures bucket == Bucket(burstSize as real, clock.now)
    {
      cfg := Config(rate, burstSize);
      this.clock := clock;
      var now := clock.Read();
      bucket := Bucket(burstSize as real, now);
    }

    /** The section under the lock. */
    method TryAcquire() returns (granted: bool)
      requires Valid()
      modifies this, clock
      ensures Valid() && clock.now >= old(clock.now) && clock.late - old(clock.late) == clock.now - old(clock.now)
      ensures bucket == AfterAttempt(cfg, old(bucket), clock.now)
      ensures granted == Granted(cfg, old(bucket), clock.now)
    {
      var now := clock.Read();
      var elapsed := now - bucket.last;
      AttemptKeepsValid(cfg, bucket, now);
      if elapsed > 0.0 {
        bucket := Bucket(Least(bucket.tokens + Accrued(cfg, elapsed), cfg.burst as real), now);
      }
      granted := bucket.tokens >= 1.0;
      if granted {
        bucket := bucket.(tokens := bucket.tokens - 1.0);
      }
    }

    /** Whatever other tasks do to the bucket while this one does not hold the lock. */
    method OtherTasks(contended: bool)
      requires Valid()
      modifies this
      ensures Valid() && (!contended ==> bucket == old(bucket))
    {
      if contended {
        var b: Bucket :| ValidBucket(cfg, b) && b.last <= clock.now;
        bucket := b;
      }
    }

    /**
     * Wait for a token until the deadline. The number of attempts is bounded by the timeout; giving
     * up happens only at or after the deadline; and without contention two attempts are enough.
     */
    method Acquire(timeout: real, contended: bool) returns (granted: bool, ghost deadline: real, ghost attempts: nat)
      requires Valid()
      modifies this, clock
      ensures Valid() && deadline >= old(clock.now) + timeout
      ensures attempts >= 1 && (attempts == 1 || (attempts - 1) as real < Accrued(cfg, timeout))
      ensures !granted ==> clock.now >= deadline
      ensures !contended && cfg.burst >= 1 ==> attempts <= 2 && (attempts == 2 ==> granted)
      ensures !contended && cfg.burst >= 1 && timeout > Pause(cfg) + (clock.late - old(clock.late)) ==> granted
    {
      var start := clock.Read();
      var due := start + timeout;
      deadline, attempts := due, 0;
      ghost var resumed := start;
      hide Accrued, Pause, AfterAttempt, Replenish, Granted;
      PauseIs(cfg);
      while true
        invariant Valid() && deadline == due == start + timeout && start <= resumed <= clock.now
        invariant attempts == 0 ==> resumed == start
        invariant attempts > 0 ==> resumed < due && attempts as real <= Accrued(cfg, resumed - start)
        invariant !contended && cfg.burst >= 1 ==> attempts <= 1
        invariant !contended && attempts > 0 ==> clock.now >= bucket.last + Pause(cfg)
        invariant attempts == 0 ==> clock.now - old(clock.now) == clock.late - old(clock.late)
        decreases Accrued(cfg, due - resumed)
      {
        if resumed < due {
          NotDue(cfg, start, resumed, due);
        }
        OtherTasks(contended);
        ghost var entered := bucket;
        granted := TryAcquire();
        attempts := attempts + 1;
        if cfg.burst >= 1 && clock.now >= entered.last + Pause(cfg) {
          GrantedAfterPause(cfg, entered, clock.now);
        }
        if granted {
          return;
        }
        LastAttempt(cfg, entered, clock.now);
        var t := clock.Read();
        var remaining := due - t;
        if remaining <= 0.0 {
          return;
        }
        var nap := Least(Pause(cfg), remaining);
        clock.Sleep(nap);
        t := clock.Read();
        if t >= due {
          return;
        }
        Napped(cfg, start, resumed, t, due);
        resumed := t;
      }
    }
  }
}
