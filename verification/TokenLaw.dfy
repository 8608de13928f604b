/** What the limiter must grant: an attempt is refused exactly when granting it would exceed the rate. */
module TokenLaw {
  import opened TokenBucket

  /** Which of the attempts are granted. */
  function Outcomes(cfg: Config, b: Bucket, times: seq<real>): (g: seq<bool>)
    ensures |g| == |times|
  {
    seq(|times|, i requires 0 <= i < |times| => Granted(cfg, StateAfter(cfg, b, times[..i]), times[i]))
  }

  /** How many of the attempts from j on and before i are granted. */
  function Grants(g: seq<bool>, j: nat, i: nat): nat
    requires j <= i <= |g|
    decreases i
  {
    if i == j then 0 else Grants(g, j, i - 1) + if g[i - 1] then 1 else 0
  }

  /** What the bucket and the time since the start leave for attempt i. */
  function LeftSinceStart(cfg: Config, b: Bucket, times: seq<real>, g: seq<bool>, i: nat): real
    requires i < |times| == |g|
  {
    b.tokens + Accrued(cfg, times[i] - b.last) - Grants(g, 0, i) as real
  }

  /** What a bucket full at attempt j and the time since then leave for attempt i. */
  function LeftSince(cfg: Config, times: seq<real>, g: seq<bool>, j: nat, i: nat): real
    requires j <= i < |times| == |g|
  {
    cfg.burst as real + Accrued(cfg, times[i] - times[j]) - Grants(g, j, i) as real
  }

  /** Tokens that attempt i finds. */
  function Found(cfg: Config, b: Bucket, times: seq<real>, i: nat): real
    requires i < |times|
  {
    Replenish(cfg, StateAfter(cfg, b, times[..i]), times[i]).tokens
  }

  /** The tokens found are the least that the start or any full bucket leaves. */
  predicate IsLeast(cfg: Config, b: Bucket, times: seq<real>, g: seq<bool>, i: nat, found: real)
    requires i < |times| == |g|
  {
    && found <= LeftSinceStart(cfg, b, times, g, i)
    && (forall j :: 0 <= j <= i ==> found <= LeftSince(cfg, times, g, j, i))
    && (found == LeftSinceStart(cfg, b, times, g, i) || exists j :: 0 <= j <= i && Leaves(cfg, times, g, j, i, found))
  }

  predicate Leaves(cfg: Config, times: seq<real>, g: seq<bool>, j: nat, i: nat, found: real)
    requires j <= i < |times| == |g|
  {
    found == LeftSince(cfg, times, g, j, i)
  }

  lemma StateNext(cfg: Config, b: Bucket, times: seq<real>, i: nat)
    requires cfg.rate > 0.0 && ValidBucket(cfg, b) && Monotone(b, times) && i < |times|
    ensures var s := StateAfter(cfg, b, times[..i]);
            ValidBucket(cfg, s) && s.last <= times[i] && StateAfter(cfg, b, times[..i + 1]) == AfterAttempt(cfg, s, times[i])
  {
    hide AfterAttempt;
    assert times[..i + 1][..i] == times[..i];
    assert Monotone(b, times[..i]);
    RunKeepsValid(cfg, b, times[..i]);
  }

  lemma FoundNext(cfg: Config, b: Bucket, times: seq<real>, i: nat)
    requires cfg.rate > 0.0 && ValidBucket(cfg, b) && Monotone(b, times) && i + 1 < |times|
    ensures var spent := if Outcomes(cfg, b, times)[i] then 1.0 else 0.0;
            Found(cfg, b, times, i + 1)
            == Least(Found(cfg, b, times, i) - spent + Accrued(cfg, times[i + 1] - times[i]), cfg.burst as real)
  {
    StateNext(cfg, b, times, i);
    hide AfterAttempt, Replenish, Granted, Accrued, StateAfter;
    FoundThen(cfg, StateAfter(cfg, b, times[..i]), times[i], times[i + 1]);
  }

  lemma FoundThen(cfg: Config, s: Bucket, t: real, u: real)
    requires cfg.rate > 0.0 && ValidBucket(cfg, s) && s.last <= t <= u
    ensures var found, spent := Replenish(cfg, s, t).tokens, if Granted(cfg, s, t) then 1.0 else 0.0;
            Replenish(cfg, AfterAttempt(cfg, s, t), u).tokens
            == Least(found - spent + Accrued(cfg, u - t), cfg.burst as real)
  {
    AttemptKeepsValid(cfg, s, t);
    AccruedAdds(cfg, 0.0, 0.0);
    hide Accrued;
  }

  lemma LeftNext(cfg: Config, b: Bucket, times: seq<real>, g: seq<bool>, j: nat, i: nat)
    requires cfg.rate > 0.0 && Monotone(b, times) && j <= i && i + 1 < |times| == |g|
    ensures var gained := Accrued(cfg, times[i + 1] - times[i]) - if g[i] then 1.0 else 0.0;
            && LeftSince(cfg, times, g, j, i + 1) == LeftSince(cfg, times, g, j, i) + gained
            && LeftSinceStart(cfg, b, times, g, i + 1) == LeftSinceStart(cfg, b, times, g, i) + gained
  {
    hide Accrued;
    AccruedAdds(cfg, times[i + 1] - times[i], times[i] - times[j]);
    AccruedAdds(cfg, times[i + 1] - times[i], times[i] - b.last);
  }

  lemma LeftNow(cfg: Config, times: seq<real>, g: seq<bool>, i: nat)
    requires i < |times| == |g|
    ensures LeftSince(cfg, times, g, i, i) == cfg.burst as real
  {
  }

  lemma FoundFirst(cfg: Config, b: Bucket, times: seq<real>)
    requires cfg.rate > 0.0 && ValidBucket(cfg, b) && Monotone(b, times) && times != []
    ensures Found(cfg, b, times, 0)
            == Least(LeftSinceStart(cfg, b, times, Outcomes(cfg, b, times), 0), cfg.burst as real)
  {
    assert times[..0] == [];
    AccruedAdds(cfg, 0.0, 0.0);
    hide Accrued, Outcomes;
  }

  lemma {:induction false} FoundIsLeast(cfg: Config, b: Bucket, times: seq<real>, i: nat)
    requires cfg.rate > 0.0 && ValidBucket(cfg, b) && Monotone(b, times) && i < |times|
    ensures IsLeast(cfg, b, times, Outcomes(cfg, b, times), i, Found(cfg, b, times, i))
  {
    hide LeftSince, LeftSinceStart, Found, Outcomes, Monotone, Accrued;
    var g := Outcomes(cfg, b, times);
    LeftNow(cfg, times, g, i);
    assert Leaves(cfg, times, g, i, i, cfg.burst as real);
    if i == 0 {
      FoundFirst(cfg, b, times);
    } else {
      var h := i - 1;
      var before := Found(cfg, b, times, h);
      FoundIsLeast(cfg, b, times, h);
      FoundNext(cfg, b, times, h);
      var gained := Accrued(cfg, times[i] - times[h]) - if g[h] then 1.0 else 0.0;
      forall j | 0 <= j < i
        ensures LeftSince(cfg, times, g, j, i) == LeftSince(cfg, times, g, j, h) + gained
      {
        LeftNext(cfg, b, times, g, j, h);
      }
      LeftNext(cfg, b, times, g, 0, h);
      if j :| 0 <= j <= h && Leaves(cfg, times, g, j, h, before) {
        assert Leaves(cfg, times, g, j, i, before + gained);
      }
    }
  }

  /**
   * Every run: an attempt is granted exactly if the grants so far and this one are covered by what the
   * bucket held at the start and the time since, and from every earlier attempt on, itself included, by
   * a full bucket and the time since.
   */
  lemma GrantedExactly(cfg: Config, b: Bucket, times: seq<real>, i: nat)
    requires cfg.rate > 0.0 && ValidBucket(cfg, b) && Monotone(b, times) && i < |times|
    ensures var g := Outcomes(cfg, b, times);
            g[i] <==>
            && (Grants(g, 0, i) + 1) as real <= b.tokens + cfg.rate * (times[i] - b.last)
            && forall j :: 0 <= j <= i ==>
                 (Grants(g, j, i) + 1) as real <= cfg.burst as real + cfg.rate * (times[i] - times[j])
  {
    hide Outcomes, Found, Monotone, LeftSince, LeftSinceStart;
    var g := Outcomes(cfg, b, times);
    FoundIsLeast(cfg, b, times, i);
    GrantedWhenFound(cfg, b, times, i);
    forall j | 0 <= j <= i
      ensures (Grants(g, j, i) + 1) as real <= cfg.burst as real + cfg.rate * (times[i] - times[j]) <==>
              LeftSince(cfg, times, g, j, i) >= 1.0
    {
      Covered(cfg, b, times, g, j, i);
    }
    Covered(cfg, b, times, g, 0, i);
  }

  lemma GrantedWhenFound(cfg: Config, b: Bucket, times: seq<real>, i: nat)
    requires i < |times|
    ensures Outcomes(cfg, b, times)[i] <==> Found(cfg, b, times, i) >= 1.0
  {
    hide Replenish, StateAfter;
  }

  lemma AccruedIs(cfg: Config, elapsed: real)
    ensures Accrued(cfg, elapsed) == cfg.rate * elapsed
  {
  }

  lemma Covered(cfg: Config, b: Bucket, times: seq<real>, g: seq<bool>, j: nat, i: nat)
    requires j <= i < |times| == |g|
    ensures (Grants(g, j, i) + 1) as real <= cfg.burst as real + cfg.rate * (times[i] - times[j]) <==>
            LeftSince(cfg, times, g, j, i) >= 1.0
    ensures (Grants(g, 0, i) + 1) as real <= b.tokens + cfg.rate * (times[i] - b.last) <==>
            LeftSinceStart(cfg, b, times, g, i) >= 1.0
  {
    hide Grants, Accrued;
    AccruedIs(cfg, times[i] - times[j]);
    AccruedIs(cfg, times[i] - b.last);
    OneMore(Grants(g, j, i), cfg.burst as real, cfg.rate * (times[i] - times[j]));
    OneMore(Grants(g, 0, i), b.tokens, cfg.rate * (times[i] - b.last));
  }

  lemma OneMore(count: nat, held: real, accrued: real)
    ensures (count + 1) as real <= held + accrued <==> held + accrued - count as real >= 1.0
  {
  }
}
