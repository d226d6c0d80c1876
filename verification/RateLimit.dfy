/** The token bucket of internal/rsyncwire/ratelimit.go, with reals for its floats. */
module RateLimit {
  datatype Bucket = Bucket(tokens: real, maxTokens: real, lastReplenish: real)

  /** Entering Wait: an oversized request raises the cap. */
  function Raise(b: Bucket, n: real): Bucket {
    if n > b.maxTokens then b.(maxTokens := n) else b
  }

  function Replenish(b: Bucket, rate: real, now: real): Bucket {
    var tokens := b.tokens + (now - b.lastReplenish) * rate;
    b.(tokens := if tokens > b.maxTokens then b.maxTokens else tokens, lastReplenish := now)
  }

  /** One pass of the loop in Wait: replenish, then take n tokens if they are there. */
  function Attempt(b: Bucket, rate: real, n: real, now: real): (Bucket, bool) {
    var r := Replenish(b, rate, now);
    if r.tokens >= n then
      var left := r.tokens - n;
      (Bucket(left, if r.maxTokens > rate && left < rate then rate else r.maxTokens, now), true)
    else (r, false)
  }

  class RateLimiter {
    const bytesPerSec: int
    var tokens: real
    var maxTokens: real
    var lastReplenish: real

    function State(): Bucket
      reads this
    {
      Bucket(tokens, maxTokens, lastReplenish)
    }

    constructor (kibPerSec: int, now: real)
      requires kibPerSec > 0
      ensures bytesPerSec == kibPerSec * 1024
      ensures State() == Start(bytesPerSec as real, now)
    {
      bytesPerSec := kibPerSec * 1024;
      tokens := (kibPerSec * 1024) as real;
      maxTokens := (kibPerSec * 1024) as real;
      lastReplenish := now;
    }

    /** The cap adjustment on entry. */
    method Enter(n: int)
      modifies this
      ensures State() == Raise(old(State()), n as real)
    {
      if n as real > maxTokens {
        maxTokens := n as real;
      }
    }

    /** One critical section of the loop; `wait` is how long to sleep when the tokens do not suffice. */
    method TryTake(n: int, now: real) returns (granted: bool, wait: real)
      requires bytesPerSec > 0
      modifies this
      ensures (State(), granted) == Attempt(old(State()), bytesPerSec as real, n as real, now)
      ensures granted ==> wait == 0.0
      ensures !granted ==> wait == (n as real - tokens) / bytesPerSec as real
    {
      hide Replenish;
      var elapsed := now - lastReplenish;
      var gain := elapsed * bytesPerSec as real;
      ReplenishGains(State(), bytesPerSec as real, now, gain);
      lastReplenish := now;
      tokens := tokens + gain;
      if tokens > maxTokens {
        tokens := maxTokens;
      }
      if tokens >= n as real {
        tokens := tokens - n as real;
        if maxTokens > bytesPerSec as real && tokens < bytesPerSec as real {
          maxTokens := bytesPerSec as real;
        }
        return true, 0.0;
      }
      var needed := n as real - tokens;
      granted, wait := false, needed / bytesPerSec as real;
    }

    /**
     * Wait, when no other waiter comes between: a request is granted at once, or on its first retry after a sleep
     * that was at least as long as told.
     */
    method Wait(n: int, now: real, late: real) returns (done: real)
      requires bytesPerSec > 0 && late >= 0.0
      modifies this
      ensures n <= 0 ==> State() == old(State()) && done == now
      ensures n > 0 ==>
                var rate := bytesPerSec as real;
                var (b, granted) := Attempt(Raise(old(State()), n as real), rate, n as real, now);
                if granted then State() == b && done == now
                else done == now + (n as real - b.tokens) / rate + late
                     && Attempt(b, rate, n as real, done) == (State(), true)
    {
      hide Attempt;
      done := now;
      if n <= 0 {
        return;
      }
      Enter(n);
      ghost var rate, b, slept := bytesPerSec as real, State(), false;
      while true
        invariant !slept ==> done == now && State() == b
        invariant slept ==> var (t, granted) := Attempt(b, rate, n as real, now);
                            !granted && State() == t && done == now + (n as real - t.tokens) / rate + late
        decreases !slept
      {
        if slept {
          LoneWaiterIsGranted(b, rate, n as real, now, done);
        }
        var granted, wait := TryTake(n, done);
        if granted {
          return;
        }
        done := done + wait + late;
        slept := true;
      }
    }
  }

  function Start(rate: real, now: real): Bucket {
    Bucket(rate, rate, now)
  }

  // ----- interleaved waiters -----

  /** A critical section of some waiter: it arrives, or wakes up and tries again. */
  datatype Section = Arrive(n: real, now: real) | Retry(n: real, now: real)

  function After(b: Bucket, rate: real, s: Section): (Bucket, bool) {
    match s
    case Arrive(n, now) => Attempt(Raise(b, n), rate, n, now)
    case Retry(n, now) => Attempt(b, rate, n, now)
  }

  /** The waiters' sections in lock order; the clock does not run backwards. */
  ghost predicate InOrder(sections: seq<Section>, from: real) {
    && (forall k | 0 <= k < |sections| :: sections[k].n > 0.0)
    && (forall k | 0 <= k < |sections| :: from <= sections[k].now)
    && (forall j, k | 0 <= j < k < |sections| :: sections[j].now <= sections[k].now)
  }

  /** The bucket after a sequence of sections. */
  ghost function Final(b: Bucket, rate: real, sections: seq<Section>): Bucket {
    if sections == [] then b
    else After(Final(b, rate, sections[..|sections| - 1]), rate, sections[|sections| - 1]).0
  }

  /** Bytes granted by all sections together. */
  ghost function Granted(rate: real, start: real, sections: seq<Section>): real {
    if sections == [] then 0.0
    else
      var front, last := sections[..|sections| - 1], sections[|sections| - 1];
      Granted(rate, start, front) + (if After(Final(Start(rate, start), rate, front), rate, last).1 then last.n else 0.0)
  }

  ghost predicate Bounded(b: Bucket, rate: real) {
    0.0 <= b.tokens <= b.maxTokens && rate <= b.maxTokens
  }

  lemma ProductIsNonNegative(x: real, y: real)
    requires x >= 0.0 && y >= 0.0
    ensures x * y >= 0.0
  {
  }

  lemma QuotientTimes(x: real, y: real)
    requires y > 0.0
    ensures (x / y) * y == x
    ensures x >= 0.0 ==> x / y >= 0.0
  {
  }

  lemma ProductGrows(x: real, y: real, z: real)
    requires x <= y && z >= 0.0
    ensures x * z <= y * z
  {
    ProductIsNonNegative(y - x, z);
    assert (y - x) * z == y * z - x * z;
  }

  /** Replenish in terms of what the elapsed time brings in. */
  lemma ReplenishGains(b: Bucket, rate: real, now: real, gain: real)
    requires gain == (now - b.lastReplenish) * rate
    ensures Replenish(b, rate, now)
         == Bucket(if b.tokens + gain > b.maxTokens then b.maxTokens else b.tokens + gain, b.maxTokens, now)
  {
  }

  lemma StepBounded(b: Bucket, rate: real, s: Section)
    requires rate > 0.0 && Bounded(b, rate) && s.n > 0.0 && b.lastReplenish <= s.now
    ensures var (t, granted) := After(b, rate, s);
            && Bounded(t, rate) && t.lastReplenish == s.now
            && t.tokens + (if granted then s.n else 0.0) <= b.tokens + (s.now - b.lastReplenish) * rate
  {
    hide Attempt;
    var raised := if s.Arrive? then Raise(b, s.n) else b;
    ProductIsNonNegative(s.now - b.lastReplenish, rate);
    AttemptBounded(raised, rate, s.n, s.now, (s.now - b.lastReplenish) * rate);
  }

  lemma AttemptBounded(b: Bucket, rate: real, n: real, now: real, gain: real)
    requires rate > 0.0 && Bounded(b, rate) && n > 0.0 && gain >= 0.0 && gain == (now - b.lastReplenish) * rate
    ensures var (t, granted) := Attempt(b, rate, n, now);
            && Bounded(t, rate) && t.lastReplenish == now
            && t.tokens + (if granted then n else 0.0) <= b.tokens + gain
  {
    hide Replenish;
    ReplenishGains(b, rate, now, gain);
  }

  /**
   * Whatever the interleaving, and however oversized requests raise and lower the cap, the tokens stay
   * between 0 and the cap, and what was granted stays within one second's burst plus the rate.
   */
  lemma {:induction false} GrantedWithinRate(rate: real, start: real, sections: seq<Section>)
    requires rate > 0.0 && InOrder(sections, start)
    ensures var b := Final(Start(rate, start), rate, sections);
            && Bounded(b, rate)
            && b.lastReplenish == (if sections == [] then start else sections[|sections| - 1].now)
            && Granted(rate, start, sections) + b.tokens <= rate * (1.0 + (b.lastReplenish - start))
  {
    hide After;
    if sections == [] {
    } else {
      var front, last := sections[..|sections| - 1], sections[|sections| - 1];
      GrantedWithinRate(rate, start, front);
      var b := Final(Start(rate, start), rate, front);
      StepBounded(b, rate, last);
      Distribute(rate, start, b.lastReplenish, last.now);
    }
  }

  lemma Distribute(rate: real, t0: real, t1: real, t2: real)
    ensures rate * (1.0 + (t1 - t0)) + (t2 - t1) * rate == rate * (1.0 + (t2 - t0))
  {
  }

  /** A waiter that sleeps as long as it was told is granted on its next try, if no other waiter comes between. */
  lemma LoneWaiterIsGranted(b: Bucket, rate: real, n: real, now: real, later: real)
    requires rate > 0.0 && n > 0.0 && n <= b.maxTokens
    requires var (t, granted) := Attempt(b, rate, n, now); !granted && later >= now + (n - t.tokens) / rate
    ensures var t := Attempt(b, rate, n, now).0; Attempt(t, rate, n, later).1
  {
    hide Replenish;
    ReplenishGains(b, rate, now, (now - b.lastReplenish) * rate);
    var t := Attempt(b, rate, n, now).0;
    var d := (n - t.tokens) / rate;
    QuotientTimes(n - t.tokens, rate);
    ProductGrows(d, later - now, rate);
    ReplenishGains(t, rate, later, (later - now) * rate);
  }

  ghost predicate OnlyRetries(sections: seq<Section>) {
    forall k | 0 <= k < |sections| :: sections[k].Retry?
  }

  /** Only an arrival raises the cap. */
  lemma {:induction false} CapNeverRises(b: Bucket, rate: real, sections: seq<Section>)
    requires OnlyRetries(sections)
    ensures Final(b, rate, sections).maxTokens <= b.maxTokens
  {
    hide Replenish;
    if sections == [] {
    } else {
      var front, last := sections[..|sections| - 1], sections[|sections| - 1];
      CapNeverRises(b, rate, front);
      RetryKeepsCap(Final(b, rate, front), rate, last.n, last.now);
    }
  }

  lemma RetryKeepsCap(b: Bucket, rate: real, n: real, now: real)
    ensures Attempt(b, rate, n, now).0.maxTokens <= b.maxTokens
    ensures Attempt(b, rate, n, now).1 ==> n <= b.maxTokens
  {
    hide Replenish;
    ReplenishGains(b, rate, now, (now - b.lastReplenish) * rate);
  }

  /** The request is granted at some time after some sequence of retries of the waiters there are. */
  ghost predicate Grantable(b: Bucket, rate: real, n: real) {
    exists sections, now :: GrantedAfter(b, rate, n, sections, now)
  }

  ghost predicate GrantedAfter(b: Bucket, rate: real, n: real, sections: seq<Section>, now: real) {
    && OnlyRetries(sections) && InOrder(sections, b.lastReplenish)
    && now >= Final(b, rate, sections).lastReplenish
    && Attempt(Final(b, rate, sections), rate, n, now).1
  }

  /** Until a new request arrives, a pending one can ever be granted exactly when it fits the cap. */
  lemma GrantableIffWithinCap(b: Bucket, rate: real, n: real)
    requires rate > 0.0 && n > 0.0
    ensures Grantable(b, rate, n) <==> n <= b.maxTokens
  {
    hide Attempt;
    if n <= b.maxTokens {
      var now := GrantTime(b, rate, n);
      assert Final(b, rate, []) == b;
      assert GrantedAfter(b, rate, n, [], now);
    }
    forall sections, now | GrantedAfter(b, rate, n, sections, now)
      ensures n <= b.maxTokens
    {
      CapNeverRises(b, rate, sections);
      RetryKeepsCap(Final(b, rate, sections), rate, n, now);
    }
  }

  lemma GrantTime(b: Bucket, rate: real, n: real) returns (now: real)
    requires rate > 0.0 && n > 0.0 && n <= b.maxTokens
    ensures now >= b.lastReplenish && Attempt(b, rate, n, now).1
  {
    hide Replenish;
    var need := if n > b.tokens then n - b.tokens else 0.0;
    QuotientTimes(need, rate);
    now := b.lastReplenish + need / rate;
    ReplenishGains(b, rate, now, need);
  }

  /** A new limiter grants at once exactly what does not exceed one second's rate. */
  lemma FirstBurst(rate: real, now: real, n: real)
    requires rate > 0.0 && n > 0.0
    ensures After(Start(rate, now), rate, Arrive(n, now)).1 <==> n <= rate
  {
    hide Replenish;
    ReplenishGains(Raise(Start(rate, now), n), rate, now, 0.0);
  }

  /** A request that was just refused can be granted later, whatever its size, unless others come between. */
  lemma RefusedArrivalIsGrantable(b: Bucket, rate: real, n: real, now: real)
    requires rate > 0.0 && n > 0.0
    ensures var (t, granted) := After(b, rate, Arrive(n, now)); granted || Grantable(t, rate, n)
  {
    hide Replenish, Grantable;
    ReplenishGains(Raise(b, n), rate, now, (now - b.lastReplenish) * rate);
    GrantableIffWithinCap(After(b, rate, Arrive(n, now)).0, rate, n);
  }

  /**
   * A waiter starves: its arrival was refused, and the cap has since fallen below its request, so that all its
   * retries fail until somebody else asks for more.
   */
  ghost predicate Starves(rate: real, start: real, n: real, sections: seq<Section>) {
    && InOrder(sections, start)
    && (exists k :: 0 <= k < |sections| && RefusedAt(rate, start, n, sections, k))
    && !Grantable(Final(Start(rate, start), rate, sections), rate, n)
  }

  ghost predicate RefusedAt(rate: real, start: real, n: real, sections: seq<Section>, k: nat)
    requires k < |sections|
  {
    sections[k].Arrive? && sections[k].n == n && !After(Final(Start(rate, start), rate, sections[..k]), rate, sections[k]).1
  }

  /** A request can be starved by some interleaving exactly when it is larger than one second's rate. */
  lemma StarvesExactly(rate: real, start: real, n: real)
    requires rate > 0.0 && n > 0.0
    ensures (exists sections :: Starves(rate, start, n, sections)) <==> n > rate
  {
    hide Grantable, InOrder, RefusedAt;
    if n > rate {
      assert Starves(rate, start, n, SmallAfterLarge(rate, start, n)) by {
        SmallStarvesLarge(rate, start, n);
      }
    }
    forall sections | Starves(rate, start, n, sections)
      ensures n > rate
    {
      var b := Final(Start(rate, start), rate, sections);
      GrantedWithinRate(rate, start, sections);
      GrantableIffWithinCap(b, rate, n);
    }
  }

  /** An oversized request arrives and waits, and half a second's worth is granted to another one. */
  function SmallAfterLarge(rate: real, start: real, n: real): seq<Section> {
    [Arrive(n, start), Arrive(rate / 2.0, start)]
  }

  lemma SmallStarvesLarge(rate: real, start: real, n: real)
    requires 0.0 < rate < n
    ensures Starves(rate, start, n, SmallAfterLarge(rate, start, n))
  {
    hide Replenish, Grantable;
    var b0, ss := Start(rate, start), SmallAfterLarge(rate, start, n);
    var b1, b2 := Bucket(rate, n, start), Bucket(rate - rate / 2.0, rate, start);
    ReplenishGains(b1, rate, start, 0.0);
    assert After(b0, rate, ss[0]) == (b1, false);
    assert After(b1, rate, ss[1]) == (b2, true);
    assert ss[..1] == [ss[0]] && ss[..0] == [];
    assert Final(b0, rate, ss[..0]) == b0;
    assert Final(b0, rate, ss[..1]) == b1 by {
      assert ss[..1][..0] == [];
    }
    assert RefusedAt(rate, start, n, ss, 0);
    assert Final(b0, rate, ss) == b2;
    GrantableIffWithinCap(b2, rate, n);
  }
}
