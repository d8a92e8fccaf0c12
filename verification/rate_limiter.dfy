/**
 The token-bucket guards of src/ai/guards/ai-rate-limiter.guard.ts and
 src/common/guards/redis-rate-limiter.guard.ts: one algorithm with two sets of constants.

 Times are integer milliseconds; floor and ceiling are those of exact rationals.  Requests on one key are
 served one after the other with a clock that does not run backwards.
 */
module RateLimiter {
  import opened Common

  datatype Limits = Limits(maxTokens: int, refillRate: int, refillInterval: int)

  const AI_LIMITS := Limits(10, 10, 60)
  const API_LIMITS := Limits(100, 100, 60)

  datatype Bucket = Bucket(tokens: int, lastRefill: int)

  datatype Entry = Entry(bucket: Bucket, expiresAt: int)

  datatype Fault = NoFault | GetFails | SetFails

  datatype Request = Request(now: int, fault: Fault)

  /** Open is the answer when Redis fails: the request passes unlimited. */
  datatype Decision = Admitted(remaining: int) | Rejected(retryAfter: int) | Open | Unauthorized | Unlimited

  predicate Sensible(l: Limits) {
    l.maxTokens >= 1 && l.refillRate >= 1 && l.refillInterval >= 1
  }

  function TtlMs(l: Limits): int {
    2 * l.refillInterval * 1000
  }

  /** floor((to - from) / 1000 / refillInterval * refillRate) */
  function Earned(l: Limits, from: int, to: int): int
    requires Sensible(l)
  {
    (to - from) * l.refillRate / (l.refillInterval * 1000)
  }

  function Refilled(l: Limits, b: Bucket, now: int): Bucket
    requires Sensible(l)
  {
    Bucket(Min(l.maxTokens, b.tokens + Earned(l, b.lastRefill, now)), now)
  }

  /** ceil((1 - tokens) / refillRate * refillInterval) */
  function RetryAfter(l: Limits, tokens: int): int
    requires Sensible(l)
  {
    ((1 - tokens) * l.refillInterval + l.refillRate - 1) / l.refillRate
  }

  /** The decision on a bucket already read, and the bucket to write back if any. */
  function Spend(l: Limits, read: Option<Bucket>, now: int): (Option<Bucket>, Decision)
    requires Sensible(l)
  {
    var bucket := Refilled(l, if read.Some? then read.value else Bucket(l.maxTokens, now), now);
    if bucket.tokens < 1 then (None, Rejected(RetryAfter(l, bucket.tokens)))
    else (Some(Bucket(bucket.tokens - 1, now)), Admitted(bucket.tokens - 1))
  }

  /** One request against the entry stored under its key. */
  function Decide(l: Limits, stored: Option<Entry>, rq: Request): (Option<Entry>, Decision)
    requires Sensible(l)
  {
    if rq.fault.GetFails? then (stored, Open)
    else
      var read := if stored.Some? && rq.now < stored.value.expiresAt then Some(stored.value.bucket) else None;
      var (written, decision) := Spend(l, read, rq.now);
      if written.None? then (stored, decision)
      else if rq.fault.SetFails? then (stored, Open)
      else (Some(Entry(written.value, rq.now + TtlMs(l))), decision)
  }

  /** The same request against a bucket that never expires. */
  function DecideForever(l: Limits, stored: Option<Bucket>, rq: Request): (Option<Bucket>, Decision)
    requires Sensible(l)
  {
    if rq.fault.GetFails? then (stored, Open)
    else
      var (written, decision) := Spend(l, stored, rq.now);
      if written.None? then (stored, decision)
      else if rq.fault.SetFails? then (stored, Open)
      else (written, decision)
  }

  function Decisions(l: Limits, stored: Option<Entry>, rqs: seq<Request>): seq<Decision>
    requires Sensible(l)
    decreases |rqs|
  {
    if rqs == [] then []
    else
      var (next, d) := Decide(l, stored, rqs[0]);
      [d] + Decisions(l, next, rqs[1..])
  }

  function Final(l: Limits, stored: Option<Entry>, rqs: seq<Request>): Option<Entry>
    requires Sensible(l)
    decreases |rqs|
  {
    if rqs == [] then stored else Final(l, Decide(l, stored, rqs[0]).0, rqs[1..])
  }

  function DecisionsForever(l: Limits, stored: Option<Bucket>, rqs: seq<Request>): seq<Decision>
    requires Sensible(l)
    decreases |rqs|
  {
    if rqs == [] then []
    else
      var (next, d) := DecideForever(l, stored, rqs[0]);
      [d] + DecisionsForever(l, next, rqs[1..])
  }

  function CountAdmitted(ds: seq<Decision>): nat {
    if ds == [] then 0 else (if ds[0].Admitted? then 1 else 0) + CountAdmitted(ds[1..])
  }

  /** The requests come in order, all between the times from and to. */
  predicate InOrder(rqs: seq<Request>, from: int, to: int) {
    rqs == [] || (from <= rqs[0].now <= to && InOrder(rqs[1..], rqs[0].now, to))
  }

  /** An entry as the guard writes it: integer tokens in [0, maxTokens], and the TTL counted from the refill. */
  ghost predicate Sound(l: Limits, stored: Option<Entry>, now: int) {
    stored.Some? ==>
      && 0 <= stored.value.bucket.tokens <= l.maxTokens
      && stored.value.bucket.lastRefill <= now
      && stored.value.expiresAt == stored.value.bucket.lastRefill + TtlMs(l)
  }

  // ----- Arithmetic of refills

  lemma DivLower(a: int, q: int, c: int)
    requires c > 0 && a >= q * c
    ensures a / c >= q
  {
    if a / c + 1 <= q {
      MulMonotone(a / c + 1, q, c);
    }
  }

  lemma DivUpper(a: int, q: int, c: int)
    requires c > 0 && a < q * c
    ensures a / c < q
  {
    assert a == (a / c) * c + a % c;
    if a / c >= q {
      MulMonotone(q, a / c, c);
    }
  }

  lemma DivExact(q: int, c: int)
    requires c > 0
    ensures (q * c) / c == q
  {
    DivMod(q * c, c, q, 0);
  }

  lemma NothingEarnedAtOnce(l: Limits, t: int)
    requires Sensible(l)
    ensures Earned(l, t, t) == 0
  {
    assert (t - t) * l.refillRate == 0;
    DivExact(0, l.refillInterval * 1000);
  }

  lemma EarnedAdds(l: Limits, a: int, b: int, c: int)
    requires Sensible(l)
    ensures Earned(l, a, b) + Earned(l, b, c) <= Earned(l, a, c)
  {
    var unit := l.refillInterval * 1000;
    var x, y := (b - a) * l.refillRate, (c - b) * l.refillRate;
    assert (c - a) * l.refillRate == x + y;
    assert x == (x / unit) * unit + x % unit && y == (y / unit) * unit + y % unit;
    assert (x / unit) * unit + (y / unit) * unit == (x / unit + y / unit) * unit;
    DivLower(x + y, x / unit + y / unit, unit);
  }

  lemma EarnedMonotone(l: Limits, a: int, a': int, b: int)
    requires Sensible(l) && a <= a' <= b
    ensures 0 <= Earned(l, a', b) <= Earned(l, a, b)
  {
    assert (a' - a) * l.refillRate >= 0 && (b - a') * l.refillRate >= 0;
    DivLower((a' - a) * l.refillRate, 0, l.refillInterval * 1000);
    DivLower((b - a') * l.refillRate, 0, l.refillInterval * 1000);
    EarnedAdds(l, a, a', b);
  }

  /** A bucket that has waited for its TTL has earned at least twice the refill rate. */
  lemma EarnedAfterTtl(l: Limits, from: int, now: int)
    requires Sensible(l) && now >= from + TtlMs(l)
    ensures Earned(l, from, now) >= 2 * l.refillRate
  {
    var unit := l.refillInterval * 1000;
    assert TtlMs(l) == 2 * unit;
    assert (now - from) * l.refillRate >= (2 * unit) * l.refillRate == (2 * l.refillRate) * unit;
    DivLower((now - from) * l.refillRate, 2 * l.refillRate, unit);
  }

  // ----- Stored buckets

  lemma DecideKeepsSound(l: Limits, stored: Option<Entry>, rq: Request)
    requires Sensible(l) && Sound(l, stored, rq.now)
    ensures Sound(l, Decide(l, stored, rq).0, rq.now)
    ensures var d := Decide(l, stored, rq).1; d.Admitted? ==> 0 <= d.remaining < l.maxTokens
  {
    if stored.Some? {
      EarnedMonotone(l, stored.value.bucket.lastRefill, stored.value.bucket.lastRefill, rq.now);
    }
    NothingEarnedAtOnce(l, rq.now);
  }

  /** In every run the stored tokens stay integers in [0, maxTokens]. */
  lemma {:induction false} RunKeepsSound(l: Limits, stored: Option<Entry>, rqs: seq<Request>, from: int, to: int)
    requires Sensible(l) && from <= to && Sound(l, stored, from) && InOrder(rqs, from, to)
    ensures Sound(l, Final(l, stored, rqs), to)
    decreases |rqs|
  {
    if rqs != [] {
      DecideKeepsSound(l, stored, rqs[0]);
      RunKeepsSound(l, Decide(l, stored, rqs[0]).0, rqs[1..], rqs[0].now, to);
    }
  }

  // ----- What one request finds, and what a burst gets

  /** The tokens a request finds at time now: those of an entry that has not expired and what it has earned since its
      last refill, up to the maximum, or a full bucket. */
  function TokensFound(l: Limits, stored: Option<Entry>, now: int): int
    requires Sensible(l)
  {
    if stored.Some? && now < stored.value.expiresAt then
      var b := stored.value.bucket;
      Min(l.maxTokens, b.tokens + (now - b.lastRefill) * l.refillRate / (l.refillInterval * 1000))
    else l.maxTokens
  }

  /** A request that Redis serves is admitted exactly if it finds a token; it takes one, tells what is left, and leaves
      that for two refill intervals.  A rejected one changes nothing, and one that Redis fails passes and changes
      nothing. */
  lemma DecidedByTokens(l: Limits, stored: Option<Entry>, rq: Request)
    requires Sensible(l) && Sound(l, stored, rq.now)
    ensures var (stored', d) := Decide(l, stored, rq);
            var tokens, now := TokensFound(l, stored, rq.now), rq.now;
            && (rq.fault.NoFault? ==> (d.Admitted? <==> tokens >= 1) && (d.Rejected? <==> tokens < 1))
            && (d.Admitted? ==>
                  d == Admitted(tokens - 1) &&
                  stored' == Some(Entry(Bucket(tokens - 1, now), now + 2 * l.refillInterval * 1000)))
            && (!d.Admitted? ==> stored' == stored)
            && (rq.fault.GetFails? ==> d == Open)
            && (rq.fault.SetFails? ==> (d.Open? <==> tokens >= 1) && (d.Rejected? <==> tokens < 1))
            && 0 <= tokens <= l.maxTokens
  {
    NothingEarnedAtOnce(l, rq.now);
    if stored.Some? {
      EarnedMonotone(l, stored.value.bucket.lastRefill, stored.value.bucket.lastRefill, rq.now);
    }
  }

  /** n requests at the same time. */
  function Burst(now: int, n: nat): seq<Request>
    decreases n
  {
    if n == 0 then [] else [Request(now, NoFault)] + Burst(now, n - 1)
  }

  /** What is written at a time is found again at that time. */
  lemma FoundAgain(l: Limits, tokens: int, now: int)
    requires Sensible(l) && 0 <= tokens <= l.maxTokens
    ensures TokensFound(l, Some(Entry(Bucket(tokens, now), now + 2 * l.refillInterval * 1000)), now) == tokens
  {
    NothingEarnedAtOnce(l, now);
  }

  /** The first are admitted, as many as there are tokens, counting the rest down to 0, and all others are rejected. */
  ghost predicate CountsDown(ds: seq<Decision>, tokens: int) {
    && (forall i :: 0 <= i < |ds| && i < tokens ==> ds[i] == Admitted(tokens - 1 - i))
    && (forall i :: 0 <= i < |ds| && i >= tokens ==> ds[i].Rejected?)
  }

  lemma CountsDownFrom(d: Decision, ds: seq<Decision>, tokens: nat)
    requires if tokens >= 1 then d == Admitted(tokens - 1) && CountsDown(ds, tokens - 1)
             else d.Rejected? && CountsDown(ds, 0)
    ensures CountsDown([d] + ds, tokens)
  {
  }

  lemma {:induction false} CountedDown(ds: seq<Decision>, tokens: nat)
    requires CountsDown(ds, tokens)
    ensures CountAdmitted(ds) == Min(|ds|, tokens)
    decreases |ds|
  {
    if ds != [] {
      CountedDown(ds[1..], if tokens >= 1 then tokens - 1 else 0);
    }
  }

  /** Requests at one time share the tokens found there: the first ones get them, one each. */
  lemma {:induction false} BurstDecisions(l: Limits, stored: Option<Entry>, now: int, n: nat)
    requires Sensible(l) && Sound(l, stored, now)
    ensures |Decisions(l, stored, Burst(now, n))| == n
    ensures CountsDown(Decisions(l, stored, Burst(now, n)), TokensFound(l, stored, now))
    decreases n
  {
    if n > 0 {
      var rq, tokens := Request(now, NoFault), TokensFound(l, stored, now);
      var (next, d) := Decide(l, stored, rq);
      DecidedByTokens(l, stored, rq);
      DecideKeepsSound(l, stored, rq);
      BurstDecisions(l, next, now, n - 1);
      if tokens >= 1 {
        FoundAgain(l, tokens - 1, now);
      }
      CountsDownFrom(d, Decisions(l, next, Burst(now, n - 1)), tokens);
      BurstStep(l, stored, now, n);
    }
  }

  lemma BurstStep(l: Limits, stored: Option<Entry>, now: int, n: nat)
    requires Sensible(l) && n > 0
    ensures var (next, d) := Decide(l, stored, Request(now, NoFault));
            Decisions(l, stored, Burst(now, n)) == [d] + Decisions(l, next, Burst(now, n - 1))
  {
    assert Burst(now, n)[1..] == Burst(now, n - 1);
  }

  /** So exactly min(n, tokens) of n requests at one time are admitted. */
  lemma BurstAdmits(l: Limits, stored: Option<Entry>, now: int, n: nat)
    requires Sensible(l) && Sound(l, stored, now)
    ensures CountAdmitted(Decisions(l, stored, Burst(now, n))) == Min(n, TokensFound(l, stored, now))
  {
    BurstDecisions(l, stored, now, n);
    DecidedByTokens(l, stored, Request(now, NoFault));
    CountedDown(Decisions(l, stored, Burst(now, n)), TokensFound(l, stored, now));
  }

  /** A new client of either guard gets exactly its 10 or 100 at once, with remainders from 9 or 99 down to 0. */
  lemma GuardBursts(now: int, n: nat)
    ensures var ds := Decisions(AI_LIMITS, None, Burst(now, n));
            |ds| == n && CountAdmitted(ds) == Min(n, 10) &&
            forall i :: 0 <= i < n ==> if i < 10 then ds[i] == Admitted(9 - i) else ds[i].Rejected?
    ensures var ds := Decisions(API_LIMITS, None, Burst(now, n));
            |ds| == n && CountAdmitted(ds) == Min(n, 100) &&
            forall i :: 0 <= i < n ==> if i < 100 then ds[i] == Admitted(99 - i) else ds[i].Rejected?
  {
    BurstDecisions(AI_LIMITS, None, now, n);
    BurstAdmits(AI_LIMITS, None, now, n);
    BurstDecisions(API_LIMITS, None, now, n);
    BurstAdmits(API_LIMITS, None, now, n);
  }

  /** Requests of which each comes late enough after the one before to have earned a token. */
  predicate Paced(l: Limits, rqs: seq<Request>, last: int)
    requires Sensible(l)
    decreases |rqs|
  {
    rqs == [] ||
    (rqs[0].fault.NoFault? && (rqs[0].now - last) * l.refillRate >= l.refillInterval * 1000 && rqs[0].now >= last &&
     Paced(l, rqs[1..], rqs[0].now))
  }

  /** A client that keeps to the refill rate is never rejected, however long it goes on. */
  lemma {:induction false} PacedAreAdmitted(l: Limits, stored: Option<Entry>, rqs: seq<Request>, last: int)
    requires Sensible(l) && Sound(l, stored, last) && Paced(l, rqs, last)
    ensures CountAdmitted(Decisions(l, stored, rqs)) == |rqs|
    decreases |rqs|
  {
    if rqs != [] {
      var (next, d) := Decide(l, stored, rqs[0]);
      DecidedByTokens(l, stored, rqs[0]);
      TokenEarned(l, stored, last, rqs[0].now);
      DecideKeepsSound(l, stored, rqs[0]);
      PacedAreAdmitted(l, next, rqs[1..], rqs[0].now);
      assert Decisions(l, stored, rqs)[1..] == Decisions(l, next, rqs[1..]);
    }
  }

  lemma TokenEarned(l: Limits, stored: Option<Entry>, last: int, now: int)
    requires Sensible(l) && Sound(l, stored, last) && last <= now
    requires (now - last) * l.refillRate >= l.refillInterval * 1000
    ensures TokensFound(l, stored, now) >= 1
  {
    if stored.Some? {
      var from := stored.value.bucket.lastRefill;
      EarnedMonotone(l, from, last, now);
      DivLower((now - last) * l.refillRate, 1, l.refillInterval * 1000);
    }
  }

  // ----- How much a window admits

  /** What an entry can still pay for until the time to: its tokens and all it earns from its last refill on. */
  lemma {:induction false} AdmittedWithinEarnings(l: Limits, stored: Option<Entry>, rqs: seq<Request>, from: int, to: int)
    requires Sensible(l) && l.maxTokens <= 2 * l.refillRate
    requires from <= to && Sound(l, stored, from) && InOrder(rqs, from, to)
    ensures CountAdmitted(Decisions(l, stored, rqs)) <= l.maxTokens + Earned(l, from, to)
    ensures stored.Some? ==>
              CountAdmitted(Decisions(l, stored, rqs)) <=
              stored.value.bucket.tokens + Earned(l, stored.value.bucket.lastRefill, to)
    decreases |rqs|
  {
    EarnedMonotone(l, from, from, to);
    if stored.Some? {
      EarnedMonotone(l, stored.value.bucket.lastRefill, from, to);
    }
    if rqs != [] {
      var t := rqs[0].now;
      var (next, d) := Decide(l, stored, rqs[0]);
      DecideKeepsSound(l, stored, rqs[0]);
      AdmittedWithinEarnings(l, next, rqs[1..], t, to);
      assert Decisions(l, stored, rqs)[1..] == Decisions(l, next, rqs[1..]);
      EarnedMonotone(l, from, t, to);
      if d.Admitted? {
        NothingEarnedAtOnce(l, t);
        if stored.Some? {
          var last := stored.value.bucket.lastRefill;
          EarnedAdds(l, last, t, to);
          if t >= stored.value.expiresAt {
            EarnedAfterTtl(l, last, t);
          }
        }
      }
    }
  }

  lemma {:induction false} DecisionsSplit(l: Limits, stored: Option<Entry>, a: seq<Request>, b: seq<Request>)
    requires Sensible(l)
    ensures Decisions(l, stored, a + b) == Decisions(l, stored, a) + Decisions(l, Final(l, stored, a), b)
    ensures |Decisions(l, stored, a)| == |a|
    decreases |a|
  {
    if a == [] {
      assert a + b == b;
    } else {
      assert (a + b)[1..] == a[1..] + b;
      DecisionsSplit(l, Decide(l, stored, a[0]).0, a[1..], b);
    }
  }

  lemma {:induction false} InOrderSplit(a: seq<Request>, b: seq<Request>, from: int, to: int)
    requires InOrder(a + b, from, to) && from <= to
    ensures InOrder(a, from, if b == [] then to else b[0].now)
    ensures InOrder(b, if a == [] then from else a[|a| - 1].now, to)
    ensures b != [] ==> from <= b[0].now <= to
    ensures a != [] ==> from <= a[|a| - 1].now <= to
    decreases |a|
  {
    if a == [] {
      assert a + b == b;
    } else {
      assert (a + b)[1..] == a[1..] + b;
      InOrderSplit(a[1..], b, a[0].now, to);
    }
  }

  lemma {:induction false} InOrderUntilLast(a: seq<Request>, from: int, to: int)
    requires a != [] && InOrder(a, from, to)
    ensures a[0].now <= a[|a| - 1].now && InOrder(a, a[0].now, a[|a| - 1].now)
    decreases |a|
  {
    if |a| > 1 {
      InOrderUntilLast(a[1..], a[0].now, to);
    }
  }

  /** Over any run on one key, from any sound entry, every window of requests admits at most
      maxTokens + floor(D * refillRate / (refillInterval * 1000)), D being its length in ms; requests that pass
      because Redis failed are not counted. */
  lemma WindowBound(l: Limits, stored: Option<Entry>, rqs: seq<Request>, from: int, to: int, i: nat, j: nat)
    requires Sensible(l) && l.maxTokens <= 2 * l.refillRate
    requires from <= to && Sound(l, stored, from) && InOrder(rqs, from, to)
    requires i < j <= |rqs|
    ensures |Decisions(l, stored, rqs)| == |rqs|
    ensures CountAdmitted(Decisions(l, stored, rqs)[i..j]) <=
            l.maxTokens + Earned(l, rqs[i].now, rqs[j - 1].now)
  {
    var a, w, z := rqs[..i], rqs[i..j], rqs[j..];
    assert rqs == (a + w) + z && a + w == rqs[..j];
    DecisionsSplit(l, stored, a + w, z);
    DecisionsSplit(l, stored, a, w);
    DecisionsSplit(l, Final(l, stored, a + w), z, []);
    DecisionsSplit(l, Final(l, stored, a), w, []);
    assert z + [] == z && w + [] == w;
    var mid := Final(l, stored, a);
    assert Decisions(l, stored, rqs)[i..j] == Decisions(l, mid, w);
    InOrderSplit(a + w, z, from, to);
    var last := if z == [] then to else z[0].now;
    InOrderSplit(a, w, from, last);
    RunKeepsSound(l, stored, a, from, w[0].now);
    InOrderUntilLast(w, if a == [] then from else a[|a| - 1].now, last);
    AdmittedWithinEarnings(l, mid, w, w[0].now, w[|w| - 1].now);
    assert w[0] == rqs[i] && w[|w| - 1] == rqs[j - 1];
  }

  /** The two guards: 10 or 100 at once, and one more per 6000 ms or per 600 ms. */
  lemma GuardBounds(stored: Option<Entry>, rqs: seq<Request>, from: int, window: nat)
    requires InOrder(rqs, from, from + window)
    ensures Sound(AI_LIMITS, stored, from) ==> CountAdmitted(Decisions(AI_LIMITS, stored, rqs)) <= 10 + window / 6000
    ensures Sound(API_LIMITS, stored, from) ==> CountAdmitted(Decisions(API_LIMITS, stored, rqs)) <= 100 + window / 600
  {
    if Sound(AI_LIMITS, stored, from) {
      AdmittedWithinEarnings(AI_LIMITS, stored, rqs, from, from + window);
    }
    if Sound(API_LIMITS, stored, from) {
      AdmittedWithinEarnings(API_LIMITS, stored, rqs, from, from + window);
    }
  }

  // ----- The TTL

  function Unexpired(stored: Option<Entry>): Option<Bucket> {
    if stored.Some? then Some(stored.value.bucket) else None
  }

  lemma {:induction false} TtlUnobservable(l: Limits, stored: Option<Entry>, rqs: seq<Request>, from: int, to: int)
    requires Sensible(l) && l.maxTokens <= 2 * l.refillRate
    requires from <= to && Sound(l, stored, from) && InOrder(rqs, from, to)
    ensures Decisions(l, stored, rqs) == DecisionsForever(l, Unexpired(stored), rqs)
    decreases |rqs|
  {
    if rqs != [] {
      var t := rqs[0].now;
      if stored.Some? && t >= stored.value.expiresAt {
        EarnedAfterTtl(l, stored.value.bucket.lastRefill, t);
      }
      NothingEarnedAtOnce(l, t);
      DecideKeepsSound(l, stored, rqs[0]);
      TtlUnobservable(l, Decide(l, stored, rqs[0]).0, rqs[1..], t, to);
    }
  }

  ghost predicate Expirable(l: Limits, stored: Option<Entry>, rqs: seq<Request>, from: int, to: int) {
    from <= to && Sound(l, stored, from) && InOrder(rqs, from, to)
  }

  /** A TTL of twice the refill interval is unobservable, in decisions and in the remaining-tokens header, exactly
      when a bucket fills within it; both guards' constants meet this. */
  lemma TtlUnobservableIff(l: Limits)
    requires Sensible(l)
    ensures (forall stored, rqs, from, to | Expirable(l, stored, rqs, from, to) ::
              Decisions(l, stored, rqs) == DecisionsForever(l, Unexpired(stored), rqs))
            <==> l.maxTokens <= 2 * l.refillRate
    ensures AI_LIMITS.maxTokens <= 2 * AI_LIMITS.refillRate && API_LIMITS.maxTokens <= 2 * API_LIMITS.refillRate
  {
    if l.maxTokens <= 2 * l.refillRate {
      forall stored, rqs, from, to | Expirable(l, stored, rqs, from, to)
        ensures Decisions(l, stored, rqs) == DecisionsForever(l, Unexpired(stored), rqs)
      {
        TtlUnobservable(l, stored, rqs, from, to);
      }
    } else {
      var t := TtlMs(l);
      var stored := Some(Entry(Bucket(0, 0), t));
      var rqs := [Request(t, NoFault)];
      assert (t - 0) * l.refillRate == (2 * l.refillRate) * (l.refillInterval * 1000);
      DivExact(2 * l.refillRate, l.refillInterval * 1000);
      NothingEarnedAtOnce(l, t);
      assert Expirable(l, stored, rqs, 0, t);
      assert Decisions(l, stored, rqs)[0] == Admitted(l.maxTokens - 1);
      assert DecisionsForever(l, Unexpired(stored), rqs)[0] == Admitted(2 * l.refillRate - 1);
    }
  }

  // ----- Waiting

  lemma {:induction false} NoAdmissionNoChange(l: Limits, stored: Option<Entry>, rqs: seq<Request>)
    requires Sensible(l) && CountAdmitted(Decisions(l, stored, rqs)) == 0
    ensures Final(l, stored, rqs) == stored
    decreases |rqs|
  {
    if rqs != [] {
      var next := Decide(l, stored, rqs[0]).0;
      assert Decisions(l, stored, rqs)[1..] == Decisions(l, next, rqs[1..]);
      NoAdmissionNoChange(l, next, rqs[1..]);
    }
  }

  lemma WaitRoundsUp(l: Limits)
    requires Sensible(l)
    ensures (RetryAfter(l, 0) - 1) * l.refillRate < l.refillInterval <= RetryAfter(l, 0) * l.refillRate
  {
    var k, r := l.refillInterval + l.refillRate - 1, RetryAfter(l, 0);
    assert k == (k / l.refillRate) * l.refillRate + k % l.refillRate;
    assert (r - 1) * l.refillRate == r * l.refillRate - l.refillRate;
  }

  /** A rejection suggests the refill interval per token, in seconds rounded up: 6 s for the one guard, 1 s for the
      other. */
  lemma SuggestedWait(l: Limits, stored: Option<Entry>, rq: Request)
    requires Sensible(l) && Sound(l, stored, rq.now) && Decide(l, stored, rq).1.Rejected?
    ensures var r := Decide(l, stored, rq).1.retryAfter;
            && (r - 1) * l.refillRate < l.refillInterval <= r * l.refillRate
            && (l == AI_LIMITS ==> r == 6) && (l == API_LIMITS ==> r == 1)
  {
    RejectedWithNoToken(l, stored, rq);
    WaitRoundsUp(l);
  }

  lemma RejectedWithNoToken(l: Limits, stored: Option<Entry>, rq: Request)
    requires Sensible(l) && Sound(l, stored, rq.now) && Decide(l, stored, rq).1.Rejected?
    ensures Decide(l, stored, rq).1.retryAfter == RetryAfter(l, 0)
  {
    DecidedByTokens(l, stored, rq);
    NothingEarnedAtOnce(l, rq.now);
  }

  /** A client rejected at time now is admitted at any time from now + retryAfter seconds on, whatever other
      requests on its key were rejected (or let through by a Redis failure) in between. */
  lemma RetryAfterSuffices(l: Limits, stored: Option<Entry>, rejected: Request, between: seq<Request>, later: Request)
    requires Sensible(l) && Sound(l, stored, rejected.now)
    requires Decide(l, stored, rejected).1.Rejected?
    requires CountAdmitted(Decisions(l, stored, [rejected] + between)) == 0
    requires later.now >= rejected.now + Decide(l, stored, rejected).1.retryAfter * 1000 && later.fault.NoFault?
    ensures Decide(l, stored, rejected).1.retryAfter >= 1
    ensures Decide(l, Final(l, stored, [rejected] + between), later).1.Admitted?
  {
    NoAdmissionNoChange(l, stored, [rejected] + between);
    NothingEarnedAtOnce(l, rejected.now);
    assert stored.Some? && rejected.now < stored.value.expiresAt;
    var b := stored.value.bucket;
    EarnedMonotone(l, b.lastRefill, rejected.now, rejected.now);
    assert b.tokens == 0;
    WaitEarnsOne(l, b.lastRefill, later.now);
    NothingEarnedAtOnce(l, later.now);
  }

  /** The suggested wait earns a token. */
  lemma WaitEarnsOne(l: Limits, from: int, to: int)
    requires Sensible(l)
    ensures RetryAfter(l, 0) >= 1
    ensures to >= from + RetryAfter(l, 0) * 1000 ==> Earned(l, from, to) >= 1
  {
    var r := RetryAfter(l, 0);
    DivLower(l.refillInterval + l.refillRate - 1, 1, l.refillRate);
    WaitRoundsUp(l);
    if to >= from + r * 1000 {
      MulMonotone(r * 1000, to - from, l.refillRate);
      assert (r * 1000) * l.refillRate == 1000 * (r * l.refillRate);
      DivLower((to - from) * l.refillRate, 1, l.refillInterval * 1000);
    }
  }

  /** And it is the shortest wait in whole seconds that earns a token. */
  lemma WaitIsShortest(l: Limits, from: int)
    requires Sensible(l)
    ensures Earned(l, from, from + (RetryAfter(l, 0) - 1) * 1000) < 1
  {
    WaitRoundsUp(l);
    var r := RetryAfter(l, 0);
    var earned := (r - 1) * 1000 * l.refillRate;
    assert earned == 1000 * ((r - 1) * l.refillRate);
    DivUpper(earned, 1, l.refillInterval * 1000);
  }

  // ----- The guard

  class RateLimiterGuard {
    const limits: Limits
    const requiresUser: bool        // the AI guard refuses anonymous requests, the API guard skips them
    var redis: map<string, Entry>

    constructor (limits: Limits, requiresUser: bool)
      ensures this.limits == limits && this.requiresUser == requiresUser && redis == map[]
    {
      this.limits, this.requiresUser, this.redis := limits, requiresUser, map[];
    }

    ghost function Stored(key: string): Option<Entry>
      reads this
    {
      if key in redis then Some(redis[key]) else None
    }

    /** A request decides by, and changes, the entry of its own key only. */
    method CanActivate(key: Option<string>, rq: Request) returns (d: Decision)
      requires Sensible(limits)
      modifies this
      ensures key.None? ==> redis == old(redis) && d == if requiresUser then Unauthorized else Unlimited
      ensures key.Some? ==> (Stored(key.value), d) == Decide(limits, old(Stored(key.value)), rq)
      ensures forall other :: Some(other) != key ==> Stored(other) == old(Stored(other))
    {
      if key.None? {
        return if requiresUser then Unauthorized else Unlimited;
      }
      if rq.fault.GetFails? {
        return Open;
      }
      var tokens, lastRefill := limits.maxTokens, rq.now;
      if key.value in redis && rq.now < redis[key.value].expiresAt {
        tokens, lastRefill := redis[key.value].bucket.tokens, redis[key.value].bucket.lastRefill;
      }
      var tokensToAdd := (rq.now - lastRefill) * limits.refillRate / (limits.refillInterval * 1000);
      tokens := Min(limits.maxTokens, tokens + tokensToAdd);
      lastRefill := rq.now;
      if tokens < 1 {
        return Rejected(((1 - tokens) * limits.refillInterval + limits.refillRate - 1) / limits.refillRate);
      }
      tokens := tokens - 1;
      if rq.fault.SetFails? {
        return Open;
      }
      redis := redis[key.value := Entry(Bucket(tokens, lastRefill), rq.now + limits.refillInterval * 2 * 1000)];
      d := Admitted(tokens);
    }
  }
}
