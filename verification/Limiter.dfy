// The token bucket in front of authentication, over exact arithmetic. Times and
// windows are in seconds; buckets idle for fifteen minutes are evicted.
module Limiter {
  const IDLE_EVICTION: real := 900.0

  datatype Limit = Limit(capacity: nat, window: real) {
    /** What every configured limit satisfies; the last part makes eviction harmless. */
    predicate Sane() { capacity >= 1 && 0.0 < window <= IDLE_EVICTION }
  }

  /** CategoryLimits */
  const LIMITS: map<string, Limit> :=
    map["setup" := Limit(5, 60.0), "login" := Limit(10, 60.0), "bootstrap" := Limit(5, 60.0)]

  datatype Key = Key(category: string, ip: string)

  datatype Bucket = Bucket(tokens: real, last: real)

  type Buckets = map<Key, Bucket>

  /** The tokens of a bucket at time `now`, before the request is counted. */
  function Refill(b: Bucket, l: Limit, now: real): real
    requires l.window > 0.0
  {
    var elapsed := now - b.last;
    if elapsed >= l.window then l.capacity as real
    else
      var t := b.tokens + elapsed / l.window * l.capacity as real;
      if t > l.capacity as real then l.capacity as real else t
  }

  /** Whole seconds to wait, rounded down but at least one. */
  function Retry(tokens: real, l: Limit): int
    requires l.capacity >= 1
  {
    var s := ((1.0 - tokens) / l.capacity as real * l.window).Floor;
    if s < 1 then 1 else s
  }

  datatype Answer = Allowed | Throttled(retry: int)

  /** The bucket of the request's key after it, and the answer. */
  function Decide(m: Buckets, key: Key, l: Limit, now: real): (Bucket, Answer)
    requires l.capacity >= 1 && l.window > 0.0
  {
    if key !in m then (Bucket((l.capacity - 1) as real, now), Allowed)
    else
      var t := Refill(m[key], l, now);
      if t >= 1.0 then (Bucket(t - 1.0, now), Allowed)
      else (Bucket(t, now), Throttled(Retry(t, l)))
  }

  /** maybeCleanup */
  function Cleaned(m: Buckets, now: real): Buckets {
    map k | k in m && now - m[k].last <= IDLE_EVICTION :: m[k]
  }

  lemma LimitsSane(category: string)
    requires category in LIMITS
    ensures LIMITS[category].Sane()
  {}

  // ---- runs of locked sections ----

  /** A request under the first lock, or the eviction under the second one. */
  datatype Event = Request(key: Key, at: real) | Sweep(at: real)

  function Next(m: Buckets, e: Event, evict: bool): Buckets {
    match e
    case Request(key, at) =>
      if key.category !in LIMITS then m
      else
        LimitsSane(key.category);
        m[key := Decide(m, key, LIMITS[key.category], at).0]
    case Sweep(at) => if evict then Cleaned(m, at) else m
  }

  function Reply(m: Buckets, key: Key, at: real): Answer {
    if key.category !in LIMITS then Allowed
    else
      LimitsSane(key.category);
      Decide(m, key, LIMITS[key.category], at).1
  }

  /**
   * The one assumption on the clock: requests come to the lock in the order of
   * their clock readings, and no eviction uses a reading later than those of
   * the requests after it. Evictions may lag behind as far as they like.
   */
  ghost predicate InOrder(es: seq<Event>) {
    forall i, j :: 0 <= i < j < |es| && es[j].Request? ==> es[i].at <= es[j].at
  }

  ghost predicate UpTo(es: seq<Event>, now: real) { forall i :: 0 <= i < |es| ==> es[i].at <= now }

  /** The buckets after a run from an empty limiter. */
  function After(es: seq<Event>, evict: bool): Buckets {
    if es == [] then map[] else Next(After(es[..|es| - 1], evict), es[|es| - 1], evict)
  }

  function AnswerTo(es: seq<Event>, i: nat, evict: bool): Answer
    requires i < |es| && es[i].Request?
  {
    Reply(After(es[..i], evict), es[i].key, es[i].at)
  }

  class Limiter {
    var limits: Buckets

    constructor ()
      ensures limits == map[]
    {
      limits := map[];
    }

    /** The section of Allow under the first lock; `now` was read before it. */
    method Admit(category: string, ip: string, now: real) returns (answer: Answer)
      requires category in LIMITS
      modifies this
      ensures var key, old' := Key(category, ip), old(limits);
              limits == Next(old', Request(key, now), true) && answer == Reply(old', key, now)
    {
      LimitsSane(category);
      var limit := LIMITS[category];
      var key := Key(category, ip);
      if key !in limits {
        limits := limits[key := Bucket((limit.capacity - 1) as real, now)];
        return Allowed;
      }
      var b := limits[key];
      var elapsed := now - b.last;
      if elapsed >= limit.window {
        b := b.(tokens := limit.capacity as real);
      } else {
        b := b.(tokens := b.tokens + elapsed / limit.window * limit.capacity as real);
        if b.tokens > limit.capacity as real {
          b := b.(tokens := limit.capacity as real);
        }
      }
      if b.tokens >= 1.0 {
        b := Bucket(b.tokens - 1.0, now);
        limits := limits[key := b];
        return Allowed;
      }
      b := b.(last := now);
      limits := limits[key := b];
      var retry := ((1.0 - b.tokens) / limit.capacity as real * limit.window).Floor;
      if retry < 1 {
        retry := 1;
      }
      answer := Throttled(retry);
    }

    /** The whole call, when no other comes between its two locked sections. */
    method Allow(category: string, ip: string, now: real) returns (answer: Answer)
      modifies this
      ensures var key, old' := Key(category, ip), old(limits);
              && answer == Reply(old', key, now)
              && limits == if category in LIMITS && answer == Allowed
                           then Next(Next(old', Request(key, now), true), Sweep(now), true)
                           else Next(old', Request(key, now), true)
    {
      if category !in LIMITS {
        return Allowed;
      }
      answer := Admit(category, ip, now);
      if answer == Allowed {
        MaybeCleanup(now);
      }
    }

    /** Drop the idle buckets, one after the other. */
    method MaybeCleanup(now: real)
      modifies this
      ensures limits == Cleaned(old(limits), now)
    {
      ghost var all := limits;
      var todo := limits.Keys;
      while todo != {}
        invariant todo <= limits.Keys
        invariant limits == map k | k in all && (k in todo || now - all[k].last <= IDLE_EVICTION) :: all[k]
      {
        var k :| k in todo;
        todo := todo - {k};
        if now - limits[k].last > IDLE_EVICTION {
          limits := limits - {k};
        }
      }
    }
  }

  /** Tokens within bounds, and no bucket from the future. */
  ghost predicate Bounded(m: Buckets, now: real) {
    forall k :: k in m ==>
      k.category in LIMITS && 0.0 <= m[k].tokens <= LIMITS[k.category].capacity as real && m[k].last <= now
  }

  lemma QuotientAtLeastOne(a: real, b: real)
    requires 0.0 < b <= a
    ensures a / b >= 1.0
  {
    var q := a / b;
    assert q * b == a;
    if q < 1.0 {
      ProductBelow(q, b);
      assert false;
    }
  }

  lemma ProductBelow(q: real, b: real)
    requires q < 1.0 && b > 0.0
    ensures q * b < b
  {
    assert (1.0 - q) * b > 0.0;
  }

  lemma RefillBounds(b: Bucket, l: Limit, now: real)
    requires l.Sane() && 0.0 <= b.tokens <= l.capacity as real && b.last <= now
    ensures b.tokens <= Refill(b, l, now) <= l.capacity as real
    ensures Refill(b, l, now) <= b.tokens + (now - b.last) / l.window * l.capacity as real
  {
    var elapsed := now - b.last;
    var ratio := elapsed / l.window;
    assert ratio >= 0.0;
    assert ratio * l.capacity as real >= 0.0;
    if elapsed >= l.window {
      QuotientAtLeastOne(elapsed, l.window);
      assert ratio * l.capacity as real >= l.capacity as real;
    }
  }

  lemma RequestBounded(m: Buckets, key: Key, before: real, at: real, evict: bool)
    requires Bounded(m, before) && before <= at
    ensures Bounded(Next(m, Request(key, at), evict), at)
  {
    if key.category in LIMITS && key in m {
      LimitsSane(key.category);
      RefillBounds(m[key], LIMITS[key.category], at);
    }
  }

  lemma {:induction false} TokensBounded(es: seq<Event>, evict: bool, now: real)
    requires InOrder(es) && UpTo(es, now)
    ensures Bounded(After(es, evict), now)
  {
    if es != [] {
      var n := |es| - 1;
      if es[n].Request? {
        TokensBounded(es[..n], evict, es[n].at);
        RequestBounded(After(es[..n], evict), es[n].key, es[n].at, es[n].at, evict);
        assert forall k :: k in After(es, evict) ==> After(es, evict)[k].last <= es[n].at;
      } else {
        TokensBounded(es[..n], evict, now);
      }
    }
  }

  // ---- eviction changes no answer ----

  /** `m` is `full` without some buckets idle for so long that they are full again. */
  ghost predicate Evicted(m: Buckets, full: Buckets, now: real) {
    && m.Keys <= full.Keys
    && (forall k :: k in m ==> m[k] == full[k])
    && (forall k :: k in full && k !in m ==> now - full[k].last > IDLE_EVICTION)
  }

  lemma EvictedRequest(m: Buckets, full: Buckets, key: Key, before: real, at: real)
    requires Evicted(m, full, before) && before <= at
    ensures Reply(m, key, at) == Reply(full, key, at)
    ensures Evicted(Next(m, Request(key, at), true), Next(full, Request(key, at), false), at)
  {
    if key.category in LIMITS {
      LimitsSane(key.category);
      assert key in full && key !in m ==> at - full[key].last > LIMITS[key.category].window;
    }
  }

  lemma {:induction false} EvictionHarmless(es: seq<Event>, now: real)
    requires InOrder(es) && UpTo(es, now)
    ensures Evicted(After(es, true), After(es, false), now)
    ensures forall i :: 0 <= i < |es| && es[i].Request? ==> AnswerTo(es, i, true) == AnswerTo(es, i, false)
  {
    if es != [] {
      var n := |es| - 1;
      var init := es[..n];
      if es[n].Request? {
        EvictionHarmless(init, es[n].at);
        EvictedRequest(After(init, true), After(init, false), es[n].key, es[n].at, es[n].at);
      } else {
        EvictionHarmless(init, now);
      }
      forall i | 0 <= i < |es| && es[i].Request? ensures AnswerTo(es, i, true) == AnswerTo(es, i, false) {
        if i < n {
          assert init[..i] == es[..i];
          assert AnswerTo(init, i, true) == AnswerTo(init, i, false);
        }
      }
    }
  }

  // ---- how much gets through ----

  predicate AdmittedAt(es: seq<Event>, n: nat, key: Key, evict: bool)
    requires n < |es|
  {
    es[n].Request? && es[n].key == key && AnswerTo(es, n, evict) == Allowed
  }

  /** Requests of `key` allowed among the events of `es` from index `from` on. */
  function Admitted(es: seq<Event>, from: nat, key: Key, evict: bool): nat
    requires from <= |es|
    decreases |es|
  {
    if from == |es| then 0
    else
      var n := |es| - 1;
      Admitted(es[..n], from, key, evict) + if AdmittedAt(es, n, key, evict) then 1 else 0
  }

  /** Tokens at hand for `key` at time `now`: a full bucket if there is none. */
  function Credit(m: Buckets, key: Key, l: Limit, now: real): real
    requires l.window > 0.0
  {
    if key in m then Refill(m[key], l, now) else l.capacity as real
  }

  /** Tokens that accrue over `d` seconds. */
  function Accrued(l: Limit, d: real): real
    requires l.window > 0.0
  {
    d / l.window * l.capacity as real
  }

  lemma AccruedAdds(l: Limit, d: real, e: real)
    requires l.window > 0.0
    ensures Accrued(l, d) + Accrued(l, e) == Accrued(l, d + e)
  {
    assert d / l.window + e / l.window == (d + e) / l.window;
    var x, y, c := d / l.window, e / l.window, l.capacity as real;
    assert x * c + y * c == (x + y) * c;
  }

  /** A request of the key: what is at hand afterwards, plus what was taken, was at hand or accrued since. */
  lemma CreditAfterRequest(m: Buckets, key: Key, l: Limit, at: real, now: real)
    requires key.category in LIMITS && l == LIMITS[key.category] && l.Sane()
    requires Bounded(m, at) && at <= now
    ensures var m' := Next(m, Request(key, at), false);
            Credit(m', key, l, now) + (if Reply(m, key, at) == Allowed then 1.0 else 0.0)
              <= Credit(m, key, l, at) + Accrued(l, now - at)
  {
    RequestBounded(m, key, at, at, false);
    RefillBounds(Next(m, Request(key, at), false)[key], l, now);
  }

  lemma OthersLeaveCredit(m: Buckets, e: Event, key: Key, l: Limit, now: real)
    requires l.window > 0.0 && (e.Request? ==> e.key != key)
    ensures Credit(Next(m, e, false), key, l, now) == Credit(m, key, l, now)
  {}

  /** The first event of a stretch is a request, of this key or another. */
  lemma CreditFirst(m: Buckets, e: Event, key: Key, l: Limit, now: real)
    requires key.category in LIMITS && l == LIMITS[key.category] && l.Sane()
    requires e.Request? && Bounded(m, e.at) && e.at <= now
    ensures (if e.key == key && Reply(m, key, e.at) == Allowed then 1.0 else 0.0)
              + Credit(Next(m, e, false), key, l, now) <= l.capacity as real + Accrued(l, now - e.at)
  {
    if e.key == key {
      CreditAfterRequest(m, key, l, e.at, now);
      CreditAtMostCapacity(m, key, l, e.at);
    } else {
      OthersLeaveCredit(m, e, key, l, now);
      assert Bounded(m, now);
      CreditAtMostCapacity(m, key, l, now);
      AccruedNonNegative(l, now - e.at);
    }
  }

  lemma {:induction false} CreditBound(es: seq<Event>, from: nat, key: Key, l: Limit, now: real)
    requires InOrder(es) && from < |es| && es[from].Request? && UpTo(es, now)
    requires key.category in LIMITS && l == LIMITS[key.category] && l.Sane()
    ensures Admitted(es, from, key, false) as real + Credit(After(es, false), key, l, now)
         <= l.capacity as real + Accrued(l, now - es[from].at)
    decreases |es|
  {
    var n := |es| - 1;
    var init, at := es[..n], es[n].at;
    var m := After(init, false);
    if from == n {
      TokensBounded(init, false, at);
      CreditFirst(m, es[n], key, l, now);
    } else if es[n].Request? && es[n].key == key {
      TokensBounded(init, false, at);
      AccruedAdds(l, at - es[from].at, now - at);
      CreditAfterRequest(m, key, l, at, now);
      CreditBound(init, from, key, l, at);
    } else {
      OthersLeaveCredit(m, es[n], key, l, now);
      CreditBound(init, from, key, l, now);
    }
  }

  lemma AccruedNonNegative(l: Limit, d: real)
    requires l.window > 0.0 && d >= 0.0
    ensures Accrued(l, d) >= 0.0
  {
    assert d / l.window >= 0.0;
  }

  lemma CreditAtMostCapacity(m: Buckets, key: Key, l: Limit, now: real)
    requires key.category in LIMITS && l == LIMITS[key.category] && l.Sane() && Bounded(m, now)
    ensures 0.0 <= Credit(m, key, l, now) <= l.capacity as real
  {
    if key in m {
      RefillBounds(m[key], l, now);
    }
  }

  lemma {:induction false} SameAdmitted(es: seq<Event>, from: nat, key: Key, now: real)
    requires InOrder(es) && from <= |es| && UpTo(es, now)
    ensures Admitted(es, from, key, true) == Admitted(es, from, key, false)
    decreases |es|
  {
    if from < |es| {
      SameAdmitted(es[..|es| - 1], from, key, now);
      EvictionHarmless(es, now);
    }
  }

  /**
   * The rate promise. Of the requests of one key in any stretch of a run, at
   * most a full bucket plus what accrues over the stretch is allowed, whatever
   * the other keys do and with eviction in force.
   */
  lemma RateBound(es: seq<Event>, from: nat, key: Key)
    requires InOrder(es) && from < |es| && es[from].Request? && es[|es| - 1].Request?
    requires key.category in LIMITS
    ensures var l := LIMITS[key.category];
            Admitted(es, from, key, true) as real
              <= l.capacity as real + (es[|es| - 1].at - es[from].at) / l.window * l.capacity as real
  {
    LimitsSane(key.category);
    var l, now := LIMITS[key.category], es[|es| - 1].at;
    assert UpTo(es, now);
    SameAdmitted(es, from, key, now);
    CreditBound(es, from, key, l, now);
    TokensBounded(es, false, now);
    CreditAtMostCapacity(After(es, false), key, l, now);
  }

  // ---- what must get through ----

  /** A bucket's last time is that of some request of its key. */
  lemma {:induction false} LastIsARequest(es: seq<Event>, key: Key, evict: bool)
    requires key in After(es, evict)
    ensures exists i :: 0 <= i < |es| && es[i] == Request(key, After(es, evict)[key].last)
    decreases |es|
  {
    var n := |es| - 1;
    if es[n].Request? && es[n].key == key && key.category in LIMITS {
      assert es[n] == Request(key, After(es, evict)[key].last);
    } else {
      LastIsARequest(es[..n], key, evict);
      var i :| 0 <= i < n && es[..n][i] == Request(key, After(es[..n], evict)[key].last);
      assert es[i] == Request(key, After(es, evict)[key].last);
    }
  }

  /** A request of the last fifteen minutes. */
  predicate RecentAt(es: seq<Event>, key: Key, at: real, i: nat) {
    i < |es| && es[i].Request? && es[i].key == key && at - es[i].at <= 900.0
  }

  lemma {:induction false} RecentIsKept(es: seq<Event>, key: Key, at: real, i: nat)
    requires InOrder(es) && UpTo(es, at) && key.category in LIMITS && RecentAt(es, key, at, i)
    ensures key in After(es, true) && After(es, true)[key].last >= es[i].at
    decreases |es|
  {
    var n := |es| - 1;
    if i < n {
      RecentIsKept(es[..n], key, at, i);
    }
  }

  /** After an eviction the limiter remembers exactly the keys that made a request in the last fifteen minutes. */
  lemma SweepExact(es: seq<Event>, key: Key, at: real)
    requires InOrder(es) && UpTo(es, at) && key.category in LIMITS
    ensures key in Next(After(es, true), Sweep(at), true) <==> exists i :: RecentAt(es, key, at, i)
  {
    if i :| RecentAt(es, key, at, i) {
      RecentIsKept(es, key, at, i);
    }
    if key in Next(After(es, true), Sweep(at), true) {
      LastIsARequest(es, key, true);
      var i :| 0 <= i < |es| && es[i] == Request(key, After(es, true)[key].last);
      assert RecentAt(es, key, at, i);
    }
  }

  /** The key of request `n` made no other in the last window / capacity seconds. */
  ghost predicate Paced(es: seq<Event>, n: nat)
    requires n < |es| && es[n].Request? && es[n].key.category in LIMITS
  {
    var l := LIMITS[es[n].key.category];
    l.capacity > 0 ==>
      forall i :: 0 <= i < n && es[i].Request? && es[i].key == es[n].key ==>
        es[n].at - es[i].at >= l.window / l.capacity as real
  }

  /** Pacing is rewarded: such a request is allowed. */
  lemma PacedRequestAllowed(es: seq<Event>, n: nat)
    requires InOrder(es) && n < |es| && es[n].Request? && es[n].key.category in LIMITS && Paced(es, n)
    ensures AnswerTo(es, n, true) == Allowed
  {
    var key, at, init := es[n].key, es[n].at, es[..n];
    LimitsSane(key.category);
    EvictionHarmless(init, at);
    EvictedRequest(After(init, true), After(init, false), key, at, at);
    var m := After(init, false);
    if key in m {
      LastIsARequest(init, key, false);
      var i :| 0 <= i < |init| && init[i] == Request(key, m[key].last);
      TokensBounded(init, false, at);
      assert es[i].Request? && es[i].key == key;
      RestedBucketAllows(m[key], LIMITS[key.category], at);
    }
  }

  lemma RestedBucketAllows(b: Bucket, l: Limit, at: real)
    requires l.Sane() && 0.0 <= b.tokens && at - b.last >= l.window / l.capacity as real
    ensures Refill(b, l, at) >= 1.0
  {
    OneTokenAccrues(l, at - b.last);
  }

  lemma OneTokenAccrues(l: Limit, d: real)
    requires l.Sane() && d >= l.window / l.capacity as real
    ensures Accrued(l, d) >= 1.0
  {
    var c, w := l.capacity as real, l.window;
    assert w / c * c == w;
    assert d * c >= w by {
      assert (d - w / c) * c >= 0.0;
    }
    QuotientAtLeastOne(d * c, w);
    assert d / w * c == d * c / w;
  }

  /** The exact time until a bucket holding `tokens` has one whole token. */
  function Need(tokens: real, l: Limit): real
    requires l.capacity >= 1
  {
    (1.0 - tokens) / l.capacity as real * l.window
  }

  /**
   * The advertised wait is rounded down: waiting it out suffices exactly when
   * the exact need does not exceed it, that is, when the need is at most one
   * second or a whole number of them.
   */
  lemma RetrySufficesIff(tokens: real, l: Limit, now: real)
    requires l.Sane() && 0.0 <= tokens < 1.0
    ensures var retry := Retry(tokens, l) as real;
            Refill(Bucket(tokens, now), l, now + retry) >= 1.0 <==> Need(tokens, l) <= retry
    ensures Need(tokens, l) <= Retry(tokens, l) as real <==>
              Need(tokens, l) <= 1.0 || Need(tokens, l) == Need(tokens, l).Floor as real
  {
    var r, need := Retry(tokens, l) as real, Need(tokens, l);
    NeedMeaning(tokens, l, r);
    NeedWithinWindow(tokens, l);
  }

  /** `n` requests at once from a full bucket. */
  function Burst(key: Key, n: nat): seq<Event> { seq(n, _ => Request(key, 0.0)) }

  lemma {:induction false} AfterBurst(key: Key, n: nat)
    requires key.category in LIMITS && 1 <= n <= LIMITS[key.category].capacity
    ensures After(Burst(key, n), true) == map[key := Bucket((LIMITS[key.category].capacity - n) as real, 0.0)]
  {
    assert Burst(key, n)[..n - 1] == Burst(key, n - 1);
    if n > 1 {
      AfterBurst(key, n - 1);
    }
  }

  /** A full bucket lets exactly its capacity through at once: five for setup and bootstrap, ten for login. */
  lemma BurstAllowed(key: Key, n: nat)
    requires key.category == "setup" || key.category == "bootstrap" || key.category == "login"
    ensures AnswerTo(Burst(key, n + 1), n, true) == Allowed <==> n < if key.category == "login" then 10 else 5
  {
    var c := LIMITS[key.category].capacity;
    assert Burst(key, n + 1)[..n] == Burst(key, n);
    if 1 <= n <= c {
      AfterBurst(key, n);
    } else if n > c {
      BurstExhausted(key, n);
    }
  }

  lemma {:induction false} BurstExhausted(key: Key, n: nat)
    requires key.category in LIMITS && n >= LIMITS[key.category].capacity
    ensures After(Burst(key, n), true) == map[key := Bucket(0.0, 0.0)]
  {
    LimitsSane(key.category);
    if n == LIMITS[key.category].capacity {
      AfterBurst(key, n);
    } else {
      assert Burst(key, n)[..n - 1] == Burst(key, n - 1);
      BurstExhausted(key, n - 1);
      EmptyStaysEmpty(key);
    }
  }

  lemma EmptyStaysEmpty(key: Key)
    requires key.category in LIMITS
    ensures Next(map[key := Bucket(0.0, 0.0)], Request(key, 0.0), true) == map[key := Bucket(0.0, 0.0)]
  {
    LimitsSane(key.category);
    assert Refill(Bucket(0.0, 0.0), LIMITS[key.category], 0.0) == 0.0;
  }

  /** Other categories are not limited. */
  lemma OthersUnlimited(m: Buckets, key: Key, at: real, evict: bool)
    requires key.category != "setup" && key.category != "bootstrap" && key.category != "login"
    ensures Reply(m, key, at) == Allowed && Next(m, Request(key, at), evict) == m
  {}

  /**
   * An input that shows it: ten logins at once use the bucket up; at 4.5 s
   * there are three quarters of a token, the advice is one second, and the
   * request that follows it is turned away again.
   */
  lemma RetryTooShort(key: Key)
    requires key.category == "login"
    ensures var es := Burst(key, 10) + [Request(key, 4.5), Request(key, 5.5)];
            InOrder(es) && AnswerTo(es, 10, true) == Throttled(1) && AnswerTo(es, 11, true).Throttled?
  {
    var es := Burst(key, 10) + [Request(key, 4.5), Request(key, 5.5)];
    AfterBurst(key, 10);
    assert es[..10] == Burst(key, 10);
    var b := Bucket(0.0, 0.0);
    assert Refill(b, LIMITS["login"], 4.5) == 0.75;
    assert Retry(0.75, LIMITS["login"]) == 1;
    assert es[..11][..10] == es[..10] && es[..11][10] == Request(key, 4.5);
    assert After(es[..11], true) == map[key := Bucket(0.75, 4.5)];
    assert Refill(Bucket(0.75, 4.5), LIMITS["login"], 5.5) < 1.0;
  }

  lemma NeedMeaning(tokens: real, l: Limit, r: real)
    requires l.Sane() && tokens < 1.0
    ensures tokens + Accrued(l, r) >= 1.0 <==> Need(tokens, l) <= r
  {
    var c, w, x := l.capacity as real, l.window, 1.0 - tokens;
    var a, b := r / w, x / c;
    assert a * w == r && b * c == x;
    assert Accrued(l, r) == a * c && Need(tokens, l) == b * w;
    if a >= b {
      assert (a - b) * c >= 0.0 && (a - b) * w >= 0.0;
    } else {
      assert (b - a) * c > 0.0 && (b - a) * w > 0.0;
    }
  }

  lemma NeedWithinWindow(tokens: real, l: Limit)
    requires l.Sane() && 0.0 <= tokens < 1.0
    ensures Need(tokens, l) <= l.window
  {
    var c, x := l.capacity as real, 1.0 - tokens;
    var b := x / c;
    assert b * c == x;
    assert b <= 1.0 by {
      assert b * (c - 1.0) >= 0.0;
    }
    assert (1.0 - b) * l.window >= 0.0;
  }
}
