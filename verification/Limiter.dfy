/**
  The token bucket that limits logins per key. Time and tokens are reals, time in minutes; a clock
  never runs backwards. Buckets idle for an hour are evicted by a sweep at most every ten minutes.
*/
module Limiter {
  import opened Basics

  datatype Bucket = Bucket(tokens: real, last: real)

  datatype Params = Params(burst: real, perMin: real) {
    predicate Valid() {
      burst >= 0.0 && perMin >= 0.0
    }

    /** An hour of refill makes up a full bucket. */
    predicate RefillsWithinHour() {
      burst <= 60.0 * perMin
    }
  }

  /** lastSweep is None before the first call: the zero time is more than ten minutes ago. */
  datatype State = State(buckets: map<string, Bucket>, lastSweep: Option<real>)

  const START: State := State(map[], None)

  function MinReal(a: real, b: real): real {
    if a < b then a else b
  }

  /** The tokens that flow into a bucket in `dt` minutes. */
  function Refill(p: Params, dt: real): real {
    dt * p.perMin
  }

  function Level(p: Params, b: Option<Bucket>, now: real): real {
    if b.None? then p.burst else MinReal(p.burst, b.value.tokens + Refill(p, now - b.value.last))
  }

  // ---- one call

  predicate SweepDue(st: State, now: real) {
    st.lastSweep.None? || now - st.lastSweep.value > 10.0
  }

  function Swept(st: State, now: real): State {
    if SweepDue(st, now) then
      State(map k | k in st.buckets && now - st.buckets[k].last <= 60.0 :: st.buckets[k], Some(now))
    else st
  }

  function Lookup(st: State, key: string): Option<Bucket> {
    if key in st.buckets then Some(st.buckets[key]) else None
  }

  /** The bucket a call leaves behind when it finds `level` tokens. */
  function Spent(level: real, now: real): Bucket {
    Bucket(if level >= 1.0 then level - 1.0 else level, now)
  }

  function Take(p: Params, st: State, key: string, now: real): (State, bool) {
    var level := Level(p, Lookup(st, key), now);
    (st.(buckets := st.buckets[key := Spent(level, now)]), level >= 1.0)
  }

  /** One call; `evict` tells the limiter of the source from one that never evicts. */
  function Allow(p: Params, st: State, key: string, now: real, evict: bool): (State, bool) {
    Take(p, if evict then Swept(st, now) else st, key, now)
  }

  class Limiter {
    const p: Params
    var buckets: map<string, Bucket>
    var lastSweep: Option<real>

    constructor (burst: real, perMin: real)
      ensures p == Params(burst, perMin) && State(buckets, lastSweep) == START
    {
      p := Params(burst, perMin);
      buckets, lastSweep := map[], None;
    }

    method SweepWhenDue(now: real)
      modifies this
      ensures State(buckets, lastSweep) == Swept(State(old(buckets), old(lastSweep)), now)
    {
      if lastSweep.None? || now - lastSweep.value > 10.0 {
        buckets := map k | k in buckets && !(now - buckets[k].last > 60.0) :: buckets[k];
        lastSweep := Some(now);
      }
    }

    method AllowNow(key: string, now: real) returns (ok: bool)
      modifies this
      ensures (State(buckets, lastSweep), ok) == Allow(p, State(old(buckets), old(lastSweep)), key, now, true)
    {
      hide Swept;
      SweepWhenDue(now);
      ghost var swept := State(buckets, lastSweep);
      if key !in buckets {
        buckets := buckets[key := Bucket(p.burst, now)];
      }
      var elapsed := now - buckets[key].last;
      var tokens := MinReal(p.burst, buckets[key].tokens + elapsed * p.perMin);
      assert tokens == Level(p, Lookup(swept, key), now);
      buckets := buckets[key := Bucket(tokens, now)];
      ok := !(tokens < 1.0);
      if ok {
        buckets := buckets[key := Bucket(tokens - 1.0, now)];
      }
      assert buckets == swept.buckets[key := Spent(tokens, now)];
    }
  }

  // ---- runs

  datatype Call = Call(key: string, at: real)

  /** The clock never runs backwards. */
  ghost predicate Clocked(calls: seq<Call>) {
    forall i, j :: 0 <= i <= j < |calls| ==> calls[i].at <= calls[j].at
  }

  function After(p: Params, calls: seq<Call>, evict: bool): State {
    if calls == [] then START
    else var c := calls[|calls| - 1]; Allow(p, After(p, calls[..|calls| - 1], evict), c.key, c.at, evict).0
  }

  function Answer(p: Params, calls: seq<Call>, i: nat, evict: bool): bool
    requires i < |calls|
  {
    Allow(p, After(p, calls[..i], evict), calls[i].key, calls[i].at, evict).1
  }

  /** How many of the calls i..j by `key` were permitted. */
  function Permits(p: Params, calls: seq<Call>, key: string, i: nat, j: nat, evict: bool): nat
    requires i <= j <= |calls|
    decreases j - i
  {
    if i == j then 0
    else Permits(p, calls, key, i, j - 1, evict)
         + if calls[j - 1].key == key && Answer(p, calls, j - 1, evict) then 1 else 0
  }

  /** In any window of a run a key is permitted at most burst plus the refill of the window. */
  ghost predicate Bounded(p: Params, evict: bool) {
    forall calls: seq<Call>, key: string, i: nat, j: nat :: Clocked(calls) && i < j <= |calls| ==>
      Permits(p, calls, key, i, j, evict) as real <= p.burst + Refill(p, calls[j - 1].at - calls[i].at)
  }

  ghost predicate EvictionInvisible(p: Params) {
    forall calls: seq<Call>, i: nat :: Clocked(calls) && i < |calls| ==>
      Answer(p, calls, i, true) == Answer(p, calls, i, false)
  }

  // ---- one bucket

  ghost predicate SaneBucket(p: Params, b: Option<Bucket>, now: real) {
    b.Some? ==> b.value.last <= now && 0.0 <= b.value.tokens <= p.burst
  }

  lemma RefillSplits(p: Params, a: real, b: real)
    ensures Refill(p, a + b) == Refill(p, a) + Refill(p, b)
  {
  }

  lemma RefillBounds(p: Params, dt: real)
    requires p.Valid()
    ensures dt == 0.0 ==> Refill(p, dt) == 0.0
    ensures dt >= 0.0 ==> Refill(p, dt) >= 0.0
    ensures dt >= 60.0 ==> Refill(p, dt) >= 60.0 * p.perMin
  {
    if dt >= 60.0 {
      assert (dt - 60.0) * p.perMin >= 0.0;
    }
  }

  lemma LevelBounds(p: Params, b: Option<Bucket>, now: real)
    requires p.Valid() && SaneBucket(p, b, now)
    ensures 0.0 <= Level(p, b, now) <= p.burst
    ensures SaneBucket(p, Some(Spent(Level(p, b, now), now)), now)
  {
    if b.Some? {
      RefillBounds(p, now - b.value.last);
      hide Refill;
    }
  }

  /** Waiting refills at most perMin a minute. */
  lemma LevelGrows(p: Params, b: Option<Bucket>, now: real, later: real)
    requires p.Valid() && SaneBucket(p, b, now) && now <= later
    ensures Level(p, b, later) <= Level(p, b, now) + Refill(p, later - now)
  {
    RefillBounds(p, later - now);
    if b.Some? {
      var last := b.value.last;
      RefillSplits(p, now - last, later - now);
      assert (now - last) + (later - now) == later - last;
      hide Refill;
    }
  }

  lemma LevelNow(p: Params, b: Bucket)
    requires b.tokens <= p.burst
    ensures Level(p, Some(b), b.last) == b.tokens
  {
  }

  /** An hour idle fills the bucket, so forgetting it then changes nothing. */
  lemma IdleIsFull(p: Params, b: Bucket, now: real)
    requires p.Valid() && p.RefillsWithinHour() && b.tokens >= 0.0 && now - b.last > 60.0
    ensures Level(p, Some(b), now) == p.burst
  {
    RefillBounds(p, now - b.last);
    hide Refill;
  }

  // ---- states of a run

  ghost predicate Sane(p: Params, st: State, now: real) {
    forall k :: SaneBucket(p, Lookup(st, k), now)
  }

  lemma SweptLookup(st: State, key: string, now: real)
    ensures var b := Lookup(st, key);
            Lookup(Swept(st, now), key)
            == if SweepDue(st, now) && b.Some? && now - b.value.last > 60.0 then None else b
  {
  }

  lemma TakeLookup(p: Params, st: State, key: string, now: real, other: string)
    ensures Lookup(Take(p, st, key, now).0, other)
            == if other == key then Some(Spent(Level(p, Lookup(st, key), now), now)) else Lookup(st, other)
  {
  }

  lemma {:induction false} RunIsSane(p: Params, calls: seq<Call>, evict: bool, now: real)
    requires p.Valid() && Clocked(calls) && (calls != [] ==> calls[|calls| - 1].at <= now)
    ensures Sane(p, After(p, calls, evict), now)
  {
    if calls != [] {
      var c := calls[|calls| - 1];
      var before := After(p, calls[..|calls| - 1], evict);
      var swept := if evict then Swept(before, c.at) else before;
      RunIsSane(p, calls[..|calls| - 1], evict, c.at);
      forall k ensures SaneBucket(p, Lookup(After(p, calls, evict), k), now) {
        SweptLookup(before, k, c.at);
        SweptLookup(before, c.key, c.at);
        assert SaneBucket(p, Lookup(before, k), c.at) && SaneBucket(p, Lookup(before, c.key), c.at);
        LevelBounds(p, Lookup(swept, c.key), c.at);
        TakeLookup(p, swept, c.key, c.at, k);
      }
    }
  }

  // ---- without eviction the bound always holds

  /** A permitted call takes one token from its bucket, and leaves the others. */
  lemma CallSpends(p: Params, before: State, c: Call, key: string)
    requires p.Valid() && SaneBucket(p, Lookup(before, key), c.at)
    ensures var (after, ok) := Allow(p, before, c.key, c.at, false);
            Level(p, Lookup(after, key), c.at) + (if c.key == key && ok then 1.0 else 0.0)
            == Level(p, Lookup(before, key), c.at)
  {
    var b := Lookup(before, key);
    LevelBounds(p, b, c.at);
    TakeLookup(p, before, c.key, c.at, key);
    LevelNow(p, Spent(Level(p, b, c.at), c.at));
  }

  lemma CallAddsUp(p: Params, calls: seq<Call>, key: string, i: nat, j: nat)
    requires p.Valid() && Clocked(calls) && i < j <= |calls|
    ensures var at := calls[j - 1].at;
            Permits(p, calls, key, i, j, false) as real + Level(p, Lookup(After(p, calls[..j], false), key), at)
            == Permits(p, calls, key, i, j - 1, false) as real
               + Level(p, Lookup(After(p, calls[..j - 1], false), key), at)
  {
    hide Level, Lookup, Allow, SaneBucket;
    var c := calls[j - 1];
    var before := After(p, calls[..j - 1], false);
    assert calls[..j][..j - 1] == calls[..j - 1];
    RunIsSane(p, calls[..j - 1], false, c.at);
    assert SaneBucket(p, Lookup(before, key), c.at);
    CallSpends(p, before, c, key);
  }

  lemma {:induction false} PermitsSpend(p: Params, calls: seq<Call>, key: string, i: nat, j: nat)
    requires p.Valid() && Clocked(calls) && i < j <= |calls|
    ensures Permits(p, calls, key, i, j, false) as real
            + Level(p, Lookup(After(p, calls[..j], false), key), calls[j - 1].at)
            <= p.burst + Refill(p, calls[j - 1].at - calls[i].at)
    decreases j
  {
    hide Refill, Level, Lookup, After, SaneBucket;
    var at := calls[j - 1].at;
    var b := Lookup(After(p, calls[..j - 1], false), key);
    CallAddsUp(p, calls, key, i, j);
    if i < j - 1 {
      var prev := calls[j - 2].at;
      PermitsSpend(p, calls, key, i, j - 1);
      RunIsSane(p, calls[..j - 1], false, prev);
      assert SaneBucket(p, b, prev);
      LevelGrows(p, b, prev, at);
      RefillSplits(p, prev - calls[i].at, at - prev);
      assert (prev - calls[i].at) + (at - prev) == at - calls[i].at;
    } else {
      RunIsSane(p, calls[..j - 1], false, at);
      assert SaneBucket(p, b, at);
      LevelBounds(p, b, at);
      RefillBounds(p, at - calls[i].at);
    }
  }

  lemma NeverEvictingIsBounded(p: Params)
    requires p.Valid()
    ensures Bounded(p, false)
  {
    forall calls: seq<Call>, key: string, i: nat, j: nat | Clocked(calls) && i < j <= |calls|
      ensures Permits(p, calls, key, i, j, false) as real <= p.burst + Refill(p, calls[j - 1].at - calls[i].at)
    {
      PermitsSpend(p, calls, key, i, j);
      RunIsSane(p, calls[..j], false, calls[j - 1].at);
      assert SaneBucket(p, Lookup(After(p, calls[..j], false), key), calls[j - 1].at);
      LevelBounds(p, Lookup(After(p, calls[..j], false), key), calls[j - 1].at);
    }
  }

  // ---- when an hour refills a bucket, eviction is invisible, and so the bound holds

  lemma {:induction false} SameLevel(p: Params, calls: seq<Call>, key: string, now: real)
    requires p.Valid() && p.RefillsWithinHour() && Clocked(calls) && (calls != [] ==> calls[|calls| - 1].at <= now)
    ensures Level(p, Lookup(After(p, calls, true), key), now) == Level(p, Lookup(After(p, calls, false), key), now)
    ensures Level(p, Lookup(Swept(After(p, calls, true), now), key), now)
            == Level(p, Lookup(After(p, calls, true), key), now)
  {
    RunIsSane(p, calls, true, now);
    ForgettingIsFree(p, After(p, calls, true), key, now, now);
    if calls != [] {
      var c, front := calls[|calls| - 1], calls[..|calls| - 1];
      var kept, before := After(p, front, false), After(p, front, true);
      TakeLookup(p, kept, c.key, c.at, key);
      TakeLookup(p, Swept(before, c.at), c.key, c.at, key);
      if key == c.key {
        SameLevel(p, front, key, c.at);
      } else {
        SameLevel(p, front, key, now);
        RunIsSane(p, front, true, c.at);
        ForgettingIsFree(p, before, key, c.at, now);
      }
    }
  }

  lemma ForgettingIsFree(p: Params, st: State, key: string, now: real, later: real)
    requires p.Valid() && p.RefillsWithinHour() && Sane(p, st, now) && now <= later
    ensures Level(p, Lookup(Swept(st, now), key), later) == Level(p, Lookup(st, key), later)
  {
    var b := Lookup(st, key);
    SweptLookup(st, key, now);
    assert SaneBucket(p, b, now);
    if b.Some? && now - b.value.last > 60.0 {
      IdleIsFull(p, b.value, later);
    }
  }

  /** A bucket that holds less than one token permits nothing. */
  lemma SmallBurstRefuses(p: Params, calls: seq<Call>, i: nat, evict: bool)
    requires p.burst < 1.0 && i < |calls|
    ensures !Answer(p, calls, i, evict)
  {
  }

  lemma FastRefillHidesEviction(p: Params)
    requires p.Valid() && (p.burst < 1.0 || p.RefillsWithinHour())
    ensures EvictionInvisible(p)
  {
    forall calls: seq<Call>, i: nat | Clocked(calls) && i < |calls|
      ensures Answer(p, calls, i, true) == Answer(p, calls, i, false)
    {
      if p.burst < 1.0 {
        SmallBurstRefuses(p, calls, i, true);
        SmallBurstRefuses(p, calls, i, false);
      } else {
        SameLevel(p, calls[..i], calls[i].key, calls[i].at);
      }
    }
  }

  lemma {:induction false} SamePermits(p: Params, calls: seq<Call>, key: string, i: nat, j: nat)
    requires EvictionInvisible(p) && Clocked(calls) && i <= j <= |calls|
    ensures Permits(p, calls, key, i, j, true) == Permits(p, calls, key, i, j, false)
    decreases j
  {
    if i < j {
      SamePermits(p, calls, key, i, j - 1);
      assert Answer(p, calls, j - 1, true) == Answer(p, calls, j - 1, false);
    }
  }

  lemma InvisibleIsBounded(p: Params)
    requires p.Valid() && EvictionInvisible(p)
    ensures Bounded(p, true)
  {
    NeverEvictingIsBounded(p);
    forall calls: seq<Call>, key: string, i: nat, j: nat | Clocked(calls) && i < j <= |calls|
      ensures Permits(p, calls, key, i, j, true) as real <= p.burst + Refill(p, calls[j - 1].at - calls[i].at)
    {
      SamePermits(p, calls, key, i, j);
    }
  }

  // ---- when it does not, waiting out the eviction beats the bound

  /** A run of calls by one key, from time 0 to t, with n permits so far and `level` tokens left. */
  ghost predicate Reached(p: Params, calls: seq<Call>, n: nat, level: real, t: real) {
    && Clocked(calls) && calls != [] && calls[0].at == 0.0 && calls[|calls| - 1].at == t
    && Permits(p, calls, "k", 0, |calls|, true) == n
    && 0.0 <= level <= p.burst
    && var st := After(p, calls, true);
       st.buckets == map["k" := Bucket(level, t)] && st.lastSweep.Some? && st.lastSweep.value <= t
  }

  lemma {:induction false} PermitsOfPrefix(p: Params, calls: seq<Call>, key: string, i: nat, j: nat, n: nat,
                                           evict: bool)
    requires i <= j <= n <= |calls|
    ensures Permits(p, calls, key, i, j, evict) == Permits(p, calls[..n], key, i, j, evict)
    decreases j
  {
    if i < j {
      PermitsOfPrefix(p, calls, key, i, j - 1, n, evict);
      assert calls[..n][..j - 1] == calls[..j - 1];
    }
  }

  /** One more call, on a bucket that is kept or on one that was idle long enough to be evicted. */
  lemma OneMore(p: Params, calls: seq<Call>, n: nat, level: real, t: real, now: real, found: real)
    requires Reached(p, calls, n, level, t) && t <= now && found >= 1.0
    requires found == if now - t > 60.0 then p.burst else Level(p, Some(Bucket(level, t)), now)
    ensures Reached(p, calls + [Call("k", now)], n + 1, found - 1.0, now)
  {
    var more := calls + [Call("k", now)];
    assert more[..|calls|] == calls;
    PermitsOfPrefix(p, more, "k", 0, |calls|, |calls|, true);
    var st := After(p, calls, true);
    SweptLookup(st, "k", now);
    var swept := Swept(st, now);
    assert Level(p, Lookup(swept, "k"), now) == found;
    assert After(p, more, true) == Take(p, swept, "k", now).0;
    assert forall k :: k in swept.buckets ==> k == "k";
    assert swept.buckets["k" := Spent(found, now)] == map["k" := Bucket(found - 1.0, now)];
  }

  lemma {:induction false} ManyMore(p: Params, calls: seq<Call>, n: nat, level: real, t: real, m: nat)
    returns (more: seq<Call>)
    requires Reached(p, calls, n, level, t) && level >= m as real
    ensures Reached(p, more, n + m, level - m as real, t)
    decreases m
  {
    if m == 0 {
      more := calls;
    } else {
      LevelNow(p, Bucket(level, t));
      OneMore(p, calls, n, level, t, t, level);
      more := ManyMore(p, calls + [Call("k", t)], n + 1, level - 1.0, t, m - 1);
    }
  }

  lemma FirstCall(p: Params)
    requires p.burst >= 1.0
    ensures Reached(p, [Call("k", 0.0)], 1, p.burst - 1.0, 0.0)
  {
    var calls := [Call("k", 0.0)];
    var st := Swept(START, 0.0);
    assert st.buckets == map[];
    assert calls[..0] == [];
    assert After(p, [], true) == START;
    assert After(p, calls, true) == Take(p, st, "k", 0.0).0;
    assert Level(p, Lookup(st, "k"), 0.0) == p.burst;
    assert Answer(p, calls, 0, true);
    assert Permits(p, calls, "k", 0, 0, true) == 0;
  }

  /** The whole tokens of a burst, taken twice, more than an hour apart. */
  lemma TwoBursts(p: Params, m: nat, idle: real) returns (calls: seq<Call>)
    requires p.Valid() && 1 <= m && m as real <= p.burst && idle > 60.0
    ensures Reached(p, calls, 2 * m, p.burst - m as real, idle)
  {
    hide Refill, Reached;
    FirstCall(p);
    var a := ManyMore(p, [Call("k", 0.0)], 1, p.burst - 1.0, 0.0, m - 1);
    OneMore(p, a, m, p.burst - m as real, 0.0, idle, p.burst);
    calls := ManyMore(p, a + [Call("k", idle)], m + 1, p.burst - 1.0, idle, m - 1);
  }

  lemma LevelWaited(p: Params, rest: real, wait: real, since: real)
    requires rest + Refill(p, wait) == 1.0 <= p.burst
    ensures Level(p, Some(Bucket(rest, since)), since + wait) == 1.0
  {
    hide Refill;
    assert since + wait - since == wait;
  }

  /** The rest of a burst, and one more token grown from the fraction the burst leaves over. */
  lemma LongBurst(p: Params, before: seq<Call>, n: nat, t: real, m: nat, wait: real) returns (calls: seq<Call>)
    requires p.Valid() && 1 <= m && m as real <= p.burst && Reached(p, before, n, p.burst - 1.0, t)
    requires 0.0 <= wait <= 60.0 && p.burst - m as real + Refill(p, wait) == 1.0
    ensures Reached(p, calls, n + m, 0.0, t + wait)
  {
    hide Refill, Reached;
    var rest := p.burst - m as real;
    var a := ManyMore(p, before, n, p.burst - 1.0, t, m - 1);
    LevelWaited(p, rest, wait, t);
    OneMore(p, a, n + m - 1, rest, t, t + wait, 1.0);
    calls := a + [Call("k", t + wait)];
  }

  /** The same as TwoBursts, but each burst waits for its one more token. */
  lemma TwoLongBursts(p: Params, m: nat, wait: real, idle: real) returns (calls: seq<Call>)
    requires p.Valid() && 1 <= m && m as real <= p.burst && idle > 60.0
    requires 0.0 <= wait <= 60.0 && p.burst - m as real + Refill(p, wait) == 1.0
    ensures Reached(p, calls, 2 * m + 2, 0.0, wait + idle + wait)
  {
    hide Refill, Reached, Level;
    FirstCall(p);
    var a := LongBurst(p, [Call("k", 0.0)], 1, 0.0, m, wait);
    OneMore(p, a, m + 1, 0.0, wait, wait + idle, p.burst);
    calls := LongBurst(p, a + [Call("k", wait + idle)], m + 2, wait + idle, m, wait);
  }

  lemma Exceeds(p: Params, calls: seq<Call>, n: nat, level: real, t: real)
    requires Reached(p, calls, n, level, t) && n as real > p.burst + Refill(p, t)
    ensures !Bounded(p, true)
  {
    hide Refill, Answer, After;
    assert calls[|calls| - 1].at - calls[0].at == t;
    assert Permits(p, calls, "k", 0, |calls|, true) as real
           > p.burst + Refill(p, calls[|calls| - 1].at - calls[0].at);
  }

  /** Some idle time over an hour whose refill stays below any number above an hour's refill. */
  lemma IdleTime(p: Params, gap: real) returns (idle: real)
    requires p.Valid() && gap > 60.0 * p.perMin
    ensures idle > 60.0 && Refill(p, idle) < gap
  {
    var over := gap - 60.0 * p.perMin;
    var q := p.perMin + 1.0;
    idle := 60.0 + over / q;
    assert over / q > 0.0;
    assert p.perMin * idle == 60.0 * p.perMin + p.perMin * (over / q);
    assert q * (over / q) == over;
    assert q * (over / q) == p.perMin * (over / q) + over / q;
  }

  lemma RefillGrows(p: Params, dt: real)
    requires 0.0 < p.perMin
    ensures dt > 60.0 ==> dt * p.perMin > 60.0 * p.perMin
  {
    if dt > 60.0 {
      assert (dt - 60.0) * p.perMin > 0.0;
    }
  }

  /** The wait in which the fraction left over from a burst grows to a whole token. */
  lemma WaitTime(p: Params, rest: real) returns (wait: real)
    requires 0.0 <= rest < 1.0 && 0.0 < p.perMin && 1.0 - rest <= 60.0 * p.perMin
    ensures 0.0 <= wait <= 60.0 && Refill(p, wait) == 1.0 - rest
  {
    wait := (1.0 - rest) / p.perMin;
    assert wait * p.perMin == 1.0 - rest;
    RefillGrows(p, wait);
  }

  lemma SlowRefillBreaksBound(p: Params)
    requires p.Valid() && p.burst >= 1.0 && !p.RefillsWithinHour()
    ensures !Bounded(p, true)
  {
    hide Refill, Reached, Bounded;
    var m: nat := p.burst.Floor;
    var rest := p.burst - m as real;
    if m as real - rest > 60.0 * p.perMin {
      var idle := IdleTime(p, m as real - rest);
      var calls := TwoBursts(p, m, idle);
      Exceeds(p, calls, 2 * m, rest, idle);
    } else {
      var wait := WaitTime(p, rest);
      var idle := IdleTime(p, p.burst);
      var calls := TwoLongBursts(p, m, wait, idle);
      RefillSplits(p, wait + idle, wait);
      RefillSplits(p, wait, idle);
      Exceeds(p, calls, 2 * m + 2, 0.0, wait + idle + wait);
    }
  }

  /**
    The rate limit the source promises holds over every window of every run exactly when an hour of
    refill makes up a full bucket (or the bucket is too small to permit anything), and exactly then
    eviction never changes an answer.
  */
  lemma BoundIffRefillsWithinHour(p: Params)
    requires p.Valid()
    ensures Bounded(p, true) <==> p.burst < 1.0 || p.RefillsWithinHour()
    ensures EvictionInvisible(p) <==> p.burst < 1.0 || p.RefillsWithinHour()
  {
    if p.burst < 1.0 || p.RefillsWithinHour() {
      FastRefillHidesEviction(p);
      InvisibleIsBounded(p);
    } else {
      SlowRefillBreaksBound(p);
      if EvictionInvisible(p) {
        InvisibleIsBounded(p);
      }
    }
  }
}
