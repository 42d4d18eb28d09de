/**
  When exactly the limiter says no: a call is refused only if some window of the run that ends at it would otherwise
  hold more permits than burst and refill allow.
*/
module LimiterAnswers {
  import opened Basics
  import opened Limiter

  /** What call j finds, after the sweep. */
  function Found(p: Params, calls: seq<Call>, j: nat, evict: bool): State
    requires j < |calls|
  {
    var st := After(p, calls[..j], evict);
    if evict then Swept(st, calls[j].at) else st
  }

  /** The tokens of a key at call j, before anything is taken. */
  function LevelAt(p: Params, calls: seq<Call>, key: string, j: nat, evict: bool): real
    requires j < |calls|
  {
    Level(p, Lookup(Found(p, calls, j, evict), key), calls[j].at)
  }

  lemma AnswerIs(p: Params, calls: seq<Call>, j: nat, evict: bool)
    requires j < |calls|
    ensures Answer(p, calls, j, evict) <==> LevelAt(p, calls, calls[j].key, j, evict) >= 1.0
  {
  }

  /** The next call finds what this one left, unless it has been evicted. */
  lemma FoundNext(p: Params, calls: seq<Call>, key: string, j: nat, evict: bool)
    requires j + 1 < |calls|
    ensures var b := Lookup(Found(p, calls, j + 1, evict), key);
            var c := calls[j];
            b.None? || b == if key == c.key then Some(Spent(LevelAt(p, calls, key, j, evict), c.at))
                            else Lookup(Found(p, calls, j, evict), key)
  {
    assert calls[..j + 1][..j] == calls[..j];
    TakeLookup(p, Found(p, calls, j, evict), calls[j].key, calls[j].at, key);
    SweptLookup(After(p, calls[..j + 1], evict), key, calls[j + 1].at);
  }

  lemma LongerIsMore(p: Params, a: real, b: real)
    requires p.Valid() && a <= b
    ensures Refill(p, a) <= Refill(p, b)
    ensures Refill(p, b) == Refill(p, a) + Refill(p, b - a)
  {
    RefillBounds(p, b - a);
    RefillSplits(p, a, b - a);
    assert a + (b - a) == b;
  }

  /** One call and the wait for the next: below the brim nothing is lost. */
  lemma LevelCarries(p: Params, calls: seq<Call>, key: string, j: nat, evict: bool)
    requires p.Valid() && Clocked(calls) && j + 1 < |calls|
    requires LevelAt(p, calls, key, j + 1, evict) != p.burst
    ensures LevelAt(p, calls, key, j + 1, evict)
            == LevelAt(p, calls, key, j, evict)
               - (if calls[j].key == key && Answer(p, calls, j, evict) then 1.0 else 0.0)
               + Refill(p, calls[j + 1].at - calls[j].at)
  {
    hide Refill, Found, After, Answer;
    FoundNext(p, calls, key, j, evict);
    AnswerIs(p, calls, j, evict);
    var b := Lookup(Found(p, calls, j + 1, evict), key).value;
    if key != calls[j].key {
      LongerIsMore(p, calls[j].at - b.last, calls[j + 1].at - b.last);
      assert calls[j + 1].at - b.last - (calls[j].at - b.last) == calls[j + 1].at - calls[j].at;
    }
  }

  /** The level is what some window up to now has left of burst and refill. */
  lemma {:induction false} LevelAttained(p: Params, calls: seq<Call>, key: string, j: nat, evict: bool)
    returns (i: nat)
    requires p.Valid() && Clocked(calls) && j < |calls|
    ensures i <= j
    ensures Permits(p, calls, key, i, j, evict) as real + LevelAt(p, calls, key, j, evict)
            == p.burst + Refill(p, calls[j].at - calls[i].at)
    decreases j
  {
    hide LevelAt, Answer, Refill;
    RefillBounds(p, calls[j].at - calls[j].at);
    i := j;
    if LevelAt(p, calls, key, j, evict) != p.burst {
      if j == 0 {
        NothingFound(p, calls, key, evict);
      } else {
        i := LevelAttained(p, calls, key, j - 1, evict);
        LevelCarries(p, calls, key, j - 1, evict);
        RefillSplits(p, calls[j - 1].at - calls[i].at, calls[j].at - calls[j - 1].at);
        assert calls[j - 1].at - calls[i].at + (calls[j].at - calls[j - 1].at) == calls[j].at - calls[i].at;
      }
    }
  }

  lemma NothingFound(p: Params, calls: seq<Call>, key: string, evict: bool)
    requires calls != []
    ensures LevelAt(p, calls, key, 0, evict) == p.burst
  {
    assert calls[..0] == [];
  }

  /** Permitting call j would put too many permits into the window from call i on. */
  ghost predicate WouldExceed(p: Params, calls: seq<Call>, i: nat, j: nat, evict: bool)
    requires i <= j < |calls|
  {
    Permits(p, calls, calls[j].key, i, j, evict) as real + 1.0 > p.burst + Refill(p, calls[j].at - calls[i].at)
  }

  /** A call is refused only for a window that would exceed, evictions or not. */
  lemma RefusedForAWindow(p: Params, calls: seq<Call>, j: nat, evict: bool)
    requires p.Valid() && Clocked(calls) && j < |calls| && !Answer(p, calls, j, evict)
    ensures exists i: nat :: i <= j && WouldExceed(p, calls, i, j, evict)
  {
    AnswerIs(p, calls, j, evict);
    hide Answer, LevelAt, Refill;
    var i := LevelAttained(p, calls, calls[j].key, j, evict);
    assert WouldExceed(p, calls, i, j, evict);
  }

  /** The limiter permits every call it can: it refuses exactly those that would put some window over. */
  ghost predicate Exact(p: Params, evict: bool) {
    forall calls: seq<Call>, j: nat :: Clocked(calls) && j < |calls| ==>
      (Answer(p, calls, j, evict) <==> forall i: nat :: i <= j ==> !WouldExceed(p, calls, i, j, evict))
  }

  lemma BoundedIsExact(p: Params, evict: bool)
    requires p.Valid() && Bounded(p, evict)
    ensures Exact(p, evict)
  {
    hide Answer, Refill;
    forall calls: seq<Call>, j: nat | Clocked(calls) && j < |calls|
      ensures Answer(p, calls, j, evict) <==> forall i: nat :: i <= j ==> !WouldExceed(p, calls, i, j, evict)
    {
      if Answer(p, calls, j, evict) {
        forall i: nat | i <= j ensures !WouldExceed(p, calls, i, j, evict) {
          assert Permits(p, calls, calls[j].key, i, j + 1, evict) as real
                 <= p.burst + Refill(p, calls[j + 1 - 1].at - calls[i].at);
        }
      } else {
        RefusedForAWindow(p, calls, j, evict);
      }
    }
  }

  lemma {:induction false} ExactStaysBelow(p: Params, calls: seq<Call>, key: string, i: nat, j: nat, evict: bool)
    requires p.Valid() && Exact(p, evict) && Clocked(calls) && i < j <= |calls|
    ensures Permits(p, calls, key, i, j, evict) as real <= p.burst + Refill(p, calls[j - 1].at - calls[i].at)
    decreases j
  {
    hide Answer, Refill;
    var at := calls[j - 1].at;
    RefillBounds(p, at - calls[i].at);
    if calls[j - 1].key == key && Answer(p, calls, j - 1, evict) {
      assert !WouldExceed(p, calls, i, j - 1, evict);
    } else if i < j - 1 {
      ExactStaysBelow(p, calls, key, i, j - 1, evict);
      LongerIsMore(p, calls[j - 2].at - calls[i].at, at - calls[i].at);
    }
  }

  /**
    Without eviction the limiter is exact for every burst and rate; with it, exactly when an hour refills a bucket or
    no bucket ever holds a token.
  */
  lemma ExactIffRefillsWithinHour(p: Params)
    requires p.Valid()
    ensures Exact(p, false)
    ensures Exact(p, true) <==> p.burst < 1.0 || p.burst <= 60.0 * p.perMin
  {
    NeverEvictingIsBounded(p);
    BoundedIsExact(p, false);
    BoundIffRefillsWithinHour(p);
    if Bounded(p, true) {
      BoundedIsExact(p, true);
    }
    if Exact(p, true) {
      forall calls: seq<Call>, key: string, i: nat, j: nat | Clocked(calls) && i < j <= |calls|
        ensures Permits(p, calls, key, i, j, true) as real <= p.burst + Refill(p, calls[j - 1].at - calls[i].at)
      {
        ExactStaysBelow(p, calls, key, i, j, true);
      }
      assert Bounded(p, true);
    }
  }

  // ---- what is kept

  /** Call i is the latest one by the key. */
  ghost predicate IsLatest(calls: seq<Call>, key: string, i: int) {
    0 <= i < |calls| && calls[i].key == key && forall k :: i < k < |calls| ==> calls[k].key != key
  }

  /** After a call the last sweep is at most ten minutes old, and what it left was at most an hour idle. */
  ghost predicate SweptLately(st: State, now: real) {
    && st.lastSweep.Some? && 0.0 <= now - st.lastSweep.value <= 10.0
    && forall key :: key in st.buckets ==> st.buckets[key].last >= st.lastSweep.value - 60.0
  }

  lemma {:induction false} TableIsSwept(p: Params, calls: seq<Call>)
    requires Clocked(calls) && calls != []
    ensures SweptLately(After(p, calls, true), calls[|calls| - 1].at)
  {
    var front := calls[..|calls| - 1];
    if front != [] {
      TableIsSwept(p, front);
    }
  }

  lemma {:induction false} BucketOfLatest(p: Params, calls: seq<Call>, key: string)
    requires Clocked(calls)
    ensures var st := After(p, calls, true);
            key in st.buckets ==> exists i :: IsLatest(calls, key, i) && calls[i].at == st.buckets[key].last
  {
    if calls != [] {
      var n := |calls| - 1;
      var front := calls[..n];
      BucketOfLatest(p, front, key);
      if key == calls[n].key {
        assert IsLatest(calls, key, n);
      } else if key in After(p, calls, true).buckets {
        var i :| IsLatest(front, key, i) && front[i].at == After(p, front, true).buckets[key].last;
        assert IsLatest(calls, key, i);
      }
    }
  }

  lemma {:induction false} RecentIsKept(p: Params, calls: seq<Call>, key: string, i: int)
    requires Clocked(calls) && IsLatest(calls, key, i) && calls[|calls| - 1].at - calls[i].at <= 60.0
    ensures key in After(p, calls, true).buckets
  {
    var n := |calls| - 1;
    var front := calls[..n];
    if i < n {
      RecentIsKept(p, front, key, i);
      BucketOfLatest(p, front, key);
    }
  }

  /**
    The table holds a bucket for every key called within the last hour, and for none not called for seventy minutes;
    each bucket is as old as the latest call by its key.
  */
  lemma BucketsAreRecent(p: Params, calls: seq<Call>, key: string)
    requires Clocked(calls) && calls != []
    ensures var st, now := After(p, calls, true), calls[|calls| - 1].at;
            && SweptLately(st, now)
            && (key in st.buckets ==> now - st.buckets[key].last <= 70.0
                                      && exists i :: IsLatest(calls, key, i) && calls[i].at == st.buckets[key].last)
            && forall i :: IsLatest(calls, key, i) && now - calls[i].at <= 60.0 ==> key in st.buckets
  {
    hide After;
    TableIsSwept(p, calls);
    BucketOfLatest(p, calls, key);
    forall i | IsLatest(calls, key, i) && calls[|calls| - 1].at - calls[i].at <= 60.0
      ensures key in After(p, calls, true).buckets
    {
      RecentIsKept(p, calls, key, i);
    }
  }

  /** Sweeps are more than ten minutes apart. */
  lemma SweepsAreApart(p: Params, calls: seq<Call>, c: Call)
    requires After(p, calls + [c], true).lastSweep != After(p, calls, true).lastSweep && calls != []
    ensures var before := After(p, calls, true).lastSweep;
            After(p, calls + [c], true).lastSweep == Some(c.at) && (before.Some? ==> c.at - before.value > 10.0)
  {
    assert (calls + [c])[..|calls|] == calls;
  }
}
