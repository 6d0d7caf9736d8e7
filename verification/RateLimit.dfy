/**
 The fixed-window counter of server/src/redis.ts (and of the identical script in mfa-records.ts):
 INCR, and EXPIRE when the count becomes 1, in one atomic script. A key is gone from its expiry on.
 */
module RateLimit {
  import opened Wrappers

  datatype Counter = Counter(count: nat, expiresAt: int)

  /** The key as Redis sees it at `now`. */
  function CountAt(counter: Option<Counter>, now: int): nat {
    if counter.Some? && now < counter.value.expiresAt then counter.value.count else 0
  }

  function Hit(counter: Option<Counter>, windowMs: int, now: int): (next: Counter)
    ensures next.count == CountAt(counter, now) + 1
  {
    if counter.Some? && now < counter.value.expiresAt && counter.value.count > 0 then
      Counter(counter.value.count + 1, counter.value.expiresAt)
    else
      Counter(1, now + windowMs)
  }

  // ---------------------------------------------------------------- one key under an arbitrary trace of calls

  datatype History = History(counter: Option<Counter>, passed: seq<int>)

  /** checkRateLimit at each of the given times; `passed` are the times of the calls that were let through. */
  function Calls(limit: nat, windowMs: int, times: seq<int>): History
    decreases |times|
  {
    if times == [] then History(None, []) else
    var n := |times| - 1;
    var before := Calls(limit, windowMs, times[..n]);
    var counter := Hit(before.counter, windowMs, times[n]);
    History(Some(counter), if counter.count > limit then before.passed else before.passed + [times[n]])
  }

  ghost predicate Ordered(times: seq<int>) {
    forall i, j :: 0 <= i < j < |times| ==> times[i] <= times[j]
  }

  /** How many of the times lie in [from, to). */
  function CountIn(times: seq<int>, from: int, to: int): nat {
    if times == [] then 0 else
    var n := |times| - 1;
    CountIn(times[..n], from, to) + if from <= times[n] < to then 1 else 0
  }

  lemma {:induction false} CountSplits(times: seq<int>, a: int, b: int, c: int)
    requires a <= b <= c
    ensures CountIn(times, a, c) == CountIn(times, a, b) + CountIn(times, b, c)
  {
    if times != [] {
      CountSplits(times[..|times| - 1], a, b, c);
    }
  }

  lemma {:induction false} CountsNothingBeyond(times: seq<int>, a: int, b: int)
    requires forall i :: 0 <= i < |times| ==> times[i] < a
    ensures CountIn(times, a, b) == 0
  {
    if times != [] {
      CountsNothingBeyond(times[..|times| - 1], a, b);
    }
  }

  lemma CountAppends(times: seq<int>, t: int, a: int, b: int)
    ensures CountIn(times + [t], a, b) == CountIn(times, a, b) + if a <= t < b then 1 else 0
  {
    assert (times + [t])[..|times|] == times;
  }

  /** The current window [start, end) and what passed in it and in the window length before it. */
  ghost predicate WindowInvariant(limit: nat, windowMs: int, record: History) {
    && record.counter.Some? && record.counter.value.count > 0
    && var end := record.counter.value.expiresAt;
    var start := end - windowMs;
    var passed := record.passed;
    && (forall i :: 0 <= i < |passed| ==> passed[i] < end)
    && CountIn(passed, start, end)
       == (if record.counter.value.count <= limit then record.counter.value.count else limit)
    && (limit > 0 ==> CountIn(passed, start, start + 1) > 0)
    && (forall a :: start - windowMs <= a <= start ==>
          CountIn(passed, a, start) <= if a == start - windowMs || limit == 0 then limit else limit - 1)
  }

  /** What passed in the window length from a on, without and with its closing instant. */
  ghost predicate Bounded(limit: nat, windowMs: int, passed: seq<int>, a: int) {
    && CountIn(passed, a, a + windowMs) <= (if limit == 0 then 0 else 2 * limit - 1)
    && CountIn(passed, a, a + windowMs + 1) <= 2 * limit
  }

  lemma OpenWindowKept(limit: nat, windowMs: int, before: History, t: int, after: History)
    requires windowMs > 0 && WindowInvariant(limit, windowMs, before)
    requires before.counter.value.expiresAt - windowMs <= t < before.counter.value.expiresAt
    requires after.counter == Some(Hit(before.counter, windowMs, t))
    requires after.passed == if after.counter.value.count > limit then before.passed else before.passed + [t]
    ensures WindowInvariant(limit, windowMs, after)
  {
    if after.counter.value.count <= limit {
      var end := before.counter.value.expiresAt;
      var start := end - windowMs;
      CountAppends(before.passed, t, start, end);
      CountAppends(before.passed, t, start, start + 1);
      forall a | start - windowMs <= a <= start
        ensures CountIn(after.passed, a, start) == CountIn(before.passed, a, start) {
        CountAppends(before.passed, t, a, start);
      }
    }
  }

  /** Of the calls before a new window, a stretch that starts less than a window length before it holds few. */
  lemma BeforeNewWindow(limit: nat, windowMs: int, before: History, t: int, a: int)
    requires windowMs > 0 && t - windowMs <= a <= t
    requires before == History(None, [])
             || (WindowInvariant(limit, windowMs, before) && before.counter.value.expiresAt <= t)
    ensures CountIn(before.passed, a, t) <= if a == t - windowMs || limit == 0 then limit else limit - 1
  {
    if before.counter.Some? {
      var end := before.counter.value.expiresAt;
      var start := end - windowMs;
      assert start <= a;
      CountsNothingBeyond(before.passed, end, t);
      CountSplits(before.passed, start, end, t);
      CountSplits(before.passed, start, a, t);
      if start < a { CountSplits(before.passed, start, start + 1, a); }
    }
  }

  lemma NewWindowOpened(limit: nat, windowMs: int, before: History, t: int, after: History)
    requires windowMs > 0
    requires before == History(None, [])
             || (WindowInvariant(limit, windowMs, before) && before.counter.value.expiresAt <= t)
    requires after.counter == Some(Counter(1, t + windowMs))
    requires after.passed == if 1 > limit then before.passed else before.passed + [t]
    ensures WindowInvariant(limit, windowMs, after)
  {
    CountsNothingBeyond(before.passed, t, t + windowMs);
    CountAppends(before.passed, t, t, t + windowMs);
    CountAppends(before.passed, t, t, t + 1);
    forall a | t - windowMs <= a <= t
      ensures CountIn(after.passed, a, t) <= if a == t - windowMs || limit == 0 then limit else limit - 1
    {
      CountAppends(before.passed, t, a, t);
      BeforeNewWindow(limit, windowMs, before, t, a);
    }
  }

  /** An interval that a newly passed call lies in reaches into the open window and at most one before it. */
  lemma PassedCallIsBounded(limit: nat, windowMs: int, passed: seq<int>, t: int, after: History, a: int)
    requires windowMs > 0 && WindowInvariant(limit, windowMs, after) && Bounded(limit, windowMs, passed, a)
    requires after.passed == passed + [t] && after.counter.value.count <= limit
    requires after.counter.value.expiresAt - windowMs <= t
    ensures Bounded(limit, windowMs, after.passed, a)
  {
    CountAppends(passed, t, a, a + windowMs);
    CountAppends(passed, t, a, a + windowMs + 1);
    if a <= t < a + windowMs { ReachesIntoWindow(limit, windowMs, after, a, a + windowMs); }
    if a <= t < a + windowMs + 1 { ReachesIntoWindow(limit, windowMs, after, a, a + windowMs + 1); }
  }

  lemma ReachesIntoWindow(limit: nat, windowMs: int, record: History, a: int, b: int)
    requires windowMs > 0 && WindowInvariant(limit, windowMs, record) && a <= b
    requires record.counter.value.expiresAt - windowMs < b
    ensures
      var start := record.counter.value.expiresAt - windowMs;
      CountIn(record.passed, a, b)
      <= CountIn(record.passed, start, start + windowMs) + if a < start then CountIn(record.passed, a, start) else 0
  {
    var end := record.counter.value.expiresAt;
    var start := end - windowMs;
    if b >= end {
      CountSplits(record.passed, start, end, b);
      CountsNothingBeyond(record.passed, end, b);
    } else {
      CountSplits(record.passed, start, b, end);
    }
    if a < start { CountSplits(record.passed, a, start, b); } else { CountSplits(record.passed, start, a, b); }
  }

  lemma {:induction false} CallsKeepWindow(limit: nat, windowMs: int, times: seq<int>)
    requires windowMs > 0 && Ordered(times)
    ensures times == [] ==> Calls(limit, windowMs, times) == History(None, [])
    ensures times != [] ==> WindowInvariant(limit, windowMs, Calls(limit, windowMs, times))
                            && Calls(limit, windowMs, times).counter.value.expiresAt - windowMs <= times[|times| - 1]
    ensures forall a :: Bounded(limit, windowMs, Calls(limit, windowMs, times).passed, a)
    decreases |times|
  {
    if times != [] {
      var n := |times| - 1;
      var before, after := Calls(limit, windowMs, times[..n]), Calls(limit, windowMs, times);
      CallsKeepWindow(limit, windowMs, times[..n]);
      if before.counter.Some? && times[n] < before.counter.value.expiresAt {
        OpenWindowKept(limit, windowMs, before, times[n], after);
      } else {
        NewWindowOpened(limit, windowMs, before, times[n], after);
      }
      forall a ensures Bounded(limit, windowMs, after.passed, a) {
        if after.counter.value.count <= limit {
          PassedCallIsBounded(limit, windowMs, before.passed, times[n], after, a);
        }
      }
    }
  }

  /**
   For every trace of calls: at most `limit` pass in a window, fewer than twice the limit in any half-open
   interval of one window length, and at most twice the limit if both end points belong to it.
   */
  lemma PassedCallsAreBounded(limit: nat, windowMs: int, times: seq<int>, a: int)
    requires windowMs > 0 && Ordered(times)
    ensures
      var record := Calls(limit, windowMs, times);
      && CountIn(record.passed, a, a + windowMs) <= (if limit == 0 then 0 else 2 * limit - 1)
      && CountIn(record.passed, a, a + windowMs + 1) <= 2 * limit
      && (record.counter.Some? ==>
            CountIn(record.passed, record.counter.value.expiresAt - windowMs, record.counter.value.expiresAt) <= limit)
  {
    CallsKeepWindow(limit, windowMs, times);
    assert Bounded(limit, windowMs, Calls(limit, windowMs, times).passed, a);
  }

  lemma CallsAppend(limit: nat, windowMs: int, times: seq<int>, t: int)
    ensures
      var before := Calls(limit, windowMs, times);
      var counter := Hit(before.counter, windowMs, t);
      Calls(limit, windowMs, times + [t])
      == History(Some(counter), if counter.count > limit then before.passed else before.passed + [t])
  {
    assert (times + [t])[..|times|] == times;
  }

  function Repeated(t: int, n: nat): seq<int> {
    if n == 0 then [] else Repeated(t, n - 1) + [t]
  }

  lemma RepeatedSnoc(earlier: seq<int>, t: int, n: nat)
    requires n > 0
    ensures earlier + Repeated(t, n) == earlier + Repeated(t, n - 1) + [t]
    ensures n == 1 ==> earlier + Repeated(t, n - 1) == earlier
  {
  }

  /** `n` calls at the same instant that open a window: all pass while n is within the limit. */
  lemma {:induction false} BurstPasses(limit: nat, windowMs: int, earlier: seq<int>, t: int, n: nat)
    requires windowMs > 0 && 0 < n <= limit
    requires CountAt(Calls(limit, windowMs, earlier).counter, t) == 0
    ensures Calls(limit, windowMs, earlier + Repeated(t, n))
            == History(Some(Counter(n, t + windowMs)), Calls(limit, windowMs, earlier).passed + Repeated(t, n))
  {
    var rest, passed := Repeated(t, n - 1), Calls(limit, windowMs, earlier).passed;
    RepeatedSnoc(earlier, t, n);
    RepeatedSnoc(passed, t, n);
    if n > 1 { BurstPasses(limit, windowMs, earlier, t, n - 1); }
    CallsAppend(limit, windowMs, earlier + rest, t);
  }

  lemma {:induction false} CountOfBurst(t: int, n: nat, a: int, b: int)
    requires a <= t < b
    ensures CountIn(Repeated(t, n), a, b) == n
  {
    if n > 0 {
      CountOfBurst(t, n - 1, a, b);
      CountAppends(Repeated(t, n - 1), t, a, b);
    }
  }

  lemma {:induction false} RepeatedAll(t: int, n: nat)
    ensures |Repeated(t, n)| == n && forall i :: 0 <= i < n ==> Repeated(t, n)[i] == t
  {
    if n > 0 { RepeatedAll(t, n - 1); }
  }

  lemma {:induction false} CountConcat(xs: seq<int>, ys: seq<int>, a: int, b: int)
    ensures CountIn(xs + ys, a, b) == CountIn(xs, a, b) + CountIn(ys, a, b)
    decreases |ys|
  {
    if ys == [] {
      assert xs + ys == xs;
    } else {
      assert (xs + ys)[..|xs + ys| - 1] == xs + ys[..|ys| - 1];
      CountConcat(xs, ys[..|ys| - 1], a, b);
    }
  }

  lemma TwoBurstsPass(limit: nat, windowMs: int)
    requires windowMs > 0 && limit > 0
    ensures Calls(limit, windowMs, Repeated(0, limit) + Repeated(windowMs, limit)).passed
            == Repeated(0, limit) + Repeated(windowMs, limit)
  {
    var first := Repeated(0, limit);
    BurstPasses(limit, windowMs, [], 0, limit);
    assert [] + first == first;
    BurstPasses(limit, windowMs, first, windowMs, limit);
  }

  /** The bound is reached: a full burst at the start of a window and another at the instant it ends. */
  lemma TwiceTheLimitIsReached(limit: nat, windowMs: int)
    requires windowMs > 0 && limit > 0
    ensures exists times: seq<int> ::
      Ordered(times) && CountIn(Calls(limit, windowMs, times).passed, 0, windowMs + 1) == 2 * limit
  {
    var first, second := Repeated(0, limit), Repeated(windowMs, limit);
    TwoBurstsPass(limit, windowMs);
    CountOfBurst(0, limit, 0, windowMs + 1);
    CountOfBurst(windowMs, limit, 0, windowMs + 1);
    CountConcat(first, second, 0, windowMs + 1);
    assert Ordered(first + second) by {
      RepeatedAll(0, limit);
      RepeatedAll(windowMs, limit);
    }
  }
}
