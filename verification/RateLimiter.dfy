/** The rate-limiting primitives, over a clock that never runs backwards: a token bucket
    refilled at each call, a bounded queue, and a detector that locks for good. */
module RateLimiter {
  import opened Options
  import opened Reals

  // ---------- the token bucket ----------

  datatype Limits = Limits(capacity: real, rate: real)

  predicate Sensible(k: Limits) {
    0.0 <= k.capacity && 0.0 <= k.rate
  }

  datatype Bucket = Bucket(tokens: real, last: real)

  /** What flows in over a time span. */
  function Inflow(k: Limits, span: real): real {
    span * k.rate
  }

  function Refill(k: Limits, b: Bucket, now: real): Bucket {
    Bucket(Min(k.capacity, b.tokens + Inflow(k, now - b.last)), now)
  }

  predicate Admits(k: Limits, b: Bucket, cost: real, now: real) {
    cost <= Refill(k, b, now).tokens
  }

  function Take(k: Limits, b: Bucket, cost: real, now: real): Bucket {
    var full := Refill(k, b, now);
    if Admits(k, b, cost, now) then full.(tokens := full.tokens - cost) else full
  }

  class TokenBucket {
    const limits: Limits
    var tokens: real
    var last: real

    function View(): Bucket
      reads this
    {
      Bucket(tokens, last)
    }

    constructor (limits: Limits, now: real)
      ensures this.limits == limits && View() == Bucket(limits.capacity, now)
    {
      this.limits := limits;
      tokens, last := limits.capacity, now;
    }

    method Allow(cost: real, now: real) returns (allowed: bool)
      modifies this
      ensures View() == Take(limits, old(View()), cost, now)
      ensures allowed <==> Admits(limits, old(View()), cost, now)
    {
      hide Inflow;
      var elapsed := now - last;
      tokens := Min(limits.capacity, tokens + Inflow(limits, elapsed));
      last := now;
      if tokens >= cost {
        tokens := tokens - cost;
        return true;
      }
      allowed := false;
    }
  }

  /** One call: when it came and what it asked for. */
  datatype Call = Call(now: real, cost: real)

  predicate InOrder(calls: seq<Call>) {
    forall i, j :: 0 <= i < j < |calls| ==> calls[i].now <= calls[j].now
  }

  function AfterCalls(k: Limits, start: Bucket, calls: seq<Call>): Bucket {
    if calls == [] then start
    else
      var c := calls[|calls| - 1];
      Take(k, AfterCalls(k, start, calls[..|calls| - 1]), c.cost, c.now)
  }

  /** The cost admitted between `from` and `to`, both included. */
  function AdmittedIn(k: Limits, start: Bucket, calls: seq<Call>, from: real, to: real): real {
    if calls == [] then 0.0
    else
      var front, c := calls[..|calls| - 1], calls[|calls| - 1];
      AdmittedIn(k, start, front, from, to) +
        (if from <= c.now <= to && Admits(k, AfterCalls(k, start, front), c.cost, c.now) then c.cost else 0.0)
  }

  /** The refill rate is tokens per unit of time. */
  lemma InflowIs(k: Limits, span: real)
    ensures Inflow(k, span) == span * k.rate
  {
  }

  lemma InflowGrows(k: Limits, a: real, b: real)
    requires 0.0 <= k.rate && a <= b
    ensures Inflow(k, a) <= Inflow(k, b)
  {
    assert (b - a) * k.rate >= 0.0;
  }

  lemma InflowAdds(k: Limits, a: real, b: real)
    ensures Inflow(k, a) + Inflow(k, b) == Inflow(k, a + b)
  {
  }

  lemma RefillBounds(k: Limits, b: Bucket, now: real)
    requires Sensible(k) && 0.0 <= b.tokens && b.last <= now
    ensures var full := Refill(k, b, now);
            0.0 <= full.tokens <= k.capacity && full.tokens <= b.tokens + Inflow(k, now - b.last)
  {
    InflowGrows(k, 0.0, now - b.last);
    ZeroInflow(k);
    hide Inflow;
  }

  lemma {:induction false} BucketStaysSane(k: Limits, start: Bucket, calls: seq<Call>)
    requires Sensible(k) && 0.0 <= start.tokens && InOrder(calls)
    requires forall i :: 0 <= i < |calls| ==> start.last <= calls[i].now
    ensures 0.0 <= AfterCalls(k, start, calls).tokens
    ensures AfterCalls(k, start, calls).last == if calls == [] then start.last else calls[|calls| - 1].now
  {
    if calls != [] {
      var front, c := calls[..|calls| - 1], calls[|calls| - 1];
      BucketStaysSane(k, start, front);
      RefillBounds(k, AfterCalls(k, start, front), c.now);
      hide Refill;
    }
  }

  /** What is admitted from `from` on, and what is left in the bucket, never exceed a full
      bucket and the inflow since. */
  lemma {:induction false} WindowLedger(k: Limits, start: Bucket, calls: seq<Call>, from: real, to: real)
    requires Sensible(k) && 0.0 <= start.tokens && InOrder(calls) && from <= to
    requires forall i :: 0 <= i < |calls| ==> start.last <= calls[i].now
    ensures var admitted := AdmittedIn(k, start, calls, from, to);
            if calls == [] || calls[|calls| - 1].now < from then admitted == 0.0
            else if calls[|calls| - 1].now <= to then
              admitted + AfterCalls(k, start, calls).tokens <= k.capacity + Inflow(k, calls[|calls| - 1].now - from)
            else admitted <= k.capacity + Inflow(k, to - from)
  {
    if calls != [] {
      hide Inflow, Refill;
      var front, c := calls[..|calls| - 1], calls[|calls| - 1];
      var before := AfterCalls(k, start, front);
      WindowLedger(k, start, front, from, to);
      BucketStaysSane(k, start, front);
      RefillBounds(k, before, c.now);
      InflowAdds(k, before.last - from, c.now - before.last);
      assert (before.last - from) + (c.now - before.last) == c.now - from;
      if from <= c.now {
        InflowGrows(k, 0.0, c.now - from);
        InflowGrows(k, 0.0, to - from);
        ZeroInflow(k);
      }
      if front != [] && before.last <= to {
        InflowGrows(k, before.last - from, to - from);
      }
    }
  }

  lemma ZeroInflow(k: Limits)
    ensures Inflow(k, 0.0) == 0.0
  {
  }

  /** In any time window the bucket admits at most its capacity and what flows in meanwhile,
      whatever is asked of it before, during and after. */
  lemma WindowBound(k: Limits, openedAt: real, calls: seq<Call>, from: real, to: real)
    requires Sensible(k) && InOrder(calls) && from <= to
    requires forall i :: 0 <= i < |calls| ==> openedAt <= calls[i].now
    ensures AdmittedIn(k, Bucket(k.capacity, openedAt), calls, from, to) <= k.capacity + Inflow(k, to - from)
  {
    hide Inflow, Refill, AdmittedIn, AfterCalls;
    var start := Bucket(k.capacity, openedAt);
    WindowLedger(k, start, calls, from, to);
    BucketStaysSane(k, start, calls);
    InflowGrows(k, 0.0, to - from);
    ZeroInflow(k);
    if calls != [] && calls[|calls| - 1].now <= to {
      InflowGrows(k, calls[|calls| - 1].now - from, to - from);
    }
  }

  // ---------- the bucket refuses nothing it could admit ----------

  predicate NonNegativeCosts(calls: seq<Call>) {
    forall i :: 0 <= i < |calls| ==> 0.0 <= calls[i].cost
  }

  lemma {:induction false} AdmittedNonNegative(k: Limits, start: Bucket, calls: seq<Call>, from: real, to: real)
    requires NonNegativeCosts(calls)
    ensures 0.0 <= AdmittedIn(k, start, calls, from, to)
  {
    if calls != [] {
      hide Admits;
      AdmittedNonNegative(k, start, calls[..|calls| - 1], from, to);
    }
  }

  /** A window that reaches past the last call admits no more for it. */
  lemma {:induction false} AdmittedSoFar(k: Limits, start: Bucket, calls: seq<Call>, from: real, to: real, later: real)
    requires to <= later && forall i :: 0 <= i < |calls| ==> calls[i].now <= to
    ensures AdmittedIn(k, start, calls, from, later) == AdmittedIn(k, start, calls, from, to)
  {
    if calls != [] {
      hide Admits;
      AdmittedSoFar(k, start, calls[..|calls| - 1], from, to, later);
    }
  }

  /** `from` is the time of one of the calls, or `now` itself. */
  ghost predicate WindowStart(calls: seq<Call>, now: real, from: real) {
    from == now || exists i :: 0 <= i < |calls| && calls[i].now == from
  }

  lemma WindowStartStays(calls: seq<Call>, from: real, now: real)
    requires calls != [] && WindowStart(calls[..|calls| - 1], calls[|calls| - 1].now, from)
    ensures WindowStart(calls, now, from)
  {
    var front, c := calls[..|calls| - 1], calls[|calls| - 1];
    if from == c.now {
      assert calls[|calls| - 1].now == from;
    } else {
      var i :| 0 <= i < |front| && front[i].now == from;
      assert calls[i].now == from;
    }
  }

  lemma FullBucket(k: Limits, openedAt: real, now: real)
    requires Sensible(k) && openedAt <= now
    ensures Refill(k, Bucket(k.capacity, openedAt), now).tokens == k.capacity
  {
    InflowGrows(k, 0.0, now - openedAt);
    ZeroInflow(k);
    hide Inflow;
  }

  /** What a refill leaves: a full bucket, or all that was there and all that flowed in. */
  lemma RefillIs(k: Limits, b: Bucket, now: real)
    ensures var full := Refill(k, b, now).tokens;
            full == k.capacity || full == b.tokens + Inflow(k, now - b.last)
  {
    hide Inflow;
  }

  lemma TakeIs(k: Limits, b: Bucket, cost: real, now: real)
    ensures Take(k, b, cost, now).last == now
    ensures Take(k, b, cost, now).tokens == Refill(k, b, now).tokens - (if Admits(k, b, cost, now) then cost else 0.0)
  {
    hide Inflow;
  }

  /** Some window accounts for everything that is missing from the bucket. */
  lemma {:induction false} MissingWasAdmitted(k: Limits, openedAt: real, calls: seq<Call>, now: real) returns (from: real)
    requires Sensible(k) && InOrder(calls) && NonNegativeCosts(calls) && openedAt <= now
    requires forall i :: 0 <= i < |calls| ==> openedAt <= calls[i].now <= now
    ensures from <= now && WindowStart(calls, now, from)
    ensures var start := Bucket(k.capacity, openedAt);
            k.capacity + Inflow(k, now - from) - AdmittedIn(k, start, calls, from, now)
              <= Refill(k, AfterCalls(k, start, calls), now).tokens
  {
    hide Inflow, Refill, Admits, Take;
    var start := Bucket(k.capacity, openedAt);
    from := now;
    ZeroInflow(k);
    AdmittedNonNegative(k, start, calls, now, now);
    if calls == [] {
      FullBucket(k, openedAt, now);
    } else {
      var front, c := calls[..|calls| - 1], calls[|calls| - 1];
      var before := AfterCalls(k, start, front);
      RefillIs(k, AfterCalls(k, start, calls), now);
      TakeIs(k, before, c.cost, c.now);
      if Refill(k, AfterCalls(k, start, calls), now).tokens != k.capacity {
        from := MissingWasAdmitted(k, openedAt, front, c.now);
        WindowStartStays(calls, from, now);
        AdmittedSoFar(k, start, front, from, c.now, now);
        InflowAdds(k, c.now - from, now - c.now);
        assert (c.now - from) + (now - c.now) == now - from;
      }
    }
  }

  /** From an earlier call, or from this one, to now the bucket would have to pay out more than
      its capacity and what flowed in. */
  ghost predicate Overdrawn(k: Limits, openedAt: real, calls: seq<Call>, c: Call, from: real) {
    && from <= c.now && WindowStart(calls, c.now, from)
    && k.capacity + Inflow(k, c.now - from) < AdmittedIn(k, Bucket(k.capacity, openedAt), calls, from, c.now) + c.cost
  }

  lemma AdmittedWith(k: Limits, start: Bucket, calls: seq<Call>, c: Call, from: real)
    requires from <= c.now && Admits(k, AfterCalls(k, start, calls), c.cost, c.now)
    ensures AdmittedIn(k, start, calls + [c], from, c.now) == AdmittedIn(k, start, calls, from, c.now) + c.cost
  {
    hide Admits, Take;
    assert (calls + [c])[..|calls|] == calls;
  }

  lemma OrderedParts(calls: seq<Call>, c: Call)
    requires InOrder(calls + [c])
    ensures InOrder(calls) && forall i :: 0 <= i < |calls| ==> calls[i].now <= c.now
  {
    var all := calls + [c];
    forall i | 0 <= i < |calls| ensures calls[i].now <= c.now {
      assert all[i].now <= all[|calls|].now;
    }
    forall i, j | 0 <= i < j < |calls| ensures calls[i].now <= calls[j].now {
      assert all[i].now <= all[j].now;
    }
  }

  lemma OverdrawnIsRefused(k: Limits, openedAt: real, calls: seq<Call>, c: Call, from: real)
    requires Sensible(k) && InOrder(calls + [c]) && openedAt <= c.now && Overdrawn(k, openedAt, calls, c, from)
    requires forall i :: 0 <= i < |calls| ==> openedAt <= calls[i].now
    ensures !Admits(k, AfterCalls(k, Bucket(k.capacity, openedAt), calls), c.cost, c.now)
  {
    hide Inflow, Refill, AdmittedIn, AfterCalls, WindowStart, Admits;
    var all := calls + [c];
    var start := Bucket(k.capacity, openedAt);
    if Admits(k, AfterCalls(k, start, calls), c.cost, c.now) {
      AdmittedWith(k, start, calls, c, from);
      forall i | 0 <= i < |all| ensures openedAt <= all[i].now {
        assert i < |calls| ==> all[i] == calls[i];
      }
      hide InOrder;
      WindowBound(k, openedAt, all, from, c.now);
    }
  }

  lemma RefusedIsOverdrawn(k: Limits, openedAt: real, calls: seq<Call>, c: Call) returns (from: real)
    requires Sensible(k) && InOrder(calls + [c]) && NonNegativeCosts(calls) && openedAt <= c.now
    requires forall i :: 0 <= i < |calls| ==> openedAt <= calls[i].now
    requires !Admits(k, AfterCalls(k, Bucket(k.capacity, openedAt), calls), c.cost, c.now)
    ensures Overdrawn(k, openedAt, calls, c, from)
  {
    hide Inflow, Refill, AdmittedIn, AfterCalls, WindowStart, InOrder, NonNegativeCosts;
    OrderedParts(calls, c);
    from := MissingWasAdmitted(k, openedAt, calls, c.now);
  }

  /** The window bound is tight. A call is refused exactly if admitting it would overdraw some
      window that ends with it: the bucket gives away all it may and never more. */
  lemma RefusedExactly(k: Limits, openedAt: real, calls: seq<Call>, c: Call)
    requires Sensible(k) && InOrder(calls + [c]) && NonNegativeCosts(calls) && openedAt <= c.now
    requires forall i :: 0 <= i < |calls| ==> openedAt <= calls[i].now
    ensures !Admits(k, AfterCalls(k, Bucket(k.capacity, openedAt), calls), c.cost, c.now) <==>
            exists from :: Overdrawn(k, openedAt, calls, c, from)
  {
    hide Overdrawn, Admits, AfterCalls;
    if !Admits(k, AfterCalls(k, Bucket(k.capacity, openedAt), calls), c.cost, c.now) {
      var from := RefusedIsOverdrawn(k, openedAt, calls, c);
    } else if from :| Overdrawn(k, openedAt, calls, c, from) {
      OverdrawnIsRefused(k, openedAt, calls, c, from);
    }
  }

  lemma TimeBuys(k: Limits, span: real, amount: real)
    requires 0.0 < k.rate && amount / k.rate <= span
    ensures amount <= Inflow(k, span)
  {
    var q := amount / k.rate;
    assert q * k.rate == amount;
    assert 0.0 <= (span - q) * k.rate;
  }

  /** After a pause long enough for its cost to flow in, a call within the capacity is admitted,
      however drained the bucket was; after capacity / rate, any such call. */
  lemma IdleBucketAdmits(k: Limits, openedAt: real, calls: seq<Call>, c: Call)
    requires Sensible(k) && 0.0 < k.rate && InOrder(calls) && openedAt <= c.now
    requires forall i :: 0 <= i < |calls| ==> openedAt <= calls[i].now
    requires c.cost <= k.capacity && (calls == [] || c.cost / k.rate <= c.now - calls[|calls| - 1].now)
    ensures Admits(k, AfterCalls(k, Bucket(k.capacity, openedAt), calls), c.cost, c.now)
  {
    var b := AfterCalls(k, Bucket(k.capacity, openedAt), calls);
    BucketStaysSane(k, Bucket(k.capacity, openedAt), calls);
    if calls == [] {
      FullBucket(k, openedAt, c.now);
    } else {
      TimeBuys(k, c.now - b.last, c.cost);
    }
    hide Inflow, AfterCalls;
  }

  // ---------- the queue ----------

  class RequestQueue<T> {
    const maxDepth: int
    var items: seq<T>

    constructor (maxDepth: int)
      ensures this.maxDepth == maxDepth && items == []
    {
      this.maxDepth := maxDepth;
      items := [];
    }

    method Enqueue(item: T) returns (ok: bool)
      modifies this
      ensures ok <==> old(|items|) < maxDepth
      ensures items == if ok then old(items) + [item] else old(items)
    {
      if |items| >= maxDepth {
        return false;
      }
      items := items + [item];
      ok := true;
    }

    method Dequeue() returns (item: Option<T>)
      modifies this
      ensures old(items) == [] ==> item.None? && items == []
      ensures old(items) != [] ==> item == Some(old(items)[0]) && items == old(items)[1..]
    {
      if items == [] {
        return None;
      }
      item := Some(items[0]);
      items := items[1..];
    }
  }

  // ---------- the detector ----------

  datatype Threshold = Threshold(maxCalls: int, window: real)

  datatype Detector = Detector(times: seq<real>, locked: bool)

  predicate Ascending(times: seq<real>) {
    forall i, j :: 0 <= i < j < |times| ==> times[i] <= times[j]
  }

  predicate Stale(k: Threshold, now: real, t: real) {
    now - t > k.window
  }

  /** Drops from the front while the front is stale. */
  function Pruned(k: Threshold, times: seq<real>, now: real): seq<real> {
    if times != [] && Stale(k, now, times[0]) then Pruned(k, times[1..], now) else times
  }

  function Recorded(k: Threshold, d: Detector, now: real): Detector {
    if d.locked then d
    else
      var kept := Pruned(k, d.times + [now], now);
      Detector(kept, |kept| > k.maxCalls)
  }

  class DosDetector {
    const threshold: Threshold
    var callTimes: seq<real>
    var locked: bool

    function View(): Detector
      reads this
    {
      Detector(callTimes, locked)
    }

    constructor (threshold: Threshold)
      ensures this.threshold == threshold && View() == Detector([], false)
    {
      this.threshold := threshold;
      callTimes, locked := [], false;
    }

    method RecordCall(now: real)
      modifies this
      ensures View() == Recorded(threshold, old(View()), now)
    {
      if locked {
        return;
      }
      callTimes := callTimes + [now];
      ghost var all := callTimes;
      while callTimes != [] && now - callTimes[0] > threshold.window
        invariant Pruned(threshold, callTimes, now) == Pruned(threshold, all, now) && !locked
        decreases |callTimes|
      {
        callTimes := callTimes[1..];
      }
      if |callTimes| > threshold.maxCalls {
        locked := true;
      }
    }
  }

  function AfterRecords(k: Threshold, history: seq<real>): Detector {
    if history == [] then Detector([], false)
    else Recorded(k, AfterRecords(k, history[..|history| - 1]), history[|history| - 1])
  }

  /** The calls no older than the window at `now`, in order. */
  function WithinWindow(k: Threshold, times: seq<real>, now: real): seq<real> {
    if times == [] then []
    else
      var rest := WithinWindow(k, times[..|times| - 1], now);
      if Stale(k, now, times[|times| - 1]) then rest else rest + [times[|times| - 1]]
  }

  /** The window that ends at call `i` holds more calls than allowed. */
  predicate Overloaded(k: Threshold, history: seq<real>, i: nat)
    requires i < |history|
  {
    |WithinWindow(k, history[..i + 1], history[i])| > k.maxCalls
  }

  lemma {:induction false} AllFreshStays(k: Threshold, times: seq<real>, now: real)
    requires forall i :: 0 <= i < |times| ==> !Stale(k, now, times[i])
    ensures WithinWindow(k, times, now) == times
  {
    if times != [] {
      AllFreshStays(k, times[..|times| - 1], now);
    }
  }

  lemma {:induction false} StaleFrontGoes(k: Threshold, times: seq<real>, now: real)
    requires times != [] && Stale(k, now, times[0])
    ensures WithinWindow(k, times, now) == WithinWindow(k, times[1..], now)
  {
    if 1 < |times| {
      StaleFrontGoes(k, times[..|times| - 1], now);
      assert times[..|times| - 1][1..] == times[1..][..|times| - 2];
    }
  }

  /** In ascending order, dropping from the front is filtering. */
  lemma {:induction false} PruningFilters(k: Threshold, times: seq<real>, now: real)
    requires Ascending(times)
    ensures Pruned(k, times, now) == WithinWindow(k, times, now)
  {
    if times != [] && Stale(k, now, times[0]) {
      PruningFilters(k, times[1..], now);
      StaleFrontGoes(k, times, now);
    } else {
      AllFreshStays(k, times, now);
    }
  }

  lemma {:induction false} FilterMembers(k: Threshold, times: seq<real>, now: real)
    ensures forall t :: t in WithinWindow(k, times, now) ==> t in times && !Stale(k, now, t)
  {
    if times != [] {
      FilterMembers(k, times[..|times| - 1], now);
    }
  }

  lemma {:induction false} FilterAscends(k: Threshold, times: seq<real>, now: real)
    requires Ascending(times)
    ensures Ascending(WithinWindow(k, times, now))
  {
    if times != [] {
      var front, last := times[..|times| - 1], times[|times| - 1];
      FilterAscends(k, front, now);
      FilterMembers(k, front, now);
      assert times == front + [last];
      AscendingParts(front, last);
      AscendingAppend(WithinWindow(k, front, now), last);
    }
  }

  /** Filtering at an earlier time first loses nothing that a later time keeps. */
  lemma {:induction false} FilterTwice(k: Threshold, times: seq<real>, before: real, now: real)
    requires before <= now
    ensures WithinWindow(k, WithinWindow(k, times, before), now) == WithinWindow(k, times, now)
  {
    if times != [] {
      var front, t := times[..|times| - 1], times[|times| - 1];
      FilterTwice(k, front, before, now);
      if !Stale(k, before, t) {
        var kept := WithinWindow(k, front, before);
        assert (kept + [t])[..|kept + [t]| - 1] == kept;
      }
    }
  }

  lemma FilterAppend(k: Threshold, times: seq<real>, t: real, now: real)
    ensures WithinWindow(k, times + [t], now) ==
            if Stale(k, now, t) then WithinWindow(k, times, now) else WithinWindow(k, times, now) + [t]
  {
    assert (times + [t])[..|times|] == times;
  }

  lemma AscendingParts(front: seq<real>, now: real)
    requires Ascending(front + [now])
    ensures Ascending(front) && forall t :: t in front ==> t <= now
  {
    var all := front + [now];
    forall t | t in front ensures t <= now {
      var j :| 0 <= j < |front| && front[j] == t;
      assert all[j] <= all[|front|];
    }
    forall i, j | 0 <= i < j < |front| ensures front[i] <= front[j] {
      assert all[i] <= all[j];
    }
  }

  lemma AscendingAppend(times: seq<real>, now: real)
    requires Ascending(times) && forall t :: t in times ==> t <= now
    ensures Ascending(times + [now])
  {
    assert forall i :: 0 <= i < |times| ==> times[i] in times;
  }

  /** The deque before a call, pruned with the call in it, is the window that ends at the call. */
  lemma OneMoreRecord(k: Threshold, front: seq<real>, now: real)
    requires Ascending(front + [now])
    ensures var times := if front == [] then [] else WithinWindow(k, front, front[|front| - 1]);
            Pruned(k, times + [now], now) == WithinWindow(k, front + [now], now)
  {
    AscendingParts(front, now);
    if front == [] {
      assert front + [now] == [now];
      PruningFilters(k, [now], now);
    } else {
      hide WithinWindow, Pruned, Stale, Ascending;
      var last := front[|front| - 1];
      var times := WithinWindow(k, front, last);
      FilterAscends(k, front, last);
      FilterMembers(k, front, last);
      assert last in front;
      FilterTwice(k, front, last, now);
      AscendingAppend(times, now);
      PruningFilters(k, times + [now], now);
      FilterAppend(k, times, now, now);
      FilterAppend(k, front, now, now);
    }
  }

  lemma OverloadedEarlier(k: Threshold, front: seq<real>, now: real)
    ensures (exists i :: 0 <= i < |front + [now]| && Overloaded(k, front + [now], i)) <==>
            (exists i :: 0 <= i < |front| && Overloaded(k, front, i)) ||
            |WithinWindow(k, front + [now], now)| > k.maxCalls
  {
    hide WithinWindow;
    var all := front + [now];
    assert all[..|front| + 1] == all && all[|front|] == now;
    assert Overloaded(k, all, |front|) <==> |WithinWindow(k, all, now)| > k.maxCalls;
    forall i | 0 <= i < |front| ensures Overloaded(k, all, i) <==> Overloaded(k, front, i) {
      assert all[..i + 1] == front[..i + 1];
    }
  }

  lemma AfterLast(k: Threshold, history: seq<real>)
    requires history != []
    ensures AfterRecords(k, history) ==
            Recorded(k, AfterRecords(k, history[..|history| - 1]), history[|history| - 1])
  {
  }

  /** The detector is locked exactly when some window ending at a recorded call was overloaded,
      however long ago; until then its deque is the filter of the calls within the window. */
  lemma {:induction false} LocksExactly(k: Threshold, history: seq<real>)
    requires Ascending(history)
    ensures var d := AfterRecords(k, history);
            && (d.locked <==> exists i :: 0 <= i < |history| && Overloaded(k, history, i))
            && (!d.locked ==> d.times == if history == [] then []
                                         else WithinWindow(k, history, history[|history| - 1]))
  {
    if history != [] {
      hide WithinWindow, Pruned, Stale, Overloaded, AfterRecords, Ascending;
      AfterLast(k, history);
      var front, now := history[..|history| - 1], history[|history| - 1];
      assert history == front + [now];
      assert Ascending(front + [now]);
      AscendingParts(front, now);
      LocksExactly(k, front);
      OneMoreRecord(k, front, now);
      OverloadedEarlier(k, front, now);
    }
  }

  /** Locked stays locked. */
  lemma {:induction false} NeverUnlocks(k: Threshold, history: seq<real>, more: seq<real>)
    requires AfterRecords(k, history).locked
    ensures AfterRecords(k, history + more) == AfterRecords(k, history)
  {
    if more == [] {
      assert history + more == history;
    } else {
      NeverUnlocks(k, history, more[..|more| - 1]);
      assert (history + more)[..|history + more| - 1] == history + more[..|more| - 1];
    }
  }

  /** How many of the first `n` calls came no longer than the window before `now`. */
  function Recent(k: Threshold, history: seq<real>, n: nat, now: real): nat
    requires n <= |history|
  {
    if n == 0 then 0 else Recent(k, history, n - 1, now) + (if now <= history[n - 1] + k.window then 1 else 0)
  }

  lemma {:induction false} WindowCounts(k: Threshold, history: seq<real>, n: nat, now: real)
    requires n <= |history|
    ensures |WithinWindow(k, history[..n], now)| == Recent(k, history, n, now)
  {
    if n != 0 {
      WindowCounts(k, history, n - 1, now);
      assert history[..n][..n - 1] == history[..n - 1];
    }
  }

  /** The lock by counting: it closes for good as soon as some call and those no longer than the
      window before it are more than allowed. */
  lemma LocksByCount(k: Threshold, history: seq<real>)
    requires Ascending(history)
    ensures AfterRecords(k, history).locked <==>
            exists i :: 0 <= i < |history| && k.maxCalls < Recent(k, history, i + 1, history[i])
  {
    LocksExactly(k, history);
    hide AfterRecords, WithinWindow, Recent, Ascending;
    forall i | 0 <= i < |history| ensures Overloaded(k, history, i) <==> k.maxCalls < Recent(k, history, i + 1, history[i]) {
      WindowCounts(k, history, i + 1, history[i]);
    }
  }
}
