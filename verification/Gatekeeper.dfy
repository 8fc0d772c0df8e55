/** The one doorway to outside services: detector, token or queue, then the call with its
    retries, every outcome logged. */
module Gatekeeper {
  import opened Options
  import opened Reals
  import opened RateLimiter

  datatype Outcome = RejectedDosLock | RejectedQueueFull | RetryRateLimited | RetryTransient | Success | Failed

  predicate IsRetry(o: Outcome) {
    o.RetryRateLimited? || o.RetryTransient?
  }

  /** How one invocation of the wrapped API ends. */
  datatype Reply<V> = Answered(value: V) | RateLimited | Transient

  datatype Execution<V> = Executed(value: V) | Rejected | ProviderFailed

  /** The retries an execution logs before its one terminal entry. */
  predicate LogGrew(before: seq<Outcome>, after: seq<Outcome>, retries: nat, terminal: Outcome) {
    && |after| == |before| + retries + 1
    && after[..|before|] == before
    && (forall i :: |before| <= i < |after| - 1 ==> IsRetry(after[i]))
    && after[|after| - 1] == terminal && !IsRetry(terminal)
  }

  /** Attempt `n`, the last of an execution: everything before it was retried, and either it
      answered, or it was refused a retry, or the retries ran out. */
  predicate LastAttempt<V>(api: nat -> Reply<V>, maxRetries: int, n: nat) {
    && (forall i :: 1 <= i < n ==> api(i).RateLimited? || (i == 1 && api(i).Transient?))
    && (1 <= n ==> api(n).Answered? || n == maxRetries || (api(n).Transient? && 2 <= n))
  }

  /** The bucket after `n` tries for one token, from try `from` of the clock on. */
  function AfterTries(k: Limits, b: Bucket, clock: nat -> real, from: nat, n: nat): Bucket {
    if n == 0 then b else Take(k, AfterTries(k, b, clock, from, n - 1), 1.0, clock(from + n - 1))
  }

  /** Try `n` gets its token. */
  predicate GrantedAt(k: Limits, b: Bucket, clock: nat -> real, from: nat, n: nat) {
    Admits(k, AfterTries(k, b, clock, from, n), 1.0, clock(from + n))
  }

  /** A token at once, or, if the queue has room, at one of the polls. */
  ghost predicate Granted(k: Limits, b: Bucket, clock: nat -> real, from: nat, room: bool, polls: int) {
    GrantedAt(k, b, clock, from, 0) || (room && exists n :: 1 <= n <= polls && GrantedAt(k, b, clock, from, n))
  }

  /** The clock the tries read, from try `from` on, starting when the bucket was last looked at
      or later. */
  ghost predicate Forward(b: Bucket, clock: nat -> real, from: nat) {
    b.last <= clock(from) && forall i, j :: from <= i <= j ==> clock(i) <= clock(j)
  }

  lemma RefillTwice(k: Limits, b: Bucket, mid: real, now: real)
    requires 0.0 <= k.rate && b.last <= mid <= now
    ensures Refill(k, Refill(k, b, mid), now) == Refill(k, b, now)
  {
    InflowAdds(k, mid - b.last, now - mid);
    assert (mid - b.last) + (now - mid) == now - b.last;
    InflowGrows(k, 0.0, now - mid);
    ZeroInflow(k);
    hide Inflow;
  }

  /** As long as every try is refused the bucket only fills. */
  lemma {:induction false} RefusedTriesFill(k: Limits, b: Bucket, clock: nat -> real, from: nat, n: nat)
    requires 0.0 <= k.rate && Forward(b, clock, from) && forall m :: 0 <= m < n ==> !GrantedAt(k, b, clock, from, m)
    ensures AfterTries(k, b, clock, from, n).last <= clock(from + n)
    ensures Refill(k, AfterTries(k, b, clock, from, n), clock(from + n)) == Refill(k, b, clock(from + n))
  {
    hide Refill;
    if n != 0 {
      RefusedTriesFill(k, b, clock, from, n - 1);
      var before := AfterTries(k, b, clock, from, n - 1);
      assert !GrantedAt(k, b, clock, from, n - 1);
      assert AfterTries(k, b, clock, from, n) == Refill(k, before, clock(from + n - 1));
      assert b.last <= clock(from) <= clock(from + n - 1) <= clock(from + n);
      RefillLast(k, before, clock(from + n - 1));
      RefillTwice(k, before, clock(from + n - 1), clock(from + n));
      RefillTwice(k, b, clock(from + n - 1), clock(from + n));
    }
  }

  lemma RefillLast(k: Limits, b: Bucket, now: real)
    ensures Refill(k, b, now).last == now
  {
    hide Inflow;
  }

  /** How many polls the caller gets. */
  function Polls(room: bool, polls: int): nat {
    if room && 0 < polls then polls else 0
  }

  /** A whole token has flowed in by try `n`. */
  predicate TokenBy(k: Limits, b: Bucket, clock: nat -> real, from: nat, n: nat) {
    1.0 <= k.capacity && 1.0 <= b.tokens + (clock(from + n) - b.last) * k.rate
  }

  lemma GrantedFirst(k: Limits, b: Bucket, clock: nat -> real, from: nat, n: nat)
    requires 0.0 <= k.rate && Forward(b, clock, from) && forall m :: 0 <= m < n ==> !GrantedAt(k, b, clock, from, m)
    ensures GrantedAt(k, b, clock, from, n) <==> TokenBy(k, b, clock, from, n)
  {
    RefusedTriesFill(k, b, clock, from, n);
    InflowIs(k, clock(from + n) - b.last);
    hide Inflow, AfterTries;
  }

  lemma TokenStays(k: Limits, b: Bucket, clock: nat -> real, from: nat, m: nat, n: nat)
    requires 0.0 <= k.rate && Forward(b, clock, from) && m <= n && TokenBy(k, b, clock, from, m)
    ensures TokenBy(k, b, clock, from, n)
  {
    assert clock(from + m) <= clock(from + n);
    InflowGrows(k, clock(from + m) - b.last, clock(from + n) - b.last);
    InflowIs(k, clock(from + m) - b.last);
    InflowIs(k, clock(from + n) - b.last);
    hide Inflow;
  }

  lemma {:induction false} GrantedByPoll(k: Limits, b: Bucket, clock: nat -> real, from: nat, n: nat)
    requires 0.0 <= k.rate && Forward(b, clock, from)
    ensures (exists m :: 0 <= m <= n && GrantedAt(k, b, clock, from, m)) <==> TokenBy(k, b, clock, from, n)
  {
    hide GrantedAt, TokenBy, Forward;
    if n == 0 {
      GrantedFirst(k, b, clock, from, 0);
    } else {
      GrantedByPoll(k, b, clock, from, n - 1);
      if m :| 0 <= m <= n - 1 && GrantedAt(k, b, clock, from, m) {
        TokenStays(k, b, clock, from, n - 1, n);
      } else {
        GrantedFirst(k, b, clock, from, n);
      }
    }
  }

  /** A caller is granted exactly if a whole token has flowed in by the last poll it gets: never
      refused while one was there, and never granted on less. */
  lemma GrantedExactly(k: Limits, b: Bucket, clock: nat -> real, from: nat, room: bool, polls: int)
    requires 0.0 <= k.rate && Forward(b, clock, from)
    ensures Granted(k, b, clock, from, room, polls) <==> TokenBy(k, b, clock, from, Polls(room, polls))
  {
    hide GrantedAt, TokenBy, Forward;
    GrantedByPoll(k, b, clock, from, Polls(room, polls));
  }

  /** A queued caller is granted by the n-th poll as soon as the polls so far span the time a
      token takes to flow in, whatever was left in the bucket. */
  lemma EnoughPollsGrant(k: Limits, b: Bucket, clock: nat -> real, from: nat, polls: int, n: nat)
    requires Forward(b, clock, from) && 0.0 < k.rate && 1.0 <= k.capacity && 0.0 <= b.tokens
    requires 1 <= n <= polls && 1.0 / k.rate <= clock(from + n) - clock(from)
    ensures Granted(k, b, clock, from, true, polls)
  {
    TimeBuys(k, clock(from + n) - clock(from), 1.0);
    InflowGrows(k, clock(from + n) - clock(from), clock(from + n) - b.last);
    InflowIs(k, clock(from + n) - b.last);
    hide Inflow;
    assert TokenBy(k, b, clock, from, n);
    TokenStays(k, b, clock, from, n, polls);
    GrantedExactly(k, b, clock, from, true, polls);
    hide Granted, TokenBy;
  }

  /** What a retry after a failed invocation is logged as. */
  function RetryAs<V>(reply: Reply<V>): Outcome {
    if reply.Transient? then RetryTransient else RetryRateLimited
  }

  class ApiGatekeeper {
    const bucket: TokenBucket
    const detector: DosDetector
    const queue: RequestQueue<object>
    const maxRetries: int
    const maxPollAttempts: int
    var callLog: seq<Outcome>

    constructor (bucket: TokenBucket, detector: DosDetector, queue: RequestQueue<object>, maxRetries: int, maxPollAttempts: int)
      ensures this.bucket == bucket && this.detector == detector && this.queue == queue
      ensures this.maxRetries == maxRetries && this.maxPollAttempts == maxPollAttempts && callLog == []
    {
      this.bucket, this.detector, this.queue := bucket, detector, queue;
      this.maxRetries, this.maxPollAttempts := maxRetries, maxPollAttempts;
      callLog := [];
    }

    method Log(o: Outcome)
      modifies this
      ensures callLog == old(callLog) + [o]
    {
      callLog := callLog + [o];
    }

    /** A token at once, or a place in the queue and a bounded number of polls. Whatever
        happens the queue is left as long as it was; when its place was taken, the oldest
        ticket goes, not necessarily the caller's. */
    method WaitForToken(ticket: object, clock: nat -> real, from: nat) returns (granted: bool, ghost tries: nat)
      modifies bucket, queue
      ensures |queue.items| == old(|queue.items|)
      ensures queue.items == old(queue.items) || queue.items == (old(queue.items) + [ticket])[1..]
      ensures granted <==> Granted(bucket.limits, old(bucket.View()), clock, from,
                                   old(|queue.items|) < queue.maxDepth, maxPollAttempts)
      ensures bucket.View() == AfterTries(bucket.limits, old(bucket.View()), clock, from, tries)
      ensures 0.0 <= bucket.limits.rate && Forward(old(bucket.View()), clock, from) ==>
                (granted <==> TokenBy(bucket.limits, old(bucket.View()), clock, from,
                                      Polls(old(|queue.items|) < queue.maxDepth, maxPollAttempts)))
    {
      hide Take, Admits, TokenBy, Forward;
      ghost var b := bucket.View();
      if 0.0 <= bucket.limits.rate && Forward(b, clock, from) {
        GrantedExactly(bucket.limits, b, clock, from, |queue.items| < queue.maxDepth, maxPollAttempts);
      }
      tries := 1;
      assert AfterTries(bucket.limits, b, clock, from, 0) == b;
      var allowed := bucket.Allow(1.0, clock(from));
      if allowed {
        return true, tries;
      }
      var queued := queue.Enqueue(ticket);
      if !queued {
        return false, tries;
      }
      granted := false;
      var tick := 1;
      while tick <= maxPollAttempts && !granted
        invariant queue.items == old(queue.items) + [ticket]
        invariant 1 <= tick && tick == tries && bucket.View() == AfterTries(bucket.limits, b, clock, from, tries)
        invariant granted ==> 2 <= tick <= maxPollAttempts + 1 && GrantedAt(bucket.limits, b, clock, from, tick - 1)
        invariant !granted ==> forall n :: 0 <= n < tick ==> !GrantedAt(bucket.limits, b, clock, from, n)
        decreases maxPollAttempts - tick, !granted
      {
        granted := bucket.Allow(1.0, clock(from + tick));
        tick, tries := tick + 1, tries + 1;
      }
      var oldest := queue.Dequeue();
    }

    /** Invokes the API until it answers or a retry is refused. Every retry logged is followed
        by another invocation, except when the only attempt allowed fails transiently. */
    method CallWithRetry<V>(api: nat -> Reply<V>) returns (out: Execution<V>, invocations: nat, ghost retries: nat)
      modifies this
      ensures invocations <= maxRetries || (invocations == 0 && maxRetries < 0)
      ensures LastAttempt(api, maxRetries, invocations) && (1 <= maxRetries ==> 1 <= invocations)
      ensures LogGrew(old(callLog), callLog, retries, if out.Executed? then Success else Failed)
      ensures forall i :: 1 <= i <= retries ==> callLog[|old(callLog)| + i - 1] == RetryAs(api(i))
      ensures 1 <= maxRetries ==> (invocations == retries + 1 <==> !(maxRetries == 1 && api(1).Transient?))
      ensures out.Executed? <==> 1 <= invocations && api(invocations).Answered?
      ensures out.Executed? ==> out.value == api(invocations).value
      ensures !out.Rejected?
    {
      invocations, retries := 0, 0;
      while invocations < maxRetries
        invariant 0 <= invocations && (invocations <= maxRetries || invocations == 0)
        invariant |callLog| == |old(callLog)| + retries && callLog[..|old(callLog)|] == old(callLog)
        invariant forall i :: |old(callLog)| <= i < |callLog| ==> IsRetry(callLog[i])
        invariant forall i :: 1 <= i <= retries ==> callLog[|old(callLog)| + i - 1] == RetryAs(api(i))
        invariant retries <= invocations
        invariant forall i :: 1 <= i <= invocations ==> api(i).RateLimited? || (i == 1 && api(i).Transient?)
        invariant retries == if 1 <= invocations == maxRetries && !api(invocations).Transient? then invocations - 1 else invocations
      {
        invocations := invocations + 1;
        match api(invocations)
        case Answered(value) =>
          Log(Success);
          return Executed(value), invocations, retries;
        case RateLimited =>
          if invocations < maxRetries {
            Log(RetryRateLimited);
            retries := retries + 1;
          }
        case Transient =>
          if invocations < 2 {
            Log(RetryTransient);
            retries := retries + 1;
          } else {
            break;
          }
      }
      Log(Failed);
      out := ProviderFailed;
    }

    /** One execution. It leaves the queue as long as it was and the log one terminal entry
        longer, after the retries; a rejected execution never reaches the API. */
    method Execute<V>(ticket: object, api: nat -> Reply<V>, clock: nat -> real)
      returns (out: Execution<V>, invocations: nat, ghost retries: nat)
      modifies this, bucket, detector, queue
      ensures |queue.items| == old(|queue.items|)
      ensures detector.View() == if old(detector.locked) then old(detector.View())
                                 else Recorded(detector.threshold, old(detector.View()), clock(0))
      ensures callLog != [] && LogGrew(old(callLog), callLog, retries, callLog[|callLog| - 1])
      ensures out.Rejected? <==> callLog[|callLog| - 1].RejectedDosLock? || callLog[|callLog| - 1].RejectedQueueFull?
      ensures out.Executed? <==> callLog[|callLog| - 1].Success?
      ensures out.ProviderFailed? <==> callLog[|callLog| - 1].Failed?
      ensures callLog[|callLog| - 1].RejectedDosLock? <==> detector.locked
      ensures !detector.locked ==>
                (out.Rejected? <==> !Granted(bucket.limits, old(bucket.View()), clock, 1,
                                             old(|queue.items|) < queue.maxDepth, maxPollAttempts))
      ensures detector.locked ==> bucket.View() == old(bucket.View()) && queue.items == old(queue.items)
      ensures out.Rejected? ==> invocations == 0 && retries == 0
      ensures invocations <= maxRetries || invocations == 0
      ensures 2 <= maxRetries && !out.Rejected? ==> invocations == retries + 1
      ensures !out.Rejected? ==> LastAttempt(api, maxRetries, invocations)
      ensures out.Executed? ==> 1 <= invocations && api(invocations) == Answered(out.value)
    {
      if detector.locked {
        Log(RejectedDosLock);
        return Rejected, 0, 0;
      }
      detector.RecordCall(clock(0));
      if detector.locked {
        Log(RejectedDosLock);
        return Rejected, 0, 0;
      }
      var granted;
      ghost var tries;
      granted, tries := WaitForToken(ticket, clock, 1);
      if !granted {
        Log(RejectedQueueFull);
        return Rejected, 0, 0;
      }
      out, invocations, retries := CallWithRetry(api);
    }
  }
}
