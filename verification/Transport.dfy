/** Outbound calls: retried only when the failure proves that nothing was transmitted, and
    bounded by one deadline for the whole call. */
module Transport {
  import opened Options
  import opened Reals

  /** How one attempt fails. The runtime errors are told apart by their text. */
  datatype Failure = ConnectError | ConnectTimeout | TimedOut | RuntimeFailure(message: string) | OtherFailure

  predicate Contains(text: string, part: string) {
    part <= text || (text != [] && Contains(text[1..], part))
  }

  const FAILED_TO_CONNECT := "Client failed to connect"
  const NOT_CONNECTED := "Client is not connected"

  predicate IsSafeToRetry(f: Failure) {
    match f
    case ConnectError => true
    case ConnectTimeout => true
    case RuntimeFailure(message) => Contains(message, FAILED_TO_CONNECT) || Contains(message, NOT_CONNECTED)
    case _ => false
  }

  /** What the outside makes of one attempt: its end, how long until it, and whether the
      request reached the peer. */
  datatype Attempt<V> = Attempt(reply: Result<V, Failure>, took: real, reached: bool)

  /** The failures called safe occur strictly before a request is transmitted. */
  predicate Plausible<V>(a: Attempt<V>) {
    0.0 <= a.took && (a.reply.Err? && IsSafeToRetry(a.reply.error) ==> !a.reached)
  }

  datatype Ending<V> =
    | Returned(value: V)
    | DeadlineExceeded
    | NotRetried(failure: Failure)
    | RetriesExhausted

  function Backoff(base: real, attempt: nat, remaining: real): (pause: real)
    requires 0.0 <= base
    ensures 0.0 <= pause <= Max(0.0, remaining)
  {
    NonNegativeProduct(base, attempt as real);
    Min(base * attempt as real, Max(0.0, remaining))
  }

  /** When attempt `k` starts after `k - 1` failed ones, each followed by a pause that was
      bounded by what had remained before it. */
  function StartOf<V>(outside: nat -> Attempt<V>, backoff: real, timeout: real, k: nat): real
    requires 0.0 <= backoff
  {
    if k <= 1 then 0.0
    else
      var before := StartOf(outside, backoff, timeout, k - 1);
      before + outside(k - 1).took + Backoff(backoff, k - 1, timeout - before)
  }

  /** Attempt `k` ends in time. */
  predicate InTime<V>(outside: nat -> Attempt<V>, backoff: real, timeout: real, k: nat)
    requires 0.0 <= backoff
  {
    outside(k).took <= timeout - StartOf(outside, backoff, timeout, k) && (outside(k).reply.Err? ==> outside(k).reply.error != TimedOut)
  }

  /** Attempt `k` is started, ends in time and fails in a way that is safe to retry. */
  predicate Retriable<V>(outside: nat -> Attempt<V>, backoff: real, timeout: real, k: nat)
    requires 0.0 <= backoff
  {
    && StartOf(outside, backoff, timeout, k) < timeout
    && InTime(outside, backoff, timeout, k)
    && outside(k).reply.Err? && IsSafeToRetry(outside(k).reply.error)
  }

  ghost predicate AllRetriable<V>(outside: nat -> Attempt<V>, backoff: real, timeout: real, n: int)
    requires 0.0 <= backoff
  {
    forall k :: 1 <= k <= n ==> Retriable(outside, backoff, timeout, k)
  }

  /** The one ending the outside allows for a call of `attempts` attempts, the earlier ones all
      retriable. */
  ghost predicate EndsWith<V>(outside: nat -> Attempt<V>, maxRetries: int, backoff: real, timeout: real, attempts: nat, end: Ending<V>)
    requires 0.0 <= backoff
  {
    match end
    case Returned(value) =>
      0 < attempts && InTime(outside, backoff, timeout, attempts) && outside(attempts).reply == Ok(value)
    case NotRetried(failure) =>
      && 0 < attempts && InTime(outside, backoff, timeout, attempts) && outside(attempts).reply == Err(failure)
      && !IsSafeToRetry(failure)
    case RetriesExhausted =>
      maxRetries <= attempts && (0 < attempts ==> Retriable(outside, backoff, timeout, attempts))
    case DeadlineExceeded =>
      || (0 < attempts && !InTime(outside, backoff, timeout, attempts))
      || (attempts < maxRetries && (0 < attempts ==> Retriable(outside, backoff, timeout, attempts))
          && timeout <= StartOf(outside, backoff, timeout, attempts + 1))
  }

  lemma StartStep<V>(outside: nat -> Attempt<V>, backoff: real, timeout: real, k: nat)
    requires 0.0 <= backoff
    ensures StartOf(outside, backoff, timeout, 1) == 0.0
    ensures 1 <= k ==>
              var before := StartOf(outside, backoff, timeout, k);
              StartOf(outside, backoff, timeout, k + 1) == before + outside(k).took + Backoff(backoff, k, timeout - before)
  {
    hide Backoff;
  }

  /** One call. Only its last attempt can have reached the peer; no attempt starts at or after
      the deadline; and it is over within twice the deadline. */
  method Call<V>(outside: nat -> Attempt<V>, maxRetries: int, timeout: real, backoff: real)
    returns (end: Ending<V>, attempts: nat, elapsed: real)
    requires 0.0 <= backoff && forall k :: Plausible(outside(k))
    ensures AllRetriable(outside, backoff, timeout, attempts - 1)
    ensures EndsWith(outside, maxRetries, backoff, timeout, attempts, end)
    ensures attempts <= maxRetries || attempts == 0
    ensures forall k :: 1 <= k <= attempts ==> 0.0 <= StartOf(outside, backoff, timeout, k) < timeout
    ensures forall k :: 1 <= k < attempts ==> !outside(k).reached
    ensures end.RetriesExhausted? ==> forall k :: 1 <= k <= attempts ==> !outside(k).reached
    ensures 0 < attempts ==> StartOf(outside, backoff, timeout, attempts) <= elapsed
    ensures elapsed <= Max(0.0, timeout + timeout)
  {
    hide IsSafeToRetry, Contains, StartOf, Backoff;
    attempts, elapsed := 0, 0.0;
    StartStep(outside, backoff, timeout, 0);
    while attempts < maxRetries
      invariant attempts <= maxRetries || attempts == 0
      invariant 0.0 <= elapsed <= Max(0.0, timeout + timeout)
      invariant attempts < maxRetries ==> elapsed == StartOf(outside, backoff, timeout, attempts + 1)
      invariant 0 < attempts ==> StartOf(outside, backoff, timeout, attempts) <= elapsed
      invariant AllRetriable(outside, backoff, timeout, attempts)
      invariant forall k :: 1 <= k <= attempts ==> 0.0 <= StartOf(outside, backoff, timeout, k) < timeout
      invariant forall k :: 1 <= k <= attempts ==> !outside(k).reached
    {
      var remaining := timeout - elapsed;
      if remaining <= 0.0 {
        return DeadlineExceeded, attempts, elapsed;
      }
      attempts := attempts + 1;
      StartStep(outside, backoff, timeout, attempts);
      var a := outside(attempts);
      assert Plausible(a);
      if remaining < a.took || (a.reply.Err? && a.reply.error == TimedOut) {
        elapsed := elapsed + Min(remaining, a.took);
        return DeadlineExceeded, attempts, elapsed;
      }
      elapsed := elapsed + a.took;
      if a.reply.Ok? {
        return Returned(a.reply.value), attempts, elapsed;
      }
      if !IsSafeToRetry(a.reply.error) {
        return NotRetried(a.reply.error), attempts, elapsed;
      }
      if attempts < maxRetries {
        elapsed := elapsed + Backoff(backoff, attempts, remaining);
      }
    }
    end := RetriesExhausted;
  }

  /** A call has one ending: the outside fixes how many attempts are made and how it ends. */
  lemma EndingIsUnique<V(!new)>(outside: nat -> Attempt<V>, maxRetries: int, timeout: real, backoff: real,
                          n: nat, m: nat, e: Ending<V>, f: Ending<V>)
    requires 0.0 <= backoff && n <= Least(maxRetries) && m <= Least(maxRetries)
    requires n == 0 || (AllRetriable(outside, backoff, timeout, n - 1) && StartOf(outside, backoff, timeout, n) < timeout)
    requires m == 0 || (AllRetriable(outside, backoff, timeout, m - 1) && StartOf(outside, backoff, timeout, m) < timeout)
    requires EndsWith(outside, maxRetries, backoff, timeout, n, e) && EndsWith(outside, maxRetries, backoff, timeout, m, f)
    ensures n == m && e == f
  {
    hide StartOf, Backoff;
    assert 1 <= n < m ==> Retriable(outside, backoff, timeout, n);
    assert 1 <= m < n ==> Retriable(outside, backoff, timeout, m);
    if n < m {
      Earlier(outside, backoff, timeout, n + 1, m);
    } else if m < n {
      Earlier(outside, backoff, timeout, m + 1, n);
    }
  }

  function Least(maxRetries: int): nat {
    if maxRetries < 0 then 0 else maxRetries
  }

  lemma Earlier<V>(outside: nat -> Attempt<V>, backoff: real, timeout: real, k: nat, n: nat)
    requires 0.0 <= backoff && 1 <= k <= n && AllRetriable(outside, backoff, timeout, n - 1)
    requires StartOf(outside, backoff, timeout, n) < timeout
    ensures StartOf(outside, backoff, timeout, k) < timeout
  {
    if k < n {
      assert Retriable(outside, backoff, timeout, k);
    }
  }

  // ---------- what counts as not sent, and the pauses ----------

  lemma {:induction false} ContainsAt(text: string, part: string, before: string, after: string)
    requires text == before + part + after
    ensures Contains(text, part)
    decreases |before|
  {
    if before == [] {
      assert text == part + after;
    } else {
      assert text[1..] == before[1..] + part + after;
      ContainsAt(text[1..], part, before[1..], after);
    }
  }

  lemma {:induction false} FoundAt(text: string, part: string) returns (before: string, after: string)
    requires Contains(text, part)
    ensures text == before + part + after
  {
    if part <= text {
      before, after := [], text[|part|..];
    } else {
      before, after := FoundAt(text[1..], part);
      before := [text[0]] + before;
      assert text == [text[0]] + text[1..];
    }
  }

  lemma ContainsExactly(text: string, part: string)
    ensures Contains(text, part) <==> exists before, after :: text == before + part + after
  {
    if Contains(text, part) {
      var before, after := FoundAt(text, part);
    }
    if before, after :| text == before + part + after {
      ContainsAt(text, part, before, after);
    }
  }

  /** The failures that prove that nothing was sent: refused or timed-out connections and the
      two messages of a client that never connected. */
  ghost predicate NothingSent(f: Failure) {
    || f.ConnectError? || f.ConnectTimeout?
    || (f.RuntimeFailure? && exists before, after ::
          f.message == before + "Client failed to connect" + after || f.message == before + "Client is not connected" + after)
  }

  lemma SafeExactly(f: Failure)
    ensures IsSafeToRetry(f) <==> NothingSent(f)
  {
    if f.RuntimeFailure? {
      ContainsExactly(f.message, FAILED_TO_CONNECT);
      ContainsExactly(f.message, NOT_CONNECTED);
      hide Contains;
    }
  }

  /** A failure that proves nothing was sent is always retried while an attempt and time are
      left, and no other failure ever is. */
  lemma RetriedExactly<V>(outside: nat -> Attempt<V>, maxRetries: int, backoff: real, timeout: real, attempts: nat, end: Ending<V>)
    requires 0.0 <= backoff && AllRetriable(outside, backoff, timeout, attempts - 1)
    requires EndsWith(outside, maxRetries, backoff, timeout, attempts, end)
    ensures forall k :: 1 <= k < attempts ==> outside(k).reply.Err? && NothingSent(outside(k).reply.error)
    ensures end.NotRetried? ==> !NothingSent(end.failure)
    ensures 0 < attempts < maxRetries && outside(attempts).reply.Err? && NothingSent(outside(attempts).reply.error) ==>
              end.DeadlineExceeded?
    ensures 0 < attempts && (outside(attempts).reply == Err(TimedOut)
                             || timeout < StartOf(outside, backoff, timeout, attempts) + outside(attempts).took) ==>
              end.DeadlineExceeded?
  {
    forall k | 1 <= k < attempts ensures outside(k).reply.Err? && NothingSent(outside(k).reply.error) {
      assert Retriable(outside, backoff, timeout, k);
      SafeExactly(outside(k).reply.error);
    }
    if end.NotRetried? {
      SafeExactly(end.failure);
    }
    if 0 < attempts && outside(attempts).reply.Err? {
      SafeExactly(outside(attempts).reply.error);
    }
    hide NothingSent, IsSafeToRetry, StartOf;
  }

  function Triangle(n: nat): nat {
    if n == 0 then 0 else Triangle(n - 1) + n
  }

  /** When attempt `k` starts if every attempt fails at once. */
  function Lined(backoff: real, k: nat): real {
    backoff * Triangle(k) as real
  }

  lemma LineUp(backoff: real, k: nat)
    ensures Lined(backoff, k + 1) == Lined(backoff, k) + backoff * (k + 1) as real
  {
    var x, y := Triangle(k) as real, (k + 1) as real;
    assert Triangle(k + 1) as real == x + y;
    assert backoff * (x + y) == backoff * x + backoff * y;
  }

  lemma OneMorePause<V>(outside: nat -> Attempt<V>, backoff: real, timeout: real, k: nat)
    requires 0.0 <= backoff && 1 <= k && outside(k).took == 0.0
    requires backoff * k as real <= timeout - StartOf(outside, backoff, timeout, k)
    ensures StartOf(outside, backoff, timeout, k + 1) == StartOf(outside, backoff, timeout, k) + backoff * k as real
  {
    NonNegativeProduct(backoff, k as real);
  }

  /** The pauses grow in step with the attempts: as long as the deadline is far enough, the
      attempt after `k` immediate failures starts 1 + 2 + ... + k backoffs after the call. */
  lemma {:induction false} PausesGrow<V>(outside: nat -> Attempt<V>, backoff: real, timeout: real, k: nat)
    requires 0.0 <= backoff && forall j :: 1 <= j <= k ==> outside(j).took == 0.0
    requires forall j :: 1 <= j <= k ==> backoff * j as real <= timeout - StartOf(outside, backoff, timeout, j)
    ensures StartOf(outside, backoff, timeout, k + 1) == Lined(backoff, k)
  {
    if k == 0 {
      assert backoff * 0.0 == 0.0;
    } else {
      hide StartOf, Lined;
      PausesGrow(outside, backoff, timeout, k - 1);
      OneMorePause(outside, backoff, timeout, k);
      LineUp(backoff, k - 1);
    }
  }
}
