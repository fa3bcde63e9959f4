/** The node's HTTP client: a retry loop behind a circuit breaker. Times are seconds of a monotonic clock. */
module Breaker {
  import opened Common

  const MAX_RETRIES: nat := 3

  datatype Mode = Closed | Open | HalfOpen

  datatype BreakerState = BreakerState(mode: Mode, failures: nat, openUntil: real)

  const INITIAL := BreakerState(Closed, 0, 0.0)

  /** `threshold` failed calls in a row open the breaker for `openSec` seconds. */
  datatype Settings = Settings(threshold: nat, openSec: nat)

  /** The configuration bounds both from below by one. */
  predicate Configured(c: Settings) {
    1 <= c.threshold && 1 <= c.openSec
  }

  datatype Attempt =
    | Answered(status: nat, bodyIsJson: bool)
    | ConnectionFailed
    | RequestTimedOut
    | OtherFailure

  predicate TransientStatus(status: nat) {
    status == 500 || status == 502 || status == 503 || status == 504 || status == 429
  }

  predicate IsTransientError(a: Attempt) {
    match a
    case Answered(status, _) => TransientStatus(status)
    case ConnectionFailed => true
    case RequestTimedOut => true
    case OtherFailure => false
  }

  predicate RaisesForStatus(a: Attempt) {
    a.Answered? && 400 <= a.status < 600
  }

  // ---- the breaker ----

  function Allow(b: BreakerState, now: real): Option<BreakerState> {
    if b.mode.Open? then (if now < b.openUntil then None else Some(b.(mode := HalfOpen))) else Some(b)
  }

  function AfterTransientFailure(b: BreakerState, c: Settings, now: real): BreakerState {
    if b.mode.HalfOpen? then BreakerState(Open, c.threshold, now + c.openSec as real)
    else if b.failures + 1 >= c.threshold then BreakerState(Open, b.failures + 1, now + c.openSec as real)
    else b.(failures := b.failures + 1)
  }

  function AfterNonTransientFailure(b: BreakerState): BreakerState {
    if b.mode.HalfOpen? then INITIAL else b.(failures := 0)
  }

  /** One call: when it starts, what each attempt meets, when each attempt is posted, and when the last
      failure is noted. */
  datatype Call = Call(start: real, attempts: seq<Attempt>, posts: seq<real>, noted: real)

  predicate WellTimed(k: Call) {
    && |k.attempts| == |k.posts| == MAX_RETRIES
    && k.start <= k.posts[0] <= k.posts[1] <= k.posts[2] <= k.noted
  }

  function AttemptsMade(attempts: seq<Attempt>): (n: nat)
    ensures n <= |attempts|
    ensures forall i :: 0 <= i < n - 1 ==> IsTransientError(attempts[i])
    ensures n < |attempts| ==> 0 < n && !IsTransientError(attempts[n - 1])
  {
    if attempts == [] then 0
    else if !IsTransientError(attempts[0]) then 1
    else 1 + AttemptsMade(attempts[1..])
  }

  /** What a call does to the breaker and which of its posts are made. */
  function CallEffect(b: BreakerState, c: Settings, k: Call): (BreakerState, seq<real>)
    requires WellTimed(k)
  {
    match Allow(b, k.start)
    case None => (b, [])
    case Some(b') =>
      var made := AttemptsMade(k.attempts);
      var last := k.attempts[made - 1];
      (if IsTransientError(last) then AfterTransientFailure(b', c, k.noted)
       else if RaisesForStatus(last) || !last.Answered? then AfterNonTransientFailure(b')
       else INITIAL,
       k.posts[..made])
  }

  /** The request may succeed if it is sent again. */
  predicate Retryable(a: Attempt) {
    a == ConnectionFailed || a == RequestTimedOut || (a.Answered? && a.status in {429, 500, 502, 503, 504})
  }

  /** Answered without an error status. */
  predicate Fine(a: Attempt) {
    a.Answered? && !(400 <= a.status <= 599)
  }

  /** A call is refused without a post exactly while the breaker is open and its time has not come. Otherwise
      it posts at once, again after each retryable failure, three times at most, and how the last attempt ended
      decides: fine is as new, retryable opens an unproven breaker or one at its threshold, and any other
      failure closes an unproven breaker and forgets the failures. */
  ghost predicate CallAnswer(b: BreakerState, b': BreakerState, c: Settings, k: Call, posts: seq<real>)
    requires WellTimed(k)
  {
    var n, reopened := |posts|, k.noted + c.openSec as real;
    && (posts == [] <==> b.mode == Open && k.start < b.openUntil)
    && (posts == [] ==> b' == b)
    && (posts != [] ==>
          && n <= 3 && posts == k.posts[..n]
          && (forall i :: 0 <= i < n - 1 ==> Retryable(k.attempts[i]))
          && (Retryable(k.attempts[n - 1]) ==> n == 3)
          && (Fine(k.attempts[n - 1]) ==> b' == BreakerState(Closed, 0, 0.0))
          && (Retryable(k.attempts[n - 1]) ==>
                b' == if b.mode != Closed then BreakerState(Open, c.threshold, reopened)
                      else if c.threshold <= b.failures + 1 then BreakerState(Open, b.failures + 1, reopened)
                      else BreakerState(Closed, b.failures + 1, b.openUntil))
          && (!Fine(k.attempts[n - 1]) && !Retryable(k.attempts[n - 1]) ==>
                b' == BreakerState(Closed, 0, if b.mode == Closed then b.openUntil else 0.0)))
  }

  lemma CallMeans(b: BreakerState, c: Settings, k: Call)
    requires WellTimed(k)
    ensures var (b', posts) := CallEffect(b, c, k);
            CallAnswer(b, b', c, k, posts)
  {
    var made := AttemptsMade(k.attempts);
    assert forall a: Attempt :: IsTransientError(a) <==> Retryable(a);
    assert |k.posts[..made]| == made;
  }

  class CircuitBreaker {
    var state: Mode
    var consecutiveFailures: nat
    var openUntil: real

    function State(): BreakerState
      reads this
    {
      BreakerState(state, consecutiveFailures, openUntil)
    }

    constructor ()
      ensures State() == INITIAL
    {
      state, consecutiveFailures, openUntil := Closed, 0, 0.0;
    }

    method AllowRequest(now: real) returns (allowed: bool)
      modifies this
      ensures allowed <==> Allow(old(State()), now).Some?
      ensures State() == if allowed then Allow(old(State()), now).value else old(State())
    {
      if state == Open {
        if now < openUntil {
          return false;
        }
        state := HalfOpen;
      }
      return true;
    }

    method OnSuccess()
      modifies this
      ensures State() == INITIAL
    {
      state, consecutiveFailures, openUntil := Closed, 0, 0.0;
    }

    method OnTransientFailure(c: Settings, now: real)
      modifies this
      ensures State() == AfterTransientFailure(old(State()), c, now)
    {
      if state == HalfOpen {
        state, consecutiveFailures, openUntil := Open, c.threshold, now + c.openSec as real;
        return;
      }
      consecutiveFailures := consecutiveFailures + 1;
      if consecutiveFailures >= c.threshold {
        state, openUntil := Open, now + c.openSec as real;
      }
    }

    method OnNonTransientFailure()
      modifies this
      ensures State() == AfterNonTransientFailure(old(State()))
    {
      if state == HalfOpen {
        state, openUntil := Closed, 0.0;
      }
      consecutiveFailures := 0;
    }

    /** Posts until an attempt succeeds, fails for good, or the retries are used up. A body that is not
        JSON fails after the breaker has already noted the success. */
    method PostSignedJson(c: Settings, k: Call) returns (ok: bool, posts: seq<real>)
      requires WellTimed(k)
      modifies this
      ensures (State(), posts) == CallEffect(old(State()), c, k)
      ensures CallAnswer(old(State()), State(), c, k, posts)
      ensures ok <==> posts != [] && Fine(k.attempts[|posts| - 1]) && k.attempts[|posts| - 1].bodyIsJson
    {
      CallMeans(State(), c, k);
      ok, posts := Attempts(c, k);
    }

    method Attempts(c: Settings, k: Call) returns (ok: bool, posts: seq<real>)
      requires WellTimed(k)
      modifies this
      ensures (State(), posts) == CallEffect(old(State()), c, k)
      ensures ok <==> posts != [] && Fine(k.attempts[|posts| - 1]) && k.attempts[|posts| - 1].bodyIsJson
    {
      posts := [];
      var allowed := AllowRequest(k.start);
      if !allowed {
        return false, posts;
      }
      for attempt := 0 to MAX_RETRIES
        invariant posts == k.posts[..attempt]
        invariant forall i :: 0 <= i < attempt ==> IsTransientError(k.attempts[i])
        invariant State() == Allow(old(State()), k.start).value
        invariant attempt < MAX_RETRIES
      {
        posts := posts + [k.posts[attempt]];
        assert posts == k.posts[..attempt + 1];
        var outcome := k.attempts[attempt];
        if attempt + 1 == MAX_RETRIES || !IsTransientError(outcome) {
          AttemptsMadeIs(k.attempts, attempt + 1);
        }
        if outcome.Answered? && !RaisesForStatus(outcome) {
          OnSuccess();
          if outcome.bodyIsJson {
            return true, posts;
          }
          OnNonTransientFailure();
          return false, posts;
        }
        if !IsTransientError(outcome) {
          OnNonTransientFailure();
          return false, posts;
        }
        if attempt == MAX_RETRIES - 1 {
          OnTransientFailure(c, k.noted);
          return false, posts;
        }
      }
      ok := false;
    }
  }

  lemma {:induction false} AttemptsMadeIs(attempts: seq<Attempt>, n: nat)
    requires 0 < n <= |attempts|
    requires forall i :: 0 <= i < n - 1 ==> IsTransientError(attempts[i])
    requires n == |attempts| || !IsTransientError(attempts[n - 1])
    ensures AttemptsMade(attempts) == n
  {
    if n > 1 {
      AttemptsMadeIs(attempts[1..], n - 1);
    }
  }

  // ---- runs of calls ----

  /** Between calls the breaker is closed with failures below the threshold, or open with exactly that many. */
  predicate Settled(b: BreakerState, c: Settings) {
    || (b.mode.Closed? && b.failures < c.threshold)
    || (b.mode.Open? && b.failures == c.threshold)
  }

  lemma CallKeepsSettled(b: BreakerState, c: Settings, k: Call)
    requires Configured(c) && Settled(b, c) && WellTimed(k)
    ensures Settled(CallEffect(b, c, k).0, c)
  {
  }

  /** One after another: a call starts after the previous one is over. */
  predicate Sequential(calls: seq<Call>) {
    && (forall i :: 0 <= i < |calls| ==> WellTimed(calls[i]))
    && (forall i :: 0 < i < |calls| ==> calls[i - 1].noted <= calls[i].start)
  }

  /** The breaker after the calls, from state `start`, and all posts made. */
  function RunCalls(c: Settings, start: BreakerState, calls: seq<Call>): (BreakerState, seq<real>)
    requires forall i :: 0 <= i < |calls| ==> WellTimed(calls[i])
  {
    if calls == [] then (start, [])
    else
      var n := |calls| - 1;
      var (b, posts) := RunCalls(c, start, calls[..n]);
      var (b', more) := CallEffect(b, c, calls[n]);
      (b', posts + more)
  }

  /** A new breaker is settled, and whatever the calls meet it is settled after each. */
  lemma {:induction false} BreakerIsSettled(c: Settings, start: BreakerState, calls: seq<Call>)
    requires Configured(c) && (start == INITIAL || Settled(start, c))
    requires forall i :: 0 <= i < |calls| ==> WellTimed(calls[i])
    ensures Settled(RunCalls(c, start, calls).0, c)
  {
    if calls != [] {
      var n := |calls| - 1;
      BreakerIsSettled(c, start, calls[..n]);
      CallKeepsSettled(RunCalls(c, start, calls[..n]).0, c, calls[n]);
    }
  }

  // ---- when an open breaker lets calls through again ----

  /** The call posts and every attempt fails in a way that a retry might cure. */
  predicate FailsInVain(b: BreakerState, k: Call)
    requires WellTimed(k)
  {
    !(b.mode.Open? && k.start < b.openUntil) && forall i :: 0 <= i < 3 ==> Retryable(k.attempts[i])
  }

  /** When the last failure in vain was noted. */
  function LastNoted(c: Settings, start: BreakerState, calls: seq<Call>): Option<real>
    requires forall i :: 0 <= i < |calls| ==> WellTimed(calls[i])
  {
    if calls == [] then None
    else
      var n := |calls| - 1;
      if FailsInVain(RunCalls(c, start, calls[..n]).0, calls[n]) then Some(calls[n].noted)
      else LastNoted(c, start, calls[..n])
  }

  /** How many of the calls that posted failed in vain since the last that did not. */
  function Streak(c: Settings, start: BreakerState, calls: seq<Call>): nat
    requires forall i :: 0 <= i < |calls| ==> WellTimed(calls[i])
  {
    if calls == [] then 0
    else
      var n := |calls| - 1;
      var b, before := RunCalls(c, start, calls[..n]).0, Streak(c, start, calls[..n]);
      if b.mode.Open? && calls[n].start < b.openUntil then before
      else if FailsInVain(b, calls[n]) then before + 1
      else 0
  }

  lemma CallOutcome(b: BreakerState, c: Settings, k: Call)
    requires WellTimed(k)
    ensures var b' := CallEffect(b, c, k).0;
            && (FailsInVain(b, k) ==>
                  b' == if b.mode != Closed then BreakerState(Open, c.threshold, k.noted + c.openSec as real)
                        else if c.threshold <= b.failures + 1
                          then BreakerState(Open, b.failures + 1, k.noted + c.openSec as real)
                        else BreakerState(Closed, b.failures + 1, b.openUntil))
            && (!FailsInVain(b, k) && !(b.mode.Open? && k.start < b.openUntil) ==> b'.mode.Closed? && b'.failures == 0)
  {
    CallMeans(b, c, k);
    var posts := CallEffect(b, c, k).1;
    if posts != [] && Retryable(k.attempts[|posts| - 1]) {
      assert forall i :: 0 <= i < 3 ==> Retryable(k.attempts[i]);
    }
  }

  /** A new breaker is open exactly when the last `threshold` calls that posted failed in vain, and stays open
      until the open time has passed since the last such failure; while closed it remembers them all. */
  lemma {:induction false} OpenIffStreak(c: Settings, calls: seq<Call>)
    requires Configured(c)
    requires forall i :: 0 <= i < |calls| ==> WellTimed(calls[i])
    ensures var b, streak := RunCalls(c, INITIAL, calls).0, Streak(c, INITIAL, calls);
            && !b.mode.HalfOpen?
            && (b.mode.Open? <==> c.threshold <= streak)
            && (b.mode.Closed? ==> b.failures == streak)
            && (b.mode.Open? ==>
                  && LastNoted(c, INITIAL, calls).Some?
                  && b.openUntil == LastNoted(c, INITIAL, calls).value + c.openSec as real)
  {
    if calls != [] {
      var n := |calls| - 1;
      OpenIffStreak(c, calls[..n]);
      var b := RunCalls(c, INITIAL, calls[..n]).0;
      CallOutcome(b, c, calls[n]);
      CallMeans(b, c, calls[n]);
    }
  }

  lemma RunOneMore(c: Settings, start: BreakerState, calls: seq<Call>, k: Call)
    requires WellTimed(k) && forall i :: 0 <= i < |calls| ==> WellTimed(calls[i])
    ensures forall i :: 0 <= i < |calls + [k]| ==> WellTimed((calls + [k])[i])
    ensures var b := RunCalls(c, start, calls).0;
            RunCalls(c, start, calls + [k])
            == (CallEffect(b, c, k).0, RunCalls(c, start, calls).1 + CallEffect(b, c, k).1)
  {
    assert (calls + [k])[..|calls|] == calls;
  }

  /** Refused exactly within the open time of the last failure in vain, if there were enough of them. */
  lemma RefusedIff(c: Settings, calls: seq<Call>, k: Call)
    requires Configured(c) && WellTimed(k) && forall i :: 0 <= i < |calls| ==> WellTimed(calls[i])
    ensures CallEffect(RunCalls(c, INITIAL, calls).0, c, k).1 == [] <==>
            && c.threshold <= Streak(c, INITIAL, calls)
            && LastNoted(c, INITIAL, calls).Some?
            && k.start < LastNoted(c, INITIAL, calls).value + c.openSec as real
  {
    OpenIffStreak(c, calls);
    CallMeans(RunCalls(c, INITIAL, calls).0, c, k);
  }

  lemma FirstTryWorks(b: BreakerState, c: Settings, k: Call)
    requires WellTimed(k) && k.attempts[0].Answered? && k.attempts[0].status < 400
    requires CallEffect(b, c, k).1 != []
    ensures CallEffect(b, c, k) == (INITIAL, [k.posts[0]])
  {
    CallMeans(b, c, k);
    assert !Retryable(k.attempts[0]);
    assert |CallEffect(b, c, k).1| == 1;
    assert k.posts[..1] == [k.posts[0]];
  }

  /** Recovery: a call that starts the open time or more after the last failure in vain posts, and if its first
      attempt is fine the breaker is as new after it. */
  lemma BreakerRecovers(c: Settings, calls: seq<Call>, k: Call)
    requires Configured(c) && WellTimed(k) && forall i :: 0 <= i < |calls| ==> WellTimed(calls[i])
    requires LastNoted(c, INITIAL, calls).Some? ==>
               LastNoted(c, INITIAL, calls).value + c.openSec as real <= k.start
    ensures forall i :: 0 <= i < |calls + [k]| ==> WellTimed((calls + [k])[i])
    ensures exists posts :: posts != [] && posts[0] == k.posts[0]
                            && RunCalls(c, INITIAL, calls + [k]).1 == RunCalls(c, INITIAL, calls).1 + posts
    ensures k.attempts[0].Answered? && k.attempts[0].status < 400 ==>
              RunCalls(c, INITIAL, calls + [k]) == (INITIAL, RunCalls(c, INITIAL, calls).1 + [k.posts[0]])
  {
    var b := RunCalls(c, INITIAL, calls).0;
    RefusedIff(c, calls, k);
    RunOneMore(c, INITIAL, calls, k);
    PostsAtOnce(b, c, k);
    if k.attempts[0].Answered? && k.attempts[0].status < 400 {
      FirstTryWorks(b, c, k);
    }
  }

  lemma PostsAtOnce(b: BreakerState, c: Settings, k: Call)
    requires WellTimed(k) && CallEffect(b, c, k).1 != []
    ensures CallEffect(b, c, k).1[0] == k.posts[0]
  {
    CallMeans(b, c, k);
  }

  // ---- how often it posts in an outage ----

  /** How many of `posts` fall into the window from `from` to `to`. */
  function InWindow(posts: seq<real>, from: real, to: real): nat {
    if posts == [] then 0
    else InWindow(posts[..|posts| - 1], from, to) + if from <= posts[|posts| - 1] <= to then 1 else 0
  }

  predicate Outage(calls: seq<Call>) {
    forall i :: 0 <= i < |calls| ==> forall a :: a in calls[i].attempts ==> IsTransientError(a)
  }

  function OpenTime(openings: int, c: Settings): real {
    openings as real * c.openSec as real
  }

  /** The bound carried along a run, for a window in which `n` calls posted so far, the last of all calls
      being over at `now`: while the breaker is closed each of the `n` is a failure it remembers, and each
      time it opened again cost the open time. */
  predicate Charged(b: BreakerState, c: Settings, n: nat, from: real, to: real, now: real) {
    n == 0 ||
    (&& from <= now
     && (b.mode.Closed? ==> n <= b.failures)
     && (b.mode.Open? ==> OpenTime(n - c.threshold, c) <= b.openUntil - c.openSec as real - from)
     && OpenTime(n - c.threshold, c) <= to - from)
  }

  lemma OpenTimeGrows(openings: int, c: Settings)
    ensures OpenTime(openings + 1, c) == OpenTime(openings, c) + c.openSec as real
    ensures openings <= 0 ==> OpenTime(openings, c) <= 0.0
  {
  }

  lemma InWindowAppended(posts: seq<real>, p: real, from: real, to: real)
    ensures InWindow(posts + [p], from, to) == InWindow(posts, from, to) + if from <= p <= to then 1 else 0
  {
    assert (posts + [p])[..|posts|] == posts;
  }

  lemma InWindowOfThree(posts: seq<real>, k: Call, from: real, to: real)
    requires WellTimed(k)
    ensures InWindow(posts + k.posts, from, to) <= InWindow(posts, from, to) + 3
    ensures (forall p :: p in k.posts ==> !(from <= p <= to)) ==>
              InWindow(posts + k.posts, from, to) == InWindow(posts, from, to)
  {
    var one := posts + [k.posts[0]];
    var two := one + [k.posts[1]];
    assert posts + k.posts == two + [k.posts[2]];
    InWindowAppended(posts, k.posts[0], from, to);
    InWindowAppended(one, k.posts[1], from, to);
    InWindowAppended(two, k.posts[2], from, to);
    assert k.posts[0] in k.posts && k.posts[1] in k.posts && k.posts[2] in k.posts;
  }

  /** One more call in an outage: it posts nothing, or three times and then fails. */
  lemma OutageCall(b: BreakerState, c: Settings, k: Call)
    requires Configured(c) && Settled(b, c) && WellTimed(k)
    requires forall a :: a in k.attempts ==> IsTransientError(a)
    ensures Allow(b, k.start).None? ==> CallEffect(b, c, k) == (b, [])
    ensures Allow(b, k.start).Some? ==>
              CallEffect(b, c, k) == (AfterTransientFailure(Allow(b, k.start).value, c, k.noted), k.posts)
  {
    AttemptsMadeIs(k.attempts, MAX_RETRIES);
    assert k.posts[..MAX_RETRIES] == k.posts;
    assert k.attempts[MAX_RETRIES - 1] in k.attempts;
  }

  lemma ChargeCall(b: BreakerState, c: Settings, k: Call, n: nat, from: real, to: real, now: real)
    requires Configured(c) && Settled(b, c) && WellTimed(k) && now <= k.start && from <= to
    requires forall a :: a in k.attempts ==> IsTransientError(a)
    requires Charged(b, c, n, from, to, now) && Allow(b, k.start).Some?
    ensures Charged(CallEffect(b, c, k).0, c, n, from, to, k.noted)
    ensures (exists p :: p in k.posts && from <= p <= to) ==>
              Charged(CallEffect(b, c, k).0, c, n + 1, from, to, k.noted)
  {
    OutageCall(b, c, k);
    OpenTimeGrows(n - c.threshold, c);
    OpenTimeGrows(n + 1 - c.threshold, c);
    if p :| p in k.posts && from <= p <= to {
      assert k.start <= p <= k.noted;
    }
  }

  lemma StepCharged(b: BreakerState, posts: seq<real>, c: Settings, k: Call, before: nat,
                    from: real, to: real, now: real)
    returns (n: nat)
    requires Configured(c) && Settled(b, c) && WellTimed(k) && now <= k.start && from <= to
    requires forall a :: a in k.attempts ==> IsTransientError(a)
    requires Charged(b, c, before, from, to, now) && InWindow(posts, from, to) <= 3 * before
    ensures Charged(CallEffect(b, c, k).0, c, n, from, to, k.noted)
    ensures InWindow(posts + CallEffect(b, c, k).1, from, to) <= 3 * n
  {
    n := before;
    OutageCall(b, c, k);
    if Allow(b, k.start).Some? {
      ChargeCall(b, c, k, before, from, to, now);
      InWindowOfThree(posts, k, from, to);
      if p :| p in k.posts && from <= p <= to {
        n := before + 1;
      }
    } else {
      assert posts + [] == posts;
    }
  }

  lemma {:induction false} RunCharged(c: Settings, start: BreakerState, calls: seq<Call>, from: real, to: real)
    returns (n: nat)
    requires Configured(c) && Settled(start, c) && Sequential(calls) && Outage(calls) && from <= to
    ensures calls == [] ==> n == 0
    ensures calls != [] ==> Charged(RunCalls(c, start, calls).0, c, n, from, to, calls[|calls| - 1].noted)
    ensures InWindow(RunCalls(c, start, calls).1, from, to) <= 3 * n
  {
    n := 0;
    if calls != [] {
      var m := |calls| - 1;
      var before := RunCharged(c, start, calls[..m], from, to);
      BreakerIsSettled(c, start, calls[..m]);
      var (b, posts) := RunCalls(c, start, calls[..m]);
      var now := if m == 0 then calls[m].start else calls[m - 1].noted;
      n := StepCharged(b, posts, c, calls[m], before, from, to, now);
    }
  }

  lemma QuotientTimes(a: real, b: real)
    requires 0.0 < b
    ensures a / b * b == a
  {
  }

  lemma CancelFactor(x: real, y: real, factor: real)
    requires 0.0 < factor && x * factor <= y * factor
    ensures x <= y
  {
    var gap := x - y;
    assert gap * factor == x * factor - y * factor;
    if 0.0 < gap {
      assert 0.0 < gap * factor;
    }
  }

  lemma OpeningsFit(openings: int, c: Settings, length: real)
    requires Configured(c) && OpenTime(openings, c) <= length
    ensures openings <= (length / c.openSec as real).Floor
  {
    QuotientTimes(length, c.openSec as real);
    CancelFactor(openings as real, length / c.openSec as real, c.openSec as real);
  }

  /** Outage load bound: from the state any earlier calls have left, if every attempt fails transiently, a
      window of any length holds at most three posts for each call up to the threshold and for each time the
      breaker can have opened again in it. */
  lemma OutageLoadBound(c: Settings, start: BreakerState, calls: seq<Call>, from: real, to: real)
    requires Configured(c) && Settled(start, c) && Sequential(calls) && Outage(calls) && from <= to
    ensures InWindow(RunCalls(c, start, calls).1, from, to)
            <= 3 * (c.threshold + ((to - from) / c.openSec as real).Floor)
  {
    var n := RunCharged(c, start, calls, from, to);
    if n > 0 {
      OpeningsFit(n - c.threshold, c, to - from);
    } else {
      OpenTimeGrows(0, c);
      OpeningsFit(0, c, to - from);
    }
  }
}
