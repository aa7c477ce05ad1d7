/** The deadline-bounded retry loop of `send_a2a_message` (molecule_runtime/a2a_client.py).
    Time advances only in POSTs and, exactly as asked, in sleeps. */
module DelegateRetry {
  import opened Delays
  import opened Wrappers

  const BACKOFF_CAP_S := 16.0

  /** The base delay is one second, doubled after every attempt and capped. */
  function Base(attempt: nat): real {
    if Pow2(attempt) as real < BACKOFF_CAP_S then Pow2(attempt) as real else BACKOFF_CAP_S
  }

  /** A symmetric quarter around the base. */
  function Jitter(base: real, draw: real): (jitter: real)
    requires base > 0.0 && 0.0 <= draw < 1.0
    ensures -0.25 * base <= jitter < 0.25 * base
  {
    JitterBounds(base, draw);
    base * (0.5 * draw - 0.25)
  }

  /** `_delegate_backoff_seconds`; `draw` is what `random.random()` returned. */
  function BackoffSeconds(attempt: nat, draw: real): (delay: real)
    requires 0.0 <= draw < 1.0
    ensures 0.0 <= delay && 0.75 * Base(attempt) <= delay < 1.25 * Base(attempt)
  {
    BaseIsPositive(attempt);
    var base := Base(attempt);
    var delay := base + Jitter(base, draw);
    if delay > 0.0 then delay else 0.0
  }

  /** The draws spread the delay evenly over the quarter on either side of the base. */
  lemma DelayIsEven(attempt: nat, draw: real)
    requires 0.0 <= draw < 1.0
    ensures BackoffSeconds(attempt, draw) == Base(attempt) * (0.75 + 0.5 * draw)
  {
    BaseIsPositive(attempt);
    JitterBounds(Base(attempt), draw);
    var base := Base(attempt);
    assert base + base * (0.5 * draw - 0.25) == base * (0.75 + 0.5 * draw);
  }

  lemma {:induction false} BaseIsPositive(attempt: nat)
    ensures Pow2(attempt) >= 1 && 1.0 <= Base(attempt) <= BACKOFF_CAP_S
  {
    if attempt == 0 {
    } else {
      BaseIsPositive(attempt - 1);
    }
  }

  /** The first base is a second; each next one is twice as long, up to sixteen. */
  lemma BaseDoubles(n: nat)
    ensures Base(0) == 1.0 && Base(n + 1) == if 2.0 * Base(n) < 16.0 then 2.0 * Base(n) else 16.0
  {
    assert Pow2(n + 1) == 2 * Pow2(n) && Pow2(0) == 1;
  }

  lemma JitterBounds(base: real, draw: real)
    requires base > 0.0 && 0.0 <= draw < 1.0
    ensures -0.25 * base <= base * (0.5 * draw - 0.25) < 0.25 * base
  {
    var x := 0.5 * draw - 0.25;
    assert base * (x + 0.25) >= 0.0;
    assert base * (0.25 - x) > 0.0;
  }

  /** 1.25 times min(1, 16) + min(2, 16) + ... over the first `n` attempts. */
  function SleepCeiling(n: nat): real {
    if n == 0 then 0.0 else SleepCeiling(n - 1) + 1.25 * Base(n - 1)
  }

  lemma {:induction false} SleepCeilingGrows(m: nat, n: nat)
    requires m <= n
    ensures 0.0 <= SleepCeiling(m) <= SleepCeiling(n)
    decreases n
  {
    if n == 0 {
    } else {
      BaseIsPositive(n - 1);
      if m < n { SleepCeilingGrows(m, n - 1); } else { SleepCeilingGrows(n - 1, n - 1); }
    }
  }

  /** How a POST ends: with a response, with a transient transport error, or with any
      other error. */
  datatype Ending = Answered | Transient | OtherError

  datatype Post = Post(duration: real, ending: Ending)

  datatype Cause = TotalBudgetExhausted | AttemptsExhausted

  /** What the sender returns: the outcome of its last POST, or the terminal message. */
  datatype Verdict = Settled(ending: Ending) | GaveUp(cause: Cause)

  /** When each POST starts, the sleeps between them, and when the last POST ends. */
  ghost predicate IsTimeline(posts: seq<Post>, started: real, starts: seq<real>, sleeps: seq<real>, now: real) {
    && 0 < |starts| <= |posts| && |sleeps| == |starts| - 1
    && starts[0] == started
    && (forall i {:trigger sleeps[i]} | 0 <= i < |sleeps| :: starts[i + 1] == starts[i] + posts[i].duration + sleeps[i])
    && now == starts[|starts| - 1] + posts[|starts| - 1].duration
  }

  /** Every POST starts by the deadline, the sleeps fit the budget, and every POST but the
      last failed transiently. */
  ghost predicate WithinBudget(posts: seq<Post>, started: real, budget: real, starts: seq<real>, sleeps: seq<real>) {
    && |starts| <= |posts|
    && (forall i | 0 <= i < |starts| :: started <= starts[i] <= started + budget)
    && Sum(sleeps) <= budget
    && (forall i | 0 <= i < |starts| - 1 :: posts[i].ending.Transient?)
  }

  /** The backoff after each attempt, as `_delegate_backoff_seconds` may return it. */
  ghost predicate Admissible(backoff: nat -> real) {
    forall i: nat {:trigger backoff(i)} :: 0.0 <= backoff(i) && 0.75 * Base(i) <= backoff(i) < 1.25 * Base(i)
  }

  /** Whatever the random draws, the backoffs are admissible. */
  lemma DrawsAreAdmissible(draws: nat -> real)
    requires forall i: nat :: 0.0 <= draws(i) < 1.0
    ensures Admissible((i: nat) => if 0.0 <= draws(i) < 1.0 then BackoffSeconds(i, draws(i)) else 0.0)
  {
  }

  /** Each sleep is the backoff of its attempt, cut short only to end at the deadline. */
  ghost predicate SleepsFollowBackoff(backoff: nat -> real, deadline: real, starts: seq<real>, sleeps: seq<real>) {
    && |sleeps| < |starts|
    && forall i: nat {:trigger sleeps[i]} | i < |sleeps| ::
         0.0 <= sleeps[i] <= backoff(i) && (sleeps[i] < backoff(i) ==> starts[i + 1] == deadline)
  }

  /** The attempts made so far all failed transiently, and the next POST would start last. */
  ghost predicate Retrying(posts: seq<Post>, started: real, deadline: real, starts: seq<real>, sleeps: seq<real>) {
    var n := |sleeps|;
    && |starts| == n + 1 <= |posts|
    && starts[0] == started
    && (forall i | 0 <= i <= n :: started <= starts[i] <= deadline)
    && (forall i {:trigger sleeps[i]} | 0 <= i < n :: starts[i + 1] == starts[i] + posts[i].duration + sleeps[i])
    && (forall i | 0 <= i < n :: posts[i].ending.Transient?)
    && 0.0 <= Sum(sleeps) <= starts[n] - started
  }

  lemma RetryOnce(posts: seq<Post>, started: real, deadline: real, starts: seq<real>, sleeps: seq<real>,
                  delay: real, wake: real)
    requires Retrying(posts, started, deadline, starts, sleeps) && |starts| < |posts|
    requires posts[|sleeps|].ending.Transient? && posts[|sleeps|].duration >= 0.0
    requires 0.0 <= delay && wake == starts[|sleeps|] + posts[|sleeps|].duration + delay <= deadline
    ensures Retrying(posts, started, deadline, starts + [wake], sleeps + [delay])
  {
    SumSnoc(sleeps, delay);
  }

  lemma FollowOnce(backoff: nat -> real, deadline: real, starts: seq<real>, sleeps: seq<real>, delay: real, wake: real)
    requires SleepsFollowBackoff(backoff, deadline, starts, sleeps) && |starts| == |sleeps| + 1
    requires 0.0 <= delay <= backoff(|sleeps|) && (delay < backoff(|sleeps|) ==> wake == deadline)
    ensures SleepsFollowBackoff(backoff, deadline, starts + [wake], sleeps + [delay])
  {
  }

  /** However many attempts were made, sleeps that follow the backoffs add up to no more
      than 1.25 times the schedule. */
  lemma {:induction false} SleepsWithinCeiling(backoff: nat -> real, deadline: real,
                                               starts: seq<real>, sleeps: seq<real>, m: nat)
    requires Admissible(backoff) && |sleeps| <= m
    requires SleepsFollowBackoff(backoff, deadline, starts, sleeps)
    ensures Sum(sleeps) <= SleepCeiling(m)
  {
    if sleeps == [] {
      SleepCeilingGrows(0, m);
    } else {
      var n := |sleeps| - 1;
      SleepsWithinCeiling(backoff, deadline, starts, sleeps[..n], n);
      assert sleeps[n] <= backoff(n);
      SleepCeilingGrows(n + 1, m);
    }
  }

  /** What the attempts made so far amount to, once the last of them has ended. */
  lemma RetryingIsTimeline(posts: seq<Post>, started: real, budget: real, starts: seq<real>, sleeps: seq<real>,
      now: real)
    requires Retrying(posts, started, started + budget, starts, sleeps)
    requires now == starts[|sleeps|] + posts[|sleeps|].duration
    ensures IsTimeline(posts, started, starts, sleeps, now) && WithinBudget(posts, started, budget, starts, sleeps)
  {
  }

  /** The sleep after a failed attempt, cut short to end at the deadline. */
  function Clamped(delay: real, remaining: real): real {
    if delay <= remaining then delay else if remaining > 0.0 then remaining else 0.0
  }

  lemma ClampedFits(delay: real, remaining: real)
    requires 0.0 <= delay && 0.0 < remaining
    ensures 0.0 <= Clamped(delay, remaining) <= delay && Clamped(delay, remaining) <= remaining
    ensures Clamped(delay, remaining) < delay ==> Clamped(delay, remaining) == remaining
  {
  }

  /** A transient failure before the deadline: the next attempt starts after the clamped sleep. */
  lemma AttemptAgain(posts: seq<Post>, backoff: nat -> real, started: real, deadline: real,
                     starts: seq<real>, sleeps: seq<real>, now: real)
    requires Admissible(backoff) && Retrying(posts, started, deadline, starts, sleeps)
    requires SleepsFollowBackoff(backoff, deadline, starts, sleeps) && |starts| < |posts|
    requires posts[|sleeps|].ending.Transient? && posts[|sleeps|].duration >= 0.0
    requires now == starts[|sleeps|] + posts[|sleeps|].duration < deadline
    ensures var delay := Clamped(backoff(|sleeps|), deadline - now);
            && Retrying(posts, started, deadline, starts + [now + delay], sleeps + [delay])
            && SleepsFollowBackoff(backoff, deadline, starts + [now + delay], sleeps + [delay])
  {
    var delay := Clamped(backoff(|sleeps|), deadline - now);
    ClampedFits(backoff(|sleeps|), deadline - now);
    RetryOnce(posts, started, deadline, starts, sleeps, delay, now + delay);
    FollowOnce(backoff, deadline, starts, sleeps, delay, now + delay);
  }

  /** The loop over the attempts: how the last POST ended if that settles it, None if it
      failed transiently and the loop gave up. */
  method RetryLoop(posts: seq<Post>, backoff: nat -> real, maxAttempts: nat, budget: real, started: real)
    returns (settled: Option<Ending>, starts: seq<real>, sleeps: seq<real>, now: real)
    requires 1 <= maxAttempts <= |posts| && budget > 0.0
    requires forall i | 0 <= i < |posts| :: posts[i].duration >= 0.0
    requires Admissible(backoff)
    ensures IsTimeline(posts, started, starts, sleeps, now) && |starts| <= maxAttempts
    ensures WithinBudget(posts, started, budget, starts, sleeps)
    ensures SleepsFollowBackoff(backoff, started + budget, starts, sleeps)
    ensures settled.None? <==> posts[|starts| - 1].ending.Transient?
    ensures settled.Some? ==> settled.value == posts[|starts| - 1].ending
    ensures settled.None? ==> |starts| == maxAttempts || now >= started + budget
  {
    var deadline := started + budget;
    now := started;
    starts, sleeps := [started], [];
    var lastExc := false;
    for attempt := 0 to maxAttempts
      invariant attempt < maxAttempts && |sleeps| == attempt
      invariant Retrying(posts, started, deadline, starts, sleeps) && now == starts[attempt]
      invariant SleepsFollowBackoff(backoff, deadline, starts, sleeps)
      invariant lastExc <==> attempt > 0
    {
      var post := posts[attempt];
      now := now + post.duration;
      RetryingIsTimeline(posts, started, budget, starts, sleeps, now);
      if !post.ending.Transient? {
        return Some(post.ending), starts, sleeps, now;
      }
      lastExc := true;
      if maxAttempts - (attempt + 1) <= 0 || now >= deadline {
        break;
      }
      var delay := Clamped(backoff(attempt), deadline - now);
      AttemptAgain(posts, backoff, started, deadline, starts, sleeps, now);
      now := now + delay;
      starts, sleeps := starts + [now], sleeps + [delay];
    }
    // the source asserts here that an exception was recorded
    assert lastExc;
    settled := None;
  }

  /** `posts` are what the attempts would meet, `backoff` the delays drawn after them. */
  method SendA2aMessage(posts: seq<Post>, backoff: nat -> real, maxAttempts: nat, budget: real, started: real)
    returns (verdict: Verdict, starts: seq<real>, sleeps: seq<real>, now: real)
    requires 1 <= maxAttempts <= |posts| && budget > 0.0
    requires forall i | 0 <= i < |posts| :: posts[i].duration >= 0.0
    requires Admissible(backoff)
    ensures IsTimeline(posts, started, starts, sleeps, now) && |starts| <= maxAttempts
    ensures WithinBudget(posts, started, budget, starts, sleeps)
    // the sleeps follow the backoffs, so SleepsWithinCeiling bounds them too
    ensures SleepsFollowBackoff(backoff, started + budget, starts, sleeps)
    // the last POST decides
    ensures verdict.Settled? <==> !posts[|starts| - 1].ending.Transient?
    ensures verdict.Settled? ==> verdict.ending == posts[|starts| - 1].ending
    // giving up names the ceiling that was hit; the budget wins a tie
    ensures verdict.GaveUp? ==> |starts| == maxAttempts || now >= started + budget
    ensures verdict == GaveUp(TotalBudgetExhausted) <==> verdict.GaveUp? && now >= started + budget
  {
    var settled;
    settled, starts, sleeps, now := RetryLoop(posts, backoff, maxAttempts, budget, started);
    verdict :=
      if settled.Some? then Settled(settled.value)
      else GaveUp(if now >= started + budget then TotalBudgetExhausted else AttemptsExhausted);
  }

  /** With the default five attempts the sleeps stay within 18.75 seconds. */
  lemma DefaultScheduleCeiling()
    ensures SleepCeiling(4) == 18.75
  {
    assert Base(0) == 1.0 && Base(1) == 2.0 && Base(2) == 4.0 && Base(3) == 8.0;
    assert SleepCeiling(1) == 1.25 && SleepCeiling(2) == 3.75 && SleepCeiling(3) == 8.75;
  }
}
