/** The autonomous-loop circuit breaker (molecule_runtime/autonomous_loop_guard.py):
    the process-wide guard as a class, and its meaning over whole call histories. */
module LoopGuard {
  import opened Wrappers
  import NoopPhrases
  import OutputNormalizer
  import OutputWords

  datatype Decision = EMIT | SUPPRESS | HALT

  const MAX_DELIVERED_KEYS := 512

  /** `max_identical()` never returns less than 1. */
  type Limit = n: int | 1 <= n witness 3

  /** sha256, uninterpreted: nothing below needs more of it than that it is a function. */
  type Digest = string -> string

  datatype Guard = Guard(delivered: seq<string>, lastSignature: Option<string>, consecutiveNoop: nat, halted: bool)

  const FRESH_GUARD := Guard([], None, 0, false)

  function Signature(digest: Digest, text: string): string {
    digest(OutputNormalizer.Normalize(text))
  }

  /** Insertion-ordered store of keys; past the cap the oldest go and half the cap stays. */
  function Remember(delivered: seq<string>, key: string): seq<string> {
    var stored := if key in delivered then delivered else delivered + [key];
    if |stored| > MAX_DELIVERED_KEYS then stored[|stored| - MAX_DELIVERED_KEYS / 2..] else stored
  }

  // ---- what one call does ------------------------------------------------

  function MarkDeliveredStep(g: Guard, key: string): Guard {
    if key == "" then g else g.(delivered := Remember(g.delivered, key))
  }

  predicate IsKeyed(key: Option<string>) {
    key.Some? && key.value != ""
  }

  predicate IsReplay(digest: Digest, g: Guard, text: string, key: Option<string>) {
    || (IsKeyed(key) && key.value in g.delivered)
    || g.lastSignature == Some(Signature(digest, text))
    || OutputNormalizer.LooksLikeNoop(text)
  }

  function Replayed(g: Guard, sig: string, limit: Limit): (Guard, Decision) {
    var count := g.consecutiveNoop + 1;
    (g.(consecutiveNoop := count, lastSignature := Some(sig), halted := count >= limit),
     if count >= limit then HALT else SUPPRESS)
  }

  function Emitted(g: Guard, sig: string, key: Option<string>): Guard {
    g.(consecutiveNoop := 0, lastSignature := Some(sig),
       delivered := if IsKeyed(key) then Remember(g.delivered, key.value) else g.delivered)
  }

  function EvaluateStep(digest: Digest, g: Guard, text: string, key: Option<string>, limit: Limit): (Guard, Decision) {
    if g.halted then (g, HALT)
    else if IsReplay(digest, g, text, key) then Replayed(g, Signature(digest, text), limit)
    else (Emitted(g, Signature(digest, text), key), EMIT)
  }

  class GuardState {
    const digest: Digest
    var delivered: seq<string>
    var lastSignature: Option<string>
    var consecutiveNoop: nat
    var halted: bool

    ghost function State(): Guard
      reads this
    {
      Guard(delivered, lastSignature, consecutiveNoop, halted)
    }

    constructor (digest: Digest)
      ensures State() == FRESH_GUARD && this.digest == digest
    {
      this.digest := digest;
      delivered, lastSignature, consecutiveNoop, halted := [], None, 0, false;
    }

    method IsDelivered(key: string) returns (r: bool)
      ensures r <==> key != "" && key in delivered
    {
      r := key != "" && key in delivered;
    }

    method MarkDelivered(key: string)
      modifies this
      ensures State() == MarkDeliveredStep(old(State()), key)
    {
      if key == "" {
        return;
      }
      RememberDelivered(key);
    }

    method RememberDelivered(key: string)
      modifies this`delivered
      ensures delivered == Remember(old(delivered), key)
    {
      if key !in delivered {
        delivered := delivered + [key];
      }
      if |delivered| > MAX_DELIVERED_KEYS {
        var drop := |delivered| - MAX_DELIVERED_KEYS / 2;
        for i := 0 to drop
          invariant delivered == (Appended(old(delivered), key))[i..]
        {
          delivered := delivered[1..];
        }
      }
    }

    /** A replay counts toward the limit and trips the breaker on reaching it. */
    method CountReplay(sig: string, limit: Limit) returns (decision: Decision)
      modifies this`consecutiveNoop, this`lastSignature, this`halted
      ensures (State(), decision) == Replayed(old(State()), sig, limit)
    {
      consecutiveNoop := consecutiveNoop + 1;
      lastSignature := Some(sig);
      halted := consecutiveNoop >= limit;
      decision := if halted then HALT else SUPPRESS;
    }

    /** A fresh output resets the count and, when keyed, is remembered. */
    method Emit(sig: string, key: Option<string>)
      modifies this
      ensures State() == Emitted(old(State()), sig, key)
    {
      consecutiveNoop := 0;
      lastSignature := Some(sig);
      if IsKeyed(key) {
        RememberDelivered(key.value);
      }
    }

    method Evaluate(text: string, key: Option<string>, limit: Limit) returns (decision: Decision)
      modifies this
      ensures (State(), decision) == EvaluateStep(digest, old(State()), text, key, limit)
    {
      if halted {
        return HALT;
      }
      var sig := Signature(digest, text);
      var alreadyDelivered := IsKeyed(key) && key.value in delivered;
      var sameAsLast := lastSignature == Some(sig);
      var noop := OutputNormalizer.LooksLikeNoop(text);
      if alreadyDelivered || sameAsLast || noop {
        decision := CountReplay(sig, limit);
        return;
      }
      Emit(sig, key);
      return EMIT;
    }
  }

  function Appended(delivered: seq<string>, key: string): seq<string> {
    if key in delivered then delivered else delivered + [key]
  }

  // ---- whole histories ---------------------------------------------------

  datatype Call = Evaluate(text: string, key: Option<string>, limit: Limit) | MarkDelivered(result: string)

  function Step(digest: Digest, g: Guard, call: Call): (Guard, Option<Decision>) {
    match call
    case MarkDelivered(key) => (MarkDeliveredStep(g, key), None)
    case Evaluate(text, key, limit) =>
      var (g', decision) := EvaluateStep(digest, g, text, key, limit);
      (g', Some(decision))
  }

  /** The guard after a history of calls. */
  function Run(digest: Digest, history: seq<Call>): Guard {
    if history == [] then FRESH_GUARD
    else Step(digest, Run(digest, history[..|history| - 1]), history[|history| - 1]).0
  }

  /** What the next call returns after a history. */
  function DecisionAfter(digest: Digest, history: seq<Call>, call: Call): Decision
    requires call.Evaluate?
  {
    EvaluateStep(digest, Run(digest, history), call.text, call.key, call.limit).1
  }

  /** The signature of the latest output evaluated. */
  function LatestSignature(digest: Digest, history: seq<Call>): Option<string> {
    if history == [] then None
    else
      var call := history[|history| - 1];
      if call.Evaluate? then Some(Signature(digest, call.text))
      else LatestSignature(digest, history[..|history| - 1])
  }

  /** `call`, made after `history`, replays something: its result was delivered, or
      the output before it was the same, or it says itself that nothing is new. */
  predicate Replays(digest: Digest, history: seq<Call>, call: Call) {
    && call.Evaluate?
    && (|| (IsKeyed(call.key) && call.key.value in Run(digest, history).delivered)
        || LatestSignature(digest, history) == Some(Signature(digest, call.text))
        || OutputNormalizer.LooksLikeNoop(call.text))
  }

  /** The last `m` outputs of the history were replays, each when it was made. */
  predicate LastReplay(digest: Digest, history: seq<Call>, m: nat)
    decreases |history|
  {
    m == 0
    || (&& history != []
        && var before, call := history[..|history| - 1], history[|history| - 1];
           if call.MarkDelivered? then LastReplay(digest, before, m)
           else Replays(digest, before, call) && LastReplay(digest, before, m - 1))
  }

  /** Some output of the history completed a window of as many replays as its limit. */
  predicate WindowReached(digest: Digest, history: seq<Call>) {
    exists k | 1 <= k <= |history| :: WindowEndsAt(digest, history, k)
  }

  predicate WindowEndsAt(digest: Digest, history: seq<Call>, k: nat)
    requires 1 <= k <= |history|
  {
    history[k - 1].Evaluate? && LastReplay(digest, history[..k], history[k - 1].limit)
  }

  lemma WindowOfPrefix(digest: Digest, history: seq<Call>, call: Call)
    ensures WindowReached(digest, history + [call])
       <==> WindowReached(digest, history)
            || (call.Evaluate? && LastReplay(digest, history + [call], call.limit))
  {
    var longer := history + [call];
    forall k | 1 <= k <= |history| ensures WindowEndsAt(digest, longer, k) <==> WindowEndsAt(digest, history, k) {
      assert longer[..k] == history[..k];
    }
    assert longer[..|longer|] == longer;
    assert WindowEndsAt(digest, longer, |longer|)
      <==> (call.Evaluate? && LastReplay(digest, longer, call.limit));
    if WindowReached(digest, longer) {
      var k :| 1 <= k <= |longer| && WindowEndsAt(digest, longer, k);
    }
  }

  /** Counting down a window is the same as having counted the suffix up. */
  ghost predicate Refines(digest: Digest, history: seq<Call>, g: Guard) {
    && (g.halted <==> WindowReached(digest, history))
    && (!g.halted ==>
          && g.lastSignature == LatestSignature(digest, history)
          && forall m: nat :: LastReplay(digest, history, m) <==> m <= g.consecutiveNoop)
  }

  /** The class's counters refine the windows of the history. */
  lemma {:induction false} RunRefinesWindows(digest: Digest, history: seq<Call>)
    ensures Refines(digest, history, Run(digest, history))
  {
    if history == [] {
    } else {
      var before, call := history[..|history| - 1], history[|history| - 1];
      assert history == before + [call];
      RunRefinesWindows(digest, before);
      WindowOfPrefix(digest, before, call);
      var g, g' := Run(digest, before), Run(digest, history);
      assert g' == Step(digest, g, call).0;
      if !g.halted {
        forall m: nat
          ensures LastReplay(digest, history, m) <==>
                  m <= (if call.MarkDelivered? then g.consecutiveNoop
                        else if Replays(digest, before, call) then g.consecutiveNoop + 1 else 0)
        {
          if m > 0 && call.Evaluate? {
            assert LastReplay(digest, before, m - 1) <==> m - 1 <= g.consecutiveNoop;
          }
        }
      }
    }
  }

  /** A call returns HALT exactly when, it included, some output has completed a window
      of consecutive replays as long as its limit: at that output first, and always after. */
  lemma HaltIffWindowReached(digest: Digest, history: seq<Call>, call: Call)
    requires call.Evaluate?
    ensures DecisionAfter(digest, history, call) == HALT <==> WindowReached(digest, history + [call])
    ensures DecisionAfter(digest, history, call) == SUPPRESS
       <==> !WindowReached(digest, history + [call]) && Replays(digest, history, call)
    ensures DecisionAfter(digest, history, call) == EMIT
       <==> !WindowReached(digest, history) && !Replays(digest, history, call)
  {
    RunRefinesWindows(digest, history);
    WindowOfPrefix(digest, history, call);
    WindowGrows(digest, history, call, call.limit);
    var g := Run(digest, history);
    if !g.halted {
      assert LastReplay(digest, history, call.limit - 1) <==> call.limit - 1 <= g.consecutiveNoop;
    }
  }

  lemma WindowGrows(digest: Digest, history: seq<Call>, call: Call, m: nat)
    requires call.Evaluate? && m > 0
    ensures LastReplay(digest, history + [call], m)
       <==> Replays(digest, history, call) && LastReplay(digest, history, m - 1)
  {
    assert (history + [call])[..|history|] == history;
  }

  // ---- the delivered store -----------------------------------------------

  predicate Distinct(s: seq<string>) {
    forall i, j | 0 <= i < j < |s| :: s[i] != s[j]
  }

  lemma RememberKeepsNewest(delivered: seq<string>, key: string)
    requires Distinct(delivered) && |delivered| <= MAX_DELIVERED_KEYS
    ensures var after := Remember(delivered, key);
            && Distinct(after) && |after| <= MAX_DELIVERED_KEYS && key in after
            && (forall k | k in after :: k in delivered || k == key)
            && (|delivered| < MAX_DELIVERED_KEYS ==> forall k | k in delivered :: k in after)
            && (key !in delivered ==> after[|after| - 1] == key)
            && (key in delivered ==> after == delivered)
            && (key !in delivered && |delivered| < 512 ==> after == delivered + [key])
            && (key !in delivered && |delivered| == 512 ==> after == delivered[257..] + [key])
  {
    var stored := Appended(delivered, key);
    assert key !in delivered ==> stored[|stored| - 1] == key;
    assert |delivered| == 512 ==> (delivered + [key])[257..] == delivered[257..] + [key];
  }

  /** A call remembers at most one key, and so keeps the store a set within its cap. */
  lemma StepKeepsStore(digest: Digest, g: Guard, call: Call)
    requires Distinct(g.delivered) && |g.delivered| <= MAX_DELIVERED_KEYS
    ensures var after := Step(digest, g, call).0.delivered; Distinct(after) && |after| <= MAX_DELIVERED_KEYS
  {
    if call.MarkDelivered? {
      RememberKeepsNewest(g.delivered, call.result);
    } else if IsKeyed(call.key) {
      RememberKeepsNewest(g.delivered, call.key.value);
    }
  }

  /** The store stays a set, within its cap. */
  lemma {:induction false} StoreIsBounded(digest: Digest, history: seq<Call>)
    ensures var g := Run(digest, history); Distinct(g.delivered) && |g.delivered| <= MAX_DELIVERED_KEYS
  {
    if history == [] {
    } else {
      StoreIsBounded(digest, history[..|history| - 1]);
      StepKeepsStore(digest, Run(digest, history[..|history| - 1]), history[|history| - 1]);
    }
  }

  /** Emitting a keyed result stores its key. */
  lemma EmitStoresKey(digest: Digest, history: seq<Call>, call: Call)
    requires call.Evaluate? && IsKeyed(call.key) && DecisionAfter(digest, history, call) == EMIT
    ensures call.key.value in Run(digest, history + [call]).delivered
  {
    assert (history + [call])[..|history|] == history;
    StoreIsBounded(digest, history);
    RememberKeepsNewest(Run(digest, history).delivered, call.key.value);
  }

  /** A result marked as delivered is not emitted again under its key by the next output. */
  lemma MarkedIsHeldBack(digest: Digest, history: seq<Call>, key: string, call: Call)
    requires key != "" && call.Evaluate? && call.key == Some(key)
    ensures key in Run(digest, history + [MarkDelivered(key)]).delivered
    ensures DecisionAfter(digest, history + [MarkDelivered(key)], call) != EMIT
  {
    assert (history + [MarkDelivered(key)])[..|history|] == history;
    StoreIsBounded(digest, history);
    RememberKeepsNewest(Run(digest, history).delivered, key);
  }

  /** What is emitted under a key was not in the store. */
  lemma EmitMeansNotStored(digest: Digest, history: seq<Call>, call: Call)
    requires call.Evaluate? && IsKeyed(call.key) && DecisionAfter(digest, history, call) == EMIT
    ensures call.key.value !in Run(digest, history).delivered
  {
  }

  lemma PrefixSnoc(history: seq<Call>, i: nat)
    requires i < |history|
    ensures history[..i] + [history[i]] == history[..i + 1]
  {
  }

  /** Between two emissions under one key, the key has left the store. */
  lemma EmittedOnceWhileStored(digest: Digest, history: seq<Call>, i: nat, j: nat)
    requires i < j < |history| && history[i].Evaluate? && history[j].Evaluate?
    requires IsKeyed(history[i].key) && history[i].key == history[j].key
    requires DecisionAfter(digest, history[..i], history[i]) == EMIT
    requires DecisionAfter(digest, history[..j], history[j]) == EMIT
    ensures history[i].key.value in Run(digest, history[..i + 1]).delivered
    ensures exists k | i + 1 < k <= j :: history[i].key.value !in Run(digest, history[..k]).delivered
  {
    EmitStoresKey(digest, history[..i], history[i]);
    PrefixSnoc(history, i);
    EmitMeansNotStored(digest, history[..j], history[j]);
  }

  // ---- what is new is emitted, what says it is not is held back ------------

  /** The latest output evaluated. */
  function LatestOutput(history: seq<Call>): Option<string> {
    if history == [] then None
    else
      var call := history[|history| - 1];
      if call.Evaluate? then Some(call.text) else LatestOutput(history[..|history| - 1])
  }

  lemma {:induction false} LatestIsSigned(digest: Digest, history: seq<Call>)
    ensures LatestSignature(digest, history) ==
            match LatestOutput(history) case None => None case Some(text) => Some(Signature(digest, text))
  {
    if history == [] {
    } else if history[|history| - 1].MarkDelivered? {
      LatestIsSigned(digest, history[..|history| - 1]);
    }
  }

  ghost predicate Injective(digest: Digest) {
    forall x, y | digest(x) == digest(y) :: x == y
  }

  /** With a digest that keeps texts apart: an output is emitted if the guard has not halted,
      no marker phrase stands in it, nothing is stored under its key, and its standing words
      are not those of the output before it, or there is none. */
  lemma NewWordsAreEmitted(digest: Digest, history: seq<Call>, call: Call)
    requires Injective(digest) && call.Evaluate? && !WindowReached(digest, history)
    requires !NoopPhrases.SaysPhrase(call.text)
    requires call.key.Some? && call.key.value != "" ==> call.key.value !in Run(digest, history).delivered
    requires LatestOutput(history).Some? ==>
               OutputWords.Standing(false, OutputNormalizer.Lower(LatestOutput(history).value))
               != OutputWords.Standing(false, OutputNormalizer.Lower(call.text))
    ensures DecisionAfter(digest, history, call) == EMIT
  {
    HaltIffWindowReached(digest, history, call);
    LatestIsSigned(digest, history);
    NoopPhrases.NoopIffSaysPhrase(call.text);
    if LatestSignature(digest, history) == Some(Signature(digest, call.text)) {
      OutputWords.AlikeHaveSameWords(LatestOutput(history).value, call.text);
    }
  }

  /** An output in which a marker phrase stands is never emitted, whatever else it says. */
  lemma PhraseIsHeldBack(digest: Digest, history: seq<Call>, call: Call)
    requires call.Evaluate? && NoopPhrases.SaysPhrase(call.text)
    ensures DecisionAfter(digest, history, call) != EMIT
  {
    HaltIffWindowReached(digest, history, call);
    NoopPhrases.NoopIffSaysPhrase(call.text);
  }

  // ---- a counter-bumping loop always trips -------------------------------

  /** The outputs among the calls are one output over and over, `sample` but for the numbers
      in it; between them any results may be marked as delivered. */
  predicate CounterBumping(batch: seq<Call>, sample: string, limit: Limit) {
    forall i | 0 <= i < |batch| && batch[i].Evaluate? ::
      batch[i].limit == limit
      && OutputNormalizer.CounterMask(batch[i].text) == OutputNormalizer.CounterMask(sample)
  }

  function Outputs(batch: seq<Call>): nat {
    if batch == [] then 0
    else Outputs(batch[..|batch| - 1]) + if batch[|batch| - 1].Evaluate? then 1 else 0
  }

  lemma SameSignature(digest: Digest, x: string, y: string)
    requires OutputNormalizer.CounterMask(x) == OutputNormalizer.CounterMask(y)
    ensures Signature(digest, x) == Signature(digest, y)
  {
    OutputNormalizer.NormalizeIgnoresCounters(x, y);
  }

  lemma LatestOfSnoc(digest: Digest, history: seq<Call>, call: Call)
    ensures LatestSignature(digest, history + [call])
         == if call.Evaluate? then Some(Signature(digest, call.text)) else LatestSignature(digest, history)
  {
    assert (history + [call])[..|history|] == history;
  }

  lemma BumpingPrefix(batch: seq<Call>, sample: string, limit: Limit, n: nat)
    requires CounterBumping(batch, sample, limit) && n < |batch|
    ensures CounterBumping(batch[..n], sample, limit)
  {
  }

  lemma ConcatSnoc(history: seq<Call>, batch: seq<Call>, n: nat)
    requires |batch| == n + 1
    ensures history + batch == (history + batch[..n]) + [batch[n]]
  {
  }

  /** An output after one that differs from it only in counters. */
  lemma BumpReplays(digest: Digest, before: seq<Call>, call: Call, sample: string)
    requires call.Evaluate? && OutputNormalizer.CounterMask(call.text) == OutputNormalizer.CounterMask(sample)
    requires LatestSignature(digest, before) == Some(Signature(digest, sample))
    ensures Replays(digest, before, call)
  {
    SameSignature(digest, call.text, sample);
  }

  lemma MarkKeepsReplays(digest: Digest, history: seq<Call>, call: Call, m: nat)
    requires call.MarkDelivered?
    ensures LastReplay(digest, history + [call], m) <==> LastReplay(digest, history, m)
  {
    assert (history + [call])[..|history|] == history;
  }

  /** The calls so far ended in `m` outputs like the sample, all but the first of them replays. */
  predicate EndsBumping(digest: Digest, calls: seq<Call>, sample: string, m: nat) {
    m > 0 ==> LastReplay(digest, calls, m - 1) && LatestSignature(digest, calls) == Some(Signature(digest, sample))
  }

  lemma BumpExtends(digest: Digest, before: seq<Call>, call: Call, sample: string, m: nat)
    requires EndsBumping(digest, before, sample, m)
    requires call.Evaluate? ==> OutputNormalizer.CounterMask(call.text) == OutputNormalizer.CounterMask(sample)
    ensures EndsBumping(digest, before + [call], sample, if call.Evaluate? then m + 1 else m)
  {
    LatestOfSnoc(digest, before, call);
    if call.MarkDelivered? {
      MarkKeepsReplays(digest, before, call, if m > 0 then m - 1 else 0);
    } else {
      SameSignature(digest, call.text, sample);
      if m > 0 {
        BumpReplays(digest, before, call, sample);
        WindowGrows(digest, before, call, m);
      }
    }
  }

  lemma {:induction false} BumpsAreReplays(digest: Digest, history: seq<Call>, batch: seq<Call>, sample: string,
                                           limit: Limit)
    requires CounterBumping(batch, sample, limit)
    ensures EndsBumping(digest, history + batch, sample, Outputs(batch))
  {
    if batch == [] {
    } else {
      var n := |batch| - 1;
      ConcatSnoc(history, batch, n);
      BumpingPrefix(batch, sample, limit, n);
      BumpsAreReplays(digest, history, batch[..n], sample, limit);
      BumpExtends(digest, history + batch[..n], batch[n], sample, Outputs(batch[..n]));
    }
  }

  lemma WindowAtEnd(digest: Digest, history: seq<Call>, call: Call)
    requires call.Evaluate? && LastReplay(digest, history + [call], call.limit)
    ensures WindowReached(digest, history + [call])
  {
    var all := history + [call];
    assert all[..|all|] == all;
    assert WindowEndsAt(digest, all, |all|);
  }

  lemma HaltsAtWindow(digest: Digest, history: seq<Call>, call: Call)
    requires call.Evaluate? && LastReplay(digest, history + [call], call.limit)
    ensures DecisionAfter(digest, history, call) == HALT
  {
    HaltIffWindowReached(digest, history, call);
    WindowAtEnd(digest, history, call);
  }

  /** Once more outputs than a limit were replays, some window of that limit was completed. */
  lemma ManyReplaysHalt(digest: Digest, history: seq<Call>, call: Call, m: nat)
    requires call.Evaluate? && call.limit <= m && LastReplay(digest, history + [call], m)
    ensures DecisionAfter(digest, history, call) == HALT
  {
    RunRefinesWindows(digest, history + [call]);
    HaltIffWindowReached(digest, history, call);
    if !WindowReached(digest, history + [call]) {
      assert LastReplay(digest, history + [call], call.limit);
      HaltsAtWindow(digest, history, call);
    }
  }

  /** After any history, more outputs than the limit, all alike but for their counters and
      with any deliveries marked between them, cannot pass: the last is answered HALT. */
  lemma CounterBumpingLoopHalts(digest: Digest, history: seq<Call>, batch: seq<Call>, call: Call, sample: string)
    requires call.Evaluate? && CounterBumping(batch + [call], sample, call.limit) && Outputs(batch) >= call.limit
    ensures DecisionAfter(digest, history + batch, call) == HALT
  {
    var all := batch + [call];
    assert all[..|batch|] == batch && all[|batch|] == call;
    BumpsAreReplays(digest, history, all, sample, call.limit);
    ConcatSnoc(history, all, |batch|);
    ManyReplaysHalt(digest, history + batch, call, Outputs(batch));
  }
}
