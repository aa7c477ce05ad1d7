/** Turns, the inbox and idle preemption (molecule_runtime/a2a_executor.py,
    `_core_execute` and `cancel`): what a POST, a stream end, an observed interrupt and the
    release do between two awaits, and every interleaving of those on one context. */
module TurnProtocol {
  import opened Wrappers
  import opened RuntimeInbox
  import Text

  const SELF_IDLE := "self-idle"

  const ROUTINE_SELF_SOURCE_TYPES: seq<string> := [
    "self-cron", "self-harvester", "self-idle", "self-scheduler",
    "self-goal-nudge", "self-delegation-result", "self-lifecycle"
  ]

  const ROUTINE_SELF_MESSAGE_PREFIXES: seq<string> := [
    "This is your own scheduled work tick", "Delegation results are ready"
  ]

  predicate IsSelfSourceType(source: Option<string>) {
    source.Some? && (source.value in ROUTINE_SELF_SOURCE_TYPES || "self-" <= source.value)
  }

  predicate IsRoutineSelfMessage(m: Message) {
    if m.source.Some? then m.source.value in ROUTINE_SELF_SOURCE_TYPES
    else exists p | p in ROUTINE_SELF_MESSAGE_PREFIXES :: p <= Text.StripLeft(m.text)
  }

  // ---- a turn and its history --------------------------------------------

  datatype HistoryItem = Human(message: Message) | Ai(text: string) | Earlier(text: string)

  /** Between two events of the stream; handling an event; interrupted and closing the stream;
      past the loop, on the way to release; or cancelled there, gone without a release. */
  datatype TurnPc = Streaming | Emitting | Stopping | Finishing | Leaked

  /** `first` is the message the turn started for, `mergedBefore` how many messages had
      been merged into histories on this context before it started. */
  datatype Turn = Turn(first: Message, mergedBefore: nat, history: seq<HistoryItem>, accumulated: string, pc: TurnPc)

  function AsHumans(messages: seq<Message>): seq<HistoryItem> {
    if messages == [] then [] else AsHumans(messages[..|messages| - 1]) + [Human(messages[|messages| - 1])]
  }

  function Partial(accumulated: string): seq<HistoryItem> {
    var text := Text.Strip(accumulated);
    if text == "" then [] else [Ai(text)]
  }

  /** The turn starts its stream again with its partial answer and the queued messages. */
  function Restarted(t: Turn, queued: seq<Message>): Turn {
    t.(history := t.history + Partial(t.accumulated) + AsHumans(queued), accumulated := "", pc := Streaming)
  }

  // ---- what happens between two awaits ------------------------------------

  datatype Arrival = Starts | Dropped | Busy | Queued

  /** A POST for the context: the check and the set of the in-flight flag are one step. */
  function Arrive(e: Entry, maxsize: nat, m: Message): (Arrival, Entry) {
    if !e.inFlight then
      (Starts, e.(inFlight := true, inFlightSource := m.source, preempt := false))
    else if IsRoutineSelfMessage(m) then (Dropped, e)
    else if e.inFlightSource == Some(SELF_IDLE) && !IsSelfSourceType(m.source) then
      (if HasRoom(e, maxsize) then Queued else Busy, InterruptRequested(e, maxsize, m))
    else
      (if HasRoom(e, maxsize) then Queued else Busy, Deferred(e, maxsize, m))
  }

  /** An interrupt was observed and the stream is closed: yield to a preemption, or stop. */
  function HandleStop(e: Entry, t: Turn): (Entry, Turn) {
    var e' := Consumed(e).(preempt := false);
    if e.preempt && e.pending != [] then (e'.(inFlightSource := None), Restarted(t, e.pending))
    else (e', t.(pc := Finishing))
  }

  /** The stream ended by itself: answer what was deferred, if anything. */
  function HandleNaturalEnd(e: Entry, t: Turn): (Entry, Turn) {
    if e.pending == [] then (Consumed(e), t.(pc := Finishing))
    else (Consumed(e).(inFlightSource := None, preempt := false), Restarted(t, e.pending))
  }

  function Released(e: Entry): Entry {
    e.(inFlight := false, interrupt := false, inFlightSource := None, preempt := false)
  }

  /** One execution of `_core_execute`, holding the context's inbox entry. */
  class Execution {
    const inbox: InboxEntry
    const first: Message
    const mergedBefore: nat
    var messages: seq<HistoryItem>
    var accumulated: string
    var pc: TurnPc

    ghost function State(): Turn
      reads this
    {
      Turn(first, mergedBefore, messages, accumulated, pc)
    }

    constructor (inbox: InboxEntry, first: Message, mergedBefore: nat, earlier: seq<HistoryItem>)
      ensures State() == Turn(first, mergedBefore, earlier + [Human(first)], "", Streaming) && this.inbox == inbox
    {
      this.inbox, this.first, this.mergedBefore := inbox, first, mergedBefore;
      messages, accumulated, pc := earlier + [Human(first)], "", Streaming;
    }

    method Restart(queued: seq<Message>)
      modifies this
      ensures State() == Restarted(old(State()), queued)
    {
      var partial := Text.Strip(accumulated);
      if partial != "" {
        messages := messages + [Ai(partial)];
      }
      for i := 0 to |queued|
        invariant messages == old(messages) + Partial(old(accumulated)) + AsHumans(queued[..i])
        invariant State() == old(State()).(history := messages)
      {
        assert queued[..i + 1][..i] == queued[..i];
        messages := messages + [Human(queued[i])];
      }
      assert queued[..|queued|] == queued;
      accumulated, pc := "", Streaming;
    }

    method OnStopped()
      modifies this, inbox
      ensures (inbox.State(), State()) == HandleStop(old(inbox.State()), old(State()))
    {
      var preempt := inbox.preemptRequested;
      var pending := inbox.ConsumePending();
      inbox.preemptRequested := false;
      if !(preempt && pending != []) {
        pc := Finishing;
        return;
      }
      inbox.inFlightSourceType := None;
      Restart(pending);
    }

    method OnNaturalEnd()
      modifies this, inbox
      ensures (inbox.State(), State()) == HandleNaturalEnd(old(inbox.State()), old(State()))
    {
      var pending := inbox.ConsumePending();
      if pending == [] {
        pc := Finishing;
        return;
      }
      inbox.inFlightSourceType := None;
      inbox.preemptRequested := false;
      Restart(pending);
    }

    method Release()
      modifies inbox
      ensures inbox.State() == Released(old(inbox.State()))
    {
      inbox.turnInFlight := false;
      inbox.interruptEvent := false;
      inbox.inFlightSourceType := None;
      inbox.preemptRequested := false;
    }
  }

  method OnPost(inbox: InboxEntry, m: Message) returns (arrival: Arrival)
    modifies inbox
    ensures (arrival, inbox.State()) == Arrive(old(inbox.State()), inbox.maxsize, m)
  {
    if inbox.turnInFlight {
      if IsRoutineSelfMessage(m) {
        return Dropped;
      }
      var incomingIsSelf := IsSelfSourceType(m.source);
      var inFlightIsIdle := inbox.inFlightSourceType == Some(SELF_IDLE);
      var accepted;
      if inFlightIsIdle && !incomingIsSelf {
        accepted := inbox.RequestInterrupt(m);
      } else {
        accepted := inbox.DeferMessage(m);
      }
      return if accepted then Queued else Busy;
    }
    inbox.turnInFlight := true;
    inbox.inFlightSourceType := m.source;
    inbox.preemptRequested := false;
    arrival := Starts;
  }

  // ---- every interleaving on one context ----------------------------------

  /** Where the messages that found the context busy are: each list in order of arrival. */
  datatype Ledger = Ledger(
    arrivals: seq<Message>,
    rejected: seq<Message>,
    pending: seq<Message>,
    merged: seq<Message>,
    discarded: seq<Message>
  )

  /** One context: its inbox entry, the executions between their start and their release,
      and, as observed from outside, who was told busy, what was merged and what dropped. */
  datatype Context = Context(
    entry: Entry,
    turns: map<nat, Turn>,
    nextId: nat,
    arrivals: seq<Message>,
    rejected: seq<Message>,
    merged: seq<Message>,
    discarded: seq<Message>
  )

  const QUIET := Context(FRESH_ENTRY, map[], 0, [], [], [], [])

  function LedgerOf(c: Context): Ledger {
    Ledger(c.arrivals, c.rejected, c.entry.pending, c.merged, c.discarded)
  }

  datatype Step =
    | Post(text: string, source: Option<string>, earlier: seq<string>)
    | Event(t: nat)
    | Token(t: nat, text: string)
    | EventDone(t: nat)
    | Observe(t: nat)
    | StopHandled(t: nat)
    | StreamEnds(t: nat)
    | Raises(t: nat)
    | Releases(t: nat)
    | CancelledLate(t: nat)
    | Cancel

  predicate TurnAt(c: Context, t: nat, pc: TurnPc) {
    t in c.turns && c.turns[t].pc == pc
  }

  /** Between two events of its stream a turn looks at the interrupt before anything else;
      while it handles one, it goes on appending text even if the interrupt comes up. A turn
      raises or is cancelled anywhere; past the loop it awaits a push before its release, and
      a cancellation there (`CancelledLate`) skips the release. */
  predicate Enabled(c: Context, s: Step) {
    match s
    case Post(_, _, _) => true
    case Event(t) => TurnAt(c, t, Streaming) && !c.entry.interrupt
    case Token(t, _) => TurnAt(c, t, Emitting)
    case EventDone(t) => TurnAt(c, t, Emitting)
    case Observe(t) => TurnAt(c, t, Streaming) && c.entry.interrupt
    case StopHandled(t) => TurnAt(c, t, Stopping)
    case StreamEnds(t) => TurnAt(c, t, Streaming)
    case Raises(t) => t in c.turns && c.turns[t].pc != Finishing && c.turns[t].pc != Leaked
    case Releases(t) => TurnAt(c, t, Finishing)
    case CancelledLate(t) => TurnAt(c, t, Finishing)
    case Cancel => true
  }

  function Earlier(texts: seq<string>): seq<HistoryItem> {
    seq(|texts|, i requires 0 <= i < |texts| => HistoryItem.Earlier(texts[i]))
  }

  function Do(maxsize: nat, c: Context, s: Step): Context
    requires Enabled(c, s)
  {
    match s
    case Post(text, source, earlier) =>
      var m := Message(c.nextId, text, source);
      var (arrival, e) := Arrive(c.entry, maxsize, m);
      var c' := c.(entry := e, nextId := c.nextId + 1);
      (match arrival
       case Starts =>
         var turn := Turn(m, |c.merged|, Earlier(earlier) + [Human(m)], "", Streaming);
         c'.(turns := c.turns[m.id := turn])
       case Dropped => c'
       case Busy => c'.(arrivals := c.arrivals + [m], rejected := c.rejected + [m])
       case Queued => c'.(arrivals := c.arrivals + [m]))
    case Event(t) => c.(turns := c.turns[t := c.turns[t].(pc := Emitting)])
    case EventDone(t) => c.(turns := c.turns[t := c.turns[t].(pc := Streaming)])
    case Token(t, text) =>
      c.(turns := c.turns[t := c.turns[t].(accumulated := c.turns[t].accumulated + text)])
    case Observe(t) => c.(turns := c.turns[t := c.turns[t].(pc := Stopping)])
    case StopHandled(t) =>
      var (e, turn) := HandleStop(c.entry, c.turns[t]);
      if turn.pc.Streaming? then
        c.(entry := e, turns := c.turns[t := turn], merged := c.merged + c.entry.pending)
      else
        c.(entry := e, turns := c.turns[t := turn], discarded := c.discarded + c.entry.pending)
    case StreamEnds(t) =>
      var (e, turn) := HandleNaturalEnd(c.entry, c.turns[t]);
      c.(entry := e, turns := c.turns[t := turn], merged := c.merged + c.entry.pending)
    case Raises(t) => c.(turns := c.turns[t := c.turns[t].(pc := Finishing)])
    case Releases(t) => c.(entry := Released(c.entry), turns := c.turns - {t})
    case CancelledLate(t) => c.(turns := c.turns[t := c.turns[t].(pc := Leaked)])
    case Cancel => c.(entry := c.entry.(interrupt := true))
  }

  function After(maxsize: nat, steps: seq<Step>): Option<Context> {
    if steps == [] then Some(QUIET)
    else
      match After(maxsize, steps[..|steps| - 1])
      case None => None
      case Some(c) =>
        if Enabled(c, steps[|steps| - 1]) then Some(Do(maxsize, c, steps[|steps| - 1])) else None
  }

  // ---- one turn, and what a preemption request means -----------------------

  /** At most one turn runs, exactly when the flag is up. */
  ghost predicate OneTurn(c: Context) {
    && (c.entry.inFlight <==> c.turns != map[])
    && (forall t, u | t in c.turns && u in c.turns :: t == u)
  }

  /** Nothing queued has been merged into the turn so far. */
  predicate StillItsOwn(c: Context, t: nat) {
    t in c.turns && c.turns[t].mergedBefore == |c.merged|
  }

  ghost predicate PreemptionIsSound(c: Context) {
    && (!c.entry.inFlight ==> c.entry.inFlightSource.None?)
    && (c.entry.preempt ==> c.entry.pending != [] && c.entry.inFlightSource == Some(SELF_IDLE))
    && (c.entry.inFlightSource == Some(SELF_IDLE) ==>
          forall t | t in c.turns :: StillItsOwn(c, t) && c.turns[t].first.source == Some(SELF_IDLE))
    && (forall t | t in c.turns :: c.turns[t].mergedBefore <= |c.merged|)
  }

  lemma PostKeepsPreemptionSound(maxsize: nat, c: Context, s: Step)
    requires OneTurn(c) && PreemptionIsSound(c) && s.Post?
    ensures OneTurn(Do(maxsize, c, s)) && PreemptionIsSound(Do(maxsize, c, s))
  {
    if !c.entry.inFlight {
      assert c.nextId in Do(maxsize, c, s).turns;
    }
  }

  lemma TurnStepKeepsPreemptionSound(maxsize: nat, c: Context, s: Step)
    requires OneTurn(c) && PreemptionIsSound(c) && Enabled(c, s) && !s.Post? && !s.Cancel?
    ensures OneTurn(Do(maxsize, c, s)) && PreemptionIsSound(Do(maxsize, c, s))
  {
    var c' := Do(maxsize, c, s);
    assert s.t in c.turns;
    if s.Releases? {
      assert c'.turns == map[];
    } else {
      assert s.t in c'.turns;
    }
  }

  lemma StepKeepsPreemptionSound(maxsize: nat, c: Context, s: Step)
    requires OneTurn(c) && PreemptionIsSound(c) && Enabled(c, s)
    ensures OneTurn(Do(maxsize, c, s)) && PreemptionIsSound(Do(maxsize, c, s))
  {
    if s.Post? {
      PostKeepsPreemptionSound(maxsize, c, s);
    } else if !s.Cancel? {
      TurnStepKeepsPreemptionSound(maxsize, c, s);
    }
  }

  /** In every reachable state at most one turn runs, and a preemption request comes with
      a queued message, a self-idle turn in flight and nothing merged into it yet. */
  lemma {:induction false} PreemptImpliesIdleTurn(maxsize: nat, steps: seq<Step>)
    requires After(maxsize, steps).Some?
    ensures var c := After(maxsize, steps).value;
            && OneTurn(c) && PreemptionIsSound(c)
            && (c.entry.preempt ==>
                  && c.entry.inFlight && c.entry.pending != []
                  && c.entry.inFlightSource == Some(SELF_IDLE)
                  && forall t | t in c.turns :: StillItsOwn(c, t))
  {
    if steps == [] {
    } else {
      var last := |steps| - 1;
      PreemptImpliesIdleTurn(maxsize, steps[..last]);
      StepKeepsPreemptionSound(maxsize, After(maxsize, steps[..last]).value, steps[last]);
    }
  }

  /** The turn answers a user: it started for a message that is not an idle wake, or a
      queued message has been merged into it. */
  predicate AnswersSomeone(c: Context, t: nat) {
    t in c.turns && (c.turns[t].first.source != Some(SELF_IDLE) || !StillItsOwn(c, t))
  }

  /** No POST interrupts such a turn; only a Stop does. */
  lemma PostNeverInterruptsAnswer(maxsize: nat, steps: seq<Step>, t: nat, post: Step)
    requires After(maxsize, steps).Some? && post.Post?
    requires AnswersSomeone(After(maxsize, steps).value, t)
    ensures var c := After(maxsize, steps).value;
            var c' := Do(maxsize, c, post);
            c'.entry.interrupt == c.entry.interrupt && c'.entry.preempt == c.entry.preempt && c'.turns == c.turns
  {
    PreemptImpliesIdleTurn(maxsize, steps);
  }

  /** An interrupt observed by such a turn ends it, and its queue is discarded, not run. */
  lemma StopEndsAnswer(maxsize: nat, steps: seq<Step>, t: nat)
    requires After(maxsize, steps).Some?
    requires var c := After(maxsize, steps).value; TurnAt(c, t, Stopping) && AnswersSomeone(c, t)
    ensures var c := After(maxsize, steps).value;
            var c' := Do(maxsize, c, StopHandled(t));
            && c'.turns[t] == c.turns[t].(pc := Finishing)
            && c'.entry.pending == [] && c'.merged == c.merged
            && c'.discarded == c.discarded + c.entry.pending
  {
    PreemptImpliesIdleTurn(maxsize, steps);
  }

  /** An observed interrupt restarts the turn if and only if a user preempted its idle
      work, and then with exactly the queued messages, in order. */
  lemma StopRestartsIffPreempted(maxsize: nat, steps: seq<Step>, t: nat)
    requires After(maxsize, steps).Some? && TurnAt(After(maxsize, steps).value, t, Stopping)
    ensures var c := After(maxsize, steps).value;
            var c' := Do(maxsize, c, StopHandled(t));
            && (c'.turns[t].pc.Streaming? <==> c.entry.preempt)
            && (c.entry.preempt ==>
                  && c'.turns[t].history
                     == c.turns[t].history + Partial(c.turns[t].accumulated) + AsHumans(c.entry.pending)
                  && c'.entry.inFlightSource.None? && !c'.entry.interrupt)
  {
    PreemptImpliesIdleTurn(maxsize, steps);
  }

  // ---- every message has one fate ------------------------------------------

  predicate Increasing(ms: seq<Message>) {
    forall i, j | 0 <= i < j < |ms| :: ms[i].id < ms[j].id
  }

  predicate AllBelow(ms: seq<Message>, bound: nat) {
    forall m | m in ms :: m.id < bound
  }

  predicate Disjoint(xs: seq<Message>, ys: seq<Message>) {
    forall m | m in xs :: m !in ys
  }

  /** Each message that found the context busy is in exactly one list, once, and every
      list is in order of arrival; what is queued arrived after all that was drained. */
  ghost predicate OneFateEach(l: Ledger, nextId: nat) {
    && Increasing(l.arrivals) && Increasing(l.rejected) && Increasing(l.pending)
    && Increasing(l.merged) && Increasing(l.discarded)
    && AllBelow(l.arrivals, nextId)
    && (forall m :: m in l.arrivals <==> m in l.rejected || m in l.pending || m in l.merged || m in l.discarded)
    && Disjoint(l.rejected, l.pending) && Disjoint(l.rejected, l.merged) && Disjoint(l.rejected, l.discarded)
    && Disjoint(l.pending, l.merged) && Disjoint(l.pending, l.discarded) && Disjoint(l.merged, l.discarded)
    && (forall d, p | (d in l.merged || d in l.discarded) && p in l.pending :: d.id < p.id)
  }

  lemma IncreasingSnoc(ms: seq<Message>, m: Message)
    requires Increasing(ms) && AllBelow(ms, m.id)
    ensures Increasing(ms + [m])
  {
  }

  lemma IncreasingConcat(xs: seq<Message>, ys: seq<Message>)
    requires Increasing(xs) && Increasing(ys)
    requires forall x, y | x in xs && y in ys :: x.id < y.id
    ensures Increasing(xs + ys)
  {
  }

  lemma RejectKeepsFates(l: Ledger, m: Message)
    requires OneFateEach(l, m.id)
    ensures OneFateEach(l.(arrivals := l.arrivals + [m], rejected := l.rejected + [m]), m.id + 1)
  {
    IncreasingSnoc(l.arrivals, m);
    IncreasingSnoc(l.rejected, m);
  }

  lemma QueueKeepsFates(l: Ledger, m: Message)
    requires OneFateEach(l, m.id)
    ensures OneFateEach(l.(arrivals := l.arrivals + [m], pending := l.pending + [m]), m.id + 1)
  {
    IncreasingSnoc(l.arrivals, m);
    IncreasingSnoc(l.pending, m);
  }

  lemma DrainKeepsFates(l: Ledger, nextId: nat)
    requires OneFateEach(l, nextId)
    ensures OneFateEach(l.(pending := [], merged := l.merged + l.pending), nextId)
    ensures OneFateEach(l.(pending := [], discarded := l.discarded + l.pending), nextId)
  {
    IncreasingConcat(l.merged, l.pending);
    IncreasingConcat(l.discarded, l.pending);
  }

  ghost predicate FatesKept(maxsize: nat, c: Context) {
    OneFateEach(LedgerOf(c), c.nextId) && |c.entry.pending| <= maxsize
  }

  lemma PostKeepsFates(maxsize: nat, c: Context, s: Step)
    requires s.Post? && FatesKept(maxsize, c)
    ensures FatesKept(maxsize, Do(maxsize, c, s))
  {
    var m := Message(c.nextId, s.text, s.source);
    var l, c' := LedgerOf(c), Do(maxsize, c, s);
    match Arrive(c.entry, maxsize, m).0
    case Starts => assert LedgerOf(c') == l;
    case Dropped => assert LedgerOf(c') == l;
    case Busy =>
      RejectKeepsFates(l, m);
      assert LedgerOf(c') == l.(arrivals := l.arrivals + [m], rejected := l.rejected + [m]);
    case Queued =>
      QueueKeepsFates(l, m);
      assert LedgerOf(c') == l.(arrivals := l.arrivals + [m], pending := l.pending + [m]);
  }

  lemma StepKeepsFates(maxsize: nat, c: Context, s: Step)
    requires FatesKept(maxsize, c) && Enabled(c, s)
    ensures FatesKept(maxsize, Do(maxsize, c, s))
    // a fate other than waiting is final
    ensures var c' := Do(maxsize, c, s);
            c.rejected <= c'.rejected && c.merged <= c'.merged && c.discarded <= c'.discarded
  {
    var l, c' := LedgerOf(c), Do(maxsize, c, s);
    if s.Post? {
      PostKeepsFates(maxsize, c, s);
    } else if s.StopHandled? || s.StreamEnds? {
      DrainKeepsFates(l, c.nextId);
      assert c.merged + [] == c.merged;
      assert LedgerOf(c') == l.(pending := [], merged := l.merged + l.pending)
          || LedgerOf(c') == l.(pending := [], discarded := l.discarded + l.pending);
    } else {
      assert LedgerOf(c') == l;
    }
  }

  /** In every reachable state each message that found the context busy has one fate. */
  lemma {:induction false} RunKeepsFates(maxsize: nat, steps: seq<Step>)
    requires After(maxsize, steps).Some?
    ensures FatesKept(maxsize, After(maxsize, steps).value)
  {
    if steps == [] {
    } else {
      var last := |steps| - 1;
      RunKeepsFates(maxsize, steps[..last]);
      StepKeepsFates(maxsize, After(maxsize, steps[..last]).value, steps[last]);
    }
  }

  /** A ping of the runtime to itself: by its source type or, without one, by its text. */
  ghost predicate RoutinePing(text: string, source: Option<string>) {
    match source
    case Some(kind) =>
      kind in {"self-cron", "self-harvester", "self-idle", "self-scheduler", "self-goal-nudge",
               "self-delegation-result", "self-lifecycle"}
    case None =>
      exists before, rest :: SplitsText(text, before, rest)
        && ("This is your own scheduled work tick" <= rest || "Delegation results are ready" <= rest)
  }

  predicate SplitsText(text: string, before: string, rest: string) {
    text == before + rest && Text.Blank(before)
  }

  lemma RoutineByText(text: string)
    ensures (exists p | p in ROUTINE_SELF_MESSAGE_PREFIXES :: p <= Text.StripLeft(text)) <==> RoutinePing(text, None)
  {
    var first, second := "This is your own scheduled work tick", "Delegation results are ready";
    assert ROUTINE_SELF_MESSAGE_PREFIXES[0] == first && ROUTINE_SELF_MESSAGE_PREFIXES[1] == second;
    var before := Text.LeftTrims(text);
    assert SplitsText(text, before, Text.StripLeft(text));
    if RoutinePing(text, None) {
      var b, rest :| SplitsText(text, b, rest) && (first <= rest || second <= rest);
      assert rest[0] == 'T' || rest[0] == 'D';
      Text.LeftStripStops(b, rest);
      var p := if first <= rest then first else second;
      assert p in ROUTINE_SELF_MESSAGE_PREFIXES && p <= Text.StripLeft(text);
    }
  }

  lemma RoutineIsPing(m: Message)
    ensures IsRoutineSelfMessage(m) <==> RoutinePing(m.text, m.source)
  {
    if m.source.None? {
      RoutineByText(m.text);
    }
  }

  lemma SelfByPrefix(source: Option<string>)
    ensures IsSelfSourceType(source) <==> source.Some? && "self-" <= source.value
  {
    assert forall kind | kind in ROUTINE_SELF_SOURCE_TYPES :: "self-" <= kind;
  }

  /** What becomes of a POST to a busy context: a routine ping changes nothing; any other
      message is told busy if the inbox is full, and otherwise queued last. It interrupts the
      turn, as a preemption, exactly if it is queued, the turn is an idle wake and the sender
      is not the runtime itself. */
  lemma BusyPostIsRejectedOrQueued(maxsize: nat, steps: seq<Step>, post: Step)
    requires After(maxsize, steps).Some? && post.Post? && After(maxsize, steps).value.entry.inFlight
    ensures var c := After(maxsize, steps).value;
            var c' := Do(maxsize, c, post);
            var m := Message(c.nextId, post.text, post.source);
            var ping, full := RoutinePing(post.text, post.source), |c.entry.pending| >= maxsize;
            var preempts := !ping && !full && c.entry.inFlightSource == Some("self-idle")
                            && (post.source.Some? ==> !("self-" <= post.source.value));
            && c'.turns == c.turns && c'.entry.inFlight && c'.entry.inFlightSource == c.entry.inFlightSource
            && c'.arrivals == (if ping then c.arrivals else c.arrivals + [m])
            && c'.rejected == (if !ping && full then c.rejected + [m] else c.rejected)
            && c'.entry.pending == (if !ping && !full then c.entry.pending + [m] else c.entry.pending)
            && (c'.entry.preempt <==> c.entry.preempt || preempts)
            && (c'.entry.interrupt <==> c.entry.interrupt || preempts)
  {
    RoutineIsPing(Message(After(maxsize, steps).value.nextId, post.text, post.source));
    SelfByPrefix(post.source);
  }

  // ---- no Stop outlives its turn ---------------------------------------------

  /** A Stop came, and no turn was released since. */
  predicate StopSinceRelease(steps: seq<Step>) {
    steps != [] &&
    (var s := steps[|steps| - 1];
     s.Cancel? || (!s.Releases? && StopSinceRelease(steps[..|steps| - 1])))
  }

  /** Whenever no turn runs, the interrupt is up if and only if a Stop came since the last
      release: none that came during a turn, and no preemption, is left for the next. */
  lemma {:induction false} QuietInterruptIsStale(maxsize: nat, steps: seq<Step>)
    requires After(maxsize, steps).Some?
    ensures var c := After(maxsize, steps).value;
            !c.entry.inFlight ==>
              && (c.entry.interrupt <==> StopSinceRelease(steps))
              && !c.entry.preempt && c.entry.inFlightSource.None?
  {
    if steps == [] {
    } else {
      var init := steps[..|steps| - 1];
      QuietInterruptIsStale(maxsize, init);
      PreemptImpliesIdleTurn(maxsize, init);
      PreemptImpliesIdleTurn(maxsize, steps);
    }
  }

  // ---- what the agent is given ---------------------------------------------

  function Humans(history: seq<HistoryItem>): seq<Message> {
    if history == [] then []
    else
      var last := history[|history| - 1];
      Humans(history[..|history| - 1]) + (if last.Human? then [last.message] else [])
  }

  lemma {:induction false} HumansConcat(a: seq<HistoryItem>, b: seq<HistoryItem>)
    ensures Humans(a + b) == Humans(a) + Humans(b)
  {
    if b == [] {
      assert a + b == a;
    } else {
      var n := |b| - 1;
      assert (a + b)[..|a| + n] == a + b[..n] && (a + b)[|a| + n] == b[n];
      HumansConcat(a, b[..n]);
    }
  }

  lemma {:induction false} HumansOfQueued(messages: seq<Message>)
    ensures Humans(AsHumans(messages)) == messages
  {
    if messages == [] {
    } else {
      var n := |messages| - 1;
      HumansOfQueued(messages[..n]);
      HumansConcat(AsHumans(messages[..n]), [Human(messages[n])]);
      assert messages[..n] + [messages[n]] == messages;
    }
  }

  lemma {:induction false} HumansOfEarlier(texts: seq<string>)
    ensures Humans(Earlier(texts)) == []
  {
    if texts == [] {
    } else {
      assert Earlier(texts)[..|texts| - 1] == Earlier(texts[..|texts| - 1]);
      HumansOfEarlier(texts[..|texts| - 1]);
    }
  }

  lemma RestartAddsQueued(t: Turn, queued: seq<Message>)
    ensures Humans(Restarted(t, queued).history) == Humans(t.history) + queued
  {
    HumansConcat(t.history + Partial(t.accumulated), AsHumans(queued));
    HumansConcat(t.history, Partial(t.accumulated));
    HumansOfQueued(queued);
    assert Humans(Partial(t.accumulated)) == [] by { assert forall x: HistoryItem :: [x][..0] == []; }
  }

  ghost predicate FirstThenMerged(c: Context, t: nat)
    requires t in c.turns
  {
    && c.turns[t].mergedBefore <= |c.merged|
    && Humans(c.turns[t].history) == [c.turns[t].first] + c.merged[c.turns[t].mergedBefore..]
  }

  lemma StartedHistory(c: Context, m: Message, earlier: seq<string>)
    ensures Humans(Earlier(earlier) + [Human(m)]) == [m]
  {
    HumansOfEarlier(earlier);
    HumansConcat(Earlier(earlier), [Human(m)]);
    assert Humans([Human(m)]) == [m] by { assert [Human(m)][..0] == []; }
  }

  lemma MergeExtends(first: Message, merged: seq<Message>, k: nat, queued: seq<Message>)
    requires k <= |merged|
    ensures [first] + (merged + queued)[k..] == ([first] + merged[k..]) + queued
  {
    assert (merged + queued)[k..] == merged[k..] + queued;
  }

  lemma StepKeepsHistory(maxsize: nat, c: Context, s: Step, t: nat)
    requires OneTurn(c) && Enabled(c, s) && t in Do(maxsize, c, s).turns
    requires t in c.turns ==> FirstThenMerged(c, t)
    ensures FirstThenMerged(Do(maxsize, c, s), t)
  {
    var c' := Do(maxsize, c, s);
    if t !in c.turns {
      StartedHistory(c, Message(c.nextId, s.text, s.source), s.earlier);
    } else if s.StopHandled? || s.StreamEnds? {
      assert s.t == t;
      RestartAddsQueued(c.turns[t], c.entry.pending);
      MergeExtends(c.turns[t].first, c.merged, c.turns[t].mergedBefore, c.entry.pending);
    } else {
      assert !c.entry.inFlight <==> c.turns == map[];
      assert c'.merged == c.merged && c'.turns[t].history == c.turns[t].history;
    }
  }

  /** The history of a running turn asks exactly what the turn started for and then the
      messages merged since, each once, in order of arrival. */
  lemma {:induction false} HistoryIsFirstThenMerged(maxsize: nat, steps: seq<Step>, t: nat)
    requires After(maxsize, steps).Some? && t in After(maxsize, steps).value.turns
    ensures FirstThenMerged(After(maxsize, steps).value, t)
  {
    if steps == [] {
    } else {
      var last := |steps| - 1;
      var c := After(maxsize, steps[..last]).value;
      PreemptImpliesIdleTurn(maxsize, steps[..last]);
      if t in c.turns { HistoryIsFirstThenMerged(maxsize, steps[..last], t); }
      StepKeepsHistory(maxsize, c, steps[last], t);
    }
  }

  // ---- the partial answer reaches the history ---------------------------------

  /** What turn `t` has streamed since its start or its last restart: the tokens of the run. */
  function Streamed(steps: seq<Step>, t: nat): string {
    if steps == [] then ""
    else
      var before, s := Streamed(steps[..|steps| - 1], t), steps[|steps| - 1];
      if s.Token? && s.t == t then before + s.text
      else if s == StopHandled(t) || s == StreamEnds(t) then ""
      else before
  }

  /** The turn still has its stream: it has not reached its release. */
  predicate HasStream(c: Context, t: nat) {
    t in c.turns && (c.turns[t].pc.Streaming? || c.turns[t].pc.Emitting? || c.turns[t].pc.Stopping?)
  }

  ghost predicate Accumulates(c: Context, t: nat, streamed: string) {
    && (HasStream(c, t) ==> c.turns[t].accumulated == streamed)
    && (t >= c.nextId ==> t !in c.turns && streamed == "")
  }

  lemma StepAccumulates(maxsize: nat, c: Context, s: Step, t: nat, streamed: string)
    requires Accumulates(c, t, streamed) && Enabled(c, s)
    ensures Accumulates(Do(maxsize, c, s), t,
                        if s.Token? && s.t == t then streamed + s.text
                        else if s == StopHandled(t) || s == StreamEnds(t) then "" else streamed)
  {
  }

  lemma {:induction false} RunAccumulates(maxsize: nat, steps: seq<Step>, t: nat)
    requires After(maxsize, steps).Some?
    ensures Accumulates(After(maxsize, steps).value, t, Streamed(steps, t))
  {
    if steps == [] {
    } else {
      var init := steps[..|steps| - 1];
      RunAccumulates(maxsize, init, t);
      StepAccumulates(maxsize, After(maxsize, init).value, steps[|steps| - 1], t, Streamed(init, t));
    }
  }

  lemma {:induction false} AsHumansInOrder(messages: seq<Message>)
    ensures |AsHumans(messages)| == |messages|
    ensures forall i | 0 <= i < |messages| :: AsHumans(messages)[i] == Human(messages[i])
  {
    if messages == [] {
    } else {
      AsHumansInOrder(messages[..|messages| - 1]);
    }
  }

  lemma RestartGrows(t: Turn, queued: seq<Message>) returns (before: string, text: string, after: string)
    ensures Text.Trimmed(t.accumulated, before, text, after)
    ensures Restarted(t, queued).history
         == t.history + (if text == "" then [] else [Ai(text)]) + AsHumans(queued)
  {
    text := Text.Strip(t.accumulated);
    before, after := Text.StripTrims(t.accumulated);
  }

  /** In every run, a turn that starts its stream again has its history grow by the text it
      streamed since the last time, without the blanks at its ends, as one answer of its own
      if there is any text left; and then by the queued messages, in order. It starts again
      when its stream ends with messages queued, or when it stops for a preemption. */
  lemma RestartCarriesPartial(maxsize: nat, steps: seq<Step>, t: nat, s: Step)
    returns (before: string, text: string, after: string)
    requires After(maxsize, steps).Some? && Enabled(After(maxsize, steps).value, s)
    requires s == StopHandled(t) || s == StreamEnds(t)
    ensures var c := After(maxsize, steps).value;
            var c', queued := Do(maxsize, c, s), c.entry.pending;
            && Text.Trimmed(Streamed(steps, t), before, text, after)
            && (c'.turns[t].pc.Streaming? <==> if s.StreamEnds? then queued != [] else c.entry.preempt)
            && (!c'.turns[t].pc.Streaming? ==> c'.turns[t].history == c.turns[t].history)
            && (c'.turns[t].pc.Streaming? ==>
                  var kept := c.turns[t].history + if text == "" then [] else [Ai(text)];
                  && c'.turns[t].accumulated == ""
                  && |c'.turns[t].history| == |kept| + |queued| && kept <= c'.turns[t].history
                  && forall i | 0 <= i < |queued| :: c'.turns[t].history[|kept| + i] == Human(queued[i]))
  {
    var c := After(maxsize, steps).value;
    RunAccumulates(maxsize, steps, t);
    PreemptImpliesIdleTurn(maxsize, steps);
    before, text, after := RestartGrows(c.turns[t], c.entry.pending);
    AsHumansInOrder(c.entry.pending);
  }

  /** No other step of a run changes the history of a turn. */
  lemma HistoryGrowsAtRestarts(maxsize: nat, steps: seq<Step>, s: Step, t: nat)
    requires After(maxsize, steps).Some? && Enabled(After(maxsize, steps).value, s)
    requires t in After(maxsize, steps).value.turns && t in Do(maxsize, After(maxsize, steps).value, s).turns
    requires s != StopHandled(t) && s != StreamEnds(t)
    ensures Do(maxsize, After(maxsize, steps).value, s).turns[t].history == After(maxsize, steps).value.turns[t].history
  {
    PreemptImpliesIdleTurn(maxsize, steps);
    assert After(maxsize, steps).value.entry.inFlight;
  }

  // ---- what does not hold ---------------------------------------------------

  /** A message accepted after the last drain outlives its turn in the queue. */
  lemma QueueCanOutliveTurn(maxsize: nat, steps: seq<Step>, t: nat, post: Step)
    requires After(maxsize, steps).Some? && post.Post?
    requires var c := After(maxsize, steps).value;
             && TurnAt(c, t, Finishing) && |c.entry.pending| < maxsize
             && !IsRoutineSelfMessage(Message(c.nextId, post.text, post.source))
    ensures var c := After(maxsize, steps).value;
            && Enabled(Do(maxsize, c, post), Releases(t))
            && var c' := Do(maxsize, Do(maxsize, c, post), Releases(t));
            && !c'.entry.inFlight && c'.turns == map[]
            && c'.entry.pending == c.entry.pending + [Message(c.nextId, post.text, post.source)]
  {
    PreemptImpliesIdleTurn(maxsize, steps);
  }

  /** The context after `steps` taken from `c`. */
  function AfterFrom(maxsize: nat, c: Context, steps: seq<Step>): Option<Context> {
    if steps == [] then Some(c)
    else
      match AfterFrom(maxsize, c, steps[..|steps| - 1])
      case None => None
      case Some(d) =>
        if Enabled(d, steps[|steps| - 1]) then Some(Do(maxsize, d, steps[|steps| - 1])) else None
  }

  lemma LeakedStep(maxsize: nat, c: Context, t: nat, s: Step)
    requires OneTurn(c) && TurnAt(c, t, Leaked) && Enabled(c, s)
    ensures var d := Do(maxsize, c, s);
            && d.turns == c.turns && d.entry.inFlight && d.merged == c.merged && d.discarded == c.discarded
            && c.entry.pending <= d.entry.pending
  {
    assert t in c.turns;
    assert s.Post? || s.Cancel?;
  }

  /** A turn cancelled on its way to the release never frees the slot: whatever comes, the
      context stays busy, runs nothing, merges nothing, and its queue only fills up. */
  lemma {:induction false} LeakedSlotStaysHeld(maxsize: nat, c: Context, t: nat, steps: seq<Step>)
    requires OneTurn(c) && TurnAt(c, t, Leaked) && AfterFrom(maxsize, c, steps).Some?
    ensures var d := AfterFrom(maxsize, c, steps).value;
            && d.turns == c.turns && d.entry.inFlight && d.merged == c.merged && d.discarded == c.discarded
            && c.entry.pending <= d.entry.pending
  {
    if steps == [] {
      assert t in c.turns;
    } else {
      LeakedSlotStaysHeld(maxsize, c, t, steps[..|steps| - 1]);
      LeakedStep(maxsize, AfterFrom(maxsize, c, steps[..|steps| - 1]).value, t, steps[|steps| - 1]);
    }
  }

  /** Some continuation frees the slot. */
  ghost predicate CanBeFreed(maxsize: nat, c: Context) {
    exists steps :: AfterFrom(maxsize, c, steps).Some? && !AfterFrom(maxsize, c, steps).value.entry.inFlight
  }

  lemma FromSnoc(maxsize: nat, c: Context, steps: seq<Step>, d: Context, s: Step)
    requires AfterFrom(maxsize, c, steps) == Some(d) && Enabled(d, s)
    ensures AfterFrom(maxsize, c, steps + [s]) == Some(Do(maxsize, d, s))
  {
    assert (steps + [s])[..|steps|] == steps;
  }

  lemma FreedByRelease(maxsize: nat, c: Context, before: seq<Step>, d: Context, t: nat)
    requires AfterFrom(maxsize, c, before) == Some(d) && TurnAt(d, t, Finishing)
    ensures CanBeFreed(maxsize, c)
  {
    FromSnoc(maxsize, c, before, d, Releases(t));
    assert !AfterFrom(maxsize, c, before + [Releases(t)]).value.entry.inFlight;
  }

  lemma LeakedIsNotFreed(maxsize: nat, c: Context, t: nat)
    requires OneTurn(c) && TurnAt(c, t, Leaked)
    ensures !CanBeFreed(maxsize, c)
  {
    forall more | AfterFrom(maxsize, c, more).Some? ensures AfterFrom(maxsize, c, more).value.entry.inFlight {
      LeakedSlotStaysHeld(maxsize, c, t, more);
    }
  }

  /** In any reachable state with a turn in flight, the context can serve another turn again
      if and only if its turn was not cancelled on the way to its release. */
  lemma SlotIsFreedIff(maxsize: nat, steps: seq<Step>, t: nat)
    requires After(maxsize, steps).Some? && t in After(maxsize, steps).value.turns
    ensures var c := After(maxsize, steps).value; CanBeFreed(maxsize, c) <==> !TurnAt(c, t, Leaked)
  {
    var c := After(maxsize, steps).value;
    PreemptImpliesIdleTurn(maxsize, steps);
    if TurnAt(c, t, Leaked) {
      LeakedIsNotFreed(maxsize, c, t);
    } else if TurnAt(c, t, Finishing) {
      FreedByRelease(maxsize, c, [], c, t);
    } else {
      FromSnoc(maxsize, c, [], c, Raises(t));
      FreedByRelease(maxsize, c, [] + [Raises(t)], Do(maxsize, c, Raises(t)), t);
    }
  }

  /** A Stop that finds no turn, and the POST that starts the next one. */
  function StaleStart(maxsize: nat, c: Context, post: Step): Context
    requires post.Post?
  {
    Do(maxsize, Do(maxsize, c, Cancel), post)
  }

  /** The steps that end the wait of turn `t` under an interrupt. */
  predicate Decides(s: Step, t: nat) {
    s == StopHandled(t) || s == StreamEnds(t) || s == Raises(t)
  }

  /** A user's POST that finds room in the inbox of a turn that `post` started as idle work. */
  predicate Preempts(maxsize: nat, c: Context, post: Step, s: Step)
    requires post.Post?
  {
    && s.Post? && post.source == Some(SELF_IDLE) && !IsSelfSourceType(s.source)
    && !IsRoutineSelfMessage(Message(c.nextId, s.text, s.source)) && HasRoom(c.entry, maxsize)
  }

  predicate Preempted(maxsize: nat, c: Context, post: Step, wait: seq<Step>)
    requires post.Post?
  {
    wait != [] &&
    (|| Preempted(maxsize, c, post, wait[..|wait| - 1])
     || (var before := AfterFrom(maxsize, c, wait[..|wait| - 1]);
         before.Some? && Preempts(maxsize, before.value, post, wait[|wait| - 1])))
  }

  /** The turn has produced nothing, and the Stop is still set. */
  ghost predicate StaleWait(c: Context, t: nat, post: Step, m: Message, preempted: bool)
    requires post.Post?
  {
    && OneTurn(c) && PreemptionIsSound(c) && c.entry.inFlight && c.entry.interrupt && t in c.turns
    && c.entry.inFlightSource == post.source && (c.entry.preempt <==> preempted)
    && c.turns[t].accumulated == "" && c.turns[t].history == Earlier(post.earlier) + [Human(m)]
    && (c.turns[t].pc.Streaming? || c.turns[t].pc.Stopping?)
  }

  lemma StaleStartWaits(maxsize: nat, steps: seq<Step>, post: Step)
    requires After(maxsize, steps).Some? && post.Post? && !After(maxsize, steps).value.entry.inFlight
    ensures var c := After(maxsize, steps).value;
            StaleWait(StaleStart(maxsize, c, post), c.nextId, post, Message(c.nextId, post.text, post.source), false)
  {
    var c := After(maxsize, steps).value;
    PreemptImpliesIdleTurn(maxsize, steps);
    StepKeepsPreemptionSound(maxsize, c, Cancel);
    StepKeepsPreemptionSound(maxsize, Do(maxsize, c, Cancel), post);
  }

  lemma StaleStep(maxsize: nat, c: Context, t: nat, post: Step, m: Message, preempted: bool, s: Step)
    requires post.Post? && StaleWait(c, t, post, m, preempted) && Enabled(c, s) && !Decides(s, t)
    ensures StaleWait(Do(maxsize, c, s), t, post, m, preempted || Preempts(maxsize, c, post, s))
  {
    StepKeepsPreemptionSound(maxsize, c, s);
  }

  lemma {:induction false} StaleWaitLasts(maxsize: nat, c: Context, t: nat, post: Step, m: Message, wait: seq<Step>)
    requires post.Post? && StaleWait(c, t, post, m, false) && AfterFrom(maxsize, c, wait).Some?
    requires forall s | s in wait :: !Decides(s, t)
    ensures StaleWait(AfterFrom(maxsize, c, wait).value, t, post, m, Preempted(maxsize, c, post, wait))
  {
    if wait == [] {
    } else {
      var init, s := wait[..|wait| - 1], wait[|wait| - 1];
      assert s in wait && forall x | x in init :: x in wait;
      StaleWaitLasts(maxsize, c, t, post, m, init);
      StaleStep(maxsize, AfterFrom(maxsize, c, init).value, t, post, m, Preempted(maxsize, c, post, init), s);
    }
  }

  /** A Stop that finds no turn stays set through the start of the next one, which produces
      nothing under it. That Stop ends the turn, and discards what was queued for it, if and
      only if the turn gets to observe it before its stream ends or fails, and no user
      preempted it meanwhile; otherwise it is swallowed. */
  lemma StaleStopEndsTurnIff(maxsize: nat, steps: seq<Step>, post: Step, wait: seq<Step>, decision: Step)
    requires After(maxsize, steps).Some? && post.Post? && !After(maxsize, steps).value.entry.inFlight
    requires var c := After(maxsize, steps).value;
             var started := StaleStart(maxsize, c, post);
             && AfterFrom(maxsize, started, wait).Some? && Enabled(AfterFrom(maxsize, started, wait).value, decision)
             && (forall s | s in wait :: !Decides(s, c.nextId)) && Decides(decision, c.nextId)
    ensures var c := After(maxsize, steps).value;
            var started := StaleStart(maxsize, c, post);
            var d := AfterFrom(maxsize, started, wait).value;
            var d' := Do(maxsize, d, decision);
            && c.nextId in d.turns && c.nextId in d'.turns && d.turns[c.nextId].accumulated == ""
            && (decision.StopHandled? && d'.turns[c.nextId].pc.Finishing?
                <==> decision.StopHandled? && !Preempted(maxsize, started, post, wait))
            && (decision.StopHandled? && !Preempted(maxsize, started, post, wait) ==>
                  d'.discarded == d.discarded + d.entry.pending && d'.merged == d.merged)
            && (decision.StopHandled? && Preempted(maxsize, started, post, wait) ==>
                  d'.turns[c.nextId].pc.Streaming? && d'.merged == d.merged + d.entry.pending && !d'.entry.interrupt)
            && (decision.StreamEnds? ==>
                  !d'.entry.interrupt && d'.discarded == d.discarded
                  && (d'.turns[c.nextId].pc.Finishing? <==> d.entry.pending == []))
  {
    var c := After(maxsize, steps).value;
    var m := Message(c.nextId, post.text, post.source);
    StaleStartWaits(maxsize, steps, post);
    StaleWaitLasts(maxsize, StaleStart(maxsize, c, post), c.nextId, post, m, wait);
  }

  /** Such a Stop swallowed: an idle wake starts, a user preempts it, and the turn goes on. */
  lemma StaleStopSwallowed(maxsize: nat, idle: Step, user: Step)
    requires maxsize > 0 && idle.Post? && idle.source == Some(SELF_IDLE)
    requires user.Post? && user.source.None? && !IsRoutineSelfMessage(Message(1, user.text, None))
    ensures var started := StaleStart(maxsize, QUIET, idle);
            var preempted := Do(maxsize, started, user);
            && Enabled(preempted, Observe(0)) && Enabled(Do(maxsize, preempted, Observe(0)), StopHandled(0))
            && var end := Do(maxsize, Do(maxsize, preempted, Observe(0)), StopHandled(0));
            && TurnAt(end, 0, Streaming) && !end.entry.interrupt
            && end.discarded == [] && end.merged == [Message(1, user.text, None)]
  {
    var preempted := Do(maxsize, StaleStart(maxsize, QUIET, idle), user);
    assert preempted.entry.pending == [] + [Message(1, user.text, None)];
  }
}
