/** Background enrichment of peers (molecule_runtime/a2a_client.py,
    `enrich_peer_metadata_nonblocking` and its worker) as a machine over threads. A step
    is what one thread does between two points where another can run: one clock reading,
    one cache access under its lock, one change of the in-flight set under its lock. */
module PeerEnrichment {
  import opened Wrappers
  import opened PeerCache

  /** A caller of the nonblocking lookup: before the cache check, after a miss, holding
      a reservation, or refused by a pool that has shut down. */
  datatype CallerPc = Started | Missed | Reserved | Refused

  /** The body of the lookup: not begun, clock read, GET under way, or done. */
  datatype LookupPc = Queued | Clocked(current: real) | Fetching(started: real) | Finishing

  datatype Thread =
    | Caller(peer: string, callerPc: CallerPc)
    | Job(peer: string, background: bool, jobPc: LookupPc)

  /** A GET, the clock reading its lookup works with, and when it starts. */
  datatype GetStart = GetStart(peer: string, stamp: real, start: real)

  datatype Shared = Shared(
    cache: map<string, Cached>,
    inFlight: set<string>,
    threads: map<nat, Thread>,
    gets: seq<GetStart>
  )

  const START := Shared(map[], {}, map[], [])

  datatype Step =
    | Call(t: nat, peer: string)
    | CallDirect(t: nat, peer: string)
    | CheckCache(t: nat, now: real)
    | Reserve(t: nat)
    | Submit(t: nat)
    | RefuseSubmit(t: nat)
    | DropReservation(t: nat)
    | ReadClock(t: nat, now: real)
    | FailEarly(t: nat)
    | LookUp(t: nat, at: real)
    | StoreAnswer(t: nat, answer: Metadata)
    | Finish(t: nat)
    | EvictEntry(peer: string)

  function Entry(s: Shared, peer: string): Option<Cached> {
    if peer in s.cache then Some(s.cache[peer]) else None
  }

  predicate CallerAt(s: Shared, t: nat, pc: CallerPc) {
    t in s.threads && s.threads[t].Caller? && s.threads[t].callerPc == pc
  }

  predicate JobRuns(s: Shared, t: nat) {
    t in s.threads && s.threads[t].Job?
  }

  predicate Enabled(s: Shared, step: Step) {
    match step
    case Call(t, _) => t !in s.threads
    case CallDirect(t, _) => t !in s.threads
    case CheckCache(t, _) => CallerAt(s, t, Started)
    case Reserve(t) => CallerAt(s, t, Missed)
    case Submit(t) => CallerAt(s, t, Reserved)
    case RefuseSubmit(t) => CallerAt(s, t, Reserved)
    case DropReservation(t) => CallerAt(s, t, Refused)
    case ReadClock(t, _) => JobRuns(s, t) && s.threads[t].jobPc.Queued?
    case FailEarly(t) => JobRuns(s, t) && (s.threads[t].jobPc.Queued? || s.threads[t].jobPc.Clocked?)
    case LookUp(t, at) => JobRuns(s, t) && s.threads[t].jobPc.Clocked? && s.threads[t].jobPc.current <= at
    case StoreAnswer(t, _) => JobRuns(s, t) && s.threads[t].jobPc.Fetching?
    case Finish(t) => JobRuns(s, t) && s.threads[t].jobPc.Finishing?
    case EvictEntry(_) => true
  }

  function Put(s: Shared, t: nat, thread: Thread): Shared {
    s.(threads := s.threads[t := thread])
  }

  function Gone(s: Shared, t: nat): Shared {
    s.(threads := s.threads - {t})
  }

  function Do(s: Shared, step: Step): Shared
    requires Enabled(s, step)
  {
    match step
    case Call(t, peer) => Put(s, t, Caller(peer, Started))
    case CallDirect(t, peer) => Put(s, t, Job(peer, false, Queued))
    case CheckCache(t, now) =>
      if Fresh(Entry(s, s.threads[t].peer), now) then Gone(s, t) else Put(s, t, Caller(s.threads[t].peer, Missed))
    case Reserve(t) =>
      var peer := s.threads[t].peer;
      if peer in s.inFlight then Gone(s, t)
      else Put(s, t, Caller(peer, Reserved)).(inFlight := s.inFlight + {peer})
    case Submit(t) => Put(s, t, Job(s.threads[t].peer, true, Queued))
    case RefuseSubmit(t) => Put(s, t, Caller(s.threads[t].peer, Refused))
    case DropReservation(t) => Gone(s, t).(inFlight := s.inFlight - {s.threads[t].peer})
    case ReadClock(t, now) => Put(s, t, s.threads[t].(jobPc := Clocked(now)))
    case FailEarly(t) => Put(s, t, s.threads[t].(jobPc := Finishing))
    case LookUp(t, at) =>
      var job := s.threads[t];
      if Fresh(Entry(s, job.peer), job.jobPc.current) then Put(s, t, job.(jobPc := Finishing))
      else
        var get := GetStart(job.peer, job.jobPc.current, at);
        Put(s, t, job.(jobPc := Fetching(job.jobPc.current))).(gets := s.gets + [get])
    case StoreAnswer(t, answer) =>
      var job := s.threads[t];
      Put(s, t, job.(jobPc := Finishing)).(cache := s.cache[job.peer := Cached(job.jobPc.started, answer)])
    case Finish(t) =>
      var job := s.threads[t];
      Gone(s, t).(inFlight := if job.background then s.inFlight - {job.peer} else s.inFlight)
    case EvictEntry(peer) => s.(cache := s.cache - {peer})
  }

  function After(steps: seq<Step>): Option<Shared> {
    if steps == [] then Some(START)
    else
      match After(steps[..|steps| - 1])
      case None => None
      case Some(s) => if Enabled(s, steps[|steps| - 1]) then Some(Do(s, steps[|steps| - 1])) else None
  }

  // ---- one background enrichment per peer --------------------------------

  /** The thread is a background enrichment under way, from its reservation to its end. */
  predicate Outstanding(s: Shared, t: nat) {
    && t in s.threads
    && match s.threads[t]
       case Caller(_, pc) => pc == Reserved || pc == Refused
       case Job(_, background, _) => background
  }

  /** At most one background enrichment per peer is outstanding, and the in-flight set is
      exactly the set of the peers that have one. */
  ghost predicate SingleFlight(s: Shared) {
    && (forall t, u | Outstanding(s, t) && Outstanding(s, u) && s.threads[t].peer == s.threads[u].peer :: t == u)
    && (forall peer :: peer in s.inFlight <==> exists t :: Outstanding(s, t) && s.threads[t].peer == peer)
  }

  /** Apart from `t`, the same enrichments are outstanding for the same peers. */
  ghost predicate OthersKept(s: Shared, s': Shared, t: nat) {
    forall u | u != t :: Outstanding(s', u) == Outstanding(s, u)
                         && (Outstanding(s, u) ==> s'.threads[u].peer == s.threads[u].peer)
  }

  lemma HolderKept(s: Shared, s': Shared, t: nat)
    requires SingleFlight(s) && OthersKept(s, s', t) && s'.inFlight == s.inFlight
    requires Outstanding(s', t) == Outstanding(s, t)
    requires Outstanding(s, t) ==> s'.threads[t].peer == s.threads[t].peer
    ensures SingleFlight(s')
  {
    forall peer ensures peer in s'.inFlight <==> exists u :: Outstanding(s', u) && s'.threads[u].peer == peer {
      if peer in s.inFlight {
        var u :| Outstanding(s, u) && s.threads[u].peer == peer;
        assert Outstanding(s', u) && s'.threads[u].peer == peer;
      }
    }
  }

  lemma HolderGained(s: Shared, s': Shared, t: nat)
    requires SingleFlight(s) && OthersKept(s, s', t) && !Outstanding(s, t) && Outstanding(s', t)
    requires s'.threads[t].peer !in s.inFlight && s'.inFlight == s.inFlight + {s'.threads[t].peer}
    ensures SingleFlight(s')
  {
    forall peer ensures peer in s'.inFlight <==> exists u :: Outstanding(s', u) && s'.threads[u].peer == peer {
      if peer in s.inFlight {
        var u :| Outstanding(s, u) && s.threads[u].peer == peer;
        assert Outstanding(s', u) && s'.threads[u].peer == peer;
      }
    }
  }

  lemma HolderLost(s: Shared, s': Shared, t: nat)
    requires SingleFlight(s) && OthersKept(s, s', t) && Outstanding(s, t) && !Outstanding(s', t)
    requires s'.inFlight == s.inFlight - {s.threads[t].peer}
    ensures SingleFlight(s')
  {
    forall peer ensures peer in s'.inFlight <==> exists u :: Outstanding(s', u) && s'.threads[u].peer == peer {
      if peer in s'.inFlight {
        var u :| Outstanding(s, u) && s.threads[u].peer == peer;
        assert Outstanding(s', u) && s'.threads[u].peer == peer;
      }
    }
  }

  lemma StepKeepsSingleFlight(s: Shared, step: Step)
    requires SingleFlight(s) && Enabled(s, step)
    ensures SingleFlight(Do(s, step))
  {
    var s' := Do(s, step);
    var t := if step.EvictEntry? then 0 else step.t;
    assert OthersKept(s, s', t);
    if Outstanding(s, t) == Outstanding(s', t) {
      HolderKept(s, s', t);
    } else if Outstanding(s', t) {
      HolderGained(s, s', t);
    } else {
      HolderLost(s, s', t);
    }
  }

  lemma {:induction false} RunIsSingleFlight(steps: seq<Step>)
    requires After(steps).Some?
    ensures SingleFlight(After(steps).value)
  {
    if steps == [] {
    } else {
      RunIsSingleFlight(steps[..|steps| - 1]);
      StepKeepsSingleFlight(After(steps[..|steps| - 1]).value, steps[|steps| - 1]);
    }
  }

  // ---- spacing of the GETs -----------------------------------------------

  predicate IsFetching(s: Shared, t: nat, peer: string) {
    JobRuns(s, t) && s.threads[t].peer == peer && s.threads[t].jobPc.Fetching?
  }

  /** What the cache still owes to the GETs made: each has its answer stored with a time
      no earlier than its own, or is the one under way. */
  ghost predicate Accounted(s: Shared) {
    && (forall t | JobRuns(s, t) :: s.threads[t].background)
    && (forall i | 0 <= i < |s.gets| ::
          || (s.gets[i].peer in s.cache && s.cache[s.gets[i].peer].fetchedAt >= s.gets[i].stamp)
          || exists t :: IsFetching(s, t, s.gets[i].peer))
    && (forall t, i | 0 <= i < |s.gets| && IsFetching(s, t, s.gets[i].peer) ::
          s.gets[i].stamp <= s.threads[t].jobPc.started)
  }

  predicate Spaced(gets: seq<GetStart>) {
    forall i, j | 0 <= i < j < |gets| && gets[i].peer == gets[j].peer ::
      gets[j].stamp - gets[i].stamp >= TTL_SECONDS
  }

  /** While a background job looks up its peer, nobody is fetching for that peer. */
  lemma AloneOnPeer(s: Shared, t: nat, u: nat)
    requires SingleFlight(s) && Accounted(s) && JobRuns(s, t) && s.threads[t].jobPc.Clocked?
    ensures !IsFetching(s, u, s.threads[t].peer)
  {
    assert Outstanding(s, t);
    if IsFetching(s, u, s.threads[t].peer) {
      assert Outstanding(s, u);
    }
  }

  /** So every GET made for it is answered, and with no fresh entry, a TTL ago. */
  lemma EarlierGetsAreOld(s: Shared, t: nat, i: nat)
    requires SingleFlight(s) && Accounted(s) && JobRuns(s, t) && s.threads[t].jobPc.Clocked?
    requires !Fresh(Entry(s, s.threads[t].peer), s.threads[t].jobPc.current)
    requires i < |s.gets| && s.gets[i].peer == s.threads[t].peer
    ensures s.threads[t].jobPc.current - s.gets[i].stamp >= TTL_SECONDS
  {
    forall u ensures !IsFetching(s, u, s.gets[i].peer) {
      AloneOnPeer(s, t, u);
    }
  }

  lemma LookUpKeepsSpacing(s: Shared, t: nat, at: real)
    requires SingleFlight(s) && Accounted(s) && Spaced(s.gets) && Enabled(s, LookUp(t, at))
    ensures Accounted(Do(s, LookUp(t, at))) && Spaced(Do(s, LookUp(t, at)).gets)
  {
    var s', job := Do(s, LookUp(t, at)), s.threads[t];
    assert forall u, peer | u != t :: IsFetching(s', u, peer) == IsFetching(s, u, peer);
    if s'.gets == s.gets {
      assert forall peer :: !IsFetching(s', t, peer) && !IsFetching(s, t, peer);
      FetchersKept(s, s');
    } else {
      forall i | 0 <= i < |s.gets| && s.gets[i].peer == job.peer
        ensures job.jobPc.current - s.gets[i].stamp >= TTL_SECONDS
      {
        EarlierGetsAreOld(s, t, i);
      }
      assert IsFetching(s', t, job.peer);
    }
  }

  lemma StepKeepsSpacing(s: Shared, step: Step)
    requires SingleFlight(s) && Accounted(s) && Spaced(s.gets) && Enabled(s, step)
    requires !step.EvictEntry? && !step.CallDirect?
    ensures Accounted(Do(s, step)) && Spaced(Do(s, step).gets)
  {
    if step.LookUp? {
      LookUpKeepsSpacing(s, step.t, step.at);
    } else if step.StoreAnswer? {
      StoreKeepsSpacing(s, step.t, step.answer);
    } else {
      var s' := Do(s, step);
      OthersFetch(s, step);
      FetchersKept(s, s');
    }
  }

  lemma OthersFetch(s: Shared, step: Step)
    requires Accounted(s) && Enabled(s, step)
    requires !step.EvictEntry? && !step.CallDirect? && !step.LookUp? && !step.StoreAnswer?
    ensures var s' := Do(s, step);
            && s'.gets == s.gets && s'.cache == s.cache
            && (forall t, peer :: IsFetching(s', t, peer) == IsFetching(s, t, peer))
            && (forall t, peer | IsFetching(s, t, peer) && IsFetching(s', t, peer) :: s'.threads[t] == s.threads[t])
            && (forall t | JobRuns(s', t) :: s'.threads[t].background)
  {
    var s', t := Do(s, step), step.t;
    assert forall u, peer | u != t :: IsFetching(s', u, peer) == IsFetching(s, u, peer);
    assert forall peer :: !IsFetching(s', t, peer) && !IsFetching(s, t, peer);
  }

  lemma FetchersKept(s: Shared, s': Shared)
    requires Accounted(s) && s'.gets == s.gets && s'.cache == s.cache
    requires forall t, peer :: IsFetching(s', t, peer) == IsFetching(s, t, peer)
    requires forall t, peer | IsFetching(s, t, peer) && IsFetching(s', t, peer) :: s'.threads[t] == s.threads[t]
    requires forall t | JobRuns(s', t) :: s'.threads[t].background
    ensures Accounted(s')
  {
    forall i | 0 <= i < |s'.gets|
      ensures || (s'.gets[i].peer in s'.cache && s'.cache[s'.gets[i].peer].fetchedAt >= s'.gets[i].stamp)
              || exists t :: IsFetching(s', t, s'.gets[i].peer)
    {
      if t :| IsFetching(s, t, s.gets[i].peer) {
        assert IsFetching(s', t, s'.gets[i].peer);
      }
    }
  }

  lemma StoreKeepsSpacing(s: Shared, t: nat, answer: Metadata)
    requires SingleFlight(s) && Accounted(s) && Enabled(s, StoreAnswer(t, answer))
    ensures Accounted(Do(s, StoreAnswer(t, answer)))
  {
    var s' := Do(s, StoreAnswer(t, answer));
    assert forall u, peer | u != t :: IsFetching(s', u, peer) == IsFetching(s, u, peer);
    assert forall peer :: !IsFetching(s', t, peer);
  }

  /** Every GET starts at or after the reading of its lookup. */
  predicate StartAfterStamp(gets: seq<GetStart>) {
    forall i | 0 <= i < |gets| :: gets[i].stamp <= gets[i].start
  }

  /** Without evictions and without direct lookups, the lookups that make two GETs for
      one peer read the clock at least a TTL apart, whatever the first GET returned and
      however callers and jobs interleave; so the GETs themselves start at least a TTL
      apart, less the delay of the first between its reading and its start. */
  lemma {:induction false} BackgroundGetsAreSpaced(steps: seq<Step>)
    requires After(steps).Some?
    requires forall step | step in steps :: !step.EvictEntry? && !step.CallDirect?
    ensures Spaced(After(steps).value.gets) && Accounted(After(steps).value) && StartAfterStamp(After(steps).value.gets)
    ensures var gets := After(steps).value.gets;
            forall i, j | 0 <= i < j < |gets| && gets[i].peer == gets[j].peer ::
              gets[j].start - gets[i].start >= TTL_SECONDS - (gets[i].start - gets[i].stamp)
  {
    if steps == [] {
    } else {
      var before, last := steps[..|steps| - 1], steps[|steps| - 1];
      assert last in steps;
      BackgroundGetsAreSpaced(before);
      RunIsSingleFlight(before);
      StepKeepsSpacing(After(before).value, last);
    }
  }

  lemma AfterSnoc(steps: seq<Step>, s: Shared, step: Step)
    requires After(steps) == Some(s) && Enabled(s, step)
    ensures After(steps + [step]) == Some(Do(s, step))
  {
    assert (steps + [step])[..|steps|] == steps;
  }

  /** No step evicts an entry or looks a peer up directly. */
  predicate Background(steps: seq<Step>) {
    forall step | step in steps :: !step.EvictEntry? && !step.CallDirect?
  }

  lemma PutTwice(s: Shared, t: nat, first: Thread, second: Thread)
    ensures Put(Put(s, t, first), t, second) == Put(s, t, second)
  {
    assert s.threads[t := first][t := second] == s.threads[t := second];
  }

  /** A caller up to its reservation. */
  lemma ReservedFor(steps: seq<Step>, s: Shared, t: nat, peer: string, now: real) returns (steps': seq<Step>)
    requires After(steps) == Some(s) && Background(steps) && t !in s.threads && peer !in s.inFlight
    requires !Fresh(Entry(s, peer), now)
    ensures Background(steps')
    ensures After(steps') == Some(Put(s.(inFlight := s.inFlight + {peer}), t, Caller(peer, Reserved)))
  {
    AfterSnoc(steps, s, Call(t, peer));
    var s1 := Put(s, t, Caller(peer, Started));
    AfterSnoc(steps + [Call(t, peer)], s1, CheckCache(t, now));
    PutTwice(s, t, Caller(peer, Started), Caller(peer, Missed));
    var s2 := Put(s, t, Caller(peer, Missed));
    AfterSnoc(steps + [Call(t, peer)] + [CheckCache(t, now)], s2, Reserve(t));
    PutTwice(s, t, Caller(peer, Missed), Caller(peer, Reserved));
    steps' := steps + [Call(t, peer)] + [CheckCache(t, now)] + [Reserve(t)];
  }

  /** Its job, which reads the clock and starts its GET later. */
  lemma Fetches(steps: seq<Step>, s: Shared, t: nat, peer: string, stamp: real, start: real)
    returns (steps': seq<Step>)
    requires After(steps) == Some(Put(s, t, Caller(peer, Reserved))) && Background(steps)
    requires !Fresh(Entry(s, peer), stamp) && stamp <= start
    ensures Background(steps')
    ensures After(steps') ==
            Some(Put(s.(gets := s.gets + [GetStart(peer, stamp, start)]), t, Job(peer, true, Fetching(stamp))))
  {
    AfterSnoc(steps, Put(s, t, Caller(peer, Reserved)), Submit(t));
    PutTwice(s, t, Caller(peer, Reserved), Job(peer, true, Queued));
    AfterSnoc(steps + [Submit(t)], Put(s, t, Job(peer, true, Queued)), ReadClock(t, stamp));
    PutTwice(s, t, Job(peer, true, Queued), Job(peer, true, Clocked(stamp)));
    var s1 := Put(s, t, Job(peer, true, Clocked(stamp)));
    AfterSnoc(steps + [Submit(t)] + [ReadClock(t, stamp)], s1, LookUp(t, start));
    PutTwice(s, t, Job(peer, true, Clocked(stamp)), Job(peer, true, Fetching(stamp)));
    steps' := steps + [Submit(t)] + [ReadClock(t, stamp)] + [LookUp(t, start)];
  }

  lemma Answered(steps: seq<Step>, s: Shared, t: nat, peer: string, stamp: real, answer: Metadata)
    returns (steps': seq<Step>)
    requires After(steps) == Some(s) && Background(steps)
    requires t in s.threads && s.threads[t] == Job(peer, true, Fetching(stamp))
    ensures Background(steps')
    ensures After(steps') == Some(Shared(s.cache[peer := Cached(stamp, answer)], s.inFlight - {peer},
                                         s.threads - {t}, s.gets))
  {
    AfterSnoc(steps, s, StoreAnswer(t, answer));
    var s1 := Do(s, StoreAnswer(t, answer));
    AfterSnoc(steps + [StoreAnswer(t, answer)], s1, Finish(t));
    assert s1.threads - {t} == s.threads - {t};
    steps' := steps + [StoreAnswer(t, answer)] + [Finish(t)];
  }

  /** The spacing is exact: whatever the delay up to a TTL between the first reading and its
      GET, some run makes two GETs whose starts lie a TTL less that delay apart. */
  lemma SpacingIsTight(peer: string, delay: real, answer: Metadata) returns (steps: seq<Step>)
    requires 0.0 <= delay <= TTL_SECONDS
    ensures After(steps).Some? && Background(steps)
    ensures var gets := After(steps).value.gets;
            && |gets| == 2 && gets[0].peer == gets[1].peer == peer && gets[0].start - gets[0].stamp == delay
            && gets[1].start - gets[0].start == TTL_SECONDS - delay
  {
    steps := ReservedFor([], START, 0, peer, 0.0);
    steps := Fetches(steps, START.(inFlight := START.inFlight + {peer}), 0, peer, 0.0, delay);
    steps := Answered(steps, After(steps).value, 0, peer, 0.0, answer);
    var answered := After(steps).value;
    steps := ReservedFor(steps, answered, 1, peer, TTL_SECONDS);
    steps := Fetches(steps, answered.(inFlight := answered.inFlight + {peer}), 1, peer, TTL_SECONDS, TTL_SECONDS);
  }

  // ---- no peer is stuck ----------------------------------------------------

  /** How many of its own steps an outstanding enrichment can still take. */
  function Rank(thread: Thread): nat {
    match thread
    case Caller(_, pc) => if pc == Reserved then 5 else 1
    case Job(_, _, pc) =>
      match pc
      case Queued => 4
      case Clocked(_) => 3
      case Fetching(_) => 2
      case Finishing => 1
  }

  predicate IsOwn(step: Step, t: nat) {
    !step.EvictEntry? && step.t == t
  }

  /** The owner of an outstanding enrichment always has a step to take. */
  lemma OwnerCanStep(s: Shared, t: nat)
    requires Outstanding(s, t)
    ensures exists own :: IsOwn(own, t) && Enabled(s, own)
  {
    var own :=
      match s.threads[t]
      case Caller(_, pc) => if pc == Reserved then Submit(t) else DropReservation(t)
      case Job(_, _, pc) =>
        if pc.Queued? || pc.Clocked? then FailEarly(t) else if pc.Fetching? then StoreAnswer(t, None) else Finish(t);
    assert IsOwn(own, t) && Enabled(s, own);
  }

  /** Each step of the owner brings the enrichment closer to its end, at which the peer
      leaves the in-flight set; no step of another thread touches it. */
  lemma OwnStepsLeadToRelease(s: Shared, t: nat, step: Step)
    requires SingleFlight(s) && Outstanding(s, t) && Enabled(s, step)
    ensures var s' := Do(s, step);
            && (!IsOwn(step, t) ==> Outstanding(s', t) && s'.threads[t] == s.threads[t])
            && (IsOwn(step, t) && Outstanding(s', t) ==> Rank(s'.threads[t]) < Rank(s.threads[t])
                                                         && s'.threads[t].peer == s.threads[t].peer)
            && (IsOwn(step, t) && !Outstanding(s', t) ==> s.threads[t].peer !in s'.inFlight)
  {
  }

  function OwnSteps(steps: seq<Step>, t: nat): nat {
    if steps == [] then 0
    else OwnSteps(steps[..|steps| - 1], t) + if IsOwn(steps[|steps| - 1], t) then 1 else 0
  }

  /** The state after `steps` taken from `s`. */
  function AfterFrom(s: Shared, steps: seq<Step>): Option<Shared> {
    if steps == [] then Some(s)
    else
      match AfterFrom(s, steps[..|steps| - 1])
      case None => None
      case Some(r) => if Enabled(r, steps[|steps| - 1]) then Some(Do(r, steps[|steps| - 1])) else None
  }

  /** The run goes through and `t` stays outstanding in all of its states. */
  ghost predicate StaysOutstanding(s: Shared, steps: seq<Step>, t: nat) {
    && AfterFrom(s, steps).Some? && Outstanding(AfterFrom(s, steps).value, t)
    && (steps != [] ==> StaysOutstanding(s, steps[..|steps| - 1], t))
  }

  /** From any reachable state, no enrichment stays outstanding through more than four steps
      of its own; as in-flight peers are those with an outstanding one, and its owner can
      always step, no peer is stuck. */
  lemma {:induction false} NoPeerIsStuck(s: Shared, steps: seq<Step>, t: nat)
    requires SingleFlight(s) && Outstanding(s, t) && StaysOutstanding(s, steps, t)
    ensures SingleFlight(AfterFrom(s, steps).value)
    ensures Rank(AfterFrom(s, steps).value.threads[t]) + OwnSteps(steps, t) <= Rank(s.threads[t])
    ensures OwnSteps(steps, t) <= 4
  {
    if steps == [] {
    } else {
      var n := |steps| - 1;
      NoPeerIsStuck(s, steps[..n], t);
      var before := AfterFrom(s, steps[..n]).value;
      StepKeepsSingleFlight(before, steps[n]);
      OwnStepsLeadToRelease(before, t, steps[n]);
    }
  }
}
