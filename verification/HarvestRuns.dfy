/** Whole runs of the harvest: polls, wakes, reads of the results file, restarts
    (molecule_runtime/heartbeat.py and molecule_runtime/executor_helpers.py). */
module HarvestRuns {
  import opened Wrappers
  import opened DelegationResults
  import opened Tombstones
  import opened Harvester

  /** What does not change in the life of a workspace. */
  datatype Config = Config(workspaceId: string, kernelOn: bool)

  /** The system and its history. A restart loses `proc`, `registered` and `pending`; the
      results file and the tombstone file survive. `pending` holds the results whose wake is
      not settled. The history: every line appended, handed to the agent or lost by a read,
      and the keys whose wake was delivered or dropped by the breaker. */
  datatype World = World(
    proc: Proc,
    registered: seq<string>,
    pending: seq<Record>,
    queue: seq<Line>,
    tombText: string,
    appended: seq<Line>,
    handed: seq<Line>,
    lost: seq<Line>,
    woken: set<Key>
  )

  const FIRST_BOOT := World(FRESH_PROC, [], [], [], "", [], [], [], {})

  datatype Step =
    | Register(id: string)
    | PollList(now: real, listing: Option<seq<Listed>>, inFlight: map<string, string>, kept: set<string>,
        failure: Option<AppendFailure>)
    | BreakerDrops(save: Save)
    | WakeStarts(now: real)
    | WakeEnds(outcome: WakeOutcome, save: Save)
    | ReadResults(how: ReadOutcome)
    | Restart

  function EnvOf(cfg: Config, w: World, inFlight: map<string, string>): PollEnv {
    PollEnv(cfg.workspaceId, cfg.kernelOn, (set id | id in w.registered) + inFlight.Keys, inFlight, w.tombText)
  }

  function PollOf(cfg: Config, w: World, s: Step): Polled
    requires s.PollList?
  {
    Poll(EnvOf(cfg, w, s.inFlight), w.proc, w.registered, w.queue, s.now, s.listing, s.kept, s.failure)
  }

  /** The poll makes its pass over a listing, and no malformed row aborts it. */
  predicate Passes(cfg: Config, w: World, s: Step) {
    && s.PollList? && !CoolingDown(w.proc, s.now) && s.listing.Some?
    && !PassOf(EnvOf(cfg, w, s.inFlight), w.proc, w.registered, s.listing.value).aborted
  }

  predicate Commits(outcome: WakeOutcome) {
    outcome.Delivered? || outcome.WakeDropped?
  }

  function OutcomeOf(s: Step): WakeOutcome
    requires s.WakeEnds? || s.BreakerDrops?
  {
    if s.WakeEnds? then s.outcome else WakeDropped
  }

  /** Committing goes as the save plans it, if there is anything new to commit. */
  predicate Plans(cfg: Config, w: World, save: Save) {
    cfg.kernelOn && !(KeysOf(w.pending) <= Loaded(w.proc.mem, w.tombText)) ==>
      SavePlan(save, Loaded(w.proc.mem, w.tombText) + KeysOf(w.pending))
  }

  predicate Enabled(cfg: Config, w: World, s: Step) {
    match s
    case Register(_) => true
    case PollList(_, _, _, kept, _) =>
      && w.pending == []
      && (Passes(cfg, w, s) ==>
            SeenCut(PassOf(EnvOf(cfg, w, s.inFlight), w.proc, w.registered, s.listing.value).seen, kept))
    case BreakerDrops(save) => w.pending != [] && !w.proc.wakeInFlight && cfg.kernelOn && Plans(cfg, w, save)
    case WakeStarts(_) => w.pending != [] && !w.proc.wakeInFlight
    case WakeEnds(outcome, save) => w.pending != [] && w.proc.wakeInFlight && !outcome.WakeDropped?
        && Plans(cfg, w, save)
    case ReadResults(_) => true
    case Restart => true
  }

  function Settle(cfg: Config, w: World, outcome: WakeOutcome, save: Save): World {
    var keys := if Commits(outcome) then KeysOf(w.pending) else {};
    var (mem, text) := Committed(cfg.kernelOn, w.proc.mem, w.tombText, keys, save);
    var s := SettleAll(Settling(w.proc.seen, w.proc.retries, w.proc.written, w.registered), outcome, w.pending);
    w.(proc := Proc(s.seen, s.retries, s.written, mem, w.proc.lastWake, false),
       registered := s.registered, pending := [], tombText := text, woken := w.woken + keys)
  }

  function Do(cfg: Config, w: World, s: Step): World {
    match s
    case Register(id) => w.(registered := Registered(w.registered, id))
    case PollList(_, _, _, _, _) =>
      var r := PollOf(cfg, w, s);
      PollExtends(EnvOf(cfg, w, s.inFlight), w.proc, w.registered, w.queue, s.now, s.listing, s.kept, s.failure);
      w.(proc := r.proc, registered := r.registered, pending := r.results, queue := r.lines,
         appended := w.appended + r.lines[|w.queue|..])
    case BreakerDrops(save) => Settle(cfg, w, WakeDropped, save)
    case WakeStarts(now) => w.(proc := w.proc.(lastWake := now, wakeInFlight := true))
    case WakeEnds(outcome, save) => Settle(cfg, w, outcome, save)
    case ReadResults(how) =>
      w.(queue := Left(w.queue, how), handed := w.handed + Handed(w.queue, how), lost := w.lost + Lost(w.queue, how))
    case Restart => w.(proc := FRESH_PROC, registered := [], pending := [])
  }

  /** The world after a run, if each of its steps is enabled. */
  function After(cfg: Config, w: World, steps: seq<Step>): Option<World> {
    if steps == [] then Some(w)
    else
      var before, s := After(cfg, w, steps[..|steps| - 1]), steps[|steps| - 1];
      if before.Some? && Enabled(cfg, before.value, s) then Some(Do(cfg, before.value, s)) else None
  }

  // ---- appending -------------------------------------------------------------

  function LineKeys(lines: seq<Line>): set<Key> {
    set l | l in lines && l.Parsed? :: KeyOf(l.record)
  }

  function Count(lines: seq<Line>, k: Key): nat {
    if lines == [] then 0
    else
      var l := lines[|lines| - 1];
      Count(lines[..|lines| - 1], k) + if l.Parsed? && KeyOf(l.record) == k then 1 else 0
  }

  lemma {:induction false} CountConcat(a: seq<Line>, b: seq<Line>, k: Key)
    ensures Count(a + b, k) == Count(a, k) + Count(b, k)
  {
    if b == [] {
      assert a + b == a;
    } else {
      assert (a + b)[..|a + b| - 1] == a + b[..|b| - 1];
      CountConcat(a, b[..|b| - 1], k);
    }
  }

  /** Appending `extra` writes each result whose key is not in `written`, once. */
  ghost predicate Appends(written: set<Key>, results: seq<Record>, extra: seq<Line>, after: set<Key>) {
    && (forall l | l in extra :: l.Parsed? && l.record in results)
    && after == written + KeysOf(results) && after == written + LineKeys(extra)
    && (forall k :: Count(extra, k) == if k in after && k !in written then 1 else 0)
  }

  lemma AppendsSnoc(written: set<Key>, results: seq<Record>, extra: seq<Line>, after: set<Key>, r: Record)
    requires Appends(written, results, extra, after)
    ensures KeyOf(r) in after ==> Appends(written, results + [r], extra, after)
    ensures KeyOf(r) !in after ==> Appends(written, results + [r], extra + [Parsed(r)], after + {KeyOf(r)})
  {
    assert forall x :: x in results + [r] <==> x in results || x == r;
    assert KeysOf(results + [r]) == KeysOf(results) + {KeyOf(r)};
    assert forall l :: l in extra + [Parsed(r)] <==> l in extra || l == Parsed(r);
    assert Parsed(r) in extra + [Parsed(r)];
    assert LineKeys(extra + [Parsed(r)]) == LineKeys(extra) + {KeyOf(r)};
    assert (extra + [Parsed(r)])[..|extra|] == extra;
  }

  lemma {:induction false} WriteAllAppends(j: Journal, results: seq<Record>) returns (extra: seq<Line>)
    ensures WriteAll(j, results).lines == j.lines + extra
    ensures Appends(j.written, results, extra, WriteAll(j, results).written)
  {
    extra := [];
    if results == [] {
    } else {
      var init, r := results[..|results| - 1], results[|results| - 1];
      extra := WriteAllAppends(j, init);
      AppendsSnoc(j.written, init, extra, WriteAll(j, init).written, r);
      assert results == init + [r];
      if KeyOf(r) !in WriteAll(j, init).written {
        Associate(j.lines, extra, [Parsed(r)]);
        extra := extra + [Parsed(r)];
      }
    }
  }

  /** The lines of the results whose keys are new, in the order of the results. */
  function NewLines(written: set<Key>, results: seq<Record>): seq<Line> {
    if results == [] then []
    else (if KeyOf(results[0]) in written then [] else [Parsed(results[0])]) + NewLines(written, results[1..])
  }

  lemma {:induction false} NewLinesSnoc(written: set<Key>, init: seq<Record>, r: Record)
    ensures NewLines(written, init + [r])
         == NewLines(written, init) + if KeyOf(r) in written then [] else [Parsed(r)]
  {
    if init == [] {
      assert [r][1..] == [] && [] + [r] == [r];
    } else {
      assert (init + [r])[1..] == init[1..] + [r];
      NewLinesSnoc(written, init[1..], r);
    }
  }

  /** With distinct ids an append writes exactly those lines, in that order. */
  lemma {:induction false} WritesInOrder(j: Journal, results: seq<Record>)
    requires DistinctIds(results)
    ensures WriteAll(j, results).lines == j.lines + NewLines(j.written, results)
  {
    if results == [] {
      assert j.lines + [] == j.lines;
    } else {
      var init, r := results[..|results| - 1], results[|results| - 1];
      assert results == init + [r];
      WritesInOrder(j, init);
      var extra := WriteAllAppends(j, init);
      NewLinesSnoc(j.written, init, r);
      assert KeyOf(r) !in KeysOf(init);
      Associate(j.lines, NewLines(j.written, init), [Parsed(r)]);
      assert NewLines(j.written, init) + [] == NewLines(j.written, init);
    }
  }

  lemma PollExtends(env: PollEnv, proc: Proc, registered: seq<string>, lines: seq<Line>,
                    now: real, listing: Option<seq<Listed>>, kept: set<string>, failure: Option<AppendFailure>)
    ensures lines <= Poll(env, proc, registered, lines, now, listing, kept, failure).lines
  {
  }

  // ---- the pass --------------------------------------------------------------

  predicate DistinctIds(results: seq<Record>) {
    forall i, j | 0 <= i < j < |results| :: results[i].delegationId != results[j].delegationId
  }

  /** A result this pass may hold: awaited, own, terminal, unseen before, not tombstoned. */
  predicate Surfaced(env: PollEnv, start: Pass, r: Record) {
    && r.delegationId in env.active && r.sourceId == env.workspaceId && Terminal(r.status)
    && r.delegationId !in start.seen
    && (env.kernelOn ==> KeyOf(r) !in Loaded(start.mem, env.tombText))
  }

  ghost predicate PassInv(env: PollEnv, start: Pass, p: Pass) {
    && start.seen <= p.seen
    && (forall r | r in p.results :: Surfaced(env, start, r) && r.delegationId in p.seen)
    && DistinctIds(p.results)
    && (p.mem == start.mem || (env.kernelOn && p.mem == Some(Loaded(start.mem, env.tombText))))
    && (forall id | id in p.registered :: id in start.registered)
  }

  lemma HarvestRowKeeps(env: PollEnv, start: Pass, p: Pass, row: Listed)
    requires PassInv(env, start, p)
    ensures PassInv(env, start, HarvestRow(env, p, row))
  {
    var q := HarvestRow(env, p, row);
    if q.results != p.results {
      var r := RecordOf(env, row);
      assert q.results == p.results + [r];
      forall x | x in q.results ensures Surfaced(env, start, x) && x.delegationId in q.seen {
        assert x in p.results || x == r;
      }
      forall i | 0 <= i < |p.results| ensures p.results[i].delegationId != r.delegationId {
        assert p.results[i] in p.results;
      }
    }
  }

  lemma {:induction false} PassKeeps(env: PollEnv, start: Pass, rows: seq<Listed>)
    requires start.results == []
    ensures PassInv(env, start, HarvestRows(env, start, rows))
  {
    if rows == [] {
    } else {
      PassKeeps(env, start, rows[..|rows| - 1]);
      HarvestRowKeeps(env, start, HarvestRows(env, start, rows[..|rows| - 1]), rows[|rows| - 1]);
    }
  }

  predicate NoNullSummary(rows: seq<Listed>) {
    forall i | 0 <= i < |rows| && rows[i].Row? :: rows[i].summary.Some?
  }

  predicate WellFormed(rows: seq<Listed>) {
    forall i | 0 <= i < |rows| :: rows[i].Row?
  }

  lemma {:induction false} AbortedIffMalformed(env: PollEnv, p: Pass, rows: seq<Listed>)
    requires !p.aborted
    ensures HarvestRows(env, p, rows).aborted <==> !WellFormed(rows)
  {
    if rows == [] {
    } else {
      var init := rows[..|rows| - 1];
      AbortedIffMalformed(env, p, init);
      assert forall i | 0 <= i < |init| :: rows[i] == init[i];
    }
  }

  /** A record has the fields of its row; a row without a target gets that of its in-flight
      delegation, if there is one. */
  lemma RecordHasFields(env: PollEnv, row: Listed)
    requires row.Row?
    ensures var r := RecordOf(env, row);
            && r.delegationId == row.id && r.status == row.status && r.sourceId == row.sourceId
            && r.summary == row.summary && r.responsePreview == row.preview && r.error == row.error
            && (row.targetId != "" ==> r.targetId == row.targetId)
            && (row.targetId == "" && row.id in env.inFlight ==> r.targetId == env.inFlight[row.id])
            && (row.targetId == "" && row.id !in env.inFlight ==> r.targetId == "")
  {
  }

  /** Every result is the record of a row. */
  lemma {:induction false} ResultsAreRows(env: PollEnv, start: Pass, rows: seq<Listed>, r: Record)
    requires start.results == [] && r in HarvestRows(env, start, rows).results
    ensures exists i | 0 <= i < |rows| :: rows[i].Row? && r == RecordOf(env, rows[i])
  {
    if rows == [] {
    } else {
      var n := |rows| - 1;
      if r in HarvestRows(env, start, rows[..n]).results {
        ResultsAreRows(env, start, rows[..n], r);
        var i :| 0 <= i < n && rows[..n][i].Row? && r == RecordOf(env, rows[..n][i]);
        assert rows[i].Row? && r == RecordOf(env, rows[i]);
      } else {
        assert rows[n].Row? && r == RecordOf(env, rows[n]);
      }
    }
  }

  lemma TextRowsAreDescribable(env: PollEnv, start: Pass, rows: seq<Listed>)
    requires start.results == [] && NoNullSummary(rows)
    ensures Describable(HarvestRows(env, start, rows).results)
  {
    forall r | r in HarvestRows(env, start, rows).results ensures r.summary.Some? {
      ResultsAreRows(env, start, rows, r);
    }
  }

  // ---- settling --------------------------------------------------------------

  /** How many wakes for the id have surely not got through, this one included. */
  function Failures(s: Settling, id: string): nat {
    if id in s.retries then s.retries[id] + 1 else 1
  }

  /** The id goes into one more wake: at most three are sent for it. */
  predicate Kept(s: Settling, outcome: WakeOutcome, id: string) {
    outcome.Retry? && Failures(s, id) < 3
  }

  /** An id of the results that is kept waits with its failures counted, is unseen again and
      stays awaited; any other loses its retry, its written key and its await. The ids that
      are not of the results keep all of theirs. */
  ghost predicate SettledAs(s: Settling, t: Settling, outcome: WakeOutcome, results: seq<Record>) {
    && (forall id :: id in t.retries <==> if id in IdsOf(results) then Kept(s, outcome, id) else id in s.retries)
    && (forall id | id in t.retries ::
          t.retries[id] == if id in IdsOf(results) then Failures(s, id) else s.retries[id])
    && (forall id :: id in t.seen <==> id in s.seen && !(id in IdsOf(results) && Kept(s, outcome, id)))
    && (forall k :: k in t.written <==> k in s.written && !(k in KeysOf(results) && !Kept(s, outcome, k.0)))
    && (forall id :: id in t.registered <==>
                       id in s.registered && !(id in IdsOf(results) && !Kept(s, outcome, id)))
  }

  lemma SettleOneAs(s: Settling, t: Settling, outcome: WakeOutcome, init: seq<Record>, r: Record)
    requires SettledAs(s, t, outcome, init) && r.delegationId !in IdsOf(init)
    ensures SettledAs(s, SettleOne(t, outcome, r), outcome, init + [r])
  {
    assert forall x :: x in init + [r] <==> x in init || x == r;
    assert IdsOf(init + [r]) == IdsOf(init) + {r.delegationId};
    assert KeysOf(init + [r]) == KeysOf(init) + {KeyOf(r)};
    assert Attempts(t.retries, r.delegationId) == Failures(s, r.delegationId);
  }

  lemma {:induction false} SettleAllAs(s: Settling, outcome: WakeOutcome, results: seq<Record>)
    requires DistinctIds(results)
    ensures SettledAs(s, SettleAll(s, outcome, results), outcome, results)
  {
    if results == [] {
    } else {
      var init, r := results[..|results| - 1], results[|results| - 1];
      SettleAllAs(s, outcome, init);
      assert results == init + [r];
      SettleOneAs(s, SettleAll(s, outcome, init), outcome, init, r);
    }
  }

  // ---- what a poll does, said once --------------------------------------------

  /** A poll that makes its pass, in terms of the pass's results: `buffer` is what the append
      writes, and `extra` what of it reaches the file. */
  lemma PassEffect(cfg: Config, w: World, s: Step) returns (p: Pass, buffer: seq<Line>, extra: seq<Line>)
    requires Enabled(cfg, w, s) && Passes(cfg, w, s)
    ensures p == PassOf(EnvOf(cfg, w, s.inFlight), w.proc, w.registered, s.listing.value)
    ensures PassInv(EnvOf(cfg, w, s.inFlight), Pass(w.proc.seen, w.registered, w.proc.mem, [], false), p)
    ensures buffer == BufferOf(cfg, w, s) && extra == Flushed(buffer, s.failure)
    ensures var w' := Do(cfg, w, s);
            && w'.queue == w.queue + extra && w'.appended == w.appended + extra
            && Appends(PurgedWritten(w.proc.written, w.proc.retries, p.results), Reached(p.results, s.failure),
                 buffer, w'.proc.written)
            && w'.proc.retries == PurgedRetries(w.proc.retries, p.results)
            && w'.proc.mem == p.mem && w'.registered == p.registered
            && w'.pending == (if s.failure.Some? || !Describable(p.results) then [] else p.results)
            && w'.proc.seen == (if s.failure.Some? then s.kept - IdsOf(p.results) else s.kept)
            && w'.proc.wakeInFlight == w.proc.wakeInFlight
  {
    var env := EnvOf(cfg, w, s.inFlight);
    p := PassOf(env, w.proc, w.registered, s.listing.value);
    PassKeeps(env, Pass(w.proc.seen, w.registered, w.proc.mem, [], false), s.listing.value);
    buffer := WriteAllAppends(Journal([], PurgedWritten(w.proc.written, w.proc.retries, p.results)),
        Reached(p.results, s.failure));
    assert [] + buffer == buffer;
    extra := Flushed(buffer, s.failure);
    assert PollOf(cfg, w, s) == Finished(w.proc, p, w.queue, s.kept, s.failure);
    assert (w.queue + extra)[|w.queue|..] == extra;
  }

  /** What the append of such a poll writes before it is flushed. */
  function BufferOf(cfg: Config, w: World, s: Step): seq<Line>
    requires Passes(cfg, w, s)
  {
    var p := PassOf(EnvOf(cfg, w, s.inFlight), w.proc, w.registered, s.listing.value);
    WriteAll(Journal([], PurgedWritten(w.proc.written, w.proc.retries, p.results)), Reached(p.results, s.failure)).lines
  }

  /** Any other poll changes neither the queue nor the retries. */
  lemma NoPassEffect(cfg: Config, w: World, s: Step)
    requires s.PollList? && Enabled(cfg, w, s) && !Passes(cfg, w, s)
    ensures var w' := Do(cfg, w, s);
            && w'.queue == w.queue && w'.appended == w.appended && w'.pending == []
            && w'.proc.retries == w.proc.retries && w'.proc.written == w.proc.written
            && w'.proc.wakeInFlight == w.proc.wakeInFlight
            && (w'.proc.mem == w.proc.mem || (cfg.kernelOn && w'.proc.mem == Some(Loaded(w.proc.mem, w.tombText))))
            && (forall id | id in w'.registered :: id in w.registered)
            && (w'.proc.seen != w.proc.seen ==> s.listing.Some? && !WellFormed(s.listing.value))
  {
    assert w.queue[|w.queue|..] == [];
    if s.listing.Some? && !CoolingDown(w.proc, s.now) {
      var env, start := EnvOf(cfg, w, s.inFlight), Pass(w.proc.seen, w.registered, w.proc.mem, [], false);
      PassKeeps(env, start, s.listing.value);
      AbortedIffMalformed(env, start, s.listing.value);
    }
  }

  // ---- retries drain ----------------------------------------------------------

  ghost predicate RetryInv(w: World) {
    && (forall id | id in w.proc.retries :: 1 <= w.proc.retries[id] < MAX_WAKE_ATTEMPTS)
    && DistinctIds(w.pending)
    && (w.pending != [] ==> w.proc.retries.Keys <= IdsOf(w.pending))
    && (w.proc.wakeInFlight ==> w.pending != [])
  }

  lemma RetryStepKeeps(cfg: Config, w: World, s: Step)
    requires RetryInv(w) && Enabled(cfg, w, s)
    ensures RetryInv(Do(cfg, w, s))
  {
    if s.PollList? {
      if Passes(cfg, w, s) {
        var p, buffer, extra := PassEffect(cfg, w, s);
      } else {
        NoPassEffect(cfg, w, s);
      }
    } else if s.WakeEnds? || s.BreakerDrops? {
      SettleAllAs(Settling(w.proc.seen, w.proc.retries, w.proc.written, w.registered), OutcomeOf(s), w.pending);
    }
  }

  predicate Quiet(w: World) {
    w.pending == []
  }

  ghost predicate Unseen(w: World) {
    Quiet(w) ==> w.proc.retries.Keys !! w.proc.seen
  }

  /** A listing of well-formed rows none of which has a null summary. */
  predicate WellFormedStep(s: Step) {
    s.PollList? && s.listing.Some? ==> WellFormed(s.listing.value) && NoNullSummary(s.listing.value)
  }

  lemma UnseenStepKeeps(cfg: Config, w: World, s: Step)
    requires RetryInv(w) && Unseen(w) && Enabled(cfg, w, s) && WellFormedStep(s)
    ensures Unseen(Do(cfg, w, s))
  {
    if s.PollList? {
      if Passes(cfg, w, s) {
        var p, buffer, extra := PassEffect(cfg, w, s);
        TextRowsAreDescribable(EnvOf(cfg, w, s.inFlight), Pass(w.proc.seen, w.registered, w.proc.mem, [], false),
                               s.listing.value);
      } else {
        NoPassEffect(cfg, w, s);
      }
    } else if s.WakeEnds? || s.BreakerDrops? {
      SettleAllAs(Settling(w.proc.seen, w.proc.retries, w.proc.written, w.registered), OutcomeOf(s), w.pending);
    }
  }

  /** In every run, counts stay between 1 and the limit less one; and while no wake is
      pending, no id waiting for a retry is marked seen, if every listing was well formed. */
  lemma {:induction false} RetriesStayRetryable(cfg: Config, steps: seq<Step>)
    requires After(cfg, FIRST_BOOT, steps).Some?
    ensures RetryInv(After(cfg, FIRST_BOOT, steps).value)
    ensures (forall i | 0 <= i < |steps| :: WellFormedStep(steps[i])) ==> Unseen(After(cfg, FIRST_BOOT, steps).value)
  {
    if steps == [] {
    } else {
      var init, s := steps[..|steps| - 1], steps[|steps| - 1];
      RetriesStayRetryable(cfg, init);
      RetryStepKeeps(cfg, After(cfg, FIRST_BOOT, init).value, s);
      if forall i | 0 <= i < |steps| :: WellFormedStep(steps[i]) {
        assert forall i | 0 <= i < |init| :: init[i] == steps[i];
        UnseenStepKeeps(cfg, After(cfg, FIRST_BOOT, init).value, s);
      }
    }
  }

  /** A poll that passes over a listing, appends without failing and sends a wake, if there
      is anything to wake for. */
  predicate GoodPoll(cfg: Config, w: World, s: Step) {
    && Passes(cfg, w, s) && s.failure.None?
    && Describable(PassOf(EnvOf(cfg, w, s.inFlight), w.proc, w.registered, s.listing.value).results)
  }

  /** Number of steps of the run that settle a wake. */
  function Settled(steps: seq<Step>): nat {
    if steps == [] then 0
    else
      var s := steps[|steps| - 1];
      Settled(steps[..|steps| - 1]) + if s.WakeEnds? || s.BreakerDrops? then 1 else 0
  }

  /** Number of good polls of the run. */
  function GoodPolls(cfg: Config, w: World, steps: seq<Step>): nat {
    if steps == [] then 0
    else
      var before := After(cfg, w, steps[..|steps| - 1]);
      GoodPolls(cfg, w, steps[..|steps| - 1])
      + if before.Some? && GoodPoll(cfg, before.value, steps[|steps| - 1]) then 1 else 0
  }

  /** The run goes through and `id` waits for a retry in all of its states. */
  predicate Waits(cfg: Config, w: World, steps: seq<Step>, id: string) {
    && After(cfg, w, steps).Some? && id in After(cfg, w, steps).value.proc.retries
    && (steps != [] ==> Waits(cfg, w, steps[..|steps| - 1], id))
  }

  function Pending(w: World): nat {
    if Quiet(w) then 0 else 1
  }

  lemma RetryStepCounts(cfg: Config, w: World, s: Step, id: string)
    requires RetryInv(w) && Enabled(cfg, w, s)
    requires id in w.proc.retries && id in Do(cfg, w, s).proc.retries
    ensures Do(cfg, w, s).proc.retries[id] == w.proc.retries[id] + if s.WakeEnds? || s.BreakerDrops? then 1 else 0
    ensures Pending(Do(cfg, w, s)) == Pending(w) + (if GoodPoll(cfg, w, s) then 1 else 0)
                                     - (if s.WakeEnds? || s.BreakerDrops? then 1 else 0)
  {
    if s.PollList? {
      if Passes(cfg, w, s) {
        var p, buffer, extra := PassEffect(cfg, w, s);
      } else {
        NoPassEffect(cfg, w, s);
      }
    } else if s.WakeEnds? || s.BreakerDrops? {
      SettleAllAs(Settling(w.proc.seen, w.proc.retries, w.proc.written, w.registered), OutcomeOf(s), w.pending);
    }
  }

  /** While an id keeps waiting, each settled wake raises its count by exactly one, and
      every good poll leads to a wake. */
  lemma {:induction false} RetryRunCounts(cfg: Config, w: World, steps: seq<Step>, id: string)
    requires RetryInv(w) && Waits(cfg, w, steps, id) && id in w.proc.retries
    ensures RetryInv(After(cfg, w, steps).value)
    ensures After(cfg, w, steps).value.proc.retries[id] == w.proc.retries[id] + Settled(steps)
    ensures GoodPolls(cfg, w, steps) + Pending(w) == Settled(steps) + Pending(After(cfg, w, steps).value)
  {
    if steps == [] {
    } else {
      var init, s := steps[..|steps| - 1], steps[|steps| - 1];
      RetryRunCounts(cfg, w, init, id);
      RetryStepKeeps(cfg, After(cfg, w, init).value, s);
      RetryStepCounts(cfg, After(cfg, w, init).value, s, id);
    }
  }

  /** No id keeps `delegation_results_waiting` true for more than two good polls. */
  lemma RetriesDrain(cfg: Config, w: World, steps: seq<Step>, id: string)
    requires RetryInv(w) && Waits(cfg, w, steps, id) && id in w.proc.retries
    ensures Settled(steps) <= 1 && GoodPolls(cfg, w, steps) <= 2
  {
    RetryRunCounts(cfg, w, steps, id);
  }

  /** A poll past its cooldown whose listing has a malformed row: it raises before the purge. */
  predicate RaisingPoll(w: World, s: Step) {
    s.PollList? && !CoolingDown(w.proc, s.now) && s.listing.Some? && !WellFormed(s.listing.value)
  }

  /** The run consists of such polls. */
  predicate OnlyRaisingPolls(cfg: Config, w: World, steps: seq<Step>) {
    steps != [] ==>
      && OnlyRaisingPolls(cfg, w, steps[..|steps| - 1])
      && After(cfg, w, steps[..|steps| - 1]).Some?
      && RaisingPoll(After(cfg, w, steps[..|steps| - 1]).value, steps[|steps| - 1])
  }

  /** `delegation_results_waiting` of the heartbeat. */
  predicate ResultsWaiting(w: World) {
    w.proc.wakeInFlight || w.proc.retries != map[]
  }

  /** As long as every listing has a malformed row, every poll raises before it drops what is
      not harvested again: no retry ends, and a waiting result is waited for without end. */
  lemma {:induction false} MalformedRowsHoldRetries(cfg: Config, w: World, steps: seq<Step>)
    requires Quiet(w) && OnlyRaisingPolls(cfg, w, steps)
    ensures After(cfg, w, steps).Some?
    ensures var w' := After(cfg, w, steps).value;
            Quiet(w') && w'.proc.retries == w.proc.retries && (ResultsWaiting(w') <==> ResultsWaiting(w))
  {
    if steps == [] {
    } else {
      var init, s := steps[..|steps| - 1], steps[|steps| - 1];
      MalformedRowsHoldRetries(cfg, w, init);
      var before := After(cfg, w, init).value;
      AbortedIffMalformed(EnvOf(cfg, before, s.inFlight),
                          Pass(before.proc.seen, before.registered, before.proc.mem, [], false), s.listing.value);
      NoPassEffect(cfg, before, s);
    }
  }

  /** A poll drops the retries it does not harvest again if and only if it makes its pass:
      it is past its cooldown and has a listing without a malformed row. */
  lemma StaleRetryGoesIff(cfg: Config, w: World, s: Step, id: string)
    requires s.PollList? && Enabled(cfg, w, s) && id in w.proc.retries
    ensures id !in Do(cfg, w, s).proc.retries <==>
              && !CoolingDown(w.proc, s.now) && s.listing.Some? && WellFormed(s.listing.value)
              && id !in IdsOf(PassOf(EnvOf(cfg, w, s.inFlight), w.proc, w.registered, s.listing.value).results)
  {
    if s.listing.Some? {
      AbortedIffMalformed(EnvOf(cfg, w, s.inFlight), Pass(w.proc.seen, w.registered, w.proc.mem, [], false),
                          s.listing.value);
    }
    if Passes(cfg, w, s) {
      var p, buffer, extra := PassEffect(cfg, w, s);
    } else {
      NoPassEffect(cfg, w, s);
    }
  }

  // ---- only own, awaited results ---------------------------------------------

  /** The ids awaited since the last restart of a run: a new process awaits nothing. */
  function AwaitedIn(steps: seq<Step>): set<string> {
    if steps == [] then {} else AwaitedAfter(AwaitedIn(steps[..|steps| - 1]), steps[|steps| - 1])
  }

  function AwaitedAfter(awaited: set<string>, s: Step): set<string> {
    match s
    case Register(id) => awaited + {id}
    case PollList(_, _, inFlight, _, _) => awaited + inFlight.Keys
    case Restart => {}
    case _ => awaited
  }

  predicate OnlyAwaited(registered: seq<string>, awaited: set<string>) {
    forall id | id in registered :: id in awaited
  }

  /** Lines that are terminal results of this workspace with an awaited id. */
  predicate OwnAwaited(cfg: Config, awaited: set<string>, lines: seq<Line>) {
    forall l | l in lines :: l.Parsed? && l.record.delegationId in awaited
                             && l.record.sourceId == cfg.workspaceId && Terminal(l.record.status)
  }

  lemma PassAppendsOwn(cfg: Config, awaited: set<string>, w: World, s: Step) returns (extra: seq<Line>)
    requires OnlyAwaited(w.registered, awaited) && Enabled(cfg, w, s) && Passes(cfg, w, s)
    ensures OnlyAwaited(Do(cfg, w, s).registered, AwaitedAfter(awaited, s))
    ensures Do(cfg, w, s).appended == w.appended + extra && OwnAwaited(cfg, AwaitedAfter(awaited, s), extra)
  {
    var p, buffer, lines := PassEffect(cfg, w, s);
    assert forall l | l in lines :: l in buffer && l.record in p.results;
    extra := lines;
  }

  lemma StepAppendsOwn(cfg: Config, awaited: set<string>, w: World, s: Step) returns (extra: seq<Line>)
    requires OnlyAwaited(w.registered, awaited) && Enabled(cfg, w, s) && DistinctIds(w.pending)
    ensures OnlyAwaited(Do(cfg, w, s).registered, AwaitedAfter(awaited, s))
    ensures Do(cfg, w, s).appended == w.appended + extra && OwnAwaited(cfg, AwaitedAfter(awaited, s), extra)
  {
    extra := [];
    assert w.appended + [] == w.appended;
    if s.PollList? {
      if Passes(cfg, w, s) {
        extra := PassAppendsOwn(cfg, awaited, w, s);
      } else {
        NoPassEffect(cfg, w, s);
      }
    } else if s.WakeEnds? || s.BreakerDrops? {
      SettleAllAs(Settling(w.proc.seen, w.proc.retries, w.proc.written, w.registered), OutcomeOf(s), w.pending);
    }
  }

  lemma {:induction false} RegisteredAreAwaited(cfg: Config, steps: seq<Step>)
    requires After(cfg, FIRST_BOOT, steps).Some?
    ensures OnlyAwaited(After(cfg, FIRST_BOOT, steps).value.registered, AwaitedIn(steps))
  {
    if steps == [] {
    } else {
      var init, s := steps[..|steps| - 1], steps[|steps| - 1];
      RegisteredAreAwaited(cfg, init);
      RetriesStayRetryable(cfg, init);
      var extra := StepAppendsOwn(cfg, AwaitedIn(init), After(cfg, FIRST_BOOT, init).value, s);
    }
  }

  /** Whatever step a run takes next, each line it appends is a terminal result of this
      workspace whose id was awaited since the last restart. */
  lemma SurfacedWereAwaited(cfg: Config, steps: seq<Step>, s: Step)
    requires After(cfg, FIRST_BOOT, steps + [s]).Some?
    ensures After(cfg, FIRST_BOOT, steps).Some?
    ensures var before, after := After(cfg, FIRST_BOOT, steps).value, After(cfg, FIRST_BOOT, steps + [s]).value;
            && before.appended <= after.appended
            && OwnAwaited(cfg, AwaitedIn(steps + [s]), after.appended[|before.appended|..])
  {
    assert (steps + [s])[..|steps|] == steps;
    RegisteredAreAwaited(cfg, steps);
    RetriesStayRetryable(cfg, steps);
    var before := After(cfg, FIRST_BOOT, steps).value;
    var extra := StepAppendsOwn(cfg, AwaitedIn(steps), before, s);
    assert (before.appended + extra)[|before.appended|..] == extra;
  }

  // ---- a settled result is awaited no longer -----------------------------------

  /** The step ends the wake of an id and does not keep the id for another. */
  predicate Settles(w: World, s: Step, id: string) {
    && (s.WakeEnds? || s.BreakerDrops?) && id in IdsOf(w.pending)
    && !(OutcomeOf(s).Retry? && (if id in w.proc.retries then w.proc.retries[id] else 0) < 2)
  }

  /** Nobody awaits the id anew. */
  predicate Unawaited(steps: seq<Step>, id: string) {
    forall s | s in steps :: s != Register(id) && (s.PollList? ==> id !in s.inFlight)
  }

  predicate NoLineOf(lines: seq<Line>, id: string) {
    forall l | l in lines && l.Parsed? :: l.record.delegationId != id
  }

  predicate Forgotten(w: World, id: string) {
    id !in w.registered && id !in IdsOf(w.pending)
  }

  lemma PollKeepsForgotten(cfg: Config, w: World, s: Step, id: string) returns (extra: seq<Line>)
    requires Forgotten(w, id) && Enabled(cfg, w, s) && s.PollList? && id !in s.inFlight
    ensures Forgotten(Do(cfg, w, s), id)
    ensures Do(cfg, w, s).appended == w.appended + extra && NoLineOf(extra, id)
  {
    extra := [];
    assert w.appended + [] == w.appended;
    if Passes(cfg, w, s) {
      var p, buffer, lines := PassEffect(cfg, w, s);
      assert forall r | r in p.results :: r.delegationId in EnvOf(cfg, w, s.inFlight).active;
      assert forall l | l in lines :: l in buffer && l.record in p.results;
      extra := lines;
    } else {
      NoPassEffect(cfg, w, s);
    }
  }

  lemma StepKeepsForgotten(cfg: Config, w: World, s: Step, id: string) returns (extra: seq<Line>)
    requires RetryInv(w) && Forgotten(w, id) && Enabled(cfg, w, s) && Unawaited([s], id)
    ensures Forgotten(Do(cfg, w, s), id)
    ensures Do(cfg, w, s).appended == w.appended + extra && NoLineOf(extra, id)
  {
    extra := [];
    assert w.appended + [] == w.appended && s in [s];
    if s.PollList? {
      extra := PollKeepsForgotten(cfg, w, s, id);
    } else if s.WakeEnds? || s.BreakerDrops? {
      SettleAllAs(Settling(w.proc.seen, w.proc.retries, w.proc.written, w.registered), OutcomeOf(s), w.pending);
    }
  }

  lemma {:induction false} ForgottenStaysSilent(cfg: Config, w: World, steps: seq<Step>, id: string)
    returns (extra: seq<Line>)
    requires RetryInv(w) && Forgotten(w, id) && After(cfg, w, steps).Some? && Unawaited(steps, id)
    ensures RetryInv(After(cfg, w, steps).value) && Forgotten(After(cfg, w, steps).value, id)
    ensures After(cfg, w, steps).value.appended == w.appended + extra && NoLineOf(extra, id)
  {
    if steps == [] {
      extra := [];
      assert w.appended + [] == w.appended;
    } else {
      var init, s := steps[..|steps| - 1], steps[|steps| - 1];
      assert s in steps && forall x | x in init :: x in steps;
      extra := ForgottenStaysSilent(cfg, w, init, id);
      RetryStepKeeps(cfg, After(cfg, w, init).value, s);
      var last := StepKeepsForgotten(cfg, After(cfg, w, init).value, s, id);
      Associate(w.appended, extra, last);
      extra := extra + last;
    }
  }

  /** Once the wake of a result has ended and is not sent again, no continuation appends a
      line for its id or holds it for a wake, whatever the seen set has forgotten by then,
      until the id is registered or in flight anew. */
  lemma SettledStaysSilent(cfg: Config, before: seq<Step>, s: Step, more: seq<Step>, id: string)
    returns (extra: seq<Line>)
    requires After(cfg, FIRST_BOOT, before).Some?
    requires var w := After(cfg, FIRST_BOOT, before).value;
             && Enabled(cfg, w, s) && Settles(w, s, id)
             && After(cfg, Do(cfg, w, s), more).Some? && Unawaited(more, id)
    ensures var w := Do(cfg, After(cfg, FIRST_BOOT, before).value, s);
            var w' := After(cfg, w, more).value;
            && id !in w.registered && id !in w'.registered && id !in IdsOf(w'.pending)
            && w'.appended == w.appended + extra && NoLineOf(extra, id)
  {
    var w := After(cfg, FIRST_BOOT, before).value;
    RetriesStayRetryable(cfg, before);
    RetryStepKeeps(cfg, w, s);
    SettleAllAs(Settling(w.proc.seen, w.proc.retries, w.proc.written, w.registered), OutcomeOf(s), w.pending);
    extra := ForgottenStaysSilent(cfg, Do(cfg, w, s), more, id);
  }

  // ---- tombstones --------------------------------------------------------------

  /** The kernel is on, the ids awaited survive the file format, every append that writes a
      line flushes it, and every save succeeds without overflowing. */
  predicate Durable(cfg: Config, w: World, s: Step) {
    && cfg.kernelOn
    && match s
       case Register(id) => id != "" ==> CleanId(id)
       case PollList(_, _, inFlight, _, failure) =>
         (forall id | id in inFlight :: CleanId(id)) && (failure.Some? ==> failure.value.unflushed == 0)
       case BreakerDrops(save) => DurableSave(w, save)
       case WakeEnds(_, save) => DurableSave(w, save)
       case _ => true
  }

  predicate DurableSave(w: World, save: Save) {
    save.failedLeaving.None? && |Loaded(w.proc.mem, w.tombText) + KeysOf(w.pending)| <= MAX_HARVEST_TOMBSTONES
  }

  predicate DurableRun(cfg: Config, w: World, steps: seq<Step>) {
    steps != [] ==>
      && DurableRun(cfg, w, steps[..|steps| - 1])
      && var before := After(cfg, w, steps[..|steps| - 1]);
      before.Some? && Enabled(cfg, before.value, steps[|steps| - 1]) && Durable(cfg, before.value, steps[|steps| - 1])
  }

  lemma DurableRunRuns(cfg: Config, w: World, steps: seq<Step>)
    requires DurableRun(cfg, w, steps)
    ensures After(cfg, w, steps).Some?
  {
  }

  predicate CleanKey(k: Key) {
    CleanId(k.0) && Terminal(k.1)
  }

  ghost predicate TombInv(w: World) {
    && Parse(w.tombText) == w.woken
    && (w.proc.mem.Some? ==> w.proc.mem.value == w.woken)
    && w.woken <= LineKeys(w.appended) && w.proc.written <= LineKeys(w.appended)
         && KeysOf(w.pending) <= LineKeys(w.appended)
    && KeysOf(w.pending) !! w.woken
    && (forall k | k in w.woken :: CleanKey(k))
    && (forall k | k in KeysOf(w.pending) :: CleanKey(k))
    && (forall id | id in w.registered :: CleanId(id))
    && DistinctIds(w.pending)
  }

  lemma LineKeysConcat(a: seq<Line>, b: seq<Line>)
    ensures LineKeys(a + b) == LineKeys(a) + LineKeys(b)
  {
    assert forall l :: l in a + b <==> l in a || l in b;
  }

  lemma TombPassKeeps(cfg: Config, w: World, s: Step) returns (extra: seq<Line>)
    requires TombInv(w) && Enabled(cfg, w, s) && Passes(cfg, w, s) && Durable(cfg, w, s)
    ensures TombInv(Do(cfg, w, s))
    ensures Do(cfg, w, s).appended == w.appended + extra && LineKeys(extra) !! w.woken
  {
    var p, buffer;
    p, buffer, extra := PassEffect(cfg, w, s);
    assert extra == buffer;
    LineKeysConcat(w.appended, extra);
    forall k | k in KeysOf(p.results) ensures CleanKey(k) && k !in w.woken {
      var r :| r in p.results && KeyOf(r) == k;
      assert Surfaced(EnvOf(cfg, w, s.inFlight), Pass(w.proc.seen, w.registered, w.proc.mem, [], false), r);
    }
    forall k | k in LineKeys(extra) ensures k in KeysOf(p.results) {
      var l :| l in extra && l.Parsed? && KeyOf(l.record) == k;
      assert l.record in p.results;
    }
  }

  lemma TombNoPassKeeps(cfg: Config, w: World, s: Step)
    requires TombInv(w) && s.PollList? && Enabled(cfg, w, s) && !Passes(cfg, w, s)
    ensures TombInv(Do(cfg, w, s)) && Do(cfg, w, s).appended == w.appended
  {
    NoPassEffect(cfg, w, s);
  }

  lemma CommitParses(mem: Option<set<Key>>, text: string, keys: set<Key>, save: Save)
    requires SavePlan(save, Loaded(mem, text) + keys) && save.failedLeaving.None?
    requires |Loaded(mem, text) + keys| <= MAX_HARVEST_TOMBSTONES
    requires forall k | k in Loaded(mem, text) + keys :: CleanKey(k)
    ensures save.kept == Loaded(mem, text) + keys && SavedText(save) == TextOf(save.order)
    ensures Parse(TextOf(save.order)) == Loaded(mem, text) + keys
  {
    assert (set k | k in save.order) == save.kept;
    forall k | k in save.order ensures CleanKey(k) {
      assert k in (set x | x in save.order);
    }
    CleanKeysParse(save.order);
  }

  lemma CommittedKeys(w: World, save: Save)
    requires TombInv(w) && w.pending != [] && Plans(Config("", true), w, save) && DurableSave(w, save)
    ensures Committed(true, w.proc.mem, w.tombText, KeysOf(w.pending), save).0 == Some(w.woken + KeysOf(w.pending))
    ensures Parse(Committed(true, w.proc.mem, w.tombText, KeysOf(w.pending), save).1) == w.woken + KeysOf(w.pending)
  {
    assert w.pending[0] in w.pending && KeyOf(w.pending[0]) in KeysOf(w.pending);
    assert Loaded(w.proc.mem, w.tombText) == w.woken;
    CommitParses(w.proc.mem, w.tombText, KeysOf(w.pending), save);
  }

  lemma SettleShrinks(cfg: Config, w: World, outcome: WakeOutcome, save: Save)
    requires DistinctIds(w.pending)
    ensures var w' := Settle(cfg, w, outcome, save);
            && w'.pending == [] && w'.appended == w.appended && w'.proc.written <= w.proc.written
            && (forall id | id in w'.registered :: id in w.registered)
  {
    SettleAllAs(Settling(w.proc.seen, w.proc.retries, w.proc.written, w.registered), outcome, w.pending);
  }

  lemma TombSettleKeeps(cfg: Config, w: World, s: Step)
    requires TombInv(w) && (s.WakeEnds? || s.BreakerDrops?) && Enabled(cfg, w, s) && Durable(cfg, w, s)
    ensures TombInv(Do(cfg, w, s)) && Do(cfg, w, s).appended == w.appended
    ensures w.woken <= Do(cfg, w, s).woken
  {
    var w' := Settle(cfg, w, OutcomeOf(s), s.save);
    SettleShrinks(cfg, w, OutcomeOf(s), s.save);
    assert KeysOf([]) == {};
    if Commits(OutcomeOf(s)) {
      CommittedKeys(w, s.save);
      assert w'.woken == w.woken + KeysOf(w.pending);
    } else {
      assert w'.woken == w.woken && w'.tombText == w.tombText && w'.proc.mem == w.proc.mem;
    }
  }

  lemma TombRegisterKeeps(cfg: Config, w: World, id: string)
    requires TombInv(w) && (id != "" ==> CleanId(id))
    ensures TombInv(Do(cfg, w, Register(id)))
  {
    RegisteredFrom(w.registered, id);
  }

  /** Forgetting the pending results, the recorded keys and the tombstones in memory is safe. */
  lemma TombForgetKeeps(w: World, v: World)
    requires TombInv(w) && v.pending == [] && v.registered == [] && v.proc.mem.None? && v.proc.written == {}
    requires v.tombText == w.tombText && v.woken == w.woken && v.appended == w.appended
    ensures TombInv(v)
  {
    assert KeysOf(v.pending) == {};
  }

  lemma TombOtherKeeps(cfg: Config, w: World, s: Step)
    requires TombInv(w) && Enabled(cfg, w, s) && Durable(cfg, w, s)
    requires s.Register? || s.WakeStarts? || s.ReadResults? || s.Restart?
    ensures TombInv(Do(cfg, w, s)) && Do(cfg, w, s).appended == w.appended && Do(cfg, w, s).woken == w.woken
  {
    if s.Register? {
      TombRegisterKeeps(cfg, w, s.id);
    } else if s.Restart? {
      TombForgetKeeps(w, Do(cfg, w, s));
    }
  }

  lemma TombStepKeeps(cfg: Config, w: World, s: Step) returns (extra: seq<Line>)
    requires TombInv(w) && Enabled(cfg, w, s) && Durable(cfg, w, s)
    ensures TombInv(Do(cfg, w, s)) && w.woken <= Do(cfg, w, s).woken
    ensures Do(cfg, w, s).appended == w.appended + extra && LineKeys(extra) !! w.woken
  {
    if s.PollList? && Passes(cfg, w, s) {
      extra := TombPassKeeps(cfg, w, s);
    } else {
      extra := [];
      assert w.appended + [] == w.appended && LineKeys([]) == {};
      if s.PollList? {
        TombNoPassKeeps(cfg, w, s);
      } else if s.WakeEnds? || s.BreakerDrops? {
        TombSettleKeeps(cfg, w, s);
      } else {
        TombOtherKeeps(cfg, w, s);
      }
    }
  }

  /** Over every durable run, the tombstone file holds exactly the results whose wake was
      delivered or dropped, each of them appended before; and none of them is pending. */
  lemma {:induction false} TombstonesAreTheWoken(cfg: Config, steps: seq<Step>)
    requires DurableRun(cfg, FIRST_BOOT, steps)
    ensures After(cfg, FIRST_BOOT, steps).Some? && TombInv(After(cfg, FIRST_BOOT, steps).value)
  {
    DurableRunRuns(cfg, FIRST_BOOT, steps);
    if steps == [] {
      RoundTripIffClean([]);
      assert LineKeys([]) == {} && KeysOf([]) == {};
    } else {
      var init, s := steps[..|steps| - 1], steps[|steps| - 1];
      TombstonesAreTheWoken(cfg, init);
      var extra := TombStepKeeps(cfg, After(cfg, FIRST_BOOT, init).value, s);
    }
  }

  /** From `w` to `v`: `k` has its tombstone still, and was neither appended nor is pending. */
  ghost predicate SilentSince(w: World, v: World, k: Key) {
    && k in Parse(v.tombText) && k !in KeysOf(v.pending)
    && w.appended <= v.appended && k !in LineKeys(v.appended[|w.appended|..])
  }

  lemma SilentExtends(w: World, v: World, u: World, more: seq<Line>, k: Key)
    requires SilentSince(w, v, k) && u.appended == v.appended + more && k !in LineKeys(more)
    requires k in Parse(u.tombText) && k !in KeysOf(u.pending)
    ensures SilentSince(w, u, k)
  {
    LineKeysConcat(v.appended[|w.appended|..], more);
    assert u.appended[|w.appended|..] == v.appended[|w.appended|..] + more;
  }

  lemma SilentStep(cfg: Config, w: World, v: World, s: Step, k: Key)
    requires TombInv(v) && SilentSince(w, v, k) && Enabled(cfg, v, s) && Durable(cfg, v, s)
    ensures TombInv(Do(cfg, v, s)) && SilentSince(w, Do(cfg, v, s), k)
  {
    var more := TombStepKeeps(cfg, v, s);
    SilentExtends(w, v, Do(cfg, v, s), more, k);
  }

  /** Once (id, status) has a tombstone, no continuation of the run, restarts included,
      appends it or holds it for a wake again. */
  lemma {:induction false} TombstonedStaysSilent(cfg: Config, w: World, steps: seq<Step>, k: Key)
    requires TombInv(w) && DurableRun(cfg, w, steps) && k in Parse(w.tombText)
    ensures After(cfg, w, steps).Some? && TombInv(After(cfg, w, steps).value)
    ensures SilentSince(w, After(cfg, w, steps).value, k)
  {
    if steps == [] {
      assert w.appended[|w.appended|..] == [] && LineKeys([]) == {};
    } else {
      var init := steps[..|steps| - 1];
      TombstonedStaysSilent(cfg, w, init, k);
      SilentStep(cfg, w, After(cfg, w, init).value, steps[|steps| - 1], k);
    }
  }

  // ---- one line per episode ------------------------------------------------------

  function Bit(b: bool): nat {
    if b then 1 else 0
  }

  /** In every state of the run, `k` stays in `written` once it is there. */
  predicate Holds(cfg: Config, w: World, steps: seq<Step>, k: Key) {
    && After(cfg, w, steps).Some?
    && (steps != [] ==>
          && Holds(cfg, w, steps[..|steps| - 1], k)
          && (k in After(cfg, w, steps[..|steps| - 1]).value.proc.written ==>
                k in After(cfg, w, steps).value.proc.written))
  }

  /** The poll writes the line of `k` and does not flush it. */
  predicate Loses(cfg: Config, w: World, s: Step, k: Key) {
    && Passes(cfg, w, s)
    && k in LineKeys(BufferOf(cfg, w, s)) && k !in LineKeys(Flushed(BufferOf(cfg, w, s), s.failure))
  }

  /** How often the run loses the line of `k`. */
  function Losses(cfg: Config, w: World, steps: seq<Step>, k: Key): nat {
    if steps == [] then 0
    else
      var before := After(cfg, w, steps[..|steps| - 1]);
      Losses(cfg, w, steps[..|steps| - 1], k)
      + if before.Some? && Loses(cfg, before.value, steps[|steps| - 1], k) then 1 else 0
  }

  lemma {:induction false} CountOfPresent(lines: seq<Line>, k: Key)
    ensures Count(lines, k) > 0 <==> k in LineKeys(lines)
  {
    if lines == [] {
      assert LineKeys(lines) == {};
    } else {
      var init, l := lines[..|lines| - 1], lines[|lines| - 1];
      CountOfPresent(init, k);
      assert lines == init + [l];
      LineKeysConcat(init, [l]);
      assert l in [l];
    }
  }

  /** Flushing a part of a buffer that holds the line once keeps it or loses it. */
  lemma FlushedCount(buffer: seq<Line>, failure: Option<AppendFailure>, k: Key)
    requires Count(buffer, k) <= 1
    ensures Count(Flushed(buffer, failure), k)
         == Count(buffer, k) - Bit(k in LineKeys(buffer) && k !in LineKeys(Flushed(buffer, failure)))
  {
    var kept := Flushed(buffer, failure);
    assert buffer == kept + buffer[|kept|..];
    CountConcat(kept, buffer[|kept|..], k);
    CountOfPresent(buffer, k);
    CountOfPresent(kept, k);
  }

  lemma EpisodeStep(cfg: Config, w: World, s: Step, k: Key)
    requires Enabled(cfg, w, s) && DistinctIds(w.pending)
    requires k in w.proc.written ==> k in Do(cfg, w, s).proc.written
    ensures Count(Do(cfg, w, s).appended, k) + Bit(k in w.proc.written) + Bit(Loses(cfg, w, s, k))
         == Count(w.appended, k) + Bit(k in Do(cfg, w, s).proc.written)
  {
    if s.PollList? {
      if Passes(cfg, w, s) {
        var p, buffer, extra := PassEffect(cfg, w, s);
        CountConcat(w.appended, extra, k);
        FlushedCount(buffer, s.failure, k);
      } else {
        NoPassEffect(cfg, w, s);
      }
    } else if s.WakeEnds? || s.BreakerDrops? {
      SettleAllAs(Settling(w.proc.seen, w.proc.retries, w.proc.written, w.registered), OutcomeOf(s), w.pending);
    }
  }

  /** However many appends fail part-way and wakes are retried, an episode appends the line
      of a result once: when its key is recorded. It is never appended twice, and it is not
      appended at all if and only if that append did not flush it. */
  lemma {:induction false} EpisodeAppendsOnce(cfg: Config, w: World, steps: seq<Step>, k: Key)
    requires RetryInv(w) && Holds(cfg, w, steps, k)
    ensures RetryInv(After(cfg, w, steps).value)
    ensures Count(After(cfg, w, steps).value.appended, k) + Bit(k in w.proc.written) + Losses(cfg, w, steps, k)
         == Count(w.appended, k) + Bit(k in After(cfg, w, steps).value.proc.written)
  {
    if steps == [] {
    } else {
      var init, s := steps[..|steps| - 1], steps[|steps| - 1];
      EpisodeAppendsOnce(cfg, w, init, k);
      EpisodeStep(cfg, After(cfg, w, init).value, s, k);
      RetryStepKeeps(cfg, After(cfg, w, init).value, s);
    }
  }

  lemma {:induction false} WritesAtMostOneEach(j: Journal, results: seq<Record>)
    ensures |WriteAll(j, results).lines| <= |j.lines| + |results|
  {
    if results == [] {
    } else {
      WritesAtMostOneEach(j, results[..|results| - 1]);
    }
  }

  /** An append that fails only when the file is closed, with nothing flushed, leaves the file
      as it was but every key recorded: with EpisodeAppendsOnce, no later append of the
      episode makes up for it. */
  lemma UnflushedResultIsLost(env: PollEnv, proc: Proc, registered: seq<string>, lines: seq<Line>,
                              now: real, rows: seq<Listed>, kept: set<string>, r: Record)
    requires !CoolingDown(proc, now) && WellFormed(rows)
    requires r in PassOf(env, proc, registered, rows).results
    ensures var n := |PassOf(env, proc, registered, rows).results|;
            var after := Poll(env, proc, registered, lines, now, Some(rows), kept, Some(AppendFailure(n, n)));
            && after.lines == lines && after.results == []
            && KeyOf(r) in after.proc.written && r.delegationId !in after.proc.seen
  {
    AbortedIffMalformed(env, Pass(proc.seen, registered, proc.mem, [], false), rows);
    var results := PassOf(env, proc, registered, rows).results;
    var start := Journal([], PurgedWritten(proc.written, proc.retries, results));
    assert results[..|results|] == results;
    WritesAtMostOneEach(start, results);
    var buffer := WriteAllAppends(start, results);
    assert KeyOf(r) in KeysOf(results);
    assert lines + [] == lines;
  }

  /** An episode ends with a restart, with a wake that is not retried, or with a poll that
      no longer harvests the id while it waits for its retry; with nothing else. */
  lemma EpisodeEndsIff(cfg: Config, w: World, s: Step, k: Key)
    requires RetryInv(w) && Enabled(cfg, w, s) && k in w.proc.written
    ensures k !in Do(cfg, w, s).proc.written <==>
              || s.Restart?
              || ((s.WakeEnds? || s.BreakerDrops?) && k in KeysOf(w.pending)
                  && !(OutcomeOf(s).Retry? && (if k.0 in w.proc.retries then w.proc.retries[k.0] else 0) < 2))
              || (Passes(cfg, w, s) && k.0 in w.proc.retries
                  && k.0 !in IdsOf(PassOf(EnvOf(cfg, w, s.inFlight), w.proc, w.registered, s.listing.value).results))
  {
    if s.PollList? {
      if Passes(cfg, w, s) {
        var p, buffer, extra := PassEffect(cfg, w, s);
      } else {
        NoPassEffect(cfg, w, s);
      }
    } else if s.WakeEnds? || s.BreakerDrops? {
      SettleAllAs(Settling(w.proc.seen, w.proc.retries, w.proc.written, w.registered), OutcomeOf(s), w.pending);
    }
  }

  // ---- the results file as a queue -----------------------------------------------

  ghost predicate Balanced(handed: seq<Line>, lost: seq<Line>, queue: seq<Line>, appended: seq<Line>) {
    && multiset(handed) + multiset(lost) + multiset(queue) == multiset(appended)
    && |handed| + |lost| + |queue| == |appended|
    && (lost == [] ==> handed + queue == appended)
  }

  ghost predicate Ledger(w: World) {
    Balanced(w.handed, w.lost, w.queue, w.appended)
  }

  lemma BalancedAppend(handed: seq<Line>, lost: seq<Line>, queue: seq<Line>, appended: seq<Line>, extra: seq<Line>)
    requires Balanced(handed, lost, queue, appended)
    ensures Balanced(handed, lost, queue + extra, appended + extra)
  {
    assert handed + (queue + extra) == (handed + queue) + extra;
  }

  lemma BalancedRead(handed: seq<Line>, lost: seq<Line>, queue: seq<Line>, appended: seq<Line>, how: ReadOutcome)
    requires Balanced(handed, lost, queue, appended)
    ensures Balanced(handed + Handed(queue, how), lost + Lost(queue, how), Left(queue, how), appended)
  {
    assert handed + [] == handed && lost + [] == lost;
    assert (handed + queue) + [] == handed + queue;
  }

  lemma LedgerStep(cfg: Config, w: World, s: Step)
    requires Ledger(w) && Enabled(cfg, w, s)
    ensures Ledger(Do(cfg, w, s))
  {
    if s.PollList? {
      if Passes(cfg, w, s) {
        var p, buffer, extra := PassEffect(cfg, w, s);
        BalancedAppend(w.handed, w.lost, w.queue, w.appended, extra);
      } else {
        NoPassEffect(cfg, w, s);
      }
    } else if s.ReadResults? {
      BalancedRead(w.handed, w.lost, w.queue, w.appended, s.how);
    }
  }

  /** A read that loses lines: its file cannot be read, or a line makes it raise. */
  predicate LosingRead(w: World, s: Step) {
    s.ReadResults? && w.queue != [] && (s.how.ReadFailed? || (s.how.ReadOk? && !Readable(w.queue)))
  }

  predicate NoLosingRead(cfg: Config, w: World, steps: seq<Step>) {
    steps != [] ==>
      && NoLosingRead(cfg, w, steps[..|steps| - 1])
      && var before := After(cfg, w, steps[..|steps| - 1]);
      before.Some? && !LosingRead(before.value, steps[|steps| - 1])
  }

  /** No line is duplicated or invented; and the lines handed out, then those still in the
      file, are the lines appended, in order, if and only if the run has no losing read. */
  lemma {:induction false} QueueLedger(cfg: Config, steps: seq<Step>)
    requires After(cfg, FIRST_BOOT, steps).Some?
    ensures var w := After(cfg, FIRST_BOOT, steps).value;
            && Ledger(w)
            && (w.lost == [] <==> NoLosingRead(cfg, FIRST_BOOT, steps))
            && (w.handed + w.queue == w.appended <==> NoLosingRead(cfg, FIRST_BOOT, steps))
  {
    if steps == [] {
    } else {
      var init, s := steps[..|steps| - 1], steps[|steps| - 1];
      QueueLedger(cfg, init);
      LedgerStep(cfg, After(cfg, FIRST_BOOT, init).value, s);
      LossStep(cfg, After(cfg, FIRST_BOOT, init).value, s);
    }
    var w := After(cfg, FIRST_BOOT, steps).value;
    assert w.handed + w.queue == w.appended ==> |w.handed| + |w.queue| == |w.appended|;
  }

  lemma LossStep(cfg: Config, w: World, s: Step)
    requires Enabled(cfg, w, s)
    ensures Do(cfg, w, s).lost == if LosingRead(w, s) then w.lost + w.queue else w.lost
  {
    if s.ReadResults? {
      assert w.lost + [] == w.lost;
    }
  }

  // ---- which results a poll surfaces ---------------------------------------------

  /** The pass marks the row's id seen, if it gets to the row with the id unseen. */
  predicate Marks(env: PollEnv, row: Listed) {
    row.Row? && row.id != "" && row.id in env.active && Terminal(row.status)
  }

  /** Row `i` is an own, awaited, terminal result that neither this process nor an earlier
      row has marked seen, and that has no tombstone. */
  predicate Due(env: PollEnv, start: Pass, rows: seq<Listed>, i: nat)
    requires i < |rows|
  {
    && Marks(env, rows[i]) && Surfaced(env, start, RecordOf(env, rows[i]))
    && (forall j | 0 <= j < i && Marks(env, rows[j]) :: rows[j].id != rows[i].id)
  }

  lemma {:induction false} SeenIffMarked(env: PollEnv, start: Pass, rows: seq<Listed>, id: string)
    requires !start.aborted && WellFormed(rows)
    ensures id in HarvestRows(env, start, rows).seen
       <==> id in start.seen || exists j | 0 <= j < |rows| :: Marks(env, rows[j]) && rows[j].id == id
  {
    if rows == [] {
    } else {
      var init, last := rows[..|rows| - 1], rows[|rows| - 1];
      assert forall j | 0 <= j < |init| :: init[j] == rows[j];
      assert WellFormed(init);
      SeenIffMarked(env, start, init, id);
      AbortedIffMalformed(env, start, init);
      if exists j | 0 <= j < |init| :: Marks(env, init[j]) && init[j].id == id {
        var j :| 0 <= j < |init| && Marks(env, init[j]) && init[j].id == id;
        assert Marks(env, rows[j]);
      }
      assert id in HarvestRow(env, HarvestRows(env, start, init), last).seen
        <==> id in HarvestRows(env, start, init).seen || (Marks(env, last) && last.id == id);
    }
  }

  lemma DueInPrefix(env: PollEnv, start: Pass, rows: seq<Listed>, n: nat, i: nat)
    requires i < n <= |rows|
    ensures Due(env, start, rows[..n], i) <==> Due(env, start, rows, i)
  {
    assert forall j | 0 <= j <= i :: rows[..n][j] == rows[j];
  }

  /** The last row is surfaced exactly if it is due. */
  lemma LastIsSurfacedIffDue(env: PollEnv, start: Pass, rows: seq<Listed>)
    requires rows != [] && !start.aborted && start.results == [] && WellFormed(rows)
    ensures var before, n := HarvestRows(env, start, rows[..|rows| - 1]), |rows| - 1;
            HarvestRows(env, start, rows).results
            == if Due(env, start, rows, n) then before.results + [RecordOf(env, rows[n])] else before.results
  {
    var init, last := rows[..|rows| - 1], rows[|rows| - 1];
    assert forall j | 0 <= j < |init| :: init[j] == rows[j];
    assert WellFormed(init);
    AbortedIffMalformed(env, start, init);
    PassKeeps(env, start, init);
    if Marks(env, last) {
      SeenIffMarked(env, start, init, last.id);
    }
  }

  /** A pass over a well-formed listing surfaces the due rows and nothing else. */
  lemma {:induction false} SurfacedIffDue(env: PollEnv, start: Pass, rows: seq<Listed>, r: Record)
    requires !start.aborted && start.results == [] && WellFormed(rows)
    ensures r in HarvestRows(env, start, rows).results
       <==> exists i | 0 <= i < |rows| :: Due(env, start, rows, i) && r == RecordOf(env, rows[i])
  {
    if rows == [] {
    } else {
      var n := |rows| - 1;
      assert forall j | 0 <= j < n :: rows[..n][j] == rows[j];
      assert WellFormed(rows[..n]);
      SurfacedIffDue(env, start, rows[..n], r);
      LastIsSurfacedIffDue(env, start, rows);
      forall i | 0 <= i < n ensures Due(env, start, rows[..n], i) <==> Due(env, start, rows, i) {
        DueInPrefix(env, start, rows, n, i);
      }
      if r in HarvestRows(env, start, rows[..n]).results {
        var i :| 0 <= i < n && Due(env, start, rows[..n], i) && r == RecordOf(env, rows[..n][i]);
        assert Due(env, start, rows, i) && r == RecordOf(env, rows[i]);
      }
    }
  }

  /** The pass gets to row `i`, an own, awaited, terminal result not marked seen so far, and
      finds its tombstone. */
  predicate FindsTombstone(env: PollEnv, start: Pass, rows: seq<Listed>, i: nat)
    requires i < |rows|
  {
    && WellFormed(rows[..i + 1]) && Marks(env, rows[i]) && rows[i].sourceId == env.workspaceId
    && rows[i].id !in start.seen && env.kernelOn
    && (rows[i].id, rows[i].status) in Loaded(start.mem, env.tombText)
    && (forall j | 0 <= j < i && Marks(env, rows[j]) :: rows[j].id != rows[i].id)
  }

  lemma FindsInPrefix(env: PollEnv, start: Pass, rows: seq<Listed>, n: nat, i: nat)
    requires i < n <= |rows|
    ensures FindsTombstone(env, start, rows[..n], i) <==> FindsTombstone(env, start, rows, i)
  {
    assert rows[..n][..i + 1] == rows[..i + 1];
    assert forall j | 0 <= j <= i :: rows[..n][j] == rows[j];
  }

  lemma RowDiscardsIff(env: PollEnv, start: Pass, before: Pass, row: Listed)
    requires PassInv(env, start, before) && !before.aborted
    ensures HarvestRow(env, before, row).registered ==
            if Marks(env, row) && row.sourceId == env.workspaceId && row.id !in before.seen && env.kernelOn
               && (row.id, row.status) in Loaded(start.mem, env.tombText)
            then Without(before.registered, row.id) else before.registered
  {
  }

  /** The last row discards its await exactly if the pass gets there and finds its tombstone. */
  lemma LastIsDiscardedIff(env: PollEnv, start: Pass, rows: seq<Listed>)
    requires rows != [] && !start.aborted && start.results == []
    ensures var before, n := HarvestRows(env, start, rows[..|rows| - 1]), |rows| - 1;
            HarvestRows(env, start, rows).registered
            == if FindsTombstone(env, start, rows, n) then Without(before.registered, rows[n].id)
               else before.registered
  {
    var init, last := rows[..|rows| - 1], rows[|rows| - 1];
    assert rows[..|init| + 1] == rows && rows == init + [last];
    assert forall j | 0 <= j < |init| :: init[j] == rows[j];
    AbortedIffMalformed(env, start, init);
    PassKeeps(env, start, init);
    if WellFormed(init) {
      RowDiscardsIff(env, start, HarvestRows(env, start, init), last);
      if Marks(env, last) {
        assert WellFormed(rows);
        SeenIffMarked(env, start, init, last.id);
      }
    } else {
      assert !WellFormed(rows);
    }
  }

  /** The pass finds the tombstone of some row of the id. */
  ghost predicate FindsTombstoneOf(env: PollEnv, start: Pass, rows: seq<Listed>, id: string) {
    exists i | 0 <= i < |rows| :: FindsTombstone(env, start, rows, i) && rows[i].id == id
  }

  lemma FindsSnoc(env: PollEnv, start: Pass, rows: seq<Listed>, id: string)
    requires rows != []
    ensures var n := |rows| - 1;
            FindsTombstoneOf(env, start, rows, id)
            <==> FindsTombstoneOf(env, start, rows[..n], id)
                 || (FindsTombstone(env, start, rows, n) && rows[n].id == id)
  {
    var n := |rows| - 1;
    if FindsTombstoneOf(env, start, rows[..n], id) {
      var i :| 0 <= i < n && FindsTombstone(env, start, rows[..n], i) && rows[..n][i].id == id;
      FindsInPrefix(env, start, rows, n, i);
      assert rows[i].id == id;
    }
    if FindsTombstoneOf(env, start, rows, id) {
      var i :| 0 <= i < |rows| && FindsTombstone(env, start, rows, i) && rows[i].id == id;
      if i < n {
        FindsInPrefix(env, start, rows, n, i);
        assert rows[..n][i].id == id;
      }
    }
  }

  /** A pass ends the await of an id if and only if it finds the tombstone of a row of it. */
  lemma {:induction false} AwaitEndsIffTombstoned(env: PollEnv, start: Pass, rows: seq<Listed>, id: string)
    requires !start.aborted && start.results == []
    ensures id in HarvestRows(env, start, rows).registered <==>
              id in start.registered && !FindsTombstoneOf(env, start, rows, id)
  {
    if rows == [] {
    } else {
      AwaitEndsIffTombstoned(env, start, rows[..|rows| - 1], id);
      LastIsDiscardedIff(env, start, rows);
      FindsSnoc(env, start, rows, id);
    }
  }

  /** A poll of a listing with due rows wakes for any of them if and only if the last wake
      began a minute ago or more, no row of the listing is malformed and no due row has a null
      summary; and then for all of them. */
  lemma WakesForDueIff(env: PollEnv, proc: Proc, registered: seq<string>, lines: seq<Line>,
                       now: real, rows: seq<Listed>, kept: set<string>, i: nat)
    requires i < |rows| && Due(env, Pass(proc.seen, registered, proc.mem, [], false), rows, i)
    ensures var start := Pass(proc.seen, registered, proc.mem, [], false);
            var r := Poll(env, proc, registered, lines, now, Some(rows), kept, None);
            RecordOf(env, rows[i]) in r.results
            <==> && now >= proc.lastWake + 60.0 && WellFormed(rows)
                 && forall j | 0 <= j < |rows| && Due(env, start, rows, j) :: rows[j].summary.Some?
  {
    var start := Pass(proc.seen, registered, proc.mem, [], false);
    AbortedIffMalformed(env, start, rows);
    if WellFormed(rows) {
      var results := HarvestRows(env, start, rows).results;
      forall r
        ensures r in results <==> exists j | 0 <= j < |rows| :: Due(env, start, rows, j) && r == RecordOf(env, rows[j])
      {
        SurfacedIffDue(env, start, rows, r);
      }
      assert RecordOf(env, rows[i]) in results;
      forall j | 0 <= j < |rows| && Due(env, start, rows, j) ensures RecordOf(env, rows[j]) in results {
      }
    }
  }

  /** A malformed row after a due one: the due one is marked seen, nothing is appended. */
  lemma {:induction false} MalformedRowLosesResult(env: PollEnv, proc: Proc, registered: seq<string>, lines: seq<Line>,
                                                   now: real, rows: seq<Listed>, kept: set<string>, i: nat)
    requires !CoolingDown(proc, now) && i < |rows| && WellFormed(rows[..i + 1]) && !WellFormed(rows)
    requires Due(env, Pass(proc.seen, registered, proc.mem, [], false), rows, i)
    ensures var r := Poll(env, proc, registered, lines, now, Some(rows), kept, None);
            r.results == [] && r.lines == lines && rows[i].id in r.proc.seen
  {
    var start := Pass(proc.seen, registered, proc.mem, [], false);
    AbortedIffMalformed(env, start, rows);
    assert rows[..i + 1][i] == rows[i] && Marks(env, rows[..i + 1][i]);
    SeenIffMarked(env, start, rows[..i + 1], rows[i].id);
    SeenGrows(env, start, rows, i + 1);
  }

  lemma {:induction false} SeenGrows(env: PollEnv, start: Pass, rows: seq<Listed>, n: nat)
    requires n <= |rows|
    ensures HarvestRows(env, start, rows[..n]).seen <= HarvestRows(env, start, rows).seen
  {
    if n == |rows| {
      assert rows[..n] == rows;
    } else {
      SeenGrows(env, start, rows[..|rows| - 1], n);
      assert rows[..|rows| - 1][..n] == rows[..n];
    }
  }

  /** A due row with a null summary: the lines are appended and the results marked seen, but
      no wake is sent; and the next read of the file that succeeds loses all of it. */
  lemma NullSummaryLosesBatch(env: PollEnv, proc: Proc, registered: seq<string>, lines: seq<Line>,
                              now: real, rows: seq<Listed>, r: Record)
    requires !CoolingDown(proc, now) && WellFormed(rows) && r.summary.None?
    requires r in PassOf(env, proc, registered, rows).results
    requires KeyOf(r) !in proc.written
    ensures var seen := PassOf(env, proc, registered, rows).seen;
            var after := Poll(env, proc, registered, lines, now, Some(rows), seen, None);
            && after.results == [] && Parsed(r) in after.lines && r.delegationId in after.proc.seen
            && Handed(after.lines, ReadOk) == [] && Lost(after.lines, ReadOk) == after.lines
  {
    var start := Pass(proc.seen, registered, proc.mem, [], false);
    AbortedIffMalformed(env, start, rows);
    PassKeeps(env, start, rows);
    var results := PassOf(env, proc, registered, rows).results;
    var j := Journal([], PurgedWritten(proc.written, proc.retries, results));
    WritesNewResult(j, results, r);
    assert !Describable(results);
  }

  lemma {:induction false} WritesNewResult(j: Journal, results: seq<Record>, r: Record)
    requires DistinctIds(results) && r in results && KeyOf(r) !in j.written
    ensures Parsed(r) in WriteAll(j, results).lines
  {
    var init, last := results[..|results| - 1], results[|results| - 1];
    assert results == init + [last];
    if r in init {
      WritesNewResult(j, init, r);
    } else {
      var extra := WriteAllAppends(j, init);
      var k :| 0 <= k < |results| && results[k] == r;
      assert r == last;
      assert KeyOf(r) !in KeysOf(init);
    }
  }

  /** What is marked seen is not surfaced. */
  lemma SeenIsSkipped(env: PollEnv, proc: Proc, registered: seq<string>, lines: seq<Line>, now: real,
                      listing: Option<seq<Listed>>, kept: set<string>, failure: Option<AppendFailure>, id: string)
    requires id in proc.seen
    ensures id !in IdsOf(Poll(env, proc, registered, lines, now, listing, kept, failure).results)
  {
    if listing.Some? {
      PassKeeps(env, Pass(proc.seen, registered, proc.mem, [], false), listing.value);
    }
  }
}
