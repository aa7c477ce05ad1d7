/** The delegation-result harvester (molecule_runtime/heartbeat.py): one poll up to the
    append, and the settlement of the wake it sends. Between the two the coroutine awaits. */
module Harvester {
  import opened Wrappers
  import opened DelegationResults
  import opened Tombstones

  const MAX_SEEN_DELEGATION_IDS := 200
  const SELF_MESSAGE_COOLDOWN := 60.0
  const MAX_WAKE_ATTEMPTS := 3
  const MAX_HARVEST_TOMBSTONES := 4096
  const MAX_REGISTERED_AWAIT_IDS := 512

  /** An element of the listing: a row of strings whose summary may be null, or something
      `d.get` fails on. */
  datatype Listed =
    | Row(id: string, status: string, sourceId: string, targetId: string,
          summary: Option<string>, preview: string, error: string)
    | Malformed

  function KeyOf(r: Record): Key {
    (r.delegationId, r.status)
  }

  function IdsOf(results: seq<Record>): set<string> {
    set r | r in results :: r.delegationId
  }

  // ---- the await registry --------------------------------------------------

  function Registered(ids: seq<string>, id: string): seq<string> {
    if id == "" then ids
    else
      var stored := if id in ids then ids else ids + [id];
      if |stored| > MAX_REGISTERED_AWAIT_IDS then stored[|stored| - MAX_REGISTERED_AWAIT_IDS / 2..] else stored
  }

  lemma RegisteredFrom(ids: seq<string>, id: string)
    ensures forall x | x in Registered(ids, id) :: x in ids || (x == id && id != "")
  {
  }

  /** Registering keeps the order, adds the id once and last, ignores an empty id, and on
      overflow keeps the newest 256 of them. */
  lemma RegisteringKeepsNewest(ids: seq<string>, id: string)
    requires |ids| <= 512
    ensures var after := Registered(ids, id);
            && |after| <= 512 && (id == "" ==> after == ids) && (id != "" ==> id in after)
            && (id in ids ==> after == ids)
            && (id != "" && id !in ids && |ids| < 512 ==> after == ids + [id])
            && (id != "" && id !in ids && |ids| == 512 ==> after == ids[257..] + [id])
  {
    assert |ids| == 512 ==> (ids + [id])[257..] == ids[257..] + [id];
  }

  function Without(ids: seq<string>, id: string): (r: seq<string>)
    ensures forall x :: x in r <==> x in ids && x != id
  {
    if ids == [] then []
    else if ids[0] == id then Without(ids[1..], id)
    else [ids[0]] + Without(ids[1..], id)
  }

  class AwaitRegistry {
    var ids: seq<string>

    constructor ()
      ensures ids == []
    {
      ids := [];
    }

    method RegisterAwaitedDelegation(id: string)
      modifies this
      ensures ids == Registered(old(ids), id)
    {
      if id == "" {
        return;
      }
      if id !in ids {
        ids := ids + [id];
      }
      if |ids| > MAX_REGISTERED_AWAIT_IDS {
        ids := ids[|ids| - MAX_REGISTERED_AWAIT_IDS / 2..];
      }
    }

    method DiscardAwaitedDelegation(id: string)
      modifies this
      ensures ids == if id == "" then old(ids) else Without(old(ids), id)
    {
      if id != "" {
        ids := Without(ids, id);
      }
    }
  }

  // ---- harvesting the listing ----------------------------------------------

  /** What a poll reads and does not change: this workspace, the kernel switch, the ids it
      awaits, the in-flight registry with its targets, and the tombstone file. */
  datatype PollEnv = PollEnv(
    workspaceId: string,
    kernelOn: bool,
    active: set<string>,
    inFlight: map<string, string>,
    tombText: string
  )

  /** The tombstones in memory once loaded. */
  function Loaded(mem: Option<set<Key>>, tombText: string): set<Key> {
    if mem.Some? then mem.value else Parse(tombText)
  }

  /** The loop's variables; `aborted` once a malformed row has raised. */
  datatype Pass = Pass(
    seen: set<string>,
    registered: seq<string>,
    mem: Option<set<Key>>,
    results: seq<Record>,
    aborted: bool
  )

  function RecordOf(env: PollEnv, row: Listed): Record
    requires row.Row?
  {
    var target := if row.targetId != "" then row.targetId
                  else if row.id in env.inFlight then env.inFlight[row.id] else "";
    Record(row.id, target, row.sourceId, row.status, row.summary, row.preview, row.error)
  }

  function HarvestRow(env: PollEnv, p: Pass, row: Listed): Pass {
    if p.aborted then p
    else if row.Malformed? then p.(aborted := true)
    else if row.id == "" || row.id in p.seen || row.id !in env.active || !Terminal(row.status) then p
    else if row.sourceId != env.workspaceId then p.(seen := p.seen + {row.id})
    else
      var mem := if env.kernelOn then Some(Loaded(p.mem, env.tombText)) else p.mem;
      var p' := p.(seen := p.seen + {row.id}, mem := mem);
      if env.kernelOn && (row.id, row.status) in mem.value then
        p'.(registered := Without(p.registered, row.id))
      else
        p'.(results := p.results + [RecordOf(env, row)])
  }

  function HarvestRows(env: PollEnv, p: Pass, rows: seq<Listed>): Pass {
    if rows == [] then p
    else HarvestRow(env, HarvestRows(env, p, rows[..|rows| - 1]), rows[|rows| - 1])
  }

  /** The lines of an append and the keys recorded while their wake is unresolved. */
  datatype Journal = Journal(lines: seq<Line>, written: set<Key>)

  function WriteAll(j: Journal, results: seq<Record>): Journal {
    if results == [] then j
    else
      var before, r := WriteAll(j, results[..|results| - 1]), results[|results| - 1];
      if KeyOf(r) in before.written then before
      else Journal(before.lines + [Parsed(r)], before.written + {KeyOf(r)})
  }

  /** The process state of the loop. */
  datatype Proc = Proc(
    seen: set<string>,
    retries: map<string, nat>,
    written: set<Key>,
    mem: Option<set<Key>>,
    lastWake: real,
    wakeInFlight: bool
  )

  const FRESH_PROC := Proc({}, map[], {}, None, 0.0, false)

  function PurgedRetries(retries: map<string, nat>, results: seq<Record>): map<string, nat> {
    map id | id in retries && id in IdsOf(results) :: retries[id]
  }

  function PurgedWritten(written: set<Key>, retries: map<string, nat>, results: seq<Record>): set<Key> {
    set k | k in written && !(k.0 in retries && k.0 !in IdsOf(results))
  }

  /** Past the cap, the seen set is cut to a part of it that drops half the cap. */
  predicate SeenCut(seen: set<string>, kept: set<string>) {
    if |seen| > MAX_SEEN_DELEGATION_IDS
    then kept <= seen && |kept| == |seen| - MAX_SEEN_DELEGATION_IDS / 2
    else kept == seen
  }

  /** The cap of 200 costs 100 ids at a time. */
  lemma CutCostsHundred(seen: set<string>, kept: set<string>)
    requires SeenCut(seen, kept)
    ensures kept <= seen && |kept| == if |seen| > 200 then |seen| - 100 else |seen|
  {
  }

  datatype Polled = Polled(proc: Proc, registered: seq<string>, lines: seq<Line>, results: seq<Record>)

  /** The pass over the listing that a poll past its cooldown makes. */
  function PassOf(env: PollEnv, proc: Proc, registered: seq<string>, listing: seq<Listed>): Pass {
    HarvestRows(env, Pass(proc.seen, registered, proc.mem, [], false), listing)
  }

  predicate CoolingDown(proc: Proc, now: real) {
    now - proc.lastWake < SELF_MESSAGE_COOLDOWN
  }

  /** How an append fails: after how many results, and how many of the lines written last
      never leave the buffer. Keys are recorded as lines are written, not as they are flushed. */
  datatype AppendFailure = AppendFailure(after: nat, unflushed: nat)

  /** The results an append goes through. */
  function Reached(results: seq<Record>, failure: Option<AppendFailure>): (r: seq<Record>)
    ensures r <= results && (failure.None? ==> r == results)
  {
    if failure.Some? && failure.value.after <= |results| then results[..failure.value.after] else results
  }

  /** What of the buffered lines reaches the file. */
  function Flushed(buffer: seq<Line>, failure: Option<AppendFailure>): (r: seq<Line>)
    ensures r <= buffer && (failure.None? || failure.value.unflushed == 0 ==> r == buffer)
  {
    if failure.None? then buffer
    else if failure.value.unflushed <= |buffer| then buffer[..|buffer| - failure.value.unflushed]
    else []
  }

  /** The wake's text cuts each summary short, which raises on a null one. */
  predicate Describable(results: seq<Record>) {
    forall r | r in results :: r.summary.Some?
  }

  /** What follows a pass that no malformed row aborted: purge, cut, append. */
  function Finished(proc: Proc, p: Pass, lines: seq<Line>, kept: set<string>, failure: Option<AppendFailure>): Polled {
    var j := WriteAll(Journal([], PurgedWritten(proc.written, proc.retries, p.results)), Reached(p.results, failure));
    var seen := if failure.Some? then kept - IdsOf(p.results) else kept;
    Polled(proc.(seen := seen, mem := p.mem, retries := PurgedRetries(proc.retries, p.results), written := j.written),
           p.registered, lines + Flushed(j.lines, failure),
           if failure.Some? || !Describable(p.results) then [] else p.results)
  }

  /** One poll up to the end of the append. `listing` is None when the request failed;
      `kept` is what the cut of the seen set keeps; `failure` is how the append fails, if it
      does. The results returned are the ones a wake is due for. */
  function Poll(env: PollEnv, proc: Proc, registered: seq<string>, lines: seq<Line>,
                now: real, listing: Option<seq<Listed>>, kept: set<string>, failure: Option<AppendFailure>): Polled
  {
    if CoolingDown(proc, now) || listing.None? then Polled(proc, registered, lines, [])
    else
      var p := PassOf(env, proc, registered, listing.value);
      if p.aborted then Polled(proc.(seen := p.seen, mem := p.mem), p.registered, lines, [])
      else Finished(proc, p, lines, kept, failure)
  }

  // ---- settling the wake -----------------------------------------------------

  /** Delivered; dropped by the breaker; surely not received; or possibly received. */
  datatype WakeOutcome = Delivered | WakeDropped | Retry | Unknown

  datatype Settling = Settling(seen: set<string>, retries: map<string, nat>, written: set<Key>, registered: seq<string>)

  function Attempts(retries: map<string, nat>, id: string): nat {
    (if id in retries then retries[id] else 0) + 1
  }

  function SettleOne(s: Settling, outcome: WakeOutcome, r: Record): Settling {
    var id := r.delegationId;
    if outcome.Retry? && Attempts(s.retries, id) < MAX_WAKE_ATTEMPTS then
      s.(retries := s.retries[id := Attempts(s.retries, id)], seen := s.seen - {id})
    else
      s.(retries := s.retries - {id}, written := s.written - {KeyOf(r)}, registered := Without(s.registered, id))
  }

  function SettleAll(s: Settling, outcome: WakeOutcome, results: seq<Record>): Settling {
    if results == [] then s
    else SettleOne(SettleAll(s, outcome, results[..|results| - 1]), outcome, results[|results| - 1])
  }

  function KeysOf(results: seq<Record>): set<Key> {
    set r | r in results :: KeyOf(r)
  }

  /** How a save goes: in which order the tombstones are written, what an overflow keeps,
      and whether the write fails and leaves some other text. */
  datatype Save = Save(order: seq<Key>, kept: set<Key>, failedLeaving: Option<string>)

  predicate Enumerates(order: seq<Key>, keys: set<Key>) {
    && (forall i, j | 0 <= i < j < |order| :: order[i] != order[j])
    && (set k | k in order) == keys
  }

  predicate SavePlan(save: Save, tombstones: set<Key>) {
    && (if |tombstones| > MAX_HARVEST_TOMBSTONES
        then save.kept <= tombstones && |save.kept| == |tombstones| - MAX_HARVEST_TOMBSTONES / 2
        else save.kept == tombstones)
    && Enumerates(save.order, save.kept)
  }

  /** The cap of 4096 costs 2048 tombstones at a time. */
  lemma OverflowCostsHalf(save: Save, tombstones: set<Key>)
    requires SavePlan(save, tombstones)
    ensures save.kept <= tombstones
    ensures |save.kept| == if |tombstones| > 4096 then |tombstones| - 2048 else |tombstones|
  {
  }

  function SavedText(save: Save): string {
    if save.failedLeaving.Some? then save.failedLeaving.value else TextOf(save.order)
  }

  /** The tombstones in memory and on file after committing `keys`. */
  function Committed(kernelOn: bool, mem: Option<set<Key>>, tombText: string, keys: set<Key>,
      save: Save): (Option<set<Key>>, string) {
    if !kernelOn || keys == {} then (mem, tombText)
    else
      var before := Loaded(mem, tombText);
      if keys <= before then (Some(before), tombText) else (Some(save.kept), SavedText(save))
  }

  // ---- the loop as an object -------------------------------------------------

  class TombstoneFile {
    var text: string

    constructor (text: string)
      ensures this.text == text
    {
      this.text := text;
    }
  }

  class HeartbeatLoop {
    const workspaceId: string
    const kernelOn: bool
    const registry: AwaitRegistry
    const queue: ResultsFile
    const tombFile: TombstoneFile
    var seenDelegationIds: set<string>
    var wakeRetries: map<string, nat>
    var resultsWritten: set<Key>
    var harvestTombstones: set<Key>
    var harvestTombstonesLoaded: bool
    var lastSelfMessageTime: real
    var wakeInFlight: bool

    ghost function Mem(): Option<set<Key>>
      reads this
    {
      if harvestTombstonesLoaded then Some(harvestTombstones) else None
    }

    ghost function State(): Proc
      reads this
    {
      Proc(seenDelegationIds, wakeRetries, resultsWritten, Mem(), lastSelfMessageTime, wakeInFlight)
    }

    ghost predicate Valid()
      reads this
    {
      !harvestTombstonesLoaded ==> harvestTombstones == {}
    }

    constructor (workspaceId: string, kernelOn: bool, registry: AwaitRegistry, queue: ResultsFile,
        tombFile: TombstoneFile)
      ensures Valid() && State() == FRESH_PROC
      ensures this.workspaceId == workspaceId && this.kernelOn == kernelOn
      ensures this.registry == registry && this.queue == queue && this.tombFile == tombFile
    {
      this.workspaceId, this.kernelOn := workspaceId, kernelOn;
      this.registry, this.queue, this.tombFile := registry, queue, tombFile;
      seenDelegationIds, wakeRetries, resultsWritten := {}, map[], {};
      harvestTombstones, harvestTombstonesLoaded := {}, false;
      lastSelfMessageTime, wakeInFlight := 0.0, false;
    }

    /** True while harvested results have not reached the agent. */
    method DelegationResultsWaiting() returns (waiting: bool)
      ensures waiting <==> wakeInFlight || wakeRetries != map[]
    {
      waiting := wakeInFlight || wakeRetries != map[];
    }

    method LoadHarvestTombstones()
      requires Valid() && kernelOn
      modifies this`harvestTombstones, this`harvestTombstonesLoaded
      ensures Valid() && Mem() == Some(Loaded(old(Mem()), tombFile.text))
    {
      if harvestTombstonesLoaded {
        return;
      }
      harvestTombstonesLoaded := true;
      harvestTombstones := Parse(tombFile.text);
    }

    method IsHarvested(id: string, status: string) returns (r: bool)
      requires Valid()
      modifies this`harvestTombstones, this`harvestTombstonesLoaded
      ensures Valid()
      ensures Mem() == if kernelOn then Some(Loaded(old(Mem()), tombFile.text)) else old(Mem())
      ensures r <==> kernelOn && (id, status) in Loaded(old(Mem()), tombFile.text)
    {
      if !kernelOn {
        return false;
      }
      LoadHarvestTombstones();
      r := (id, status) in harvestTombstones;
    }

    method SaveHarvestTombstones(failedLeaving: Option<string>) returns (ghost save: Save)
      requires Valid() && harvestTombstonesLoaded
      modifies this`harvestTombstones, tombFile
      ensures Valid() && SavePlan(save, old(harvestTombstones)) && save.failedLeaving == failedLeaving
      ensures harvestTombstones == save.kept && tombFile.text == SavedText(save)
    {
      if |harvestTombstones| > MAX_HARVEST_TOMBSTONES {
        harvestTombstones := HalfDropped(harvestTombstones);
      }
      ghost var order;
      order, tombFile.text := WriteTombstones(harvestTombstones);
      save := Save(order, harvestTombstones, failedLeaving);
      if failedLeaving.Some? {
        tombFile.text := failedLeaving.value;
      }
    }

    static method HalfDropped(keys: set<Key>) returns (kept: set<Key>)
      requires |keys| > MAX_HARVEST_TOMBSTONES
      ensures kept <= keys && |kept| == |keys| - MAX_HARVEST_TOMBSTONES / 2
    {
      kept := keys;
      for i := 0 to MAX_HARVEST_TOMBSTONES / 2
        invariant kept <= keys && |kept| == |keys| - i
      {
        var k :| k in kept;
        kept := kept - {k};
      }
    }

    static method WriteTombstones(keys: set<Key>) returns (ghost order: seq<Key>, text: string)
      ensures Enumerates(order, keys) && text == TextOf(order)
    {
      var rest := keys;
      order, text := [], "";
      while rest != {}
        invariant rest <= keys && Enumerates(order, keys - rest) && text == TextOf(order)
        decreases |rest|
      {
        var k :| k in rest;
        TextOfSnoc(order, k);
        EnumeratesSnoc(order, keys - rest, k);
        text := text + (k.0 + "\t" + k.1 + "\n");
        order, rest := order + [k], rest - {k};
        assert keys - rest == keys - (rest + {k}) + {k};
      }
      assert keys - rest == keys;
    }

    method CommitHarvested(keys: set<Key>, failedLeaving: Option<string>) returns (ghost save: Save)
      requires Valid()
      modifies this`harvestTombstones, this`harvestTombstonesLoaded, tombFile
      ensures Valid()
      ensures (Mem(), tombFile.text) == Committed(kernelOn, old(Mem()), old(tombFile.text), keys, save)
      ensures kernelOn && !(keys <= Loaded(old(Mem()), old(tombFile.text))) ==>
                SavePlan(save, Loaded(old(Mem()), old(tombFile.text)) + keys) && save.failedLeaving == failedLeaving
    {
      save := Save([], {}, failedLeaving);
      if !kernelOn || keys == {} {
        return;
      }
      LoadHarvestTombstones();
      if !(keys <= harvestTombstones) {
        harvestTombstones := harvestTombstones + keys;
        save := SaveHarvestTombstones(failedLeaving);
      }
    }

    /** One row of a listing. */
    method HarvestOne(active: set<string>, inFlight: map<string, string>, results: seq<Record>, d: Listed)
      returns (results': seq<Record>)
      requires Valid() && d.Row?
      modifies this`seenDelegationIds, this`harvestTombstones, this`harvestTombstonesLoaded, registry
      ensures Valid()
      ensures Pass(seenDelegationIds, registry.ids, Mem(), results', false)
           == HarvestRow(PollEnv(workspaceId, kernelOn, active, inFlight, tombFile.text),
                         Pass(old(seenDelegationIds), old(registry.ids), old(Mem()), results, false), d)
    {
      results' := results;
      if d.id == "" || d.id in seenDelegationIds || d.id !in active {
        return;
      }
      if d.status in {"completed", "failed"} {
        seenDelegationIds := seenDelegationIds + {d.id};
        if d.sourceId != workspaceId {
          return;
        }
        var harvested := IsHarvested(d.id, d.status);
        if harvested {
          registry.DiscardAwaitedDelegation(d.id);
          return;
        }
        var target := if d.targetId != "" then d.targetId else if d.id in inFlight then inFlight[d.id] else "";
        results' := results + [Record(d.id, target, d.sourceId, d.status, d.summary, d.preview, d.error)];
      }
    }

    /** The pass over the rows of a listing. */
    method HarvestListing(active: set<string>, inFlight: map<string, string>, listing: seq<Listed>)
      returns (results: seq<Record>, aborted: bool)
      requires Valid()
      modifies this`seenDelegationIds, this`harvestTombstones, this`harvestTombstonesLoaded, registry
      ensures Valid()
      ensures Pass(seenDelegationIds, registry.ids, Mem(), results, aborted)
           == PassOf(PollEnv(workspaceId, kernelOn, active, inFlight, tombFile.text), old(State()),
               old(registry.ids), listing)
    {
      ghost var env := PollEnv(workspaceId, kernelOn, active, inFlight, tombFile.text);
      ghost var start := Pass(seenDelegationIds, registry.ids, Mem(), [], false);
      results, aborted := [], false;
      for i := 0 to |listing|
        invariant Valid() && !aborted
        invariant Pass(seenDelegationIds, registry.ids, Mem(), results, false) == HarvestRows(env, start, listing[..i])
      {
        assert listing[..i + 1][..i] == listing[..i];
        if listing[i].Malformed? {
          AbortIsFinal(env, start, listing, i + 1);
          return results, true;
        }
        results := HarvestOne(active, inFlight, results, listing[i]);
      }
      assert listing[..|listing|] == listing;
    }

    method PurgeRetries(results: seq<Record>)
      modifies this`wakeRetries, this`resultsWritten
      ensures wakeRetries == PurgedRetries(old(wakeRetries), results)
      ensures resultsWritten == PurgedWritten(old(resultsWritten), old(wakeRetries), results)
    {
      var stale := set id | id in wakeRetries && id !in IdsOf(results);
      while stale != {}
        invariant stale <= wakeRetries.Keys && forall id | id in stale :: id !in IdsOf(results)
        invariant PurgedRetries(wakeRetries, results) == PurgedRetries(old(wakeRetries), results)
        invariant PurgedWritten(resultsWritten, map id | id in stale :: 0, results)
               == PurgedWritten(old(resultsWritten), old(wakeRetries), results)
        invariant forall id | id in wakeRetries :: id in stale || id in IdsOf(results)
        decreases |stale|
      {
        var id :| id in stale;
        wakeRetries := wakeRetries - {id};
        resultsWritten := set k | k in resultsWritten && k.0 != id;
        stale := stale - {id};
      }
    }

    /** Appends the results not yet recorded: into a buffer, flushed when the file is closed. */
    method AppendResults(results: seq<Record>, failure: Option<AppendFailure>) returns (ok: bool)
      modifies this`resultsWritten, queue
      ensures ok <==> failure.None?
      ensures var j := WriteAll(Journal([], old(resultsWritten)), Reached(results, failure));
              resultsWritten == j.written && queue.lines == old(queue.lines) + Flushed(j.lines, failure)
    {
      ghost var start := Journal([], resultsWritten);
      var buffer: seq<Line> := [];
      var n := if failure.Some? && failure.value.after <= |results| then failure.value.after else |results|;
      for i := 0 to n
        invariant Journal(buffer, resultsWritten) == WriteAll(start, results[..i]) && queue.lines == old(queue.lines)
      {
        assert results[..i + 1][..i] == results[..i];
        var key := KeyOf(results[i]);
        if key !in resultsWritten {
          buffer := buffer + [Parsed(results[i])];
          resultsWritten := resultsWritten + {key};
        }
      }
      assert results[..|results|] == results;
      queue.lines := queue.lines + Flushed(buffer, failure);
      ok := failure.None?;
    }

    /** Appends the results and returns those a wake is due for; a failed append makes them
        unseen again, and a null summary raises when the wake's text is made. */
    method StoreResults(results: seq<Record>, failure: Option<AppendFailure>) returns (due: seq<Record>)
      modifies this`resultsWritten, this`seenDelegationIds, queue
      ensures var j := WriteAll(Journal([], old(resultsWritten)), Reached(results, failure));
              resultsWritten == j.written && queue.lines == old(queue.lines) + Flushed(j.lines, failure)
      ensures seenDelegationIds == if failure.Some? then old(seenDelegationIds) - IdsOf(results)
          else old(seenDelegationIds)
      ensures due == if failure.Some? || !Describable(results) then [] else results
    {
      due := [];
      if results == [] {
        assert IdsOf(results) == {} && Reached(results, failure) == [];
        assert queue.lines + [] == queue.lines;
        return;
      }
      var ok := AppendResults(results, failure);
      if !ok {
        seenDelegationIds := seenDelegationIds - IdsOf(results);
        return;
      }
      due := if Describable(results) then results else [];
    }

    method CutSeen() returns (ghost kept: set<string>)
      modifies this`seenDelegationIds
      ensures kept == seenDelegationIds && SeenCut(old(seenDelegationIds), kept)
    {
      if |seenDelegationIds| > MAX_SEEN_DELEGATION_IDS {
        var rest := seenDelegationIds;
        for i := 0 to MAX_SEEN_DELEGATION_IDS / 2
          invariant rest <= seenDelegationIds && |rest| == |seenDelegationIds| - i
        {
          var id :| id in rest;
          rest := rest - {id};
        }
        seenDelegationIds := rest;
      }
      kept := seenDelegationIds;
    }

    method PurgeAndCut(results: seq<Record>) returns (ghost kept: set<string>)
      modifies this`seenDelegationIds, this`wakeRetries, this`resultsWritten
      ensures wakeRetries == PurgedRetries(old(wakeRetries), results)
      ensures resultsWritten == PurgedWritten(old(resultsWritten), old(wakeRetries), results)
      ensures seenDelegationIds == kept && SeenCut(old(seenDelegationIds), kept)
    {
      PurgeRetries(results);
      kept := CutSeen();
    }

    /** The part of a poll after its pass. */
    method FinishPoll(results: seq<Record>, failure: Option<AppendFailure>)
      returns (due: seq<Record>, ghost kept: set<string>)
      requires Valid()
      modifies this`seenDelegationIds, this`wakeRetries, this`resultsWritten, queue
      ensures Valid() && SeenCut(old(seenDelegationIds), kept)
      ensures var r := Finished(old(State()), Pass(old(seenDelegationIds), registry.ids, Mem(), results, false),
                                old(queue.lines), kept, failure);
              && seenDelegationIds == r.proc.seen && wakeRetries == r.proc.retries && resultsWritten == r.proc.written
              && queue.lines == r.lines && due == r.results
    {
      kept := PurgeAndCut(results);
      due := StoreResults(results, failure);
    }

    /** `_check_delegations` up to the append. */
    method CheckDelegations(now: real, listing: Option<seq<Listed>>, inFlight: map<string, string>,
        failure: Option<AppendFailure>)
      returns (due: seq<Record>, ghost kept: set<string>)
      requires Valid()
      modifies this, registry, queue
      ensures Valid()
      ensures var env := PollEnv(workspaceId, kernelOn, (set id | id in old(registry.ids)) + inFlight.Keys,
          inFlight, tombFile.text);
              && Polled(State(), registry.ids, queue.lines, due)
                 == Poll(env, old(State()), old(registry.ids), old(queue.lines), now, listing, kept, failure)
              && (!CoolingDown(old(State()), now) && listing.Some? ==>
                    var p := PassOf(env, old(State()), old(registry.ids), listing.value);
                    !p.aborted ==> SeenCut(p.seen, kept))
    {
      due, kept := [], {};
      if now - lastSelfMessageTime < SELF_MESSAGE_COOLDOWN {
        return;
      }
      if listing.None? {
        return;
      }
      var active := (set id | id in registry.ids) + inFlight.Keys;
      var results, aborted := HarvestListing(active, inFlight, listing.value);
      if !aborted {
        due, kept := FinishPoll(results, failure);
      }
    }

    /** The wake POST begins. */
    method BeginWake(now: real)
      modifies this
      ensures State() == old(State()).(lastWake := now, wakeInFlight := true)
    {
      lastSelfMessageTime := now;
      wakeInFlight := true;
    }

    /** The wake is over: commit the tombstones, then settle each result. */
    method SettleWake(results: seq<Record>, outcome: WakeOutcome, failedLeaving: Option<string>)
      returns (ghost save: Save)
      requires Valid()
      modifies this, registry, tombFile
      ensures Valid()
      ensures (Mem(), tombFile.text) ==
              Committed(kernelOn, old(Mem()), old(tombFile.text),
                        if outcome.Delivered? || outcome.WakeDropped? then KeysOf(results) else {}, save)
      ensures kernelOn && (outcome.Delivered? || outcome.WakeDropped?)
              && !(KeysOf(results) <= Loaded(old(Mem()), old(tombFile.text))) ==>
                SavePlan(save, Loaded(old(Mem()), old(tombFile.text)) + KeysOf(results))
                    && save.failedLeaving == failedLeaving
      ensures Settling(seenDelegationIds, wakeRetries, resultsWritten, registry.ids)
           == SettleAll(Settling(old(seenDelegationIds), old(wakeRetries), old(resultsWritten), old(registry.ids)),
               outcome, results)
      ensures lastSelfMessageTime == old(lastSelfMessageTime) && !wakeInFlight
    {
      wakeInFlight := false;
      save := Save([], {}, failedLeaving);
      if outcome.Delivered? || outcome.WakeDropped? {
        save := CommitHarvested(KeysOf(results), failedLeaving);
      }
      SettleResults(results, outcome);
    }

    /** The loop that settles the results one by one. */
    method SettleResults(results: seq<Record>, outcome: WakeOutcome)
      modifies this`seenDelegationIds, this`wakeRetries, this`resultsWritten, registry
      ensures Settling(seenDelegationIds, wakeRetries, resultsWritten, registry.ids)
           == SettleAll(Settling(old(seenDelegationIds), old(wakeRetries), old(resultsWritten), old(registry.ids)),
                        outcome, results)
    {
      ghost var start := Settling(seenDelegationIds, wakeRetries, resultsWritten, registry.ids);
      for i := 0 to |results|
        invariant Settling(seenDelegationIds, wakeRetries, resultsWritten, registry.ids)
               == SettleAll(start, outcome, results[..i])
      {
        assert results[..i + 1][..i] == results[..i];
        var r := results[i];
        var id := r.delegationId;
        if outcome.Retry? {
          var attempts := (if id in wakeRetries then wakeRetries[id] else 0) + 1;
          if attempts < MAX_WAKE_ATTEMPTS {
            wakeRetries := wakeRetries[id := attempts];
            seenDelegationIds := seenDelegationIds - {id};
            continue;
          }
        }
        wakeRetries := wakeRetries - {id};
        resultsWritten := resultsWritten - {KeyOf(r)};
        registry.ids := Without(registry.ids, id);
      }
      assert results[..|results|] == results;
    }
  }

  lemma {:induction false} AbortIsFinal(env: PollEnv, p: Pass, rows: seq<Listed>, n: nat)
    requires n <= |rows| && HarvestRows(env, p, rows[..n]).aborted
    ensures HarvestRows(env, p, rows) == HarvestRows(env, p, rows[..n])
  {
    if n < |rows| {
      assert rows[..|rows| - 1][..n] == rows[..n];
      AbortIsFinal(env, p, rows[..|rows| - 1], n);
    } else {
      assert rows[..n] == rows;
    }
  }

  lemma EnumeratesSnoc(order: seq<Key>, keys: set<Key>, k: Key)
    requires Enumerates(order, keys) && k !in keys
    ensures Enumerates(order + [k], keys + {k})
  {
    assert forall x :: x in order + [k] <==> x in order || x == k;
    forall i | 0 <= i < |order| ensures order[i] != k {
      assert order[i] in (set x | x in order);
    }
  }

  lemma {:induction false} TextOfSnoc(keys: seq<Key>, k: Key)
    ensures TextOf(keys + [k]) == TextOf(keys) + (k.0 + "\t" + k.1 + "\n")
  {
    if keys == [] {
      assert [k][1..] == [] && [] + [k] == [k];
    } else {
      assert (keys + [k])[1..] == keys[1..] + [k];
      TextOfSnoc(keys[1..], k);
    }
  }
}
