/** The bounded in-memory event log and a reader that follows its cursor
    (molecule_runtime/event_log.py). Every clock reading is a parameter, so the
    results hold under any clock, forward or backward. */
module EventLog {
  import opened Wrappers

  datatype Event = Event(id: int, timestamp: real, kind: string, payload: map<string, string>)

  const DEFAULT_TTL_SECONDS := 3600
  const DEFAULT_MAX_ENTRIES := 10000

  datatype Log = Log(nextId: int, buf: seq<Event>)

  // ---- eviction ----------------------------------------------------------

  function DropStale(buf: seq<Event>, cutoff: real): seq<Event> {
    if buf != [] && buf[0].timestamp < cutoff then DropStale(buf[1..], cutoff) else buf
  }

  function DropOver(buf: seq<Event>, maxEntries: nat): seq<Event> {
    if |buf| > maxEntries then buf[|buf| - maxEntries..] else buf
  }

  function Evict(buf: seq<Event>, now: real, ttl: int, maxEntries: nat): seq<Event> {
    DropOver(DropStale(buf, now - ttl as real), maxEntries)
  }

  /** What is still in the buffer with an id above `since`. */
  function ResidentAbove(buf: seq<Event>, since: int): seq<Event> {
    if buf == [] then []
    else (if buf[0].id > since then [buf[0]] else []) + ResidentAbove(buf[1..], since)
  }

  /** A negative limit counts as none, a limit of 0 as an empty page. */
  function Page(events: seq<Event>, limit: Option<int>): seq<Event> {
    if limit.None? || limit.value < 0 || |events| <= limit.value then events else events[..limit.value]
  }

  class InMemoryEventLog {
    const ttlSeconds: int
    const maxEntries: nat
    var nextId: int
    var buf: seq<Event>

    ghost predicate Valid()
      reads this
    {
      maxEntries >= 1 && Contiguous(Log(nextId, buf)) && |buf| <= maxEntries
    }

    constructor (ttl: int, cap: int)
      ensures Valid() && nextId == 1 && buf == []
      ensures ttlSeconds > 0 && (ttl > 0 ==> ttlSeconds == ttl) && (ttl <= 0 ==> ttlSeconds == DEFAULT_TTL_SECONDS)
      ensures (cap > 0 ==> maxEntries == cap) && (cap <= 0 ==> maxEntries == DEFAULT_MAX_ENTRIES)
    {
      ttlSeconds := if ttl > 0 then ttl else DEFAULT_TTL_SECONDS;
      maxEntries := if cap > 0 then cap else DEFAULT_MAX_ENTRIES;
      nextId, buf := 1, [];
    }

    method EvictLocked(now: real)
      modifies this`buf
      ensures buf == Evict(old(buf), now, ttlSeconds, maxEntries)
    {
      var cutoff := now - ttlSeconds as real;
      while buf != [] && buf[0].timestamp < cutoff
        invariant DropStale(buf, cutoff) == DropStale(old(buf), cutoff)
        decreases |buf|
      {
        buf := buf[1..];
      }
      while |buf| > maxEntries
        invariant DropOver(buf, maxEntries) == DropOver(DropStale(old(buf), cutoff), maxEntries)
        decreases |buf|
      {
        buf := buf[1..];
      }
    }

    /** The clock is read for the timestamp and again for the eviction. */
    method Append(kind: string, payload: map<string, string>, stamp: real, now: real) returns (event: Event)
      requires Valid()
      modifies this
      ensures Valid()
      ensures event == Event(old(nextId), stamp, kind, payload) && nextId == old(nextId) + 1
      ensures buf == Evict(old(buf) + [event], now, ttlSeconds, maxEntries)
    {
      event := Event(nextId, stamp, kind, payload);
      nextId := nextId + 1;
      buf := buf + [event];
      EvictKeepsContiguous(Log(nextId, buf), now, ttlSeconds, maxEntries);
      EvictLocked(now);
    }

    method Query(since: Option<int>, limit: Option<int>, now: real) returns (events: seq<Event>)
      requires Valid()
      modifies this
      ensures Valid() && nextId == old(nextId)
      ensures buf == Evict(old(buf), now, ttlSeconds, maxEntries)
      ensures events == Page(ResidentAbove(buf, if since.Some? then since.value else 0), limit)
    {
      EvictKeepsContiguous(Log(nextId, buf), now, ttlSeconds, maxEntries);
      EvictLocked(now);
      events := PageAbove(buf, if since.Some? then since.value else 0, limit);
    }

    /** The loop of `query` over the resident events. */
    static method PageAbove(residents: seq<Event>, cutoff: int, limit: Option<int>) returns (events: seq<Event>)
      ensures events == Page(ResidentAbove(residents, cutoff), limit)
    {
      events := [];
      if limit == Some(0) {
        return;
      }
      for i := 0 to |residents|
        invariant limit.Some? && limit.value >= 0 ==> |events| < limit.value
        invariant ResidentAbove(residents, cutoff) == events + ResidentAbove(residents[i..], cutoff)
      {
        ResidentAboveStep(events, residents, i, cutoff);
        if residents[i].id > cutoff {
          events := events + [residents[i]];
          if limit.Some? && limit.value >= 0 && |events| >= limit.value {
            return;
          }
        }
      }
    }

    method Clear()
      requires Valid()
      modifies this
      ensures Valid() && buf == [] && nextId == old(nextId)
    {
      buf := [];
    }
  }

  // ---- the shape of the buffer -------------------------------------------

  lemma ResidentAboveStep(events: seq<Event>, buf: seq<Event>, i: nat, since: int)
    requires i < |buf|
    ensures events + ResidentAbove(buf[i..], since)
         == (if buf[i].id > since then events + [buf[i]] else events) + ResidentAbove(buf[i + 1..], since)
  {
    assert buf[i..][1..] == buf[i + 1..];
    Associate(events, [buf[i]], ResidentAbove(buf[i + 1..], since));
  }

  /** The resident ids are the last ones handed out, without a gap. */
  ghost predicate Contiguous(log: Log) {
    && log.nextId - |log.buf| >= 1
    && forall i | 0 <= i < |log.buf| :: log.buf[i].id == log.nextId - |log.buf| + i
  }

  lemma {:induction false} DropStaleIsSuffix(buf: seq<Event>, cutoff: real)
    ensures |DropStale(buf, cutoff)| <= |buf|
    ensures DropStale(buf, cutoff) == buf[|buf| - |DropStale(buf, cutoff)|..]
  {
    if buf == [] || buf[0].timestamp >= cutoff {
    } else {
      DropStaleIsSuffix(buf[1..], cutoff);
    }
  }

  lemma EvictKeepsContiguous(log: Log, now: real, ttl: int, maxEntries: nat)
    requires Contiguous(log)
    ensures Contiguous(log.(buf := Evict(log.buf, now, ttl, maxEntries)))
    ensures |Evict(log.buf, now, ttl, maxEntries)| <= maxEntries
  {
    DropStaleIsSuffix(log.buf, now - ttl as real);
  }

  lemma {:induction false} DropStaleExact(buf: seq<Event>, cutoff: real)
    ensures var d := |buf| - |DropStale(buf, cutoff)|;
            && 0 <= d && DropStale(buf, cutoff) == buf[d..]
            && (forall i | 0 <= i < d :: buf[i].timestamp < cutoff)
            && (d < |buf| ==> buf[d].timestamp >= cutoff)
  {
    if buf == [] || buf[0].timestamp >= cutoff {
    } else {
      DropStaleExact(buf[1..], cutoff);
    }
  }

  ghost predicate ExpiredThrough(buf: seq<Event>, i: nat, cutoff: real)
    requires i < |buf|
  {
    forall j | 0 <= j <= i :: buf[j].timestamp < cutoff
  }

  /** An eviction drops exactly the leading expired events and what is over the cap. */
  lemma EvictExact(buf: seq<Event>, now: real, ttl: int, maxEntries: nat)
    ensures var d, cutoff := |buf| - |Evict(buf, now, ttl, maxEntries)|, now - ttl as real;
            && 0 <= d && Evict(buf, now, ttl, maxEntries) == buf[d..]
            && forall i | 0 <= i < |buf| ::
                 i < d <==> i < |buf| - maxEntries || ExpiredThrough(buf, i, cutoff)
  {
    DropStaleExact(buf, now - ttl as real);
  }

  lemma {:induction false} ResidentAboveIsSuffix(log: Log, since: int) returns (k: nat)
    requires Contiguous(log)
    ensures k <= |log.buf| && ResidentAbove(log.buf, since) == log.buf[k..]
    ensures forall i | 0 <= i < |log.buf| :: i >= k <==> log.buf[i].id > since
    decreases |log.buf|
  {
    if log.buf == [] {
      k := 0;
    } else {
      var tail := log.(buf := log.buf[1..]);
      k := ResidentAboveIsSuffix(tail, since);
      if log.buf[0].id > since {
        if tail.buf != [] { assert tail.buf[0].id > since; }
        k := 0;
      } else {
        k := k + 1;
      }
      forall i | 0 <= i < |log.buf| ensures i >= k <==> log.buf[i].id > since {
        if i > 0 { assert log.buf[i] == tail.buf[i - 1]; }
      }
    }
  }

  /** A page holds the oldest resident events above the cursor: all of them, or as many as a
      non-negative limit admits. How many there are follows from the ids. */
  lemma PageTakesOldest(log: Log, since: int, limit: Option<int>)
    requires Contiguous(log)
    ensures var newest, n := log.nextId - 1, |log.buf|;
            var above := if since >= newest then 0 else if newest - since <= n then newest - since else n;
            var taken := if limit.Some? && 0 <= limit.value < above then limit.value else above;
            Page(ResidentAbove(log.buf, since), limit) == log.buf[n - above..n - above + taken]
  {
    var k := ResidentAboveIsSuffix(log, since);
    var n := |log.buf|;
    assert k < n ==> log.buf[k].id > since;
    assert k > 0 ==> log.buf[k - 1].id <= since;
    assert log.buf[k..] == log.buf[k..n];
  }

  // ---- a reader following its cursor -------------------------------------

  datatype Op =
    | Append(kind: string, stamp: real, now: real)
    | Poll(limit: Option<int>, now: real)
    | Clear

  /** The log, the reader's cursor and the ids it has collected. */
  datatype Followed = Followed(log: Log, cursor: int, collected: seq<int>)

  datatype Bounds = Bounds(ttl: int, maxEntries: nat)

  const START := Followed(Log(1, []), 0, [])

  function PollEvents(b: Bounds, f: Followed, limit: Option<int>, now: real): seq<Event> {
    Page(ResidentAbove(Evict(f.log.buf, now, b.ttl, b.maxEntries), f.cursor), limit)
  }

  function Ids(events: seq<Event>): seq<int> {
    seq(|events|, i requires 0 <= i < |events| => events[i].id)
  }

  function Step(b: Bounds, f: Followed, op: Op): Followed {
    match op
    case Append(kind, stamp, now) =>
      var event := Event(f.log.nextId, stamp, kind, map[]);
      f.(log := Log(f.log.nextId + 1, Evict(f.log.buf + [event], now, b.ttl, b.maxEntries)))
    case Poll(limit, now) =>
      var page := PollEvents(b, f, limit, now);
      Followed(f.log.(buf := Evict(f.log.buf, now, b.ttl, b.maxEntries)),
               if page == [] then f.cursor else page[|page| - 1].id,
               f.collected + Ids(page))
    case Clear =>
      f.(log := f.log.(buf := []))
  }

  function Run(b: Bounds, ops: seq<Op>): Followed {
    if ops == [] then START else Step(b, Run(b, ops[..|ops| - 1]), ops[|ops| - 1])
  }

  ghost predicate Following(b: Bounds, f: Followed) {
    && Contiguous(f.log) && |f.log.buf| <= b.maxEntries
    && 0 <= f.cursor < f.log.nextId
    && Increasing(f.collected)
    && (forall i | 0 <= i < |f.collected| :: 1 <= f.collected[i] <= f.cursor)
    && (f.collected != [] ==> f.collected[|f.collected| - 1] == f.cursor)
  }

  ghost predicate Resident(log: Log, id: int) {
    exists i | 0 <= i < |log.buf| :: log.buf[i].id == id
  }

  /** A page is cut from the resident events, from the first one above the cursor on. */
  lemma PageIsCut(b: Bounds, f: Followed, limit: Option<int>, now: real) returns (k: nat)
    requires Following(b, f)
    ensures var log := Step(b, f, Poll(limit, now)).log;
            var page := PollEvents(b, f, limit, now);
            && Contiguous(log) && |log.buf| <= b.maxEntries
            && k + |page| <= |log.buf| && page == log.buf[k..k + |page|]
            && (limit.None? || limit.value < 0 ==> k + |page| == |log.buf|)
            && (k < |log.buf| && limit != Some(0) ==> page != [])
            && (forall i | 0 <= i < |log.buf| :: i >= k <==> log.buf[i].id > f.cursor)
  {
    EvictKeepsContiguous(f.log, now, b.ttl, b.maxEntries);
    k := ResidentAboveIsSuffix(Step(b, f, Poll(limit, now)).log, f.cursor);
  }

  lemma SliceIsConsecutive(log: Log, k: nat, page: seq<Event>)
    requires Contiguous(log) && k + |page| <= |log.buf| && page == log.buf[k..k + |page|]
    ensures forall i | 0 <= i < |page| :: page[i].id == page[0].id + i
    ensures page != [] ==> page[|page| - 1].id < log.nextId
  {
    forall i | 0 <= i < |page| ensures page[i].id == page[0].id + i {
      assert page[i] == log.buf[k + i] && page[0] == log.buf[k];
    }
    if page != [] {
      assert page[|page| - 1] == log.buf[k + |page| - 1];
    }
  }

  predicate Increasing(ids: seq<int>) {
    forall i, j | 0 <= i < j < |ids| :: ids[i] < ids[j]
  }

  /** Consecutive ids above everything collected keep the collection increasing. */
  lemma CollectMore(collected: seq<int>, cursor: int, page: seq<Event>)
    requires Increasing(collected) && forall i | 0 <= i < |collected| :: 1 <= collected[i] <= cursor
    requires forall i | 0 <= i < |page| :: page[i].id == page[0].id + i
    requires page != [] ==> cursor < page[0].id && cursor >= 0
    ensures Increasing(collected + Ids(page))
    ensures page != [] ==> forall id | id in collected + Ids(page) :: 1 <= id <= page[|page| - 1].id
    ensures page != [] ==> (collected + Ids(page))[|collected + Ids(page)| - 1] == page[|page| - 1].id
  {
    var all := collected + Ids(page);
    forall i | |collected| <= i < |all| ensures all[i] == page[0].id + (i - |collected|) {
      assert all[i] == page[i - |collected|].id;
    }
  }

  lemma PageKeepsFollowing(b: Bounds, f: Followed, log: Log, k: nat, page: seq<Event>)
    requires Following(b, f) && Contiguous(log) && |log.buf| <= b.maxEntries && log.nextId == f.log.nextId
    requires k + |page| <= |log.buf| && page == log.buf[k..k + |page|] && (page != [] ==> log.buf[k].id > f.cursor)
    ensures var cursor := if page == [] then f.cursor else page[|page| - 1].id;
            Following(b, Followed(log, cursor, f.collected + Ids(page))) && f.cursor <= cursor
  {
    SliceIsConsecutive(log, k, page);
    CollectMore(f.collected, f.cursor, page);
    if page == [] {
      assert f.collected + Ids(page) == f.collected;
    }
  }

  lemma PollKeepsFollowing(b: Bounds, f: Followed, limit: Option<int>, now: real)
    requires Following(b, f)
    ensures var f' := Step(b, f, Poll(limit, now));
            Following(b, f') && f.collected <= f'.collected && f.cursor <= f'.cursor
  {
    var k := PageIsCut(b, f, limit, now);
    PageKeepsFollowing(b, f, Step(b, f, Poll(limit, now)).log, k, PollEvents(b, f, limit, now));
  }

  lemma ResidentIsCollected(f: Followed, buf: seq<Event>, k: nat, page: seq<Event>, i: nat)
    requires k <= i < k + |page| <= |buf| && page == buf[k..k + |page|]
    ensures buf[i].id in f.collected + Ids(page)
  {
    assert page[i - k] == buf[i];
    assert (f.collected + Ids(page))[|f.collected| + i - k] == buf[i].id;
  }

  lemma CollectedIsResident(f: Followed, buf: seq<Event>, k: nat, page: seq<Event>, id: int)
    requires k + |page| <= |buf| && page == buf[k..k + |page|]
    requires id in f.collected + Ids(page) && id !in f.collected
    ensures exists i | 0 <= i < |buf| :: buf[i].id == id
  {
    var i :| 0 <= i < |f.collected + Ids(page)| && (f.collected + Ids(page))[i] == id;
    assert page[i - |f.collected|] == buf[k + i - |f.collected|];
  }

  /** A poll hands over every resident id between the old cursor and the new. */
  lemma PollPassesOnlyEvicted(b: Bounds, f: Followed, limit: Option<int>, now: real, id: int)
    requires Following(b, f)
    requires f.cursor < id <= Step(b, f, Poll(limit, now)).cursor
    ensures var f' := Step(b, f, Poll(limit, now)); id in f'.collected <==> Resident(f'.log, id)
  {
    var f' := Step(b, f, Poll(limit, now));
    var k := PageIsCut(b, f, limit, now);
    var page := PollEvents(b, f, limit, now);
    assert page[|page| - 1] == f'.log.buf[k + |page| - 1];
    assert id !in f.collected;
    if Resident(f'.log, id) {
      var i :| 0 <= i < |f'.log.buf| && f'.log.buf[i].id == id;
      ResidentIsCollected(f, f'.log.buf, k, page, i);
    }
    if id in f'.collected {
      CollectedIsResident(f, f'.log.buf, k, page, id);
    }
  }

  /** A poll with room for an event moves on whenever there is one to hand over, and
      without a limit it catches up. */
  lemma PollMakesProgress(b: Bounds, f: Followed, limit: Option<int>, now: real)
    requires Following(b, f) && limit != Some(0)
    ensures var f' := Step(b, f, Poll(limit, now));
            && (f'.cursor > f.cursor <==> exists id :: id > f.cursor && Resident(f'.log, id))
            && (limit.None? ==> forall id | Resident(f'.log, id) :: id <= f'.cursor)
  {
    var f' := Step(b, f, Poll(limit, now));
    var k := PageIsCut(b, f, limit, now);
    var page := PollEvents(b, f, limit, now);
    if k < |f'.log.buf| {
      assert page[|page| - 1] == f'.log.buf[k + |page| - 1];
      assert Resident(f'.log, page[|page| - 1].id);
    }
  }

  /** In every state the buffer is contiguous and within its cap, and the reader has
      collected strictly increasing ids. */
  lemma {:induction false} RunIsFollowing(b: Bounds, ops: seq<Op>)
    requires b.maxEntries >= 1
    ensures Following(b, Run(b, ops))
  {
    if ops == [] {
    } else {
      var f, op := Run(b, ops[..|ops| - 1]), ops[|ops| - 1];
      RunIsFollowing(b, ops[..|ops| - 1]);
      match op
      case Append(kind, stamp, now) =>
        var event := Event(f.log.nextId, stamp, kind, map[]);
        EvictKeepsContiguous(Log(f.log.nextId + 1, f.log.buf + [event]), now, b.ttl, b.maxEntries);
      case Poll(limit, now) =>
        PollKeepsFollowing(b, f, limit, now);
      case Clear =>
    }
  }

  /** The `k`-th operation is the poll that moved the cursor past `id`, and `id` was
      no longer resident at it. */
  ghost predicate PassedWhileGone(b: Bounds, ops: seq<Op>, k: nat, id: int)
    requires k < |ops|
  {
    && ops[k].Poll?
    && Run(b, ops[..k]).cursor < id <= Run(b, ops[..k + 1]).cursor
    && !Resident(Run(b, ops[..k + 1]).log, id)
  }

  lemma PassedInLonger(b: Bounds, ops: seq<Op>, n: nat, k: nat, id: int)
    requires k < n <= |ops| && PassedWhileGone(b, ops[..n], k, id)
    ensures PassedWhileGone(b, ops, k, id)
  {
    assert ops[..n][..k] == ops[..k] && ops[..n][..k + 1] == ops[..k + 1];
  }

  /** Through any interleaving of appends, evictions, clears and polls, the reader has
      every id behind its cursor, except those already gone at the poll that passed them. */
  lemma {:induction false} SkippedOnlyIfGone(b: Bounds, ops: seq<Op>, id: int)
    requires b.maxEntries >= 1
    requires 1 <= id <= Run(b, ops).cursor && id !in Run(b, ops).collected
    ensures exists k | 0 <= k < |ops| :: PassedWhileGone(b, ops, k, id)
  {
    if ops == [] {
    } else {
      var n := |ops| - 1;
      var before := ops[..n];
      RunIsFollowing(b, before);
      var f := Run(b, before);
      if id <= f.cursor {
        if ops[n].Poll? { PollKeepsFollowing(b, f, ops[n].limit, ops[n].now); }
        SkippedOnlyIfGone(b, before, id);
        var k :| 0 <= k < n && PassedWhileGone(b, before, k, id);
        PassedInLonger(b, ops, n, k, id);
      } else {
        PollPassesOnlyEvicted(b, f, ops[n].limit, ops[n].now, id);
        assert ops[..n + 1] == ops;
        assert PassedWhileGone(b, ops, n, id);
      }
    }
  }
}
