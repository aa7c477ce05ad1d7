/** The bounded peer-metadata cache (molecule_runtime/a2a_client.py): an OrderedDict
    behind `_peer_metadata_get` and `_peer_metadata_set`, and the synchronous lookup
    built on them. */
module PeerCache {
  import opened Wrappers

  /** A registry record, or the None that marks a failed lookup. */
  type Metadata = Option<map<string, string>>

  datatype Cached = Cached(fetchedAt: real, record: Metadata)

  const MAXSIZE := 1024
  const TTL_SECONDS := 300.0

  /** The keys from least to most recently used, and their values. */
  datatype Cache = Cache(order: seq<string>, data: map<string, Cached>)

  const EMPTY := Cache([], map[])

  function IndexOf(order: seq<string>, k: string): (i: nat)
    requires k in order
    ensures i < |order| && order[i] == k && k !in order[..i]
  {
    if order[0] == k then 0 else IndexOf(order[1..], k) + 1
  }

  function MoveToEnd(order: seq<string>, k: string): seq<string> {
    if k in order then
      var i := IndexOf(order, k);
      order[..i] + order[i + 1..] + [k]
    else order + [k]
  }

  function Get(c: Cache, k: string): (Option<Cached>, Cache) {
    if k in c.data then (Some(c.data[k]), c.(order := MoveToEnd(c.order, k))) else (None, c)
  }

  function Trim(c: Cache): Cache
    decreases |c.order|
  {
    if |c.order| > MAXSIZE then Trim(Cache(c.order[1..], c.data - {c.order[0]})) else c
  }

  function Set(c: Cache, k: string, v: Cached): Cache {
    Trim(Cache(MoveToEnd(c.order, k), c.data[k := v]))
  }

  predicate Fresh(entry: Option<Cached>, current: real) {
    entry.Some? && current - entry.value.fetchedAt < TTL_SECONDS
  }

  class PeerMetadata {
    var order: seq<string>
    var data: map<string, Cached>

    ghost function State(): Cache
      reads this
    {
      Cache(order, data)
    }

    constructor ()
      ensures State() == EMPTY
    {
      order, data := [], map[];
    }

    method PeerMetadataGet(canon: string) returns (entry: Option<Cached>)
      modifies this
      ensures (entry, State()) == Get(old(State()), canon)
      ensures entry == if canon in old(data) then Some(old(data)[canon]) else None
    {
      if canon !in data {
        return None;
      }
      entry := Some(data[canon]);
      order := MoveToEnd(order, canon);
    }

    method PeerMetadataSet(canon: string, value: Cached)
      modifies this
      ensures State() == Set(old(State()), canon, value)
    {
      data := data[canon := value];
      order := MoveToEnd(order, canon);
      while |order| > MAXSIZE
        invariant Trim(State()) == Set(old(State()), canon, value)
        decreases |order|
      {
        data := data - {order[0]};
        order := order[1..];
      }
    }

    /** `enrich_peer_metadata` with the clock reading and what the registry would answer. */
    method EnrichPeerMetadata(canon: string, current: real, answer: Metadata)
      returns (record: Metadata, fetched: bool)
      modifies this
      // a lookup is answered without a GET for five minutes, whatever the last GET gave
      ensures fetched <==> !(canon in old(data) && current < old(data)[canon].fetchedAt + 300.0)
      ensures record == if fetched then answer else old(data)[canon].record
      ensures State() == if fetched then Set(Get(old(State()), canon).1, canon, Cached(current, answer))
                         else Get(old(State()), canon).1
    {
      var cached := PeerMetadataGet(canon);
      if cached.Some? && current - cached.value.fetchedAt < TTL_SECONDS {
        return cached.value.record, false;
      }
      PeerMetadataSet(canon, Cached(current, answer));
      record, fetched := answer, true;
    }
  }

  // ---- the cache is the recent end of the touch history ------------------

  datatype Op = Lookup(key: string) | Store(key: string, value: Cached)

  function Run(ops: seq<Op>): Cache {
    if ops == [] then EMPTY
    else
      var c, op := Run(ops[..|ops| - 1]), ops[|ops| - 1];
      match op
      case Lookup(k) => Get(c, k).1
      case Store(k, v) => Set(c, k, v)
  }

  /** The keys touched, in order: by every store, and by every lookup that hits. */
  function Touched(ops: seq<Op>): seq<string> {
    if ops == [] then []
    else
      var before, op := ops[..|ops| - 1], ops[|ops| - 1];
      if op.Store? || op.key in Run(before).data then Touched(before) + [op.key] else Touched(before)
  }

  /** The value last stored under a key. */
  function LastStored(ops: seq<Op>, k: string): Option<Cached> {
    if ops == [] then None
    else
      var op := ops[|ops| - 1];
      if op.Store? && op.key == k then Some(op.value) else LastStored(ops[..|ops| - 1], k)
  }

  function LastTouch(touched: seq<string>, k: string): (i: nat)
    requires k in touched
    ensures i < |touched| && touched[i] == k && k !in touched[i + 1..]
  {
    var n := |touched| - 1;
    if touched[n] == k then n else LastTouch(touched[..n], k)
  }

  ghost predicate SortedByRecency(order: seq<string>, touched: seq<string>) {
    && (forall k | k in order :: k in touched)
    && (forall i, j | 0 <= i < j < |order| :: LastTouch(touched, order[i]) < LastTouch(touched, order[j]))
  }

  /** Whatever was touched and is not held is older than everything held, and the cache is full. */
  ghost predicate HoldsMostRecent(order: seq<string>, touched: seq<string>)
    requires SortedByRecency(order, touched)
  {
    forall k | k in touched && k !in order ::
      |order| == MAXSIZE && forall h | h in order :: LastTouch(touched, k) < LastTouch(touched, h)
  }

  ghost predicate WindowShape(c: Cache, touched: seq<string>) {
    && |c.order| <= MAXSIZE
    && (forall k :: k in c.data <==> k in c.order)
    && SortedByRecency(c.order, touched)
    && HoldsMostRecent(c.order, touched)
  }

  ghost predicate RecencyWindow(c: Cache, ops: seq<Op>) {
    && WindowShape(c, Touched(ops))
    && (forall k | k in c.data :: LastStored(ops, k) == Some(c.data[k]))
  }

  lemma LastTouchSnoc(touched: seq<string>, key: string, k: string)
    requires k in touched + [key]
    ensures LastTouch(touched + [key], k) == (if k == key then |touched|
        else if k in touched then LastTouch(touched, k) else 0)
    ensures k != key ==> k in touched
  {
    assert (touched + [key])[..|touched|] == touched;
  }

  /** `move_to_end`: the place the key had closes up, and the key comes last. */
  lemma MoveToEndShape(order: seq<string>, key: string) returns (i: nat)
    ensures var moved := MoveToEnd(order, key);
            && i <= |order| && (key in order <==> i < |order|) && (key in order ==> order[i] == key)
            && |moved| == (if key in order then |order| else |order| + 1)
            && moved[|moved| - 1] == key
            && forall j | 0 <= j < |moved| - 1 :: moved[j] == order[if j < i then j else j + 1]
  {
    i := if key in order then IndexOf(order, key) else |order|;
  }

  lemma MoveToEndMembers(order: seq<string>, key: string)
    ensures forall k :: k in MoveToEnd(order, key) <==> k in order || k == key
  {
    var moved := MoveToEnd(order, key);
    var i := MoveToEndShape(order, key);
    forall k | k in order && k != key ensures k in moved {
      var j :| 0 <= j < |order| && order[j] == k;
      assert moved[if j < i then j else j - 1] == k;
    }
  }

  lemma MovedIsOther(order: seq<string>, touched: seq<string>, key: string, j: nat)
    requires SortedByRecency(order, touched) && j < |MoveToEnd(order, key)| - 1
    ensures MoveToEnd(order, key)[j] in order && MoveToEnd(order, key)[j] != key
  {
    var i := MoveToEndShape(order, key);
    var at := if j < i then j else j + 1;
    assert order[at] == MoveToEnd(order, key)[j];
    if i < |order| {
      assert LastTouch(touched, order[at]) != LastTouch(touched, order[i]);
    }
  }

  lemma MovedKeepOrder(order: seq<string>, touched: seq<string>, key: string, j: nat, l: nat)
    requires SortedByRecency(order, touched) && j < l < |MoveToEnd(order, key)| - 1
    ensures var moved := MoveToEnd(order, key);
            moved[j] in touched && moved[l] in touched && LastTouch(touched, moved[j]) < LastTouch(touched, moved[l])
  {
    var i := MoveToEndShape(order, key);
    var at, later := if j < i then j else j + 1, if l < i then l else l + 1;
    assert order[at] == MoveToEnd(order, key)[j] && order[later] == MoveToEnd(order, key)[l];
  }

  lemma MovedPairSorted(order: seq<string>, touched: seq<string>, key: string, j: nat, l: nat)
    requires SortedByRecency(order, touched) && j < l < |MoveToEnd(order, key)|
    ensures var moved := MoveToEnd(order, key);
            && moved[j] in touched + [key] && moved[l] in touched + [key]
            && LastTouch(touched + [key], moved[j]) < LastTouch(touched + [key], moved[l])
  {
    var moved := MoveToEnd(order, key);
    var i := MoveToEndShape(order, key);
    MovedIsOther(order, touched, key, j);
    LastTouchSnoc(touched, key, moved[j]);
    if l < |moved| - 1 {
      MovedIsOther(order, touched, key, l);
      MovedKeepOrder(order, touched, key, j, l);
    }
    LastTouchSnoc(touched, key, moved[l]);
  }

  /** Touching a key moves it to the recent end and keeps the others as they stood. */
  lemma MoveToEndSorted(order: seq<string>, touched: seq<string>, key: string)
    requires SortedByRecency(order, touched)
    ensures SortedByRecency(MoveToEnd(order, key), touched + [key])
  {
    var moved := MoveToEnd(order, key);
    MoveToEndMembers(order, key);
    forall j, l | 0 <= j < l < |moved|
      ensures LastTouch(touched + [key], moved[j]) < LastTouch(touched + [key], moved[l])
    {
      MovedPairSorted(order, touched, key, j, l);
    }
  }

  lemma TouchKeepsWindow(order: seq<string>, touched: seq<string>, key: string)
    requires SortedByRecency(order, touched) && HoldsMostRecent(order, touched) && |order| <= MAXSIZE
    requires key in order || |order| < MAXSIZE
    ensures var order', touched' := MoveToEnd(order, key), touched + [key];
            SortedByRecency(order', touched') && HoldsMostRecent(order', touched')
  {
    MoveToEndSorted(order, touched, key);
    MoveToEndMembers(order, key);
    var i := MoveToEndShape(order, key);
    var order', touched' := MoveToEnd(order, key), touched + [key];
    forall k | k in touched' && k !in order'
      ensures |order'| == MAXSIZE && forall h | h in order' :: LastTouch(touched', k) < LastTouch(touched', h)
    {
      LastTouchSnoc(touched, key, k);
      forall h | h in order' ensures LastTouch(touched', k) < LastTouch(touched', h) {
        LastTouchSnoc(touched, key, h);
      }
    }
  }

  /** A store of a new key into a full cache evicts the least recently used one. */
  lemma EvictionKeepsWindow(order: seq<string>, touched: seq<string>, key: string)
    requires SortedByRecency(order, touched) && HoldsMostRecent(order, touched)
    requires |order| == MAXSIZE && key !in order
    ensures var moved, touched' := order + [key], touched + [key];
            && moved[0] !in moved[1..]
            && SortedByRecency(moved[1..], touched') && HoldsMostRecent(moved[1..], touched')
  {
    MoveToEndSorted(order, touched, key);
    var moved, touched' := order + [key], touched + [key];
    assert moved == MoveToEnd(order, key);
    TailIsYounger(moved, touched');
    assert forall k | k in touched' && k !in moved :: k in touched && k !in order && k != key;
    forall k, h | k in touched' && k !in moved[1..] && h in moved[1..]
      ensures LastTouch(touched', k) < LastTouch(touched', h)
    {
      if k != moved[0] { OutsiderIsOlder(order, touched, key, k, h); }
    }
  }

  lemma OutsiderIsOlder(order: seq<string>, touched: seq<string>, key: string, k: string, h: string)
    requires SortedByRecency(order, touched) && HoldsMostRecent(order, touched)
    requires k in touched && k !in order && k != key && (h in order || h == key)
    ensures k in touched + [key] && h in touched + [key]
    ensures LastTouch(touched + [key], k) < LastTouch(touched + [key], h)
  {
    LastTouchSnoc(touched, key, k);
    LastTouchSnoc(touched, key, h);
  }

  lemma TailIsYounger(order: seq<string>, touched: seq<string>)
    requires SortedByRecency(order, touched) && order != []
    ensures SortedByRecency(order[1..], touched) && order[0] !in order[1..]
    ensures forall h | h in order[1..] :: h in order && LastTouch(touched, order[0]) < LastTouch(touched, h)
  {
    forall h | h in order[1..] ensures h in order && LastTouch(touched, order[0]) < LastTouch(touched, h) {
      var i :| 0 <= i < |order[1..]| && order[1..][i] == h;
      assert order[i + 1] == h;
    }
  }

  lemma TrimOne(moved: seq<string>, data: map<string, Cached>)
    requires |moved| == MAXSIZE + 1
    ensures Trim(Cache(moved, data)) == Cache(moved[1..], data - {moved[0]})
  {
  }

  lemma StoreWithinCap(c: Cache, touched: seq<string>, k: string, v: Cached)
    requires WindowShape(c, touched) && (k in c.order || |c.order| < MAXSIZE)
    ensures Set(c, k, v) == Cache(MoveToEnd(c.order, k), c.data[k := v])
    ensures WindowShape(Set(c, k, v), touched + [k])
  {
    MoveToEndMembers(c.order, k);
    var i := MoveToEndShape(c.order, k);
    TouchKeepsWindow(c.order, touched, k);
  }

  lemma StoreOverCap(c: Cache, touched: seq<string>, k: string, v: Cached)
    requires WindowShape(c, touched) && k !in c.order && |c.order| == MAXSIZE
    ensures Set(c, k, v) == Cache(c.order[1..] + [k], c.data[k := v] - {c.order[0]})
    ensures WindowShape(Set(c, k, v), touched + [k])
  {
    var moved := c.order + [k];
    EvictionKeepsWindow(c.order, touched, k);
    TrimOne(moved, c.data[k := v]);
    assert moved[1..] == c.order[1..] + [k] && moved[0] == c.order[0];
    assert forall h :: h in moved <==> h == moved[0] || h in moved[1..];
  }

  lemma StoreHistory(before: seq<Op>, k: string, v: Cached)
    ensures Touched(before + [Store(k, v)]) == Touched(before) + [k]
  {
    assert (before + [Store(k, v)])[..|before|] == before;
  }

  lemma StoreKeepsWindow(c: Cache, before: seq<Op>, k: string, v: Cached)
    requires RecencyWindow(c, before)
    ensures RecencyWindow(Set(c, k, v), before + [Store(k, v)])
  {
    StoreHistory(before, k, v);
    if k in c.order || |c.order| < MAXSIZE {
      StoreWithinCap(c, Touched(before), k, v);
    } else {
      StoreOverCap(c, Touched(before), k, v);
    }
    StoredValues(c, before, k, v, Set(c, k, v));
  }

  lemma StoredValues(c: Cache, before: seq<Op>, k: string, v: Cached, c': Cache)
    requires forall h | h in c.data :: LastStored(before, h) == Some(c.data[h])
    requires forall h | h in c'.data :: h == k || h in c.data
    requires forall h | h in c'.data :: c'.data[h] == if h == k then v else c.data[h]
    ensures forall h | h in c'.data :: LastStored(before + [Store(k, v)], h) == Some(c'.data[h])
  {
    assert (before + [Store(k, v)])[..|before|] == before;
  }

  lemma HitKeepsShape(c: Cache, touched: seq<string>, k: string)
    requires WindowShape(c, touched) && k in c.data
    ensures WindowShape(Get(c, k).1, touched + [k])
  {
    MoveToEndMembers(c.order, k);
    var i := MoveToEndShape(c.order, k);
    TouchKeepsWindow(c.order, touched, k);
  }

  lemma LookupHistory(before: seq<Op>, k: string)
    ensures Touched(before + [Lookup(k)]) == if k in Run(before).data then Touched(before) + [k] else Touched(before)
    ensures forall h :: LastStored(before + [Lookup(k)], h) == LastStored(before, h)
  {
    assert (before + [Lookup(k)])[..|before|] == before;
  }

  lemma LookupKeepsWindow(c: Cache, before: seq<Op>, k: string)
    requires RecencyWindow(c, before) && c == Run(before)
    ensures RecencyWindow(Get(c, k).1, before + [Lookup(k)])
  {
    LookupHistory(before, k);
    if k in c.data {
      HitKeepsShape(c, Touched(before), k);
    }
  }

  /** After any lookups and stores the cache holds exactly the most recently touched keys,
      up to its size, in recency order, each with the value last stored under it. */
  lemma {:induction false} CacheIsRecencyWindow(ops: seq<Op>)
    ensures RecencyWindow(Run(ops), ops)
  {
    if ops == [] {
    } else {
      var before, op := ops[..|ops| - 1], ops[|ops| - 1];
      assert ops == before + [op];
      CacheIsRecencyWindow(before);
      match op
      case Lookup(k) => LookupKeepsWindow(Run(before), before, k);
      case Store(k, v) => StoreKeepsWindow(Run(before), before, k, v);
    }
  }
}
