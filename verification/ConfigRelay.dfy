/** The one-shot config relay (molecule_runtime/config_relay.py): fetch, unpack, mark
    and ack as methods, and the same boot sequence as a machine that may crash between
    any two of its steps and be run again. */
module ConfigRelay {
  import opened Wrappers
  import opened BundlePath
  import opened Delays
  import opened Text

  const MARKER_NAME := ".config-relay-materialized"
  const MAX_ATTEMPTS: nat := 6
  const BASE_DELAY := 1.0
  const MAX_DELAY := 30.0

  /** The config directory: content by path below it, a byte written as a character. */
  type Files = map<string, string>

  /** The directories one can reach by a path below the config directory, which is `BASE`;
      past a symlink such a path may lead elsewhere. */
  type Dirs = set<string>

  const BASE := ""

  /** What the filesystem makes of a destination: it is written; or a parent cannot be made,
      after some were; or the parent resolves to a place outside, past some symlink; or the
      file cannot be opened; or it is opened and cut off, and the write fails part-way. */
  datatype Target = Inside | NoParent(made: Dirs) | Escapes | Unopened | Torn(left: string)

  /** One `path: base64(content)` pair; no content when the value does not decode. */
  datatype Entry = Entry(path: string, content: Option<string>, target: Target)

  /** A provision: the expected digest, and the hash and the JSON decoding, neither of
      which is interpreted. */
  datatype Provision = Provision(
    expected: string,
    digest: string -> string,
    decode: string -> Option<seq<Entry>>
  )

  datatype RelayError = FetchFailed | BadBundle | BadPath | BadValue | PathEscapes | WriteFailed

  // ---- fetch_bundle and post_ack -----------------------------------------

  datatype HttpOutcome = Response(status: int, body: string) | TransportError

  predicate Verified(p: Provision, o: HttpOutcome) {
    o.Response? && 200 <= o.status < 300 && p.digest(o.body) == p.expected
  }

  function Backoff(attempt: nat): real {
    if BASE_DELAY * Pow2(attempt) as real < MAX_DELAY then BASE_DELAY * Pow2(attempt) as real else MAX_DELAY
  }

  function Backoffs(n: nat): seq<real> {
    if n == 0 then [] else Backoffs(n - 1) + [Backoff(n - 1)]
  }

  /** `outcomes` are what the attempts would meet, one by one. The first 2xx answer whose body
      has the expected digest wins, after the backoffs of the attempts before it; the fetch
      fails if and only if there is none. */
  method FetchBundle(p: Provision, outcomes: seq<HttpOutcome>, maxAttempts: nat)
    returns (r: Result<string, RelayError>, sleeps: seq<real>)
    requires |outcomes| >= maxAttempts
    ensures r.Ok? ==>
              && p.digest(r.value) == p.expected
              && exists k | 0 <= k < maxAttempts ::
                   && outcomes[k].Response? && 200 <= outcomes[k].status < 300
                   && r.value == outcomes[k].body && sleeps == Backoffs(k)
                   && forall i | 0 <= i < k && outcomes[i].Response? && 200 <= outcomes[i].status < 300 ::
                        p.digest(outcomes[i].body) != p.expected
    ensures r.Err? <==>
              forall k | 0 <= k < maxAttempts && outcomes[k].Response? && 200 <= outcomes[k].status < 300 ::
                p.digest(outcomes[k].body) != p.expected
    ensures r.Err? ==> sleeps == Backoffs(if maxAttempts == 0 then 0 else maxAttempts - 1)
  {
    sleeps := [];
    for attempt := 0 to maxAttempts
      invariant forall k | 0 <= k < attempt :: !Verified(p, outcomes[k])
      invariant sleeps == Backoffs(if attempt < maxAttempts || attempt == 0 then attempt else attempt - 1)
    {
      if Verified(p, outcomes[attempt]) {
        return Ok(outcomes[attempt].body), sleeps;
      }
      if attempt < maxAttempts - 1 {
        sleeps := sleeps + [Backoff(attempt)];
      }
    }
    r := Err(FetchFailed);
  }

  /** An answer after which no further ack is posted: done, or refused for good. */
  predicate Decisive(o: HttpOutcome) {
    o.Response? && o.status in {204, 400, 401, 403}
  }

  method PostAck(cpUrl: string, workspaceId: string, outcomes: seq<HttpOutcome>, maxAttempts: nat)
    returns (acked: bool, posts: nat, sleeps: seq<real>)
    requires |outcomes| >= maxAttempts
    ensures sleeps == Backoffs(if posts == 0 then 0 else posts - 1)
    ensures (cpUrl == "" || workspaceId == "") ==> posts == 0 && !acked
    ensures posts <= maxAttempts
    ensures forall i | 0 <= i < posts - 1 && outcomes[i].Response? :: outcomes[i].status !in {204, 400, 401, 403}
    ensures acked <==>
              cpUrl != "" && workspaceId != "" && posts > 0
              && outcomes[posts - 1].Response? && outcomes[posts - 1].status == 204
    ensures cpUrl != "" && workspaceId != "" && posts < maxAttempts ==>
              posts > 0 && outcomes[posts - 1].Response? && outcomes[posts - 1].status in {204, 400, 401, 403}
  {
    posts, sleeps := 0, [];
    if cpUrl == "" || workspaceId == "" {
      return false, posts, sleeps;
    }
    for attempt := 0 to maxAttempts
      invariant posts == attempt && forall i | 0 <= i < attempt :: !Decisive(outcomes[i])
      invariant sleeps == Backoffs(if attempt < maxAttempts || attempt == 0 then attempt else attempt - 1)
    {
      posts := posts + 1;
      var o := outcomes[attempt];
      if o.Response? {
        if o.status == 204 {
          return true, posts, sleeps;
        }
        if o.status in {400, 401, 403} {
          return false, posts, sleeps;
        }
      }
      if attempt < maxAttempts - 1 {
        sleeps := sleeps + [Backoff(attempt)];
      }
    }
    acked := false;
  }

  /** The first backoff is a second; each next one is twice as long, up to half a minute. */
  lemma BackoffDoubles(n: nat)
    ensures Backoff(0) == 1.0
    ensures Backoff(n + 1) == if 2.0 * Backoff(n) < 30.0 then 2.0 * Backoff(n) else 30.0
  {
    assert Pow2(n + 1) == 2 * Pow2(n) && Pow2(0) == 1;
  }

  /** A fetch that exhausts its six attempts has slept 31 seconds. */
  lemma FetchCeiling()
    ensures Sum(Backoffs(MAX_ATTEMPTS - 1)) == 31.0
  {
    assert Backoff(0) == 1.0 && Backoff(1) == 2.0 && Backoff(2) == 4.0 && Backoff(3) == 8.0 && Backoff(4) == 16.0;
    assert Backoffs(1) == [1.0];
    assert Backoffs(2) == [1.0, 2.0];
    assert Backoffs(3) == [1.0, 2.0, 4.0];
    assert Backoffs(4) == [1.0, 2.0, 4.0, 8.0];
    assert Backoffs(5) == [1.0, 2.0, 4.0, 8.0, 16.0];
    SumSnoc([], 1.0);
    SumSnoc([1.0], 2.0);
    SumSnoc([1.0, 2.0], 4.0);
    SumSnoc([1.0, 2.0, 4.0], 8.0);
    SumSnoc([1.0, 2.0, 4.0, 8.0], 16.0);
  }

  // ---- unpack_bundle -----------------------------------------------------

  /** An entry that passes the checks of its path and of its value. */
  predicate Valid(e: Entry) {
    ValidateBundlePath(e.path).Ok? && e.content.Some?
  }

  predicate Good(e: Entry) {
    Valid(e) && e.target.Inside?
  }

  /** What a bad entry raises; the checks come in this order. */
  function ErrorOf(e: Entry): RelayError
    requires !Good(e)
  {
    if ValidateBundlePath(e.path).Err? then BadPath
    else if e.content.None? then BadValue
    else if e.target.Escapes? then PathEscapes
    else WriteFailed
  }

  predicate AllGood(entries: seq<Entry>) {
    forall e | e in entries :: Good(e)
  }

  /** An entry whose destination is opened for writing. */
  predicate Opened(e: Entry) {
    Good(e) || (Valid(e) && e.target.Torn?)
  }

  /** Where such an entry is written. */
  function Dest(e: Entry): string
    requires Opened(e)
  {
    ValidateBundlePath(e.path).value
  }

  /** What a bad entry does to the files: only a write that fails part-way does anything. */
  function Spoiled(files: Files, e: Entry): Files
    requires !Good(e)
  {
    if Opened(e) then files[Dest(e) := e.target.left] else files
  }

  /** The files after the entries are written one by one, up to the first bad one. */
  function Written(files: Files, entries: seq<Entry>): Files
    decreases |entries|
  {
    if entries == [] then files
    else if Good(entries[0]) then Written(files[Dest(entries[0]) := entries[0].content.value], entries[1..])
    else Spoiled(files, entries[0])
  }

  /** The directories above a cleaned path, the config directory itself apart. */
  function Parents(path: string): Dirs {
    set k | 0 <= k < |path| && path[k] == '/' :: path[..k]
  }

  /** What one entry adds to the directories: its parents are made before it is known
      whether they lie inside. */
  function MadeFor(e: Entry): Dirs {
    if !Valid(e) then {}
    else
      var parents := Parents(ValidateBundlePath(e.path).value);
      if e.target.NoParent? then e.target.made * parents else parents
  }

  function MadeBelow(dirs: Dirs, entries: seq<Entry>): Dirs
    decreases |entries|
  {
    if entries == [] then dirs
    else if Good(entries[0]) then MadeBelow(dirs + MadeFor(entries[0]), entries[1..])
    else dirs + MadeFor(entries[0])
  }

  /** The directories after an unpack: the config directory is made before any check. */
  function Made(dirs: Dirs, entries: seq<Entry>): Dirs {
    MadeBelow(dirs + {BASE}, entries)
  }

  /** Every file of the bundle is in the directory with its content: where several
      entries clean to one path, with the content of the last. */
  ghost predicate Whole(files: Files, entries: seq<Entry>) {
    && AllGood(entries)
    && forall i | 0 <= i < |entries| && LastWriter(entries, i) ::
         Dest(entries[i]) in files && files[Dest(entries[i])] == entries[i].content.value
  }

  ghost predicate LastWriter(entries: seq<Entry>, i: nat)
    requires AllGood(entries) && i < |entries|
  {
    forall j | i < j < |entries| :: Dest(entries[j]) != Dest(entries[i])
  }

  class ConfigVolume {
    var files: Files
    var dirs: Dirs

    constructor (files: Files, dirs: Dirs)
      ensures this.files == files && this.dirs == dirs
    {
      this.files, this.dirs := files, dirs;
    }

    /** An entry that has passed its checks: its parents are made, then the place they
        resolve to is checked, then the file is written. */
    method WriteEntry(e: Entry, path: string) returns (r: Result<string, RelayError>)
      requires Valid(e) && ValidateBundlePath(e.path) == Ok(path)
      modifies this
      ensures dirs == old(dirs) + MadeFor(e)
      ensures Good(e) ==> r == Ok(Dest(e)) && files == old(files)[Dest(e) := e.content.value]
      ensures !Good(e) ==> r == Err(ErrorOf(e)) && files == Spoiled(old(files), e)
    {
      MakeParents(e, path);
      r := OpenAndWrite(e, path);
    }

    method MakeParents(e: Entry, path: string)
      requires Valid(e) && ValidateBundlePath(e.path) == Ok(path)
      modifies this`dirs
      ensures dirs == old(dirs) + MadeFor(e)
    {
      dirs := dirs + if e.target.NoParent? then e.target.made * Parents(path) else Parents(path);
    }

    method OpenAndWrite(e: Entry, path: string) returns (r: Result<string, RelayError>)
      requires Valid(e) && ValidateBundlePath(e.path) == Ok(path)
      modifies this`files
      ensures Good(e) ==> r == Ok(Dest(e)) && files == old(files)[Dest(e) := e.content.value]
      ensures !Good(e) ==> r == Err(ErrorOf(e)) && files == Spoiled(old(files), e)
    {
      match e.target
      case NoParent(_) => r := Err(WriteFailed);
      case Escapes => r := Err(PathEscapes);
      case Unopened => r := Err(WriteFailed);
      case Torn(left) =>
        files := files[path := left];
        r := Err(WriteFailed);
      case Inside =>
        files := files[path := e.content.value];
        r := Ok(path);
    }

    method UnpackBundle(entries: seq<Entry>) returns (r: Result<seq<string>, RelayError>)
      modifies this
      ensures files == Written(old(files), entries) && dirs == Made(old(dirs), entries)
      ensures r.Ok? <==> AllGood(entries)
      ensures r.Ok? ==> |r.value| == |entries| && forall i | 0 <= i < |entries| :: r.value[i] == Dest(entries[i])
      ensures r.Err? ==>
                exists k | 0 <= k < |entries| ::
                  && AllGood(entries[..k]) && !Good(entries[k])
                  && r.error == if ValidateBundlePath(entries[k].path).Err? then BadPath
                                else if entries[k].content.None? then BadValue
                                else if entries[k].target.Escapes? then PathEscapes
                                else WriteFailed
    {
      dirs := dirs + {BASE};
      var written: seq<string> := [];
      for i := 0 to |entries|
        invariant Written(files, entries[i..]) == Written(old(files), entries)
        invariant MadeBelow(dirs, entries[i..]) == Made(old(dirs), entries)
        invariant |written| == i
        invariant forall j | 0 <= j < i :: Good(entries[j]) && written[j] == Dest(entries[j])
      {
        assert AllGood(entries[..i]) && entries[i] in entries;
        assert entries[i..][0] == entries[i] && entries[i..][1..] == entries[i + 1..];
        var path := ValidateBundlePath(entries[i].path);
        if path.Err? {
          assert dirs + {} == dirs;
          return Err(BadPath);
        }
        if entries[i].content.None? {
          assert dirs + {} == dirs;
          return Err(BadValue);
        }
        var one := WriteEntry(entries[i], path.value);
        if one.Err? {
          return Err(one.error);
        }
        written := written + [one.value];
      }
      r := Ok(written);
    }

    /** The boot prelude without a crash: what the marker read, the fetch, the marker
        write and the acks meet are parameters. */
    method RunConfigRelayPrelude(p: Provision, markerReadable: bool, fetches: seq<HttpOutcome>,
                                 mark: MarkOutcome, cpUrl: string, workspaceId: string, acks: seq<HttpOutcome>)
      returns (outcome: Outcome, ghost body: Option<string>)
      requires |fetches| >= MAX_ATTEMPTS && |acks| >= MAX_ATTEMPTS
      modifies this
      // what is unpacked came in a 2xx answer and has the expected digest
      ensures body.Some? ==>
                && p.digest(body.value) == p.expected
                && exists k | 0 <= k < MAX_ATTEMPTS ::
                     fetches[k].Response? && 200 <= fetches[k].status < 300 && fetches[k].body == body.value
      ensures body.None? <==>
                || outcome.Skipped?
                || forall k | 0 <= k < MAX_ATTEMPTS && fetches[k].Response? && 200 <= fetches[k].status < 300 ::
                     p.digest(fetches[k].body) != p.expected
      ensures files == PreludeFiles(p, old(files), markerReadable, body, mark)
      ensures dirs == PreludeDirs(p, old(dirs), body)
      ensures outcome.Skipped? <==>
                markerReadable && MARKER_NAME in old(files) && Strip(old(files)[MARKER_NAME]) == p.expected
      ensures outcome.Skipped? ==> body.None?
      ensures outcome.Aborted? <==> !outcome.Skipped? && (body.None? || !Unpackable(p, body.value))
      // a run reports the destinations it wrote, and an ack only if some POST met a 204
      ensures outcome.Ran? ==>
                && var entries := p.decode(body.value).value;
                && |outcome.written| == |entries|
                && (forall i | 0 <= i < |entries| :: outcome.written[i] == Dest(entries[i]))
                && (outcome.acked ==>
                      cpUrl != "" && workspaceId != ""
                      && exists k | 0 <= k < MAX_ATTEMPTS :: acks[k].Response? && acks[k].status == 204)
    {
      if markerReadable && MarkerMatches(p, files) {
        return Skipped, None;
      }
      var fetched, sleeps := FetchBundle(p, fetches, MAX_ATTEMPTS);
      if fetched.Err? {
        return Aborted(fetched.error), None;
      }
      body := Some(fetched.value);
      match p.decode(fetched.value)
      case None =>
        return Aborted(BadBundle), body;
      case Some(entries) =>
        var written := UnpackBundle(entries);
        if written.Err? {
          return Aborted(written.error), body;
        }
        files := Marked(p, files, mark);
        var acked, posts, acksSlept := PostAck(cpUrl, workspaceId, acks, MAX_ATTEMPTS);
        outcome := Ran(written.value, acked);
    }
  }

  datatype Outcome = Skipped | Aborted(error: RelayError) | Ran(written: seq<string>, acked: bool)

  /** The marker write succeeds, or fails leaving the file untouched or cut short. */
  datatype MarkOutcome = MarkWritten | MarkUntouched | MarkCutShort(length: nat)

  predicate MarkerMatches(p: Provision, files: Files) {
    MARKER_NAME in files && Strip(files[MARKER_NAME]) == p.expected
  }

  function Marked(p: Provision, files: Files, mark: MarkOutcome): Files {
    match mark
    case MarkWritten => files[MARKER_NAME := p.expected]
    case MarkUntouched => files
    case MarkCutShort(n) => files[MARKER_NAME := if n < |p.expected| then p.expected[..n] else ""]
  }

  predicate Unpackable(p: Provision, body: string) {
    p.decode(body).Some? && AllGood(p.decode(body).value)
  }

  function PreludeFiles(p: Provision, files: Files, markerReadable: bool, body: Option<string>,
      mark: MarkOutcome): Files {
    if body.None? || p.decode(body.value).None? then files
    else
      var unpacked := Written(files, p.decode(body.value).value);
      if Unpackable(p, body.value) then Marked(p, unpacked, mark) else unpacked
  }

  function PreludeDirs(p: Provision, dirs: Dirs, body: Option<string>): Dirs {
    if body.None? || p.decode(body.value).None? then dirs else Made(dirs, p.decode(body.value).value)
  }

  /** A path no entry names keeps what it had. */
  lemma {:induction false} WrittenFrame(files: Files, entries: seq<Entry>, path: string)
    requires AllGood(entries) && forall e | e in entries :: Dest(e) != path
    ensures path in Written(files, entries) <==> path in files
    ensures path in files ==> Written(files, entries)[path] == files[path]
    decreases |entries|
  {
    if entries == [] {
    } else {
      assert entries[0] in entries && forall e | e in entries[1..] :: e in entries;
      WrittenFrame(files[Dest(entries[0]) := entries[0].content.value], entries[1..], path);
    }
  }

  lemma LastWriterInTail(entries: seq<Entry>, i: nat)
    requires AllGood(entries) && 0 < i < |entries| && LastWriter(entries, i)
    ensures AllGood(entries[1..]) && entries[1..][i - 1] == entries[i] && LastWriter(entries[1..], i - 1)
  {
    assert forall e | e in entries[1..] :: e in entries;
    forall j | i - 1 < j < |entries[1..]| ensures Dest(entries[1..][j]) != Dest(entries[1..][i - 1]) {
      assert entries[1..][j] == entries[j + 1];
    }
  }

  lemma FirstIsOverwrittenByNone(entries: seq<Entry>)
    requires AllGood(entries) && entries != [] && LastWriter(entries, 0)
    ensures AllGood(entries[1..]) && forall e | e in entries[1..] :: Dest(e) != Dest(entries[0])
  {
    assert forall e | e in entries[1..] :: e in entries;
    forall e | e in entries[1..] ensures Dest(e) != Dest(entries[0]) {
      var j :| 0 <= j < |entries[1..]| && entries[1..][j] == e;
      assert entries[j + 1] == e;
    }
  }

  lemma FirstWriterWins(files: Files, entries: seq<Entry>)
    requires AllGood(entries) && entries != [] && LastWriter(entries, 0)
    ensures Dest(entries[0]) in Written(files, entries)
    ensures Written(files, entries)[Dest(entries[0])] == entries[0].content.value
  {
    FirstIsOverwrittenByNone(entries);
    WrittenFrame(files[Dest(entries[0]) := entries[0].content.value], entries[1..], Dest(entries[0]));
  }

  lemma {:induction false} LastWriterWins(files: Files, entries: seq<Entry>, i: nat)
    requires AllGood(entries) && i < |entries| && LastWriter(entries, i)
    ensures Dest(entries[i]) in Written(files, entries)
    ensures Written(files, entries)[Dest(entries[i])] == entries[i].content.value
    decreases |entries|
  {
    if i == 0 {
      FirstWriterWins(files, entries);
    } else {
      LastWriterInTail(entries, i);
      LastWriterWins(files[Dest(entries[0]) := entries[0].content.value], entries[1..], i - 1);
    }
  }

  /** Writing all entries of a good bundle leaves the whole bundle, whatever was there. */
  lemma WrittenIsWhole(files: Files, entries: seq<Entry>)
    requires AllGood(entries)
    ensures Whole(Written(files, entries), entries)
  {
    forall i | 0 <= i < |entries| && LastWriter(entries, i)
      ensures Dest(entries[i]) in Written(files, entries)
              && Written(files, entries)[Dest(entries[i])] == entries[i].content.value
    {
      LastWriterWins(files, entries, i);
    }
  }

  /** A bad entry aborts the unpack where it stands: the entries before it are on disk. */
  lemma {:induction false} AbortKeepsEarlierFiles(files: Files, good: seq<Entry>, rest: seq<Entry>)
    requires AllGood(good) && rest != [] && !Good(rest[0])
    ensures Written(files, good + rest) == Spoiled(Written(files, good), rest[0])
    decreases |good|
  {
    var all := good + rest;
    if good == [] {
      assert all == rest;
    } else {
      assert good[0] in good && all[0] == good[0] && all[1..] == good[1..] + rest;
      AbortKeepsEarlierFiles(files[Dest(good[0]) := good[0].content.value], good[1..], rest);
    }
  }

  lemma {:induction false} WrittenKeepsKeys(files: Files, entries: seq<Entry>)
    ensures files.Keys <= Written(files, entries).Keys
    decreases |entries|
  {
    if entries == [] || !Good(entries[0]) {
    } else {
      WrittenKeepsKeys(files[Dest(entries[0]) := entries[0].content.value], entries[1..]);
    }
  }

  /** A bad entry that has made a directory, or opened a file, before it fails. */
  predicate Touches(dirs: Dirs, e: Entry)
    requires !Good(e)
  {
    Opened(e) || !(MadeFor(e) <= dirs)
  }

  lemma OpenedIsWritten(entries: seq<Entry>)
    requires entries != [] && Opened(entries[0])
    ensures Dest(entries[0]) in Written(map[], entries)
  {
    if Good(entries[0]) {
      WrittenKeepsKeys(map[Dest(entries[0]) := entries[0].content.value], entries[1..]);
    }
  }

  lemma UnopenedMakesOnly(files: Files, dirs: Dirs, entries: seq<Entry>)
    requires entries != [] && !Opened(entries[0])
    ensures Written(files, entries) == files && Made(dirs, entries) == dirs + {BASE} + MadeFor(entries[0])
  {
  }

  /** An unpack that aborts touches neither files nor directories, whatever files there are,
      if and only if the config directory exists and the very first entry is bad: by its
      path or value, or with every directory it makes already there and no file opened. */
  lemma AbortTouchesNothingIff(dirs: Dirs, entries: seq<Entry>)
    requires !AllGood(entries)
    ensures (forall files :: Written(files, entries) == files && Made(dirs, entries) == dirs)
       <==> BASE in dirs && !Good(entries[0]) && !Touches(dirs, entries[0])
  {
    if Opened(entries[0]) {
      OpenedIsWritten(entries);
      assert Written(map[], entries) != map[];
    } else {
      forall files ensures Written(files, entries) == files {
        UnopenedMakesOnly(files, dirs, entries);
      }
      UnopenedMakesOnly(map[], dirs, entries);
    }
  }

  /** A traversing path after a good one, for instance: documented to abort before the
      filesystem is touched, it aborts after the first file is written. */
  lemma AbortAfterWriting(content: string)
    ensures var bundle := [Entry("a", Some(content), Inside), Entry("b/../..", Some(content), Inside)];
            && ValidateBundlePath("b/../..").Err?
            && !AllGood(bundle) && Written(map[], bundle) == map["a" := content]
  {
    var a, b := Entry("a", Some(content), Inside), Entry("b/../..", Some(content), Inside);
    PlainNameAccepted("a");
    TraversalRejected();
    GoodThenBad(a, b);
  }

  lemma GoodThenBad(a: Entry, b: Entry)
    requires Good(a) && !Valid(b)
    ensures !AllGood([a, b]) && Written(map[], [a, b]) == map[Dest(a) := a.content.value]
  {
    assert b in [a, b] && [a, b][1..] == [b];
  }

  lemma LinkedParents()
    ensures Parents("link/new/f") == {"link", "link/new"}
  {
    var path := "link/new/f";
    assert path[..4] == "link" && path[..8] == "link/new";
    assert path[4] == '/' && path[8] == '/';
  }

  lemma EscapeMakesParents(e: Entry, dirs: Dirs, files: Files, path: string)
    requires ValidateBundlePath(e.path) == Ok(path) && e.content.Some? && e.target.Escapes?
    ensures !AllGood([e]) && ErrorOf(e) == PathEscapes
    ensures Written(files, [e]) == files && Made(dirs, [e]) == dirs + {BASE} + Parents(path)
  {
    assert e in [e];
    UnopenedMakesOnly(files, dirs, [e]);
  }

  /** A symlink `link` out of the config directory, and a bundle whose only entry lies below
      it: documented to abort before the filesystem is touched, it makes a directory there. */
  lemma EscapeMakesDirectory(content: string, files: Files)
    ensures var bundle, dirs := [Entry("link/new/f", Some(content), Escapes)], {BASE, "link"};
            && !AllGood(bundle) && ErrorOf(bundle[0]) == PathEscapes && Written(files, bundle) == files
            && Made(dirs, bundle) == {BASE, "link", "link/new"}
  {
    var e := Entry("link/new/f", Some(content), Escapes);
    LinkedPathAccepted();
    LinkedParents();
    EscapeMakesParents(e, {BASE, "link"}, files, "link/new/f");
    assert {BASE, "link"} + {BASE} + {"link", "link/new"} == {BASE, "link", "link/new"};
  }

  // ---- crashes and reruns ------------------------------------------------

  /** Where the boot process is; Idle when none runs. */
  datatype Pc =
    | Idle
    | Fetching
    | Unpacking(entries: seq<Entry>, next: nat)
    | Marking
    | Acking(marked: bool)

  /** The directory, the transient object, whether our ack deleted it and, if so, whether
      the run that did had written its marker, and the process. */
  datatype World = World(files: Files, objectPresent: bool, acked: bool, ackedMarked: bool, pc: Pc)

  datatype Step =
    | Boot(markerReadable: bool)
    | FetchOk(body: string)
    | FetchFail
    | WriteNext
    | UnpackAbort
    | UnpackDone
    | Mark(outcome: MarkOutcome)
    | AckPost(processed: bool)
    | AckDone
    | Reap
    | Crash
    | CrashMidWrite(garbage: string)
    | CrashMidMark(length: nat)

  predicate Enabled(p: Provision, w: World, s: Step) {
    match s
    case Boot(_) => w.pc.Idle?
    case FetchOk(body) =>
      w.pc.Fetching? && w.objectPresent && p.digest(body) == p.expected && p.decode(body).Some?
    case FetchFail => w.pc.Fetching?
    case WriteNext => w.pc.Unpacking? && w.pc.next < |w.pc.entries| && Good(w.pc.entries[w.pc.next])
    case UnpackAbort => w.pc.Unpacking? && w.pc.next < |w.pc.entries| && !Good(w.pc.entries[w.pc.next])
    case UnpackDone => w.pc.Unpacking? && w.pc.next == |w.pc.entries|
    case Mark(_) => w.pc.Marking?
    case AckPost(_) => w.pc.Acking?
    case AckDone => w.pc.Acking?
    case Reap => true
    case Crash => !w.pc.Idle?
    case CrashMidWrite(_) => w.pc.Unpacking? && w.pc.next < |w.pc.entries| && Opened(w.pc.entries[w.pc.next])
    case CrashMidMark(n) => w.pc.Marking? && n < |p.expected|
  }

  function Do(p: Provision, w: World, s: Step): World
    requires Enabled(p, w, s)
  {
    match s
    case Boot(readable) => w.(pc := if readable && MarkerMatches(p, w.files) then Idle else Fetching)
    case FetchOk(body) => w.(pc := Unpacking(p.decode(body).value, 0))
    case FetchFail => w.(pc := Idle)
    case WriteNext =>
      var e := w.pc.entries[w.pc.next];
      w.(files := w.files[Dest(e) := e.content.value], pc := Unpacking(w.pc.entries, w.pc.next + 1))
    case UnpackAbort => w.(files := Spoiled(w.files, w.pc.entries[w.pc.next]), pc := Idle)
    case UnpackDone => w.(pc := Marking)
    case Mark(outcome) => w.(files := Marked(p, w.files, outcome), pc := Acking(outcome.MarkWritten?))
    case AckPost(processed) =>
      if processed && w.objectPresent then w.(objectPresent := false, acked := true, ackedMarked := w.pc.marked) else w
    case AckDone => w.(pc := Idle)
    case Reap => w.(objectPresent := false)
    case Crash => w.(pc := Idle)
    case CrashMidWrite(garbage) => w.(files := w.files[Dest(w.pc.entries[w.pc.next]) := garbage], pc := Idle)
    case CrashMidMark(n) => w.(files := w.files[MARKER_NAME := p.expected[..n]], pc := Idle)
  }

  /** The world after `steps`; None if one of them could not be taken. */
  function After(p: Provision, w0: World, steps: seq<Step>): Option<World>
    decreases |steps|
  {
    if steps == [] then Some(w0)
    else
      var s := steps[|steps| - 1];
      match After(p, w0, steps[..|steps| - 1])
      case None => None
      case Some(w) => if Enabled(p, w, s) then Some(Do(p, w, s)) else None
  }

  /** `relay_env` hands out the digest stripped and not empty. */
  predicate WellFormed(p: Provision) {
    p.expected != "" && Strip(p.expected) == p.expected
  }

  /** A fresh provision: the object is staged and no marker of it exists yet. */
  predicate FreshProvision(p: Provision, w: World) {
    w.pc.Idle? && w.objectPresent && !w.acked && !MarkerMatches(p, w.files)
  }

  ghost predicate Staged(p: Provision, entries: seq<Entry>) {
    exists body :: p.digest(body) == p.expected && p.decode(body) == Some(entries)
  }

  /** No entry that an unpack of a staged bundle gets to write names the marker file. */
  ghost predicate MarkerIsReserved(p: Provision) {
    forall entries, i | Staged(p, entries) && 0 <= i < |entries| && AllGood(entries[..i]) && Opened(entries[i]) ::
      Dest(entries[i]) != MARKER_NAME
  }

  ghost predicate WholeBundleOnDisk(p: Provision, files: Files) {
    exists entries :: Staged(p, entries) && Whole(files, entries)
  }

  /** A matching marker speaks the truth. */
  ghost predicate Vouches(p: Provision, w: World) {
    MarkerMatches(p, w.files) ==> WholeBundleOnDisk(p, w.files)
  }

  /** A boot that cannot read its marker does harm only if the marker matches while the
      object is still there to be fetched. */
  predicate Harmless(p: Provision, w: World, s: Step) {
    s.Boot? && !s.markerReadable ==> !(MarkerMatches(p, w.files) && w.objectPresent)
  }

  predicate HarmlessRun(p: Provision, w0: World, steps: seq<Step>)
    decreases |steps|
  {
    steps != [] ==>
      && HarmlessRun(p, w0, steps[..|steps| - 1])
      && var before, s := After(p, w0, steps[..|steps| - 1]), steps[|steps| - 1];
      before.Some? && Enabled(p, before.value, s) && Harmless(p, before.value, s)
  }

  lemma {:induction false} StripShortens(s: string)
    ensures |StripLeft(s)| <= |s| && |StripRight(s)| <= |s|
  {
    if s == "" {
    } else {
      StripShortens(s[1..]);
      StripShortens(s[..|s| - 1]);
    }
  }

  /** A marker cut short never matches, so a crash inside the marker write is safe. */
  lemma CutMarkerDoesNotMatch(p: Provision, files: Files, n: nat)
    requires WellFormed(p) && n < |p.expected|
    ensures !MarkerMatches(p, files[MARKER_NAME := p.expected[..n]])
    ensures !MarkerMatches(p, files[MARKER_NAME := ""])
  {
    StripShortens(p.expected[..n]);
    StripShortens(StripLeft(p.expected[..n]));
  }

  ghost predicate Inv(p: Provision, w: World) {
    && (MarkerMatches(p, w.files) ==> WholeBundleOnDisk(p, w.files))
    && (w.acked ==> !w.objectPresent && (w.ackedMarked <==> MarkerMatches(p, w.files)))
    && match w.pc
       case Idle => true
       case Fetching => MarkerMatches(p, w.files) ==> !w.objectPresent
       case Unpacking(entries, next) =>
         && !w.acked && !MarkerMatches(p, w.files)
         && Staged(p, entries) && next <= |entries| && Whole(w.files, entries[..next])
       case Marking => !w.acked && !MarkerMatches(p, w.files) && WholeBundleOnDisk(p, w.files)
       case Acking(marked) => marked <==> MarkerMatches(p, w.files)
  }

  lemma LastWriterInPrefix(before: seq<Entry>, e: Entry, i: nat)
    requires AllGood(before + [e]) && i < |before| && LastWriter(before + [e], i)
    ensures AllGood(before) && LastWriter(before, i) && Dest(before[i]) != Dest(e)
  {
    var after := before + [e];
    assert forall x | x in before :: x in after;
    assert after[|before|] == e && after[i] == before[i];
    forall j | i < j < |before| ensures Dest(before[j]) != Dest(before[i]) {
      assert after[j] == before[j];
    }
  }

  lemma WriteKeepsWhole(files: Files, before: seq<Entry>, e: Entry)
    requires Good(e) && Whole(files, before)
    ensures Whole(files[Dest(e) := e.content.value], before + [e])
  {
    var files', after := files[Dest(e) := e.content.value], before + [e];
    assert AllGood(after);
    forall i | 0 <= i < |after| && LastWriter(after, i)
      ensures Dest(after[i]) in files' && files'[Dest(after[i])] == after[i].content.value
    {
      if i < |before| {
        LastWriterInPrefix(before, e, i);
      }
    }
  }

  lemma PrefixSnoc(entries: seq<Entry>, n: nat)
    requires n < |entries|
    ensures entries[..n] + [entries[n]] == entries[..n + 1]
  {
  }

  lemma WriteKeepsPrefix(files: Files, entries: seq<Entry>, next: nat)
    requires next < |entries| && Good(entries[next]) && Whole(files, entries[..next])
    ensures Whole(files[Dest(entries[next]) := entries[next].content.value], entries[..next + 1])
  {
    WriteKeepsWhole(files, entries[..next], entries[next]);
    PrefixSnoc(entries, next);
  }

  /** The marker file is no file of the bundle, so writing one keeps the other. */
  lemma MarkerKeepsBundle(p: Provision, files: Files, content: string)
    requires MarkerIsReserved(p) && WholeBundleOnDisk(p, files)
    ensures WholeBundleOnDisk(p, files[MARKER_NAME := content])
  {
    var entries :| Staged(p, entries) && Whole(files, entries);
    assert Whole(files[MARKER_NAME := content], entries) by {
      forall i | 0 <= i < |entries| ensures Dest(entries[i]) != MARKER_NAME {
        assert entries[i] in entries && forall e | e in entries[..i] :: e in entries;
      }
    }
  }

  lemma ReachedIsNotMarker(p: Provision, entries: seq<Entry>, i: nat)
    requires MarkerIsReserved(p) && Staged(p, entries) && i < |entries| && AllGood(entries[..i]) && Opened(entries[i])
    ensures Dest(entries[i]) != MARKER_NAME
  {
  }

  lemma OtherFileKeepsMarker(p: Provision, files: Files, path: string, content: string)
    requires path != MARKER_NAME
    ensures MarkerMatches(p, files[path := content]) == MarkerMatches(p, files)
  {
  }

  lemma WriteNextKeepsInv(p: Provision, w: World)
    requires MarkerIsReserved(p) && Inv(p, w) && Enabled(p, w, WriteNext)
    ensures Inv(p, Do(p, w, WriteNext))
  {
    var entries, next := w.pc.entries, w.pc.next;
    ReachedIsNotMarker(p, entries, next);
    WriteKeepsPrefix(w.files, entries, next);
    OtherFileKeepsMarker(p, w.files, Dest(entries[next]), entries[next].content.value);
  }

  lemma AbortKeepsInv(p: Provision, w: World)
    requires MarkerIsReserved(p) && Inv(p, w) && Enabled(p, w, UnpackAbort)
    ensures Inv(p, Do(p, w, UnpackAbort))
  {
    var entries, next := w.pc.entries, w.pc.next;
    if Opened(entries[next]) {
      ReachedIsNotMarker(p, entries, next);
      OtherFileKeepsMarker(p, w.files, Dest(entries[next]), entries[next].target.left);
    }
  }

  lemma StepKeepsInv(p: Provision, w: World, s: Step)
    requires WellFormed(p) && MarkerIsReserved(p)
    requires Inv(p, w) && Enabled(p, w, s) && Harmless(p, w, s)
    ensures Inv(p, Do(p, w, s))
  {
    match s
    case FetchOk(body) =>
      var entries := p.decode(body).value;
      assert Staged(p, entries) && entries[..0] == [];
    case WriteNext =>
      WriteNextKeepsInv(p, w);
    case UnpackAbort =>
      AbortKeepsInv(p, w);
    case UnpackDone =>
      assert w.pc.entries[..w.pc.next] == w.pc.entries;
    case Mark(outcome) =>
      MarkerKeepsBundle(p, w.files, p.expected);
      CutMarkerDoesNotMatch(p, w.files, if outcome.MarkCutShort?
          && outcome.length < |p.expected| then outcome.length else 0);
    case CrashMidWrite(garbage) =>
      ReachedIsNotMarker(p, w.pc.entries, w.pc.next);
    case CrashMidMark(n) =>
      CutMarkerDoesNotMatch(p, w.files, n);
    case _ =>
  }

  lemma {:induction false} RunKeepsInv(p: Provision, w0: World, steps: seq<Step>)
    requires WellFormed(p) && MarkerIsReserved(p) && Inv(p, w0) && HarmlessRun(p, w0, steps)
    ensures After(p, w0, steps).Some? && Inv(p, After(p, w0, steps).value)
    decreases |steps|
  {
    if steps == [] {
    } else {
      var last := |steps| - 1;
      RunKeepsInv(p, w0, steps[..last]);
      StepKeepsInv(p, After(p, w0, steps[..last]).value, steps[last]);
    }
  }

  /** Crash safety: whatever the run, a matching marker vouches for the whole bundle, and
      once our ack has deleted the object the marker matches exactly if the run that acked
      had written it. */
  lemma MarkerVouchesForBundle(p: Provision, w0: World, steps: seq<Step>)
    requires WellFormed(p) && MarkerIsReserved(p) && FreshProvision(p, w0) && HarmlessRun(p, w0, steps)
    ensures After(p, w0, steps).Some?
    ensures var w := After(p, w0, steps).value;
            Vouches(p, w) && (w.acked ==> (MarkerMatches(p, w.files) <==> w.ackedMarked))
  {
    RunKeepsInv(p, w0, steps);
  }

  /** A rerun after our ack deleted the object boots on the config it has, and never asks
      for the object, if and only if that ack's run wrote its marker and the marker can
      be read; otherwise its fetch cannot succeed. */
  lemma RerunNeedsNoObject(p: Provision, w0: World, steps: seq<Step>, w: World, markerReadable: bool)
    requires WellFormed(p) && MarkerIsReserved(p) && FreshProvision(p, w0) && HarmlessRun(p, w0, steps)
    requires After(p, w0, steps) == Some(w) && w.pc.Idle? && w.acked
    ensures var next := Do(p, w, Boot(markerReadable));
            && (next == w <==> markerReadable && w.ackedMarked)
            && (next != w ==> next.pc.Fetching? && forall body :: !Enabled(p, next, FetchOk(body)))
            && (next == w ==> WholeBundleOnDisk(p, w.files))
  {
    RunKeepsInv(p, w0, steps);
  }

  lemma RunSnoc(p: Provision, w0: World, steps: seq<Step>, w: World, s: Step)
    requires After(p, w0, steps) == Some(w) && Enabled(p, w, s)
    ensures After(p, w0, steps + [s]) == Some(Do(p, w, s))
  {
    assert (steps + [s])[..|steps|] == steps;
  }

  // ---- the two hypotheses are exact ---------------------------------------

  /** `body` is what was staged, and nothing else with its digest is. */
  ghost predicate OnlyBundle(p: Provision, body: string) {
    && p.digest(body) == p.expected && p.decode(body).Some?
    && forall entries | Staged(p, entries) :: entries == p.decode(body).value
  }

  lemma {:induction false} LastWriterOf(entries: seq<Entry>, i: nat) returns (k: nat)
    requires AllGood(entries) && i < |entries|
    ensures i <= k < |entries| && Dest(entries[k]) == Dest(entries[i]) && LastWriter(entries, k)
    decreases |entries| - i
  {
    k := i;
    if j :| i < j < |entries| && Dest(entries[j]) == Dest(entries[i]) {
      k := LastWriterOf(entries, j);
    }
  }

  /** A file that does not hold what the last entry for it says is no part of a whole. */
  lemma WrongFileIsNotWhole(p: Provision, body: string, i: nat, files: Files)
    requires OnlyBundle(p, body) && Unpackable(p, body) && i < |p.decode(body).value|
    requires LastWriter(p.decode(body).value, i)
    requires var e := p.decode(body).value[i]; Dest(e) in files ==> files[Dest(e)] != e.content.value
    ensures !WholeBundleOnDisk(p, files)
  {
  }

  lemma {:induction false} UnpackPrefix(p: Provision, w0: World, steps: seq<Step>, w: World, m: nat)
    returns (steps': seq<Step>)
    requires After(p, w0, steps) == Some(w) && w.pc.Unpacking? && w.pc.next <= m <= |w.pc.entries|
    requires AllGood(w.pc.entries[w.pc.next..m])
    ensures HarmlessRun(p, w0, steps) ==> HarmlessRun(p, w0, steps')
    ensures After(p, w0, steps') ==
            Some(w.(files := Written(w.files, w.pc.entries[w.pc.next..m]), pc := Unpacking(w.pc.entries, m)))
    decreases m - w.pc.next
  {
    var entries, next := w.pc.entries, w.pc.next;
    if next == m {
      steps' := steps;
      assert entries[next..m] == [];
    } else {
      assert entries[next..m][0] == entries[next] && entries[next..m][0] in entries[next..m];
      assert entries[next..m][1..] == entries[next + 1..m];
      assert forall e | e in entries[next + 1..m] :: e in entries[next..m];
      RunSnoc(p, w0, steps, w, WriteNext);
      if HarmlessRun(p, w0, steps) {
        HarmlessSnoc(p, w0, steps, w, WriteNext);
      }
      steps' := UnpackPrefix(p, w0, steps + [WriteNext], Do(p, w, WriteNext), m);
    }
  }

  lemma HarmlessSnoc(p: Provision, w0: World, steps: seq<Step>, w: World, s: Step)
    requires HarmlessRun(p, w0, steps) && After(p, w0, steps) == Some(w) && Enabled(p, w, s) && Harmless(p, w, s)
    ensures HarmlessRun(p, w0, steps + [s])
  {
    assert (steps + [s])[..|steps|] == steps;
  }

  /** Taking one more step, which is not a boot, keeps a run harmless. */
  lemma Extend(p: Provision, w0: World, steps: seq<Step>, w: World, s: Step)
    requires After(p, w0, steps) == Some(w) && Enabled(p, w, s) && !s.Boot?
    ensures After(p, w0, steps + [s]) == Some(Do(p, w, s))
    ensures HarmlessRun(p, w0, steps) ==> HarmlessRun(p, w0, steps + [s])
  {
    assert (steps + [s])[..|steps|] == steps;
  }

  /** A boot, a fetch of the staged bundle and its unpack up to entry `m`. */
  lemma BootedTo(p: Provision, w: World, readable: bool, body: string, m: nat) returns (steps: seq<Step>)
    requires w.pc.Idle? && w.objectPresent && (readable ==> !MarkerMatches(p, w.files))
    requires p.digest(body) == p.expected && p.decode(body).Some? && m <= |p.decode(body).value|
    requires AllGood(p.decode(body).value[..m])
    ensures Harmless(p, w, Boot(readable)) ==> HarmlessRun(p, w, steps)
    ensures After(p, w, steps) ==
            Some(w.(files := Written(w.files, p.decode(body).value[..m]), pc := Unpacking(p.decode(body).value, m)))
  {
    RunSnoc(p, w, [], w, Boot(readable));
    if Harmless(p, w, Boot(readable)) {
      HarmlessSnoc(p, w, [], w, Boot(readable));
    }
    Extend(p, w, [] + [Boot(readable)], Do(p, w, Boot(readable)), FetchOk(body));
    steps := [] + [Boot(readable)] + [FetchOk(body)];
    assert p.decode(body).value[0..m] == p.decode(body).value[..m];
    steps := UnpackPrefix(p, w, steps, w.(pc := Unpacking(p.decode(body).value, 0)), m);
  }

  lemma FetchedTo(p: Provision, w: World, body: string, m: nat) returns (steps: seq<Step>)
    requires w.pc.Idle? && w.objectPresent && !MarkerMatches(p, w.files)
    requires p.digest(body) == p.expected && p.decode(body).Some? && m <= |p.decode(body).value|
    requires AllGood(p.decode(body).value[..m])
    ensures HarmlessRun(p, w, steps)
    ensures After(p, w, steps) ==
            Some(w.(files := Written(w.files, p.decode(body).value[..m]), pc := Unpacking(p.decode(body).value, m)))
  {
    steps := BootedTo(p, w, true, body, m);
  }

  /** A good bundle whose last file at the marker's place is not the digest itself: a boot
      that runs through without a crash overwrites that file with the marker, which then
      vouches for a bundle that is not whole. */
  lemma NamedMarkerBreaksSafety(p: Provision, w: World, body: string, k: nat) returns (steps: seq<Step>)
    requires WellFormed(p) && FreshProvision(p, w) && OnlyBundle(p, body) && Unpackable(p, body)
    requires k < |p.decode(body).value| && LastWriter(p.decode(body).value, k)
    requires var e := p.decode(body).value[k]; Dest(e) == MARKER_NAME && e.content.value != p.expected
    ensures HarmlessRun(p, w, steps) && After(p, w, steps).Some?
    ensures !Vouches(p, After(p, w, steps).value)
  {
    var entries := p.decode(body).value;
    assert entries[..|entries|] == entries;
    steps := FetchedTo(p, w, body, |entries|);
    var w1 := w.(files := Written(w.files, entries), pc := Unpacking(entries, |entries|));
    RunSnoc(p, w, steps, w1, UnpackDone);
    HarmlessSnoc(p, w, steps, w1, UnpackDone);
    steps := steps + [UnpackDone];
    var w2 := Do(p, w1, UnpackDone);
    RunSnoc(p, w, steps, w2, Mark(MarkWritten));
    HarmlessSnoc(p, w, steps, w2, Mark(MarkWritten));
    steps := steps + [Mark(MarkWritten)];
    WrongFileIsNotWhole(p, body, k, Do(p, w2, Mark(MarkWritten)).files);
  }

  lemma StripDropsNewline(s: string)
    requires s != "" && Strip(s) == s
    ensures Strip(s + "\n") == s
  {
    StripShortens(s[1..]);
    StripShortens(StripLeft(s));
    assert !IsSpace(s[0]);
    assert StripLeft(s + "\n") == s + "\n";
    assert (s + "\n")[..|s|] == s && StripRight(s) == s;
  }

  /** A crash inside the write of an entry that names the marker, at a content the marker
      check accepts. */
  lemma CrashAtMarkerEntry(p: Provision, w: World, body: string, entries: seq<Entry>, i: nat, garbage: string)
    returns (steps: seq<Step>)
    requires FreshProvision(p, w) && p.digest(body) == p.expected && p.decode(body) == Some(entries)
    requires i < |entries| && AllGood(entries[..i]) && Opened(entries[i]) && Dest(entries[i]) == MARKER_NAME
    requires Strip(garbage) == p.expected
    ensures HarmlessRun(p, w, steps)
    ensures After(p, w, steps) == Some(w.(files := Written(w.files, entries[..i])[MARKER_NAME := garbage]))
    ensures MarkerMatches(p, After(p, w, steps).value.files)
  {
    steps := FetchedTo(p, w, body, i);
    var w1 := w.(files := Written(w.files, entries[..i]), pc := Unpacking(entries, i));
    RunSnoc(p, w, steps, w1, CrashMidWrite(garbage));
    HarmlessSnoc(p, w, steps, w1, CrashMidWrite(garbage));
    steps := steps + [CrashMidWrite(garbage)];
  }

  /** Some run of a fresh provision ends with a marker that vouches wrongly; `harmless`
      admits only runs whose unreadable boots do no harm. */
  ghost predicate CanVouchWrongly(p: Provision, harmless: bool) {
    exists w0, steps :: VouchesWronglyAfter(p, harmless, w0, steps)
  }

  ghost predicate VouchesWronglyAfter(p: Provision, harmless: bool, w0: World, steps: seq<Step>) {
    && FreshProvision(p, w0) && (harmless ==> HarmlessRun(p, w0, steps))
    && After(p, w0, steps).Some? && !Vouches(p, After(p, w0, steps).value)
  }

  const EMPTY_VOLUME := World(map[], true, false, false, Idle)

  /** A good bundle that names the marker. */
  lemma NamedMarkerVouchesWrongly(p: Provision, body: string, entries: seq<Entry>, i: nat)
    requires WellFormed(p) && OnlyBundle(p, body) && p.decode(body) == Some(entries) && AllGood(entries)
    requires i < |entries| && Dest(entries[i]) == MARKER_NAME
    ensures CanVouchWrongly(p, true)
  {
    var k := LastWriterOf(entries, i);
    assert entries[k] in entries && entries[i] in entries;
    if entries[k].content.value != p.expected {
      var steps := NamedMarkerBreaksSafety(p, EMPTY_VOLUME, body, k);
      assert VouchesWronglyAfter(p, true, EMPTY_VOLUME, steps);
    } else {
      StripDropsNewline(p.expected);
      assert forall e | e in entries[..i] :: e in entries;
      var steps := CrashAtMarkerEntry(p, EMPTY_VOLUME, body, entries, i, p.expected + "\n");
      WrongFileIsNotWhole(p, body, k, After(p, EMPTY_VOLUME, steps).value.files);
      assert VouchesWronglyAfter(p, true, EMPTY_VOLUME, steps);
    }
  }

  /** A bundle that aborts, but only after it opened the marker file. */
  lemma AbortedMarkerVouchesWrongly(p: Provision, body: string, entries: seq<Entry>, i: nat)
    requires WellFormed(p) && OnlyBundle(p, body) && p.decode(body) == Some(entries) && !AllGood(entries)
    requires i < |entries| && AllGood(entries[..i]) && Opened(entries[i]) && Dest(entries[i]) == MARKER_NAME
    ensures CanVouchWrongly(p, true)
  {
    var steps := CrashAtMarkerEntry(p, EMPTY_VOLUME, body, entries, i, p.expected);
    NothingIsWhole(p, body, entries, After(p, EMPTY_VOLUME, steps).value.files);
    assert VouchesWronglyAfter(p, true, EMPTY_VOLUME, steps);
  }

  lemma NothingIsWhole(p: Provision, body: string, entries: seq<Entry>, files: Files)
    requires OnlyBundle(p, body) && p.decode(body) == Some(entries) && !AllGood(entries)
    ensures !WholeBundleOnDisk(p, files)
  {
  }

  /** For a provision with one bundle to its digest: no run of it without a harmful boot,
      however it crashes, ends with a marker that vouches wrongly, if and only if no entry an
      unpack gets to write names the marker file. */
  lemma VouchesIffMarkerReserved(p: Provision, body: string)
    requires WellFormed(p) && OnlyBundle(p, body)
    ensures !CanVouchWrongly(p, true) <==> MarkerIsReserved(p)
  {
    if MarkerIsReserved(p) {
      forall w0, steps | FreshProvision(p, w0) && HarmlessRun(p, w0, steps)
        ensures After(p, w0, steps).Some? && Vouches(p, After(p, w0, steps).value)
      {
        MarkerVouchesForBundle(p, w0, steps);
      }
    } else {
      var entries, i :| Staged(p, entries) && 0 <= i < |entries| && AllGood(entries[..i])
                        && Opened(entries[i]) && Dest(entries[i]) == MARKER_NAME;
      if AllGood(entries) {
        NamedMarkerVouchesWrongly(p, body, entries, i);
      } else {
        AbortedMarkerVouchesWrongly(p, body, entries, i);
      }
    }
  }

  /** After a boot that could not read the marker, some run ends with one that vouches wrongly. */
  ghost predicate CanGoWrong(p: Provision, w: World) {
    exists steps :: HarmlessRun(p, w, steps) && After(p, w, steps).Some? && !Vouches(p, After(p, w, steps).value)
  }

  lemma WholeIsUnpackable(p: Provision, body: string, files: Files)
    requires OnlyBundle(p, body) && WholeBundleOnDisk(p, files)
    ensures Unpackable(p, body) && Staged(p, p.decode(body).value)
  {
  }

  lemma HarmfulBootGoesWrong(p: Provision, w: World, body: string)
    requires MarkerIsReserved(p) && OnlyBundle(p, body) && Inv(p, w) && w.pc.Idle?
    requires MarkerMatches(p, w.files) && w.objectPresent && p.decode(body).value != []
    ensures CanGoWrong(p, Do(p, w, Boot(false)))
  {
    var entries := p.decode(body).value;
    WholeIsUnpackable(p, body, w.files);
    assert entries[..0] == [] && entries[0] in entries;
    ReachedIsNotMarker(p, entries, 0);
    var k := LastWriterOf(entries, 0);
    assert entries[k] in entries;
    var garbage := entries[k].content.value + "x";
    var steps := RefetchAndBreak(p, w, body, garbage);
    WrongFileIsNotWhole(p, body, k, w.files[Dest(entries[0]) := garbage]);
    OtherFileKeepsMarker(p, w.files, Dest(entries[0]), garbage);
    assert !Vouches(p, After(p, Do(p, w, Boot(false)), steps).value);
  }

  lemma RefetchAndBreak(p: Provision, w: World, body: string, garbage: string) returns (steps: seq<Step>)
    requires w.pc.Idle? && w.objectPresent && p.digest(body) == p.expected && p.decode(body).Some?
    requires p.decode(body).value != [] && Good(p.decode(body).value[0])
    ensures HarmlessRun(p, Do(p, w, Boot(false)), steps)
    ensures After(p, Do(p, w, Boot(false)),
        steps) == Some(w.(files := w.files[Dest(p.decode(body).value[0]) := garbage]))
  {
    var w1 := Do(p, w, Boot(false));
    RunSnoc(p, w1, [], w1, FetchOk(body));
    HarmlessSnoc(p, w1, [], w1, FetchOk(body));
    var w2 := Do(p, w1, FetchOk(body));
    RunSnoc(p, w1, [] + [FetchOk(body)], w2, CrashMidWrite(garbage));
    HarmlessSnoc(p, w1, [] + [FetchOk(body)], w2, CrashMidWrite(garbage));
    steps := [] + [FetchOk(body)] + [CrashMidWrite(garbage)];
  }

  lemma EmptyIsWhole(p: Provision, body: string, files: Files)
    requires OnlyBundle(p, body) && p.decode(body).value == []
    ensures WholeBundleOnDisk(p, files)
  {
    assert Staged(p, []) && Whole(files, []);
  }

  /** A boot of a reachable idle world that cannot read the marker leads to a marker that
      vouches wrongly, through some run, if and only if the marker matches while the object
      is still there, for a bundle that is not empty. */
  lemma UnreadableBootHarmsIff(p: Provision, w0: World, before: seq<Step>, w: World, body: string)
    requires WellFormed(p) && MarkerIsReserved(p) && OnlyBundle(p, body)
    requires FreshProvision(p, w0) && HarmlessRun(p, w0, before) && After(p, w0, before) == Some(w) && w.pc.Idle?
    ensures CanGoWrong(p, Do(p, w, Boot(false)))
       <==> MarkerMatches(p, w.files) && w.objectPresent && p.decode(body).value != []
  {
    RunKeepsInv(p, w0, before);
    var w1 := Do(p, w, Boot(false));
    if p.decode(body).value == [] {
      forall files ensures WholeBundleOnDisk(p, files) {
        EmptyIsWhole(p, body, files);
      }
    } else if MarkerMatches(p, w.files) && w.objectPresent {
      HarmfulBootGoesWrong(p, w, body);
    } else {
      StepKeepsInv(p, w, Boot(false));
      forall steps | HarmlessRun(p, w1, steps)
        ensures After(p, w1, steps).Some? && Vouches(p, After(p, w1, steps).value)
      {
        RunKeepsInv(p, w1, steps);
      }
    }
  }

  lemma {:induction false} RunConcat(p: Provision, w0: World, a: seq<Step>, w: World, b: seq<Step>)
    requires After(p, w0, a) == Some(w)
    ensures After(p, w0, a + b) == After(p, w, b)
    decreases |b|
  {
    if b == [] {
      assert a + b == a;
    } else {
      RunConcat(p, w0, a, w, b[..|b| - 1]);
      assert (a + b)[..|a + b| - 1] == a + b[..|b| - 1];
    }
  }

  /** A run that unpacks and marks the bundle and crashes before its ack. */
  lemma MarkedAndCrashed(p: Provision, w: World, body: string) returns (steps: seq<Step>, after: World)
    requires WellFormed(p) && FreshProvision(p, w) && p.digest(body) == p.expected && Unpackable(p, body)
    ensures HarmlessRun(p, w, steps) && After(p, w, steps) == Some(after)
    ensures after.pc.Idle? && after.objectPresent && MarkerMatches(p, after.files)
  {
    var entries := p.decode(body).value;
    assert entries[..|entries|] == entries;
    steps := FetchedTo(p, w, body, |entries|);
    var w1 := w.(files := Written(w.files, entries), pc := Unpacking(entries, |entries|));
    RunSnoc(p, w, steps, w1, UnpackDone);
    HarmlessSnoc(p, w, steps, w1, UnpackDone);
    var w2 := Do(p, w1, UnpackDone);
    RunSnoc(p, w, steps + [UnpackDone], w2, Mark(MarkWritten));
    HarmlessSnoc(p, w, steps + [UnpackDone], w2, Mark(MarkWritten));
    var w3 := Do(p, w2, Mark(MarkWritten));
    RunSnoc(p, w, steps + [UnpackDone] + [Mark(MarkWritten)], w3, Crash);
    HarmlessSnoc(p, w, steps + [UnpackDone] + [Mark(MarkWritten)], w3, Crash);
    steps, after := steps + [UnpackDone] + [Mark(MarkWritten)] + [Crash], Do(p, w3, Crash);
  }

  lemma GoesWrongAfter(p: Provision, w0: World, before: seq<Step>, w: World)
    requires FreshProvision(p, w0) && After(p, w0, before) == Some(w) && w.pc.Idle?
    requires CanGoWrong(p, Do(p, w, Boot(false)))
    ensures CanVouchWrongly(p, false)
  {
    var w1 := Do(p, w, Boot(false));
    var steps :| HarmlessRun(p, w1, steps) && After(p, w1, steps).Some? && !Vouches(p, After(p, w1, steps).value);
    RunSnoc(p, w0, before, w, Boot(false));
    RunConcat(p, w0, before + [Boot(false)], w1, steps);
    assert VouchesWronglyAfter(p, false, w0, before + [Boot(false)] + steps);
  }

  /** A boot that cannot read the marker such a run leaves breaks what the marker says. */
  lemma UnreadableBootVouchesWrongly(p: Provision, body: string)
    requires WellFormed(p) && MarkerIsReserved(p) && OnlyBundle(p, body)
    requires Unpackable(p, body) && p.decode(body).value != []
    ensures CanVouchWrongly(p, false)
  {
    var before, w := MarkedAndCrashed(p, EMPTY_VOLUME, body);
    RunKeepsInv(p, EMPTY_VOLUME, before);
    HarmfulBootGoesWrong(p, w, body);
    GoesWrongAfter(p, EMPTY_VOLUME, before, w);
  }

  /** A bundle that never unpacks never gets a matching marker, so no boot does harm. */
  lemma {:induction false} AbortingRunIsHarmless(p: Provision, body: string, w0: World, steps: seq<Step>)
    requires WellFormed(p) && MarkerIsReserved(p) && OnlyBundle(p, body) && !Unpackable(p, body)
    requires FreshProvision(p, w0) && After(p, w0, steps).Some?
    ensures HarmlessRun(p, w0, steps)
  {
    if steps == [] {
    } else {
      var init := steps[..|steps| - 1];
      AbortingRunIsHarmless(p, body, w0, init);
      RunKeepsInv(p, w0, init);
      NothingIsWhole(p, body, p.decode(body).value, After(p, w0, init).value.files);
    }
  }

  /** Over all runs, harmful boots included: no marker ever vouches wrongly if and only if no
      entry an unpack gets to write names the marker file, and the bundle is empty or never
      unpacks. */
  lemma AlwaysVouchesIff(p: Provision, body: string)
    requires WellFormed(p) && OnlyBundle(p, body)
    ensures !CanVouchWrongly(p, false)
       <==> MarkerIsReserved(p) && (p.decode(body).value == [] || !Unpackable(p, body))
  {
    if !MarkerIsReserved(p) {
      VouchesIffMarkerReserved(p, body);
      var w0, steps :| VouchesWronglyAfter(p, true, w0, steps);
      assert VouchesWronglyAfter(p, false, w0, steps);
    } else if p.decode(body).value == [] {
      forall w0, steps ensures !VouchesWronglyAfter(p, false, w0, steps) {
        if After(p, w0, steps).Some? { EmptyIsWhole(p, body, After(p, w0, steps).value.files); }
      }
    } else if Unpackable(p, body) {
      UnreadableBootVouchesWrongly(p, body);
    } else {
      forall w0, steps | FreshProvision(p, w0) && After(p, w0, steps).Some?
        ensures Vouches(p, After(p, w0, steps).value)
      {
        AbortingRunIsHarmless(p, body, w0, steps);
        RunKeepsInv(p, w0, steps);
      }
    }
  }

  // ---- the prelude is a path of the machine ------------------------------

  /** How many entries an unpack writes. */
  function GoodPrefix(entries: seq<Entry>): (n: nat)
    ensures n <= |entries|
  {
    if entries == [] || !Good(entries[0]) then 0 else GoodPrefix(entries[1..]) + 1
  }

  lemma {:induction false} GoodPrefixIsGood(entries: seq<Entry>)
    ensures AllGood(entries[..GoodPrefix(entries)])
    ensures GoodPrefix(entries) < |entries| ==> !Good(entries[GoodPrefix(entries)])
  {
    if entries == [] || !Good(entries[0]) {
    } else {
      GoodPrefixIsGood(entries[1..]);
      PrefixOfTail(entries, GoodPrefix(entries[1..]));
    }
  }

  lemma PrefixOfTail(entries: seq<Entry>, n: nat)
    requires n < |entries|
    ensures entries[..n + 1] == [entries[0]] + entries[1..][..n]
  {
  }

  lemma SplitsAt(entries: seq<Entry>, n: nat)
    requires n < |entries|
    ensures entries[..n] + entries[n..] == entries && entries[n..] != [] && entries[n..][0] == entries[n]
  {
  }

  lemma WrittenIsGoodPrefix(files: Files, entries: seq<Entry>)
    ensures var m := GoodPrefix(entries);
            && (AllGood(entries) <==> m == |entries|)
            && (m < |entries| ==> !Good(entries[m]))
            && Written(files, entries) == if m < |entries| then Spoiled(Written(files, entries[..m]), entries[m])
                                          else Written(files, entries[..m])
  {
    var m := GoodPrefix(entries);
    GoodPrefixIsGood(entries);
    if m < |entries| {
      SplitsAt(entries, m);
      AbortKeepsEarlierFiles(files, entries[..m], entries[m..]);
      assert entries[m] in entries;
    } else {
      assert entries[..m] == entries;
    }
  }

  /** The world after a boot without a crash; `processed` says whether the control plane
      acted on one of the acks. */
  function PreludeWorld(p: Provision, w: World, markerReadable: bool, body: Option<string>, mark: MarkOutcome,
                        processed: bool): World
  {
    var files := PreludeFiles(p, w.files, markerReadable, body, mark);
    if body.Some? && Unpackable(p, body.value) && processed
    then w.(files := files, objectPresent := false, acked := true, ackedMarked := mark.MarkWritten?)
    else w.(files := files)
  }

  /** Whatever a boot meets, if it does not crash it leaves what some path of the machine
      leaves: so what holds on all paths holds of it. */
  lemma PreludeFollowsMachine(p: Provision, w: World, markerReadable: bool, body: Option<string>,
                              mark: MarkOutcome, processed: bool)
    returns (steps: seq<Step>)
    requires w.pc.Idle?
    requires markerReadable && MarkerMatches(p, w.files) ==> body.None?
    requires body.Some? ==> w.objectPresent && p.digest(body.value) == p.expected
    ensures After(p, w, steps) == Some(PreludeWorld(p, w, markerReadable, body, mark, processed))
    ensures Harmless(p, w, Boot(markerReadable)) ==> HarmlessRun(p, w, steps)
  {
    if body.None? || p.decode(body.value).None? {
      return [];
    }
    var entries := p.decode(body.value).value;
    var m := GoodPrefix(entries);
    GoodPrefixIsGood(entries);
    steps := BootedTo(p, w, markerReadable, body.value, m);
    var w1 := w.(files := Written(w.files, entries[..m]), pc := Unpacking(entries, m));
    WrittenIsGoodPrefix(w.files, entries);
    if m < |entries| {
      Extend(p, w, steps, w1, UnpackAbort);
      steps := steps + [UnpackAbort];
    } else {
      Extend(p, w, steps, w1, UnpackDone);
      steps := MarkAndAck(p, w, steps + [UnpackDone], Do(p, w1, UnpackDone), mark, processed);
    }
  }

  lemma MarkAndAck(p: Provision, w0: World, steps: seq<Step>, w: World, mark: MarkOutcome, processed: bool)
    returns (steps': seq<Step>)
    requires After(p, w0, steps) == Some(w) && w.pc.Marking? && w.objectPresent
    ensures HarmlessRun(p, w0, steps) ==> HarmlessRun(p, w0, steps')
    ensures var marked := w.(files := Marked(p, w.files, mark), pc := Idle);
            After(p, w0, steps') ==
            Some(if processed then marked.(objectPresent := false, acked := true,
                ackedMarked := mark.MarkWritten?) else marked)
  {
    Extend(p, w0, steps, w, Mark(mark));
    var w1 := Do(p, w, Mark(mark));
    Extend(p, w0, steps + [Mark(mark)], w1, AckPost(processed));
    var w2 := Do(p, w1, AckPost(processed));
    Extend(p, w0, steps + [Mark(mark)] + [AckPost(processed)], w2, AckDone);
    steps' := steps + [Mark(mark)] + [AckPost(processed)] + [AckDone];
  }

  /** The prelude composed with the machine. A deleted object is served to nobody; nothing
      else is assumed of the answers. What the boot leaves, some path of the machine leaves;
      so after a boot that does no harm, from any state the machine keeps sound, a matching
      marker vouches for the whole bundle. */
  method BootOnMachine(volume: ConfigVolume, p: Provision, ghost w: World, ghost processed: bool, markerReadable: bool,
                       fetches: seq<HttpOutcome>, mark: MarkOutcome, cpUrl: string, workspaceId: string,
                       acks: seq<HttpOutcome>)
    returns (outcome: Outcome, ghost steps: seq<Step>)
    requires |fetches| >= MAX_ATTEMPTS && |acks| >= MAX_ATTEMPTS
    requires w.files == volume.files && w.pc.Idle?
    requires !w.objectPresent ==>
               forall k | 0 <= k < MAX_ATTEMPTS && fetches[k].Response? :: !(200 <= fetches[k].status < 300)
    modifies volume
    ensures After(p, w, steps).Some?
    ensures var after := After(p, w, steps).value;
            && after.files == volume.files && after.pc.Idle?
            && (after.acked ==> w.acked || outcome.Ran?)
            && (WellFormed(p) && MarkerIsReserved(p) && Inv(p, w) && Harmless(p, w, Boot(markerReadable)) ==>
                  Inv(p, after) && Vouches(p, after))
  {
    ghost var body;
    outcome, body := volume.RunConfigRelayPrelude(p, markerReadable, fetches, mark, cpUrl, workspaceId, acks);
    steps := PreludeFollowsMachine(p, w, markerReadable, body, mark, processed);
    if WellFormed(p) && MarkerIsReserved(p) && Inv(p, w) && Harmless(p, w, Boot(markerReadable)) {
      RunKeepsInv(p, w, steps);
    }
  }
}
