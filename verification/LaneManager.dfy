/** The private sockets of lane daemons: start, hot-add, rollback and stop
    (molecule_runtime/channel_events.py, `ChannelEventSocketManager`). */
module LaneManager {
  import opened Text

  /** The reserved variables of both lanes, the state directory of a trigger, and the rest. */
  datatype EnvVar =
    | ChannelApiVersion | ChannelSocket | ChannelToken | ChannelPluginId
    | TriggerApiVersion | TriggerSocket | TriggerToken | TriggerPluginId
    | TriggerStateDir
    | Other(name: string)

  type Env = map<EnvVar, string>

  const API_VERSION := "1"
  const RESERVED := {ChannelApiVersion, ChannelSocket, ChannelToken, ChannelPluginId,
                     TriggerApiVersion, TriggerSocket, TriggerToken, TriggerPluginId}

  /** A daemon as its plugin declares it. */
  class DaemonSpec {
    const key: string
    const kind: string
    const plugin: string
    var env: Env

    constructor (key: string, kind: string, plugin: string, env: Env)
      ensures this.key == key && this.kind == kind && this.plugin == plugin && this.env == env
    {
      this.key, this.kind, this.plugin, this.env := key, kind, plugin, env;
    }
  }

  function Kind(s: DaemonSpec): string { Strip(s.kind) }

  function Identity(s: DaemonSpec): string { Strip(s.plugin) }

  /** Blanks around the declared kind and plugin do not matter. */
  lemma KindAndPluginAreTrimmed(s: DaemonSpec, before: string, text: string, after: string)
    requires Blank(before) && Blank(after) && text != "" && !IsSpace(text[0]) && !IsSpace(text[|text| - 1])
    ensures s.kind == before + text + after ==> Kind(s) == text
    ensures s.plugin == before + text + after ==> Identity(s) == text
    ensures s.plugin == before ==> Identity(s) == ""
  {
    StripExact(before, text, after);
    AllBlankStrips(before);
  }

  predicate IsLaneKind(kind: string) {
    kind == "channel" || kind == "trigger"
  }

  /** A daemon that is entitled to a lane. */
  predicate HasLane(s: DaemonSpec) {
    IsLaneKind(Kind(s)) && Identity(s) != ""
  }

  function Objects(specs: seq<DaemonSpec>): set<DaemonSpec> {
    set s | s in specs
  }

  // ---- lane identities ---------------------------------------------------------

  function LaneIds(specs: seq<DaemonSpec>): seq<string> {
    if specs == [] then []
    else
      var ids, s := LaneIds(specs[..|specs| - 1]), specs[|specs| - 1];
      if HasLane(s) && Identity(s) !in ids then ids + [Identity(s)] else ids
  }

  function LaneKinds(specs: seq<DaemonSpec>): map<string, string> {
    if specs == [] then map[]
    else
      var kinds, s := LaneKinds(specs[..|specs| - 1]), specs[|specs| - 1];
      if HasLane(s) && Identity(s) !in kinds then kinds[Identity(s) := Kind(s)] else kinds
  }

  predicate Distinct(ids: seq<string>) {
    forall i, j | 0 <= i < j < |ids| :: ids[i] != ids[j]
  }

  predicate Owns(specs: seq<DaemonSpec>, id: string) {
    exists i | 0 <= i < |specs| :: HasLane(specs[i]) && Identity(specs[i]) == id
  }

  lemma OwnsSnoc(specs: seq<DaemonSpec>, id: string)
    requires specs != []
    ensures var s := specs[|specs| - 1];
            Owns(specs, id) <==> Owns(specs[..|specs| - 1], id) || (HasLane(s) && Identity(s) == id)
  {
    var init := specs[..|specs| - 1];
    assert forall i | 0 <= i < |init| :: specs[i] == init[i];
  }

  /** Each plugin that owns a lane daemon is listed exactly once, and nothing else is. */
  lemma {:induction false} LaneIdsAreTheOwners(specs: seq<DaemonSpec>)
    ensures Distinct(LaneIds(specs)) && LaneKinds(specs).Keys == set id | id in LaneIds(specs)
    ensures forall id :: id in LaneIds(specs) <==> Owns(specs, id)
  {
    if specs == [] {
    } else {
      LaneIdsAreTheOwners(specs[..|specs| - 1]);
      forall id ensures id in LaneIds(specs) <==> Owns(specs, id) {
        OwnsSnoc(specs, id);
      }
    }
  }

  /** A plugin's lane is of the kind of its first lane daemon. */
  lemma {:induction false} LaneKindIsTheFirst(specs: seq<DaemonSpec>, i: nat)
    requires i < |specs| && HasLane(specs[i]) && !Owns(specs[..i], Identity(specs[i]))
    ensures Identity(specs[i]) in LaneKinds(specs) && LaneKinds(specs)[Identity(specs[i])] == Kind(specs[i])
  {
    var init := specs[..|specs| - 1];
    if i < |init| {
      assert init[i] == specs[i] && init[..i] == specs[..i];
      LaneKindIsTheFirst(init, i);
    } else {
      LaneIdsAreTheOwners(init);
      assert init == specs[..i];
    }
  }

  // ---- the reserved environment --------------------------------------------------

  function Scrubbed(env: Env): Env {
    env - RESERVED
  }

  function Injected(s: DaemonSpec, env: Env, paths: map<string, string>, tokens: map<string, string>,
      stateDir: string): Env {
    var id := Identity(s);
    if !IsLaneKind(Kind(s)) || id !in paths || id !in tokens then env
    else if Kind(s) == "trigger" then
      env[TriggerApiVersion := API_VERSION][TriggerSocket := paths[id]][TriggerToken := tokens[id]]
         [TriggerPluginId := id][TriggerStateDir := stateDir]
    else
      env[ChannelApiVersion := API_VERSION][ChannelSocket := paths[id]][ChannelToken := tokens[id]]
         [ChannelPluginId := id]
  }

  /** Every token in the environment is the one of the daemon's own plugin, under the names
      of the daemon's own kind. */
  predicate OwnToken(s: DaemonSpec, env: Env, tokens: map<string, string>) {
    && (ChannelToken in env ==>
          Kind(s) == "channel" && Identity(s) in tokens && env[ChannelToken] == tokens[Identity(s)])
    && (TriggerToken in env ==>
          Kind(s) == "trigger" && Identity(s) in tokens && env[TriggerToken] == tokens[Identity(s)])
  }

  lemma InjectedIsOwn(s: DaemonSpec, env: Env, paths: map<string, string>, tokens: map<string, string>,
      stateDir: string,
                      before: map<string, string>)
    requires OwnToken(s, env, before) && before.Keys <= tokens.Keys && forall p | p in before :: before[p] == tokens[p]
    ensures OwnToken(s, Injected(s, env, paths, tokens, stateDir), tokens)
    ensures Identity(s) in paths && Identity(s) in tokens && IsLaneKind(Kind(s)) ==>
              ChannelToken in Injected(s, env, paths, tokens, stateDir) || TriggerToken in Injected(s, env, paths,
                  tokens, stateDir)
  {
  }

  /** Scrubbing takes the eight reserved variables and nothing else. */
  lemma ScrubbedTakesReserved(env: Env, v: EnvVar)
    ensures v in Scrubbed(env) <==> v in env && (v.TriggerStateDir? || v.Other?)
    ensures v in Scrubbed(env) ==> Scrubbed(env)[v] == env[v]
  {
  }

  lemma ScrubbedTwice(env: Env)
    ensures Scrubbed(Scrubbed(env)) == Scrubbed(env)
  {
  }

  lemma ScrubbedIsOwn(s: DaemonSpec, env: Env, paths: map<string, string>, tokens: map<string, string>,
      stateDir: string)
    ensures OwnToken(s, Scrubbed(env), tokens) && OwnToken(s, Injected(s, Scrubbed(env), paths, tokens, stateDir),
        tokens)
  {
    assert ChannelToken in RESERVED && TriggerToken in RESERVED;
    InjectedIsOwn(s, Scrubbed(env), paths, tokens, stateDir, map[]);
  }

  /** A daemon whose plugin is served gets that plugin's socket, token and identity under its
      own kind's names, a trigger its state directory too; nothing else changes. */
  lemma InjectedGetsItsLane(s: DaemonSpec, env: Env, paths: map<string, string>, tokens: map<string, string>,
                            stateDir: string)
    requires HasLane(s) && Identity(s) in paths && Identity(s) in tokens
    ensures var after, id := Injected(s, env, paths, tokens, stateDir), Identity(s);
            && (Kind(s) == "channel" ==>
                  && after == env + map[ChannelApiVersion := "1", ChannelSocket := paths[id],
                                        ChannelToken := tokens[id], ChannelPluginId := id])
            && (Kind(s) == "trigger" ==>
                  && after == env + map[TriggerApiVersion := "1", TriggerSocket := paths[id],
                                        TriggerToken := tokens[id], TriggerPluginId := id,
                                        TriggerStateDir := stateDir])
  {
  }

  /** A daemon of no lane kind, of no plugin, or whose plugin is not served, keeps its
      environment. */
  lemma UnservedKeepsEnv(s: DaemonSpec, env: Env, paths: map<string, string>, tokens: map<string, string>,
                         stateDir: string)
    requires !(HasLane(s) && Identity(s) in paths && Identity(s) in tokens) && "" !in paths
    ensures Injected(s, env, paths, tokens, stateDir) == env
  {
  }

  /** The token a daemon's environment carries. */
  function TokenIn(s: DaemonSpec, env: Env): string {
    if Kind(s) == "trigger" && TriggerToken in env then env[TriggerToken]
    else if Kind(s) == "channel" && ChannelToken in env then env[ChannelToken]
    else ""
  }

  /** Two served daemons carry the same token if and only if one plugin owns both, whatever
      their kinds: a channel and a trigger daemon of one plugin share its lane. */
  lemma TokenSharedIffSamePlugin(s: DaemonSpec, t: DaemonSpec, envS: Env, envT: Env,
                                 paths: map<string, string>, tokens: map<string, string>, stateDir: string)
    requires HasLane(s) && HasLane(t) && paths.Keys == tokens.Keys
    requires Identity(s) in tokens && Identity(t) in tokens
    requires forall p, q | p in tokens && q in tokens && p != q :: tokens[p] != tokens[q]
    ensures TokenIn(s, Injected(s, envS, paths, tokens, stateDir))
        == TokenIn(t, Injected(t, envT, paths, tokens, stateDir))
       <==> Identity(s) == Identity(t)
  {
    assert TokenIn(s, Injected(s, envS, paths, tokens, stateDir)) == tokens[Identity(s)];
    assert TokenIn(t, Injected(t, envT, paths, tokens, stateDir)) == tokens[Identity(t)];
  }

  /** Injecting alone does not clear a manifest's claim: it survives on a daemon that has no
      lane, so the scrubbing before it is needed. */
  lemma ClaimSurvivesInjection(s: DaemonSpec, claim: string, paths: map<string, string>, tokens: map<string,
      string>, stateDir: string)
    requires !HasLane(s) && "" !in tokens
    ensures Injected(s, map[ChannelToken := claim], paths, tokens, stateDir) == map[ChannelToken := claim]
    ensures !OwnToken(s, Injected(s, map[ChannelToken := claim], paths, tokens, stateDir), tokens)
    ensures OwnToken(s, Injected(s, Scrubbed(map[ChannelToken := claim]), paths, tokens, stateDir), tokens)
  {
    assert ChannelToken in RESERVED;
  }

  // ---- the manager -----------------------------------------------------------------

  /** A uvicorn server on a socket; its wrapped app checks the token and stamps by the kind. */
  datatype Server = Server(pluginId: string, token: string, kind: string, path: string)

  /** Where a start or a hot-add of `n` lanes fails, if it does: preparing the socket
      directory, preparing the path of a lane, waiting for the binds, or securing a socket. */
  datatype Fault = NoFault | SocketDir | SocketPath(lane: nat) | BindWait | Chmod(lane: nat)

  predicate Fails(fault: Fault, n: nat) {
    match fault
    case NoFault => false
    case SocketDir => true
    case SocketPath(i) => i < n
    case BindWait => true
    case Chmod(i) => i < n
  }

  function Added(specs: seq<DaemonSpec>, new_: seq<DaemonSpec>): (r: seq<DaemonSpec>)
    ensures forall s | s in r :: s in new_ && forall t | t in specs :: t.key != s.key
  {
    if new_ == [] then []
    else
      var init, s := Added(specs, new_[..|new_| - 1]), new_[|new_| - 1];
      if exists t | t in specs :: t.key == s.key then init else init + [s]
  }

  /** A daemon is added if and only if no registered one has its key. */
  lemma {:induction false} AddedIffNewKey(specs: seq<DaemonSpec>, new_: seq<DaemonSpec>, s: DaemonSpec)
    ensures s in Added(specs, new_) <==> s in new_ && forall t | t in specs :: t.key != s.key
  {
    if new_ == [] {
    } else {
      var init, last := new_[..|new_| - 1], new_[|new_| - 1];
      assert new_ == init + [last];
      AddedIffNewKey(specs, init, s);
    }
  }

  function Unserved(ids: seq<string>, servers: map<string, Server>): (r: seq<string>)
    ensures forall id :: id in r <==> id in ids && id !in servers
  {
    if ids == [] then []
    else
      var init, id := Unserved(ids[..|ids| - 1], servers), ids[|ids| - 1];
      if id in servers then init else init + [id]
  }

  /** The four maps of the manager. */
  datatype Lanes = Lanes(
    servers: map<string, Server>,
    tasks: map<string, Server>,
    paths: map<string, string>,
    tokens: map<string, string>
  )

  const NO_LANES := Lanes(map[], map[], map[], map[])

  predicate Agree(m: Lanes) {
    && m.servers == m.tasks && m.servers.Keys == m.paths.Keys && m.servers.Keys == m.tokens.Keys
    && forall p | p in m.servers :: m.servers[p].pluginId == p && m.servers[p].token == m.tokens[p]
         && m.servers[p].path == m.paths[p]
  }

  function LaneKind(kinds: map<string, string>, id: string): string {
    if id in kinds then kinds[id] else "channel"
  }

  /** What binding is given: new tokens, socket paths and lane kinds by plugin. */
  datatype Binding = Binding(newToken: string -> string, socketPath: string -> string, kinds: map<string, string>)

  function BoundOne(m: Lanes, b: Binding, id: string): Lanes {
    var server := Server(id, b.newToken(id), LaneKind(b.kinds, id), b.socketPath(id));
    Lanes(m.servers[id := server], m.tasks[id := server], m.paths[id := b.socketPath(id)],
        m.tokens[id := b.newToken(id)])
  }

  function Bound(m: Lanes, b: Binding, ids: seq<string>): Lanes {
    if ids == [] then m else BoundOne(Bound(m, b, ids[..|ids| - 1]), b, ids[|ids| - 1])
  }

  function ForgottenOne(m: Lanes, id: string): Lanes {
    Lanes(m.servers - {id}, m.tasks - {id}, m.paths - {id}, m.tokens - {id})
  }

  function Forgotten(m: Lanes, ids: seq<string>): Lanes {
    if ids == [] then m else ForgottenOne(Forgotten(m, ids[..|ids| - 1]), ids[|ids| - 1])
  }

  lemma BoundSnoc(m: Lanes, b: Binding, ids: seq<string>, id: string)
    ensures Bound(m, b, ids + [id]) == BoundOne(Bound(m, b, ids), b, id)
  {
    assert (ids + [id])[..|ids|] == ids;
  }

  lemma BoundOneIsExact(m: Lanes, b: Binding, id: string)
    requires Agree(m)
    ensures var n := BoundOne(m, b, id);
            && Agree(n) && n.servers == m.servers[id := Server(id, b.newToken(id), LaneKind(b.kinds, id),
                 b.socketPath(id))]
  {
  }

  /** Binding adds exactly the lanes asked for, keeps the maps agreeing, and leaves the lanes
      of other plugins as they were. */
  lemma {:induction false} BoundIsExact(m: Lanes, b: Binding, ids: seq<string>)
    requires Agree(m)
    ensures var n := Bound(m, b, ids);
            && Agree(n)
            && (forall p :: p in n.servers <==> p in m.servers || p in ids)
            && (forall p | p in ids :: n.servers[p] == Server(p, b.newToken(p), LaneKind(b.kinds, p), b.socketPath(p)))
            && (forall p | p in m.servers && p !in ids :: n.servers[p] == m.servers[p])
  {
    if ids == [] {
    } else {
      BoundIsExact(m, b, ids[..|ids| - 1]);
      BoundOneIsExact(Bound(m, b, ids[..|ids| - 1]), b, ids[|ids| - 1]);
      assert forall p :: p in ids <==> p in ids[..|ids| - 1] || p == ids[|ids| - 1];
    }
  }

  lemma BoundAgrees(m: Lanes, b: Binding, ids: seq<string>)
    requires Agree(m)
    ensures Agree(Bound(m, b, ids))
  {
    BoundIsExact(m, b, ids);
  }

  lemma {:induction false} ForgottenIsExact(m: Lanes, ids: seq<string>)
    requires Agree(m)
    ensures var n := Forgotten(m, ids);
            && Agree(n)
            && (forall p :: p in n.servers <==> p in m.servers && p !in ids)
            && (forall p | p in n.servers :: n.servers[p] == m.servers[p])
  {
    if ids == [] {
    } else {
      ForgottenIsExact(m, ids[..|ids| - 1]);
    }
  }

  /** Lanes that agree are determined by their servers. */
  lemma AgreeingLanesEqual(m: Lanes, n: Lanes)
    requires Agree(m) && Agree(n) && m.servers == n.servers
    ensures m == n
  {
    assert forall p | p in m.tokens :: m.tokens[p] == n.tokens[p] by {
      assert forall p | p in m.tokens :: p in m.servers;
    }
    assert forall p | p in m.paths :: m.paths[p] == n.paths[p] by {
      assert forall p | p in m.paths :: p in m.servers;
    }
    assert m.tokens == n.tokens && m.paths == n.paths;
  }

  /** Forgetting the lanes just bound, none of which was served, restores all four maps. */
  lemma RollbackRestores(m: Lanes, b: Binding, ids: seq<string>)
    requires Agree(m) && forall id | id in ids :: id !in m.servers
    ensures Forgotten(Bound(m, b, ids), ids) == m
  {
    BoundIsExact(m, b, ids);
    ForgottenIsExact(Bound(m, b, ids), ids);
    AgreeingLanesEqual(Forgotten(Bound(m, b, ids), ids), m);
  }

  // ---- what each call does to the whole of it ---------------------------------------

  /** The manager as a value: its lanes, its daemons with their environments, its flag. */
  datatype Managed = Managed(lanes: Lanes, specs: seq<DaemonSpec>, envs: map<DaemonSpec, Env>, started: bool)

  /** Where its sockets go and where triggers keep their state. */
  datatype Site = Site(socketPath: string -> string, stateDir: string)

  ghost predicate Covers(m: Managed) {
    forall s | s in m.specs :: s in m.envs
  }

  ghost function Started(site: Site, m: Managed, newToken: string -> string, fault: Fault): Managed
    requires Covers(m)
  {
    if m.started then m
    else
      var ids := LaneIds(m.specs);
      var ok := ids != [] && !Fails(fault, |ids|);
      var lanes := if ok then Bound(NO_LANES, Binding(newToken, site.socketPath, LaneKinds(m.specs)), ids)
          else NO_LANES;
      Managed(lanes, m.specs,
              map s | s in m.specs ::
                if ok then Injected(s, Scrubbed(m.envs[s]), lanes.paths, lanes.tokens, site.stateDir)
                    else Scrubbed(m.envs[s]),
              ok)
  }

  /** The environments after a hot-add; `newEnvs` are those the added daemons come with. */
  ghost function HotEnvs(site: Site, m: Managed, added: seq<DaemonSpec>, newEnvs: map<DaemonSpec, Env>,
                         ok: bool, lanes: Lanes): map<DaemonSpec, Env>
    requires Covers(m) && forall s | s in added :: s in newEnvs
  {
    map s | s in m.specs + added ::
      var env := if s in added then Scrubbed(newEnvs[s]) else m.envs[s];
      if ok then Injected(s, env, lanes.paths, lanes.tokens, site.stateDir) else env
  }

  ghost function HotAdded(site: Site, m: Managed, new_: seq<DaemonSpec>, newEnvs: map<DaemonSpec, Env>,
                          newToken: string -> string, fault: Fault): Managed
    requires Covers(m) && forall s | s in new_ :: s in newEnvs
  {
    var added := Added(m.specs, new_);
    var specs := m.specs + added;
    var ids := Unserved(LaneIds(specs), m.lanes.servers);
    var ok := ids == [] || !Fails(fault, |ids|);
    var lanes := if ok then Bound(m.lanes, Binding(newToken, site.socketPath, LaneKinds(specs)), ids) else m.lanes;
    Managed(lanes, specs, HotEnvs(site, m, added, newEnvs, ok, lanes), m.started || (ok && ids != []))
  }

  lemma HotEnvsByParts(site: Site, m: Managed, added: seq<DaemonSpec>, newEnvs: map<DaemonSpec, Env>,
                       ok: bool, lanes: Lanes, envs: map<DaemonSpec, Env>)
    requires Covers(m) && forall s | s in added :: s in newEnvs
    requires envs.Keys == Objects(m.specs + added)
    requires forall s | s in m.specs + added ::
               var env := if s in added then Scrubbed(newEnvs[s]) else m.envs[s];
               envs[s] == if ok then Injected(s, env, lanes.paths, lanes.tokens, site.stateDir) else env
    ensures envs == HotEnvs(site, m, added, newEnvs, ok, lanes)
  {
  }

  ghost function Stopped(m: Managed): Managed
    requires Covers(m)
  {
    Managed(NO_LANES, m.specs, map s | s in m.specs :: Scrubbed(m.envs[s]), false)
  }

  ghost function EnvsOf(specs: seq<DaemonSpec>): map<DaemonSpec, Env>
    reads Objects(specs)
  {
    map s | s in specs :: s.env
  }

  class ChannelEventSocketManager {
    const socketPath: string -> string
    const stateDir: string
    var specs: seq<DaemonSpec>
    var servers: map<string, Server>
    var tasks: map<string, Server>
    var paths: map<string, string>
    var tokens: map<string, string>
    var kinds: map<string, string>
    var started: bool

    ghost function Maps(): Lanes
      reads this
    {
      Lanes(servers, tasks, paths, tokens)
    }

    ghost function State(): Managed
      reads this, Objects(specs)
    {
      Managed(Maps(), specs, EnvsOf(specs), started)
    }

    /** The four maps agree, and there are no lanes unless the manager has started. */
    ghost predicate Valid()
      reads this
    {
      Agree(Maps()) && (!started ==> Maps() == NO_LANES)
    }

    ghost predicate OwnTokens()
      reads this, Objects(specs)
    {
      forall s | s in specs :: OwnToken(s, s.env, tokens)
    }

    constructor (specs: seq<DaemonSpec>, socketPath: string -> string, stateDir: string)
      ensures Valid() && this.specs == specs && !started
      ensures this.socketPath == socketPath && this.stateDir == stateDir
    {
      this.specs, this.socketPath, this.stateDir := specs, socketPath, stateDir;
      servers, tasks, paths, tokens, kinds, started := map[], map[], map[], map[], map[], false;
    }

    method PluginIds() returns (ids: seq<string>)
      modifies this`kinds
      ensures ids == LaneIds(specs) && kinds == LaneKinds(specs)
    {
      ids, kinds := [], map[];
      var seen: set<string> := {};
      for i := 0 to |specs|
        invariant ids == LaneIds(specs[..i]) && kinds == LaneKinds(specs[..i])
        invariant seen == kinds.Keys && forall id :: id in seen <==> id in ids
      {
        assert specs[..i + 1][..i] == specs[..i];
        var s := specs[i];
        if !IsLaneKind(Kind(s)) {
          continue;
        }
        var id := Identity(s);
        if id == "" {
          continue;
        }
        if id !in seen {
          ids, seen, kinds := ids + [id], seen + {id}, kinds[id := Kind(s)];
        }
      }
      assert specs[..|specs|] == specs;
    }

    /** Removes the reserved variables of some daemons. */
    static method Scrub(scrubbed: seq<DaemonSpec>)
      modifies Objects(scrubbed)
      ensures forall s | s in scrubbed :: s.env == Scrubbed(old(s.env))
    {
      for i := 0 to |scrubbed|
        invariant forall s | s in scrubbed :: s.env == if s in scrubbed[..i] then Scrubbed(old(s.env)) else old(s.env)
      {
        assert forall s :: s in scrubbed[..i + 1] <==> s in scrubbed[..i] || s == scrubbed[i];
        assert Scrubbed(Scrubbed(old(scrubbed[i].env))) == Scrubbed(old(scrubbed[i].env));
        scrubbed[i].env := Scrubbed(scrubbed[i].env);
      }
    }

    method ClearDaemonEnv()
      modifies Objects(specs)
      ensures forall s | s in specs :: s.env == Scrubbed(old(s.env))
    {
      Scrub(specs);
    }

    method InjectDaemonEnv()
      modifies Objects(specs)
      ensures forall s | s in specs :: s.env == Injected(s, old(s.env), paths, tokens, stateDir)
    {
      for i := 0 to |specs|
        invariant forall s | s in specs ::
                    s.env == if s in specs[..i] then Injected(s, old(s.env), paths, tokens, stateDir) else old(s.env)
      {
        assert forall s :: s in specs[..i + 1] <==> s in specs[..i] || s == specs[i];
        var s := specs[i];
        InjectedTwice(s, old(s.env), paths, tokens, stateDir);
        var id := Identity(s);
        if !IsLaneKind(Kind(s)) || id !in paths || id !in tokens {
          continue;
        }
        if Kind(s) == "trigger" {
          s.env := s.env[TriggerApiVersion := API_VERSION][TriggerSocket := paths[id]][TriggerToken := tokens[id]]
              [TriggerPluginId := id];
          s.env := s.env[TriggerStateDir := stateDir];
        } else {
          s.env := s.env[ChannelApiVersion := API_VERSION][ChannelSocket := paths[id]][ChannelToken := tokens[id]]
              [ChannelPluginId := id];
        }
      }
    }

    method BindOne(id: string, newToken: string -> string)
      modifies this`servers, this`tasks, this`paths, this`tokens
      ensures Maps() == BoundOne(old(Maps()), Binding(newToken, socketPath, kinds), id)
    {
      var server := Server(id, newToken(id), LaneKind(kinds, id), socketPath(id));
      servers := servers[id := server];
      paths := paths[id := socketPath(id)];
      tokens := tokens[id := newToken(id)];
      tasks := tasks[id := server];
    }

    /** The loop of `start` and `add_specs`: one server, path, token and task a lane, until
        a path cannot be prepared. */
    method BindLanes(ids: seq<string>, newToken: string -> string, fault: Fault) returns (bound: seq<string>, ok: bool)
      modifies this`servers, this`tasks, this`paths, this`tokens
      ensures ok <==> !(fault.SocketPath? && fault.lane < |ids|)
      ensures bound == if ok then ids else ids[..fault.lane]
      ensures Maps() == Bound(old(Maps()), Binding(newToken, socketPath, kinds), bound)
    {
      bound := [];
      for i := 0 to |ids|
        invariant bound == ids[..i] && (fault.SocketPath? ==> i <= fault.lane)
        invariant Maps() == Bound(old(Maps()), Binding(newToken, socketPath, kinds), bound)
      {
        if fault == SocketPath(i) {
          return bound, false;
        }
        BoundSnoc(old(Maps()), Binding(newToken, socketPath, kinds), bound, ids[i]);
        BindOne(ids[i], newToken);
        bound := bound + [ids[i]];
      }
      ok := true;
    }

    method ShutdownOne(id: string)
      modifies this`servers, this`tasks, this`paths, this`tokens
      ensures Maps() == ForgottenOne(old(Maps()), id)
    {
      servers, tasks := servers - {id}, tasks - {id};
      tokens, paths := tokens - {id}, paths - {id};
    }

    method ShutdownEach(bound: seq<string>)
      modifies this`servers, this`tasks, this`paths, this`tokens
      ensures Maps() == Forgotten(old(Maps()), bound)
    {
      for i := 0 to |bound|
        invariant Maps() == Forgotten(old(Maps()), bound[..i])
      {
        assert bound[..i + 1][..i] == bound[..i];
        ShutdownOne(bound[i]);
      }
      assert bound[..|bound|] == bound;
    }

    method Stop()
      requires Valid()
      modifies this, Objects(specs)
      ensures Valid() && specs == old(specs) && !started
      ensures forall s | s in specs :: s.env == Scrubbed(old(s.env))
      ensures OwnTokens()
    {
      servers, tasks := map[], map[];
      ClearDaemonEnv();
      paths := map[];
      tokens := map[];
      started := false;
    }

    /** Binds lanes, waits for the binds and secures the sockets. */
    method OpenLanes(ids: seq<string>, newToken: string -> string, fault: Fault) returns (bound: seq<string>, ok: bool)
      modifies this`servers, this`tasks, this`paths, this`tokens
      ensures fault != SocketDir ==> (ok <==> !Fails(fault, |ids|))
      ensures bound <= ids && (ok ==> bound == ids)
      ensures Maps() == Bound(old(Maps()), Binding(newToken, socketPath, kinds), bound)
    {
      bound, ok := BindLanes(ids, newToken, fault);
      ok := ok && fault != BindWait && !(fault.Chmod? && fault.lane < |ids|);
    }

    /** What `start` does when it fails. */
    method Withdraw()
      modifies this`servers, this`tasks, this`paths, this`tokens, Objects(specs)
      ensures Maps() == NO_LANES && forall s | s in specs :: s.env == Scrubbed(old(s.env))
    {
      ClearDaemonEnv();
      tokens := map[];
      servers, tasks := map[], map[];
      paths := map[];
    }

    /** The guarded part of `start`, on daemons already scrubbed. */
    method TryStart(ids: seq<string>, newToken: string -> string, fault: Fault) returns (ok: bool)
      requires Maps() == NO_LANES && !started
      requires forall s | s in specs :: Scrubbed(s.env) == s.env
      modifies this`servers, this`tasks, this`paths, this`tokens, this`started, Objects(specs)
      ensures ok <==> !Fails(fault, |ids|)
      ensures started == ok && Agree(Maps())
      ensures Maps() == if ok then Bound(NO_LANES, Binding(newToken, socketPath, kinds), ids) else NO_LANES
      ensures forall s | s in specs :: s.env == if ok then Injected(s, old(s.env), paths, tokens, stateDir)
          else old(s.env)
    {
      if fault == SocketDir {
        Withdraw();
        return false;
      }
      var bound;
      bound, ok := OpenLanes(ids, newToken, fault);
      if ok {
        BoundIsExact(NO_LANES, Binding(newToken, socketPath, kinds), bound);
        InjectDaemonEnv();
        started := true;
      } else {
        Withdraw();
      }
    }

    /** `start`: on failure there are no lanes and no reserved variables; if the manager had
        started already, nothing happens. */
    method Start(newToken: string -> string, fault: Fault) returns (ok: bool)
      requires Valid()
      modifies this, Objects(specs)
      ensures Valid() && specs == old(specs)
      ensures old(started) ==> ok && unchanged(this) && forall s | s in specs :: s.env == old(s.env)
      ensures !old(started) ==>
                var ids := LaneIds(specs);
                && (ok <==> ids == [] || !Fails(fault, |ids|))
                && (started <==> ok && ids != [])
                && Maps() == (if started then Bound(NO_LANES, Binding(newToken, socketPath, LaneKinds(specs)),
                     ids) else NO_LANES)
                && (forall s | s in specs ::
                      s.env == if started then Injected(s, Scrubbed(old(s.env)), paths, tokens, stateDir)
                          else Scrubbed(old(s.env)))
      ensures (old(started) ==> old(OwnTokens())) ==> OwnTokens()
    {
      if started {
        return true;
      }
      ClearDaemonEnv();
      forall s | s in specs ensures Scrubbed(s.env) == s.env {
        ScrubbedTwice(old(s.env));
      }
      var ids := PluginIds();
      ok := true;
      if ids != [] {
        ok := TryStart(ids, newToken, fault);
      }
      forall s | s in specs ensures OwnToken(s, s.env, tokens) {
        ScrubbedIsOwn(s, old(s.env), paths, tokens, stateDir);
      }
    }

    /** Registers the daemons whose key is new, scrubbed, and names the plugins to serve. */
    method RegisterSpecs(new_: seq<DaemonSpec>) returns (added: seq<DaemonSpec>, ids: seq<string>)
      modifies this`specs, this`kinds, Objects(new_)
      ensures added == Added(old(specs), new_) && specs == old(specs) + added
      ensures kinds == LaneKinds(specs) && ids == Unserved(LaneIds(specs), servers)
      ensures forall s | s in specs :: s.env == if s in added then Scrubbed(old(s.env)) else old(s.env)
      ensures forall s | s in added :: Scrubbed(s.env) == s.env
      ensures old(OwnTokens()) ==> OwnTokens()
    {
      added := Added(specs, new_);
      Scrub(added);
      specs := specs + added;
      var all := PluginIds();
      ids := Unserved(all, servers);
      forall s | s in added ensures Scrubbed(s.env) == s.env && OwnToken(s, s.env, tokens) {
        ScrubbedTwice(old(s.env));
        ScrubbedIsOwn(s, old(s.env), paths, tokens, stateDir);
      }
    }

    /** The guarded part of `add_specs`: binds lanes not served yet, or takes them back. */
    method TryAdd(added: seq<DaemonSpec>, ids: seq<string>, newToken: string -> string, fault: Fault) returns (ok: bool)
      requires Valid() && forall id | id in ids :: id !in servers
      requires ids != [] && forall s | s in added :: s in specs && Scrubbed(s.env) == s.env
      modifies this`servers, this`tasks, this`paths, this`tokens, this`started, Objects(specs)
      ensures Valid() && (ok <==> !Fails(fault, |ids|)) && started == (old(started) || ok)
      ensures Maps() == if ok then Bound(old(Maps()), Binding(newToken, socketPath, kinds), ids) else old(Maps())
      ensures forall s | s in specs :: s.env == if ok then Injected(s, old(s.env), paths, tokens, stateDir)
          else old(s.env)
    {
      if fault == SocketDir {
        return false;
      }
      var bound;
      bound, ok := OpenLanes(ids, newToken, fault);
      if ok {
        BoundAgrees(old(Maps()), Binding(newToken, socketPath, kinds), bound);
        InjectDaemonEnv();
        started := true;
      } else {
        TakeBack(added, bound, newToken, old(Maps()));
      }
    }

    /** What `add_specs` does when it fails. */
    method TakeBack(added: seq<DaemonSpec>, bound: seq<string>, newToken: string -> string, ghost before: Lanes)
      requires Agree(before) && forall id | id in bound :: id !in before.servers
      requires Maps() == Bound(before, Binding(newToken, socketPath, kinds), bound)
      requires forall s | s in added :: Scrubbed(s.env) == s.env
      modifies this`servers, this`tasks, this`paths, this`tokens, Objects(added)
      ensures Maps() == before && forall s | s in added :: s.env == old(s.env)
    {
      Scrub(added);
      RollbackRestores(before, Binding(newToken, socketPath, kinds), bound);
      ShutdownEach(bound);
    }

    /** Serves the registered daemons: injects only, if no plugin is left to bind. */
    method ServeAdded(added: seq<DaemonSpec>, ids: seq<string>, newToken: string -> string, fault: Fault)
      returns (ok: bool)
      requires Valid() && forall id | id in ids :: id !in servers
      requires forall s | s in added :: s in specs && Scrubbed(s.env) == s.env
      modifies this`servers, this`tasks, this`paths, this`tokens, this`started, Objects(specs)
      ensures Valid() && (ok <==> ids == [] || !Fails(fault, |ids|)) && started == (old(started) || (ok && ids != []))
      ensures Maps() == if ok then Bound(old(Maps()), Binding(newToken, socketPath, kinds), ids) else old(Maps())
      ensures forall s | s in specs :: s.env == if ok then Injected(s, old(s.env), paths, tokens, stateDir)
          else old(s.env)
      ensures old(OwnTokens()) ==> OwnTokens()
    {
      ok := true;
      if ids == [] {
        InjectDaemonEnv();
      } else {
        ok := TryAdd(added, ids, newToken, fault);
      }
      BoundIsExact(old(Maps()), Binding(newToken, socketPath, kinds), ids);
      if ok && old(OwnTokens()) {
        forall s | s in specs ensures OwnToken(s, s.env, tokens) {
          InjectedIsOwn(s, old(s.env), paths, tokens, stateDir, old(tokens));
        }
      }
    }

    /** `add_specs`: on failure the four maps and the environments of the earlier daemons are
        as before; the added daemons stay registered, scrubbed. */
    method AddSpecs(new_: seq<DaemonSpec>, newToken: string -> string, fault: Fault)
      returns (ok: bool, bound: seq<string>)
      requires Valid()
      modifies this, Objects(specs), Objects(new_)
      ensures Valid() && specs == old(specs) + Added(old(specs), new_)
      ensures var ids := Unserved(LaneIds(specs), old(servers));
              && (ok <==> ids == [] || !Fails(fault, |ids|))
              && bound == (if ok then ids else []) && started == (old(started) || bound != [])
              && Maps() == if ok then Bound(old(Maps()), Binding(newToken, socketPath, LaneKinds(specs)), ids)
                   else old(Maps())
      ensures forall s | s in specs ::
                var env := if s in Added(old(specs), new_) then Scrubbed(old(s.env)) else old(s.env);
                s.env == if ok then Injected(s, env, paths, tokens, stateDir) else env
      ensures old(OwnTokens()) ==> OwnTokens()
    {
      var added, ids := RegisterSpecs(new_);
      ok := ServeAdded(added, ids, newToken, fault);
      bound := if ok then ids else [];
    }

    // The three calls again, as steps of the whole.

    method StopStep()
      requires Valid()
      modifies this, Objects(specs)
      ensures Valid() && State() == Stopped(old(State()))
    {
      Stop();
    }

    method StartStep(newToken: string -> string, fault: Fault) returns (ok: bool)
      requires Valid()
      modifies this, Objects(specs)
      ensures Valid() && State() == Started(Site(socketPath, stateDir), old(State()), newToken, fault)
    {
      ok := Start(newToken, fault);
    }

    method AddStep(new_: seq<DaemonSpec>, newToken: string -> string, fault: Fault)
      returns (ok: bool, bound: seq<string>)
      requires Valid()
      modifies this, Objects(specs), Objects(new_)
      ensures Valid()
      ensures State() == HotAdded(Site(socketPath, stateDir), old(State()), new_, old(EnvsOf(new_)), newToken, fault)
    {
      ghost var before, newEnvs := State(), EnvsOf(new_);
      ok, bound := AddSpecs(new_, newToken, fault);
      HotEnvsByParts(Site(socketPath, stateDir), before, Added(before.specs, new_), newEnvs, ok, Maps(), EnvsOf(specs));
    }
  }

  lemma InjectedTwice(s: DaemonSpec, env: Env, paths: map<string, string>, tokens: map<string, string>,
      stateDir: string)
    ensures Injected(s, Injected(s, env, paths, tokens, stateDir), paths, tokens, stateDir)
         == Injected(s, env, paths, tokens, stateDir)
  {
  }
}
