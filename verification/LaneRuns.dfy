/** Every sequence of starts, hot-adds and stops of the lane manager, with any failures
    (molecule_runtime/channel_events.py, `ChannelEventSocketManager`). */
module LaneRuns {
  import opened LaneManager

  datatype Call =
    | StartCall(newToken: string -> string, fault: Fault)
    | AddCall(added: seq<DaemonSpec>, addedEnvs: map<DaemonSpec, Env>, newToken: string -> string, fault: Fault)
    | StopCall

  /** A call brings the environments of the daemons it adds. */
  ghost predicate Complete(calls: seq<Call>) {
    forall c | c in calls && c.AddCall? :: forall s | s in c.added :: s in c.addedEnvs
  }

  ghost function Called(site: Site, m: Managed, c: Call): (r: Managed)
    requires Covers(m) && (c.AddCall? ==> forall s | s in c.added :: s in c.addedEnvs)
    ensures Covers(r)
  {
    match c
    case StartCall(newToken, fault) => Started(site, m, newToken, fault)
    case AddCall(added, addedEnvs, newToken, fault) => HotAdded(site, m, added, addedEnvs, newToken, fault)
    case StopCall => Stopped(m)
  }

  /** A manager as constructed: the daemons have the environments their manifests give. */
  ghost function Constructed(specs: seq<DaemonSpec>, envs: map<DaemonSpec, Env>): Managed {
    Managed(NO_LANES, specs, envs, false)
  }

  ghost function Run(site: Site, m: Managed, calls: seq<Call>): (r: Managed)
    requires Covers(m) && Complete(calls)
    ensures Covers(r)
  {
    if calls == [] then m
    else
      var init, c := calls[..|calls| - 1], calls[|calls| - 1];
      assert forall x | x in init :: x in calls;
      assert c in calls;
      Called(site, Run(site, m, init), c)
  }

  // ---- the maps agree ------------------------------------------------------------

  ghost predicate WellManaged(m: Managed) {
    Agree(m.lanes) && (!m.started ==> m.lanes == NO_LANES)
  }

  lemma CallKeepsManaged(site: Site, m: Managed, c: Call)
    requires Covers(m) && (c.AddCall? ==> forall s | s in c.added :: s in c.addedEnvs)
    requires WellManaged(m)
    ensures WellManaged(Called(site, m, c))
  {
    match c
    case StartCall(newToken, fault) =>
      BoundIsExact(NO_LANES, Binding(newToken, site.socketPath, LaneKinds(m.specs)), LaneIds(m.specs));
    case AddCall(added, addedEnvs, newToken, fault) =>
      var specs := m.specs + Added(m.specs, added);
      BoundIsExact(m.lanes, Binding(newToken, site.socketPath, LaneKinds(specs)),
                   Unserved(LaneIds(specs), m.lanes.servers));
    case StopCall =>
  }

  /** Whatever the calls and their failures, the four maps agree, and there are lanes only
      while the manager counts as started. */
  lemma {:induction false} RunKeepsManaged(site: Site, m: Managed, calls: seq<Call>)
    requires Covers(m) && Complete(calls) && WellManaged(m)
    ensures WellManaged(Run(site, m, calls))
  {
    if calls == [] {
    } else {
      var init, c := calls[..|calls| - 1], calls[|calls| - 1];
      assert c in calls && forall x | x in init :: x in calls;
      RunKeepsManaged(site, m, init);
      CallKeepsManaged(site, Run(site, m, init), c);
    }
  }

  // ---- every daemon gets its lane --------------------------------------------------

  /** The environment names the socket, the token and the identity of the daemon's plugin. */
  predicate NamesLane(s: DaemonSpec, env: Env, socket: string, token: string) {
    if Kind(s) == "trigger" then
      && TriggerSocket in env && env[TriggerSocket] == socket && TriggerToken in env && env[TriggerToken] == token
      && TriggerPluginId in env && env[TriggerPluginId] == Identity(s)
    else
      && ChannelSocket in env && env[ChannelSocket] == socket && ChannelToken in env && env[ChannelToken] == token
      && ChannelPluginId in env && env[ChannelPluginId] == Identity(s)
  }

  lemma InjectedNames(s: DaemonSpec, env: Env, lanes: Lanes, stateDir: string)
    requires Agree(lanes) && HasLane(s) && Identity(s) in lanes.servers
    ensures var server := lanes.servers[Identity(s)];
            NamesLane(s, Injected(s, env, lanes.paths, lanes.tokens, stateDir), server.path, server.token)
  {
    assert Identity(s) in lanes.paths && Identity(s) in lanes.tokens;
    InjectedGetsItsLane(s, env, lanes.paths, lanes.tokens, stateDir);
  }

  lemma OwnerIsListed(specs: seq<DaemonSpec>, s: DaemonSpec)
    requires s in specs && HasLane(s)
    ensures Identity(s) in LaneIds(specs)
  {
    LaneIdsAreTheOwners(specs);
    var i :| 0 <= i < |specs| && specs[i] == s;
    assert Owns(specs, Identity(s));
  }

  /** After a start that goes through, each daemon with a lane is told the socket path and the
      fresh token of its own plugin, and a server of the plugin's is there for them. */
  lemma StartServesEach(site: Site, m: Managed, newToken: string -> string, fault: Fault, s: DaemonSpec)
    requires Covers(m) && !m.started && s in m.specs && HasLane(s) && !Fails(fault, |LaneIds(m.specs)|)
    ensures var r, id := Started(site, m, newToken, fault), Identity(s);
            && r.started && id in r.lanes.servers
            && r.lanes.servers[id].path == site.socketPath(id) && r.lanes.servers[id].token == newToken(id)
            && NamesLane(s, r.envs[s], site.socketPath(id), newToken(id))
  {
    var b := Binding(newToken, site.socketPath, LaneKinds(m.specs));
    OwnerIsListed(m.specs, s);
    BoundIsExact(NO_LANES, b, LaneIds(m.specs));
    InjectedNames(s, Scrubbed(m.envs[s]), Bound(NO_LANES, b, LaneIds(m.specs)), site.stateDir);
  }

  ghost predicate AddSucceeds(site: Site, m: Managed, c: Call)
    requires c.AddCall?
  {
    var ids := Unserved(LaneIds(m.specs + Added(m.specs, c.added)), m.lanes.servers);
    ids == [] || !Fails(c.fault, |ids|)
  }

  /** So after a hot-add that goes through, for the daemons there were and those it added;
      plugins served before keep their servers. */
  lemma AddServesEach(site: Site, m: Managed, c: Call, s: DaemonSpec)
    requires c.AddCall? && Covers(m) && WellManaged(m) && forall x | x in c.added :: x in c.addedEnvs
    requires AddSucceeds(site, m, c) && s in Called(site, m, c).specs && HasLane(s)
    ensures var r, id := Called(site, m, c), Identity(s);
            && id in r.lanes.servers && (id in m.lanes.servers ==> r.lanes.servers[id] == m.lanes.servers[id])
            && NamesLane(s, r.envs[s], r.lanes.servers[id].path, r.lanes.servers[id].token)
  {
    var specs := m.specs + Added(m.specs, c.added);
    var ids := Unserved(LaneIds(specs), m.lanes.servers);
    var b := Binding(c.newToken, site.socketPath, LaneKinds(specs));
    OwnerIsListed(specs, s);
    BoundIsExact(m.lanes, b, ids);
    InjectedNames(s, if s in Added(m.specs, c.added) then Scrubbed(c.addedEnvs[s]) else m.envs[s],
                  Bound(m.lanes, b, ids), site.stateDir);
  }

  // ---- who holds whose token -------------------------------------------------------

  ghost predicate OwnTokens(m: Managed)
    requires Covers(m)
  {
    forall s | s in m.specs :: OwnToken(s, m.envs[s], m.lanes.tokens)
  }

  /** Some call cleared the manifests' claims: a stop, or a start that found the manager not
      started. A hot-add scrubs only the daemons it adds. */
  ghost predicate Cleared(site: Site, m: Managed, calls: seq<Call>)
    requires Covers(m) && Complete(calls)
  {
    calls != [] &&
    (var init, c := calls[..|calls| - 1], calls[|calls| - 1];
     assert forall x | x in init :: x in calls;
     Cleared(site, m, init) || c.StopCall? || (c.StartCall? && !Run(site, m, init).started))
  }

  /** One daemon through one call: it keeps to its own token, if it did before, or is added,
      or the call clears the claims. */
  lemma CallKeepsOwnToken(site: Site, m: Managed, c: Call, s: DaemonSpec)
    requires Covers(m) && (c.AddCall? ==> forall x | x in c.added :: x in c.addedEnvs)
    requires WellManaged(m) && s in Called(site, m, c).specs
    requires || (s in m.specs ==> OwnToken(s, m.envs[s], m.lanes.tokens))
             || c.StopCall? || (c.StartCall? && !m.started)
    ensures var r := Called(site, m, c); OwnToken(s, r.envs[s], r.lanes.tokens)
  {
    var r := Called(site, m, c);
    match c
    case StartCall(newToken, fault) =>
      if !m.started {
        ScrubbedIsOwn(s, m.envs[s], r.lanes.paths, r.lanes.tokens, site.stateDir);
      }
    case AddCall(added, addedEnvs, newToken, fault) =>
      AddKeepsOwnToken(site, m, added, addedEnvs, newToken, fault, s);
    case StopCall =>
      ScrubbedIsOwn(s, m.envs[s], map[], map[], site.stateDir);
  }

  lemma AddKeepsOwnToken(site: Site, m: Managed, added: seq<DaemonSpec>, addedEnvs: map<DaemonSpec, Env>,
                         newToken: string -> string, fault: Fault, s: DaemonSpec)
    requires Covers(m) && WellManaged(m) && forall x | x in added :: x in addedEnvs
    requires s in HotAdded(site, m, added, addedEnvs, newToken, fault).specs
    requires s in m.specs ==> OwnToken(s, m.envs[s], m.lanes.tokens)
    ensures var r := HotAdded(site, m, added, addedEnvs, newToken, fault); OwnToken(s, r.envs[s], r.lanes.tokens)
  {
    var specs := m.specs + Added(m.specs, added);
    BoundIsExact(m.lanes, Binding(newToken, site.socketPath, LaneKinds(specs)),
                 Unserved(LaneIds(specs), m.lanes.servers));
    var r := HotAdded(site, m, added, addedEnvs, newToken, fault);
    if s in Added(m.specs, added) {
      ScrubbedIsOwn(s, addedEnvs[s], r.lanes.paths, r.lanes.tokens, site.stateDir);
    } else {
      InjectedIsOwn(s, m.envs[s], r.lanes.paths, r.lanes.tokens, site.stateDir, m.lanes.tokens);
    }
  }

  /** From the first clearing on, or if no manifest claimed a token, no daemon ever holds the
      token of another plugin, whatever calls follow and fail. */
  lemma {:induction false} RunKeepsOwnTokens(site: Site, m: Managed, calls: seq<Call>)
    requires Covers(m) && Complete(calls) && WellManaged(m)
    requires OwnTokens(m) || Cleared(site, m, calls)
    ensures OwnTokens(Run(site, m, calls))
  {
    if calls == [] {
    } else {
      var init, c := calls[..|calls| - 1], calls[|calls| - 1];
      assert c in calls && forall x | x in init :: x in calls;
      RunKeepsManaged(site, m, init);
      if OwnTokens(m) || Cleared(site, m, init) {
        RunKeepsOwnTokens(site, m, init);
      }
      forall s | s in Run(site, m, calls).specs
        ensures OwnToken(s, Run(site, m, calls).envs[s], Run(site, m, calls).lanes.tokens)
      {
        CallKeepsOwnToken(site, Run(site, m, init), c, s);
      }
    }
  }

  /** A daemon that came with a hot-add holds no token but its own plugin's, whatever its
      manifest claimed and whether or not anything was cleared. */
  lemma {:induction false} AddedHoldOwnTokens(site: Site, m: Managed, calls: seq<Call>, s: DaemonSpec)
    requires Covers(m) && Complete(calls) && WellManaged(m)
    requires s in Run(site, m, calls).specs && s !in m.specs
    ensures var r := Run(site, m, calls); OwnToken(s, r.envs[s], r.lanes.tokens)
  {
    if calls == [] {
    } else {
      var init, c := calls[..|calls| - 1], calls[|calls| - 1];
      assert c in calls && forall x | x in init :: x in calls;
      RunKeepsManaged(site, m, init);
      if s in Run(site, m, init).specs {
        AddedHoldOwnTokens(site, m, init, s);
      }
      CallKeepsOwnToken(site, Run(site, m, init), c, s);
    }
  }

  // ---- what a manifest's claim comes to --------------------------------------------

  /** A token under a name that is not of the daemon's kind. */
  predicate ForeignClaim(s: DaemonSpec, env: Env) {
    (ChannelToken in env && Kind(s) != "channel") || (TriggerToken in env && Kind(s) != "trigger")
  }

  predicate AnyClaim(env: Env) {
    ChannelToken in env || TriggerToken in env
  }

  /** Some hot-add went through. */
  ghost predicate SomeAdd(site: Site, m: Managed, calls: seq<Call>)
    requires Covers(m) && Complete(calls)
  {
    calls != [] &&
    (var init, c := calls[..|calls| - 1], calls[|calls| - 1];
     assert forall x | x in init :: x in calls;
     SomeAdd(site, m, init) || (c.AddCall? && AddSucceeds(site, Run(site, m, init), c)))
  }

  /** What is left of the manifest's environment of `s` as long as nothing cleared it. */
  ghost predicate Uncleared(m: Managed, s: DaemonSpec, manifest: Env, served: bool)
    requires Covers(m)
  {
    && s in m.specs && WellManaged(m) && "" !in m.lanes.servers
    && (ForeignClaim(s, m.envs[s]) <==> ForeignClaim(s, manifest))
    && (!served ==> m.lanes == NO_LANES && m.envs[s] == manifest)
    && (!HasLane(s) ==> m.envs[s] == manifest)
    && (served && HasLane(s) ==> Identity(s) in m.lanes.tokens && OwnKindToken(s, m.envs[s], m.lanes.tokens))
  }

  /** The token under the name of the daemon's kind, if any, is the one of its plugin. */
  predicate OwnKindToken(s: DaemonSpec, env: Env, tokens: map<string, string>)
    requires Identity(s) in tokens
  {
    && (Kind(s) == "channel" && ChannelToken in env ==> env[ChannelToken] == tokens[Identity(s)])
    && (Kind(s) == "trigger" && TriggerToken in env ==> env[TriggerToken] == tokens[Identity(s)])
  }

  lemma InjectedClaims(s: DaemonSpec, env: Env, paths: map<string, string>, tokens: map<string, string>,
                       stateDir: string)
    requires paths.Keys == tokens.Keys && "" !in tokens
    ensures var after := Injected(s, env, paths, tokens, stateDir);
            && (ForeignClaim(s, after) <==> ForeignClaim(s, env))
            && (!HasLane(s) ==> after == env)
            && (HasLane(s) && Identity(s) in tokens ==> OwnKindToken(s, after, tokens))
  {
  }

  /** After a hot-add that goes through, every plugin that owns a lane daemon is served. */
  lemma AddServesOwners(m: Managed, b: Binding, specs: seq<DaemonSpec>, s: DaemonSpec)
    requires Agree(m.lanes) && "" !in m.lanes.servers && s in specs
    ensures var lanes := Bound(m.lanes, b, Unserved(LaneIds(specs), m.lanes.servers));
            Agree(lanes) && "" !in lanes.servers && (HasLane(s) ==> Identity(s) in lanes.servers)
  {
    BoundIsExact(m.lanes, b, Unserved(LaneIds(specs), m.lanes.servers));
    LaneIdsAreTheOwners(specs);
    assert !Owns(specs, "");
    if HasLane(s) {
      var i :| 0 <= i < |specs| && specs[i] == s;
      assert Owns(specs, Identity(s));
    }
  }

  lemma AddKeepsClaims(site: Site, m: Managed, c: Call, s: DaemonSpec, manifest: Env, served: bool)
    requires c.AddCall? && Covers(m) && forall x | x in c.added :: x in c.addedEnvs
    requires Uncleared(m, s, manifest, served)
    ensures Uncleared(Called(site, m, c), s, manifest, served || AddSucceeds(site, m, c))
  {
    CallKeepsManaged(site, m, c);
    if AddSucceeds(site, m, c) {
      var specs := m.specs + Added(m.specs, c.added);
      AddServesOwners(m, Binding(c.newToken, site.socketPath, LaneKinds(specs)), specs, s);
      var lanes := Called(site, m, c).lanes;
      assert lanes.tokens.Keys == lanes.paths.Keys == lanes.servers.Keys;
      InjectedClaims(s, m.envs[s], lanes.paths, lanes.tokens, site.stateDir);
    }
  }

  lemma {:induction false} RunKeepsClaims(site: Site, specs: seq<DaemonSpec>, envs: map<DaemonSpec, Env>,
                                          calls: seq<Call>, s: DaemonSpec)
    requires Covers(Constructed(specs, envs)) && Complete(calls) && s in specs
    requires !Cleared(site, Constructed(specs, envs), calls)
    ensures var m := Constructed(specs, envs);
            Uncleared(Run(site, m, calls), s, envs[s], SomeAdd(site, m, calls))
  {
    var m := Constructed(specs, envs);
    if calls == [] {
    } else {
      var init, c := calls[..|calls| - 1], calls[|calls| - 1];
      assert c in calls && forall x | x in init :: x in calls;
      RunKeepsClaims(site, specs, envs, init, s);
      if c.AddCall? {
        AddKeepsClaims(site, Run(site, m, init), c, s, envs[s], SomeAdd(site, m, init));
      }
    }
  }

  lemma OwnUnlessClaimed(m: Managed, s: DaemonSpec, manifest: Env, served: bool)
    requires Covers(m) && Uncleared(m, s, manifest, served)
    ensures OwnToken(s, m.envs[s], m.lanes.tokens)
       <==> !ForeignClaim(s, manifest) && (!AnyClaim(manifest) || (HasLane(s) && served))
  {
  }

  /** Every daemon the manager was made with, whatever its kind, plugin and manifest: after a
      run it holds no token but its own plugin's if and only if some call of the run cleared
      the claims, or its manifest claims nothing under another kind's name and any claim
      under its own was overwritten, since it has a lane and some hot-add went through. */
  lemma HoldsOwnTokenIff(site: Site, specs: seq<DaemonSpec>, envs: map<DaemonSpec, Env>, calls: seq<Call>,
                         s: DaemonSpec)
    requires Covers(Constructed(specs, envs)) && Complete(calls) && s in specs
    ensures var m := Constructed(specs, envs);
            var r := Run(site, m, calls);
            && s in r.specs
            && (OwnToken(s, r.envs[s], r.lanes.tokens)
                <==> || Cleared(site, m, calls)
                     || (!ForeignClaim(s, envs[s])
                         && (!AnyClaim(envs[s]) || (HasLane(s) && SomeAdd(site, m, calls)))))
  {
    var m := Constructed(specs, envs);
    RunKeepsSpecs(site, m, calls, s);
    if Cleared(site, m, calls) {
      RunKeepsOwnTokens(site, m, calls);
    } else {
      RunKeepsClaims(site, specs, envs, calls, s);
      OwnUnlessClaimed(Run(site, m, calls), s, envs[s], SomeAdd(site, m, calls));
    }
  }

  lemma {:induction false} RunKeepsSpecs(site: Site, m: Managed, calls: seq<Call>, s: DaemonSpec)
    requires Covers(m) && Complete(calls) && s in m.specs
    ensures s in Run(site, m, calls).specs
  {
    if calls == [] {
    } else {
      var init, c := calls[..|calls| - 1], calls[|calls| - 1];
      assert c in calls && forall x | x in init :: x in calls;
      RunKeepsSpecs(site, m, init, s);
    }
  }

  /** So a start is no cure for a hot-add made before it: the hot-add counts as the start. */
  lemma StartAfterAddClearsNothing(site: Site, specs: seq<DaemonSpec>, envs: map<DaemonSpec, Env>, add: Call,
      start: Call)
    requires Covers(Constructed(specs, envs)) && Complete([add, start]) && add.AddCall? && start.StartCall?
    requires Called(site, Constructed(specs, envs), add).started
    ensures !Cleared(site, Constructed(specs, envs), [add, start])
  {
    var m := Constructed(specs, envs);
    var one, two := [add], [add, start];
    assert add in one && one[..|one| - 1] == [] && two[..|two| - 1] == one;
    assert Run(site, m, one) == Called(site, m, add);
    assert !Cleared(site, m, one);
  }
}
