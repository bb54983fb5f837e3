/**
 * The plugin manager: the registry of wrappers it builds at start-up, the load timers
 * it keeps per plugin directory, and the hook calls, batched jobs and reload requests
 * it issues. Hook calls are recorded in `calls` in the order they are made; the
 * multi-threaded EntityAdded path records the jobs it submits in `jobs`; hot reloads
 * handed to the coroutine runner are recorded in `reloads`.
 */
module Manager {
  import opened Plugins
  import opened Seqs
  import opened Ordering
  import opened Discovery
  import opened Admission
  import opened HotReload
  import opened Dispatch

  /** The full paths of `dirs`. */
  function FullNames(dirs: seq<Directory>): (r: set<string>)
  {
    set d | d in dirs :: d.fullName
  }

  /** `timers` after starting a timer at `now` for each directory of `dirs`, in order. */
  function StartTimers(timers: map<string, int>, dirs: seq<Directory>, now: int): (r: map<string, int>)
    decreases |dirs|
  {
    if dirs == [] then timers else StartTimers(timers[dirs[0].fullName := now], dirs[1..], now)
  }

  /**
   * Starting the timers keys every directory's full path to `now`, adds no other key
   * and leaves every other timer as it was.
   */
  lemma {:induction false} StartTimersShape(timers: map<string, int>, dirs: seq<Directory>, now: int)
    ensures var r := StartTimers(timers, dirs, now);
      && r.Keys == timers.Keys + FullNames(dirs)
      && (forall k :: k in FullNames(dirs) ==> r[k] == now)
      && (forall k :: k in timers && k !in FullNames(dirs) ==> r[k] == timers[k])
    decreases |dirs|
  {
    if dirs != [] {
      var next := timers[dirs[0].fullName := now];
      StartTimersShape(next, dirs[1..], now);
      assert FullNames(dirs) == {dirs[0].fullName} + FullNames(dirs[1..]) by {
        forall n | n in FullNames(dirs) ensures n in {dirs[0].fullName} + FullNames(dirs[1..]) {
          var d :| d in dirs && d.fullName == n;
          if d != dirs[0] { assert d in dirs[1..]; }
        }
      }
    }
  }

  /** What TryLoadPlugin adds for one compiled directory; nothing when its dll did not load. */
  function Contribution(d: Directory, timers: map<string, int>): (r: seq<PluginWrapper>)
  {
    match d.assembly
    case None => []
    case Some(asm) => Admitted(asm, d.fullName in timers)
  }

  /** The registry that loading the compiled directories `dirs` one after another builds. */
  function LoadedFrom(dirs: seq<Directory>, timers: map<string, int>): (r: seq<PluginWrapper>)
  {
    if dirs == [] then [] else Contribution(dirs[0], timers) + LoadedFrom(dirs[1..], timers)
  }

  /** The calls TryLoadPlugin makes for one compiled directory; none when its dll did not load. */
  function ContributionCalls(d: Directory, timers: map<string, int>): (r: seq<Call>)
  {
    match d.assembly
    case None => []
    case Some(asm) => AdmissionCalls(asm, d.fullName in timers)
  }

  /** The calls that loading the compiled directories `dirs` one after another makes. */
  function LoadCallsFrom(dirs: seq<Directory>, timers: map<string, int>): (r: seq<Call>)
  {
    if dirs == [] then [] else ContributionCalls(dirs[0], timers) + LoadCallsFrom(dirs[1..], timers)
  }

  /**
   * Every wrapper that loading registers has received SetApi, LoadSettings and Onload
   * during loading.
   */
  lemma {:induction false} LoadedSetUp(dirs: seq<Directory>, timers: map<string, int>, p: PluginWrapper)
    requires p in LoadedFrom(dirs, timers)
    ensures Call(p.id, SetApi) in LoadCallsFrom(dirs, timers)
    ensures Call(p.id, LoadSettings) in LoadCallsFrom(dirs, timers)
    ensures Call(p.id, Onload) in LoadCallsFrom(dirs, timers)
  {
    if p in Contribution(dirs[0], timers) {
      var asm := dirs[0].assembly.value;
      AdmittedSetUp(asm.types, dirs[0].fullName in timers, p);
    } else {
      LoadedSetUp(dirs[1..], timers, p);
    }
  }

  /**
   * Only compiled plugins are loaded: every registered wrapper is the wrapper of a
   * concrete plugin type of the assembly of one of the compiled directories.
   */
  lemma {:induction false} LoadedFromMembers(dirs: seq<Directory>, timers: map<string, int>, p: PluginWrapper)
    requires p in LoadedFrom(dirs, timers)
    ensures exists i :: 0 <= i < |dirs| && dirs[i].assembly.Some? && p in Admitted(dirs[i].assembly.value, dirs[i].fullName in timers)
  {
    if p in Contribution(dirs[0], timers) {
      assert dirs[0].assembly.Some?;
    } else {
      LoadedFromMembers(dirs[1..], timers, p);
      var i :| 0 <= i < |dirs[1..]| && dirs[1..][i].assembly.Some? &&
        p in Admitted(dirs[1..][i].assembly.value, dirs[1..][i].fullName in timers);
      assert dirs[1..][i] == dirs[i + 1];
    }
  }

  /**
   * Start-up starts a timer for every compiled directory before loading any of them, so
   * no compiled plugin fails to load for want of a timer, and source directories that
   * survive discovery get a timer too.
   */
  lemma StartupTimers(compiled: seq<Directory>, source: seq<Directory>, now: int)
    ensures var timers := StartTimers(StartTimers(map[], compiled, now), SurvivingSources(compiled, source), now);
      && timers.Keys == FullNames(compiled) + FullNames(SurvivingSources(compiled, source))
      && (forall i :: 0 <= i < |compiled| ==> compiled[i].fullName in timers && timers[compiled[i].fullName] == now)
  {
    var first := StartTimers(map[], compiled, now);
    var sources := SurvivingSources(compiled, source);
    StartTimersShape(map[], compiled, now);
    StartTimersShape(first, sources, now);
    forall i | 0 <= i < |compiled| ensures compiled[i].fullName in FullNames(compiled) {
      assert compiled[i] in compiled;
    }
  }

  /** Re-stamping one wrapper's LastWrite leaves every sort key, and so the ordering, as it was. */
  lemma RestampKeepsOrder(ps: seq<PluginWrapper>, i: nat, t: int)
    requires i < |ps|
    ensures var qs := ps[i := ps[i].(lastWrite := t)];
      && |qs| == |ps|
      && (forall j :: 0 <= j < |ps| ==> SameKey(qs[j], ps[j]) && qs[j].id == ps[j].id)
      && (Ordered(qs) <==> Ordered(ps))
  {
    var qs := ps[i := ps[i].(lastWrite := t)];
    assert forall a, b :: 0 <= a < |ps| && 0 <= b < |ps| ==> (KeyLe(qs[a], qs[b]) <==> KeyLe(ps[a], ps[b]));
  }

  class PluginManager {
    /** The registry, in dispatch order once start-up has ordered it. */
    var plugins: seq<PluginWrapper>
    /** Start tick of the load timer of each plugin directory, by full path. */
    var pluginLoadTime: map<string, int>
    var allPluginsLoaded: bool
    /** Hook calls made on the caller's thread, in order. */
    var calls: seq<Call>
    /** Jobs handed to the thread manager; each is the calls it makes, in order. */
    var jobs: seq<seq<Call>>
    /** Reloads handed to the coroutine runner, in order. */
    var reloads: seq<ReloadRequest>

    /** The registry is in the order start-up sorted it into. */
    predicate Valid()
      reads this
    {
      Ordered(plugins)
    }

    /**
     * Start-up: discover the plugin directories at tick `now` and load the compiled ones,
     * then start the plugins in area `currentArea`.
     */
    constructor (compiledDirs: seq<Directory>, sourceDirs: seq<Directory>, now: int, currentArea: int)
      ensures pluginLoadTime == StartTimers(StartTimers(map[], compiledDirs, now), SurvivingSources(compiledDirs, sourceDirs), now)
      ensures plugins == OrderPlugins(LoadedFrom(compiledDirs, pluginLoadTime))
      ensures calls == LoadCallsFrom(compiledDirs, pluginLoadTime)
        + Deliveries(plugins, Initialise, Everyone)
        + Deliveries(plugins, AreaChange(currentArea), EnabledOnly)
        + Deliveries(plugins, SubscribeOnFile, Everyone)
      ensures jobs == [] && reloads == [] && allPluginsLoaded
      ensures Valid()
    {
      plugins := [];
      pluginLoadTime := map[];
      allPluginsLoaded := false;
      calls := [];
      jobs := [];
      reloads := [];
      new;
      LoadPlugins(compiledDirs, sourceDirs, now);
      EmptyAppend(LoadedFrom(compiledDirs, pluginLoadTime));
      EmptyAppend(LoadCallsFrom(compiledDirs, pluginLoadTime));
      StartPlugins(currentArea);
    }

    /**
     * The loading half of start-up: discover the plugin directories at tick `now`, load
     * every compiled one into the registry, and order the registry.
     */
    method LoadPlugins(compiledDirs: seq<Directory>, sourceDirs: seq<Directory>, now: int)
      modifies this
      ensures pluginLoadTime == StartTimers(StartTimers(old(pluginLoadTime), compiledDirs, now), SurvivingSources(compiledDirs, sourceDirs), now)
      ensures plugins == OrderPlugins(old(plugins) + LoadedFrom(compiledDirs, pluginLoadTime))
      ensures Valid()
      ensures calls == old(calls) + LoadCallsFrom(compiledDirs, pluginLoadTime)
      ensures jobs == old(jobs) && reloads == old(reloads) && allPluginsLoaded == old(allPluginsLoaded)
    {
      var compiled, source := SearchPlugins(compiledDirs, sourceDirs, now);
      LoadCompiled(compiled);
      OrderPluginsSorts(plugins);
      plugins := OrderPlugins(plugins);
    }

    /**
     * The starting half of start-up: initialise every wrapper, report `currentArea` to the
     * enabled ones, subscribe every wrapper to its file changes, and mark loading finished.
     */
    method StartPlugins(currentArea: int)
      modifies this
      ensures calls == old(calls) + Deliveries(plugins, Initialise, Everyone)
        + Deliveries(plugins, AreaChange(currentArea), EnabledOnly)
        + Deliveries(plugins, SubscribeOnFile, Everyone)
      ensures allPluginsLoaded
      ensures plugins == old(plugins) && pluginLoadTime == old(pluginLoadTime)
      ensures jobs == old(jobs) && reloads == old(reloads)
    {
      Broadcast(Initialise, Everyone);
      OnAreaChange(currentArea);
      Broadcast(SubscribeOnFile, Everyone);
      allPluginsLoaded := true;
    }

    /**
     * Lists the plugin directories: the compiled ones as found, and the visible source
     * directories that survive the Errors.txt pass and share no name with a compiled
     * one. Starts a load timer at `now` for each compiled, then each surviving source
     * directory.
     */
    method SearchPlugins(compiledDirs: seq<Directory>, sourceDirs: seq<Directory>, now: int)
      returns (compiled: seq<Directory>, source: seq<Directory>)
      modifies this
      ensures compiled == compiledDirs
      ensures source == SurvivingSources(compiledDirs, sourceDirs)
      ensures pluginLoadTime == StartTimers(StartTimers(old(pluginLoadTime), compiled, now), source, now)
      ensures plugins == old(plugins) && calls == old(calls) && jobs == old(jobs)
      ensures reloads == old(reloads) && allPluginsLoaded == old(allPluginsLoaded)
    {
      compiled := compiledDirs;
      var candidates := DropErrorMarked(Visible(sourceDirs));
      source := ExceptBy(candidates, compiled);
      var i := 0;
      while i < |compiled|
        invariant 0 <= i <= |compiled|
        invariant StartTimers(pluginLoadTime, compiled[i..], now) == StartTimers(old(pluginLoadTime), compiled, now)
        invariant plugins == old(plugins) && calls == old(calls) && jobs == old(jobs)
        invariant reloads == old(reloads) && allPluginsLoaded == old(allPluginsLoaded)
      {
        assert compiled[i..][0] == compiled[i] && compiled[i..][1..] == compiled[i + 1..];
        pluginLoadTime := pluginLoadTime[compiled[i].fullName := now];
        i := i + 1;
      }
      var afterCompiled := pluginLoadTime;
      i := 0;
      while i < |source|
        invariant 0 <= i <= |source|
        invariant StartTimers(pluginLoadTime, source[i..], now) == StartTimers(afterCompiled, source, now)
        invariant plugins == old(plugins) && calls == old(calls) && jobs == old(jobs)
        invariant reloads == old(reloads) && allPluginsLoaded == old(allPluginsLoaded)
      {
        assert source[i..][0] == source[i] && source[i..][1..] == source[i + 1..];
        pluginLoadTime := pluginLoadTime[source[i].fullName := now];
        i := i + 1;
      }
    }

    /**
     * Loads each compiled directory in turn: one whose dll loaded goes through
     * TryLoadPlugin, one whose dll did not is skipped.
     */
    method LoadCompiled(dirs: seq<Directory>)
      modifies this
      ensures plugins == old(plugins) + LoadedFrom(dirs, old(pluginLoadTime))
      ensures calls == old(calls) + LoadCallsFrom(dirs, old(pluginLoadTime))
      ensures pluginLoadTime == old(pluginLoadTime) && jobs == old(jobs)
      ensures reloads == old(reloads) && allPluginsLoaded == old(allPluginsLoaded)
    {
      var i := 0;
      while i < |dirs|
        invariant 0 <= i <= |dirs|
        invariant old(plugins) + LoadedFrom(dirs, pluginLoadTime) == plugins + LoadedFrom(dirs[i..], pluginLoadTime)
        invariant old(calls) + LoadCallsFrom(dirs, pluginLoadTime) == calls + LoadCallsFrom(dirs[i..], pluginLoadTime)
        invariant pluginLoadTime == old(pluginLoadTime) && jobs == old(jobs)
        invariant reloads == old(reloads) && allPluginsLoaded == old(allPluginsLoaded)
      {
        assert dirs[i..][0] == dirs[i] && dirs[i..][1..] == dirs[i + 1..];
        ghost var before := plugins;
        ghost var beforeCalls := calls;
        LoadDirectory(dirs[i]);
        AppendAssoc(before, Contribution(dirs[i], pluginLoadTime), LoadedFrom(dirs[i + 1..], pluginLoadTime));
        AppendAssoc(beforeCalls, ContributionCalls(dirs[i], pluginLoadTime), LoadCallsFrom(dirs[i + 1..], pluginLoadTime));
        i := i + 1;
      }
    }

    /** Loads one compiled directory: TryLoadPlugin when its dll loaded, nothing otherwise. */
    method LoadDirectory(d: Directory)
      modifies this
      ensures plugins == old(plugins) + Contribution(d, old(pluginLoadTime))
      ensures calls == old(calls) + ContributionCalls(d, old(pluginLoadTime))
      ensures pluginLoadTime == old(pluginLoadTime) && jobs == old(jobs)
      ensures reloads == old(reloads) && allPluginsLoaded == old(allPluginsLoaded)
    {
      match d.assembly {
        case Some(asm) =>
          var _ := TryLoadPlugin(asm, d.fullName);
        case None =>
          AppendEmpty(plugins);
          AppendEmpty(calls);
      }
    }

    /**
     * Registers the wrappers of one loaded assembly from the directory at `fullPath`:
     * nothing without types or without a settings type; otherwise a wrapper per
     * concrete plugin type in type order, until a type whose load throws.
     */
    method TryLoadPlugin(asm: Assembly, fullPath: string) returns (outcome: LoadOutcome)
      modifies this
      ensures outcome == Outcome(asm, fullPath in old(pluginLoadTime))
      ensures plugins == old(plugins) + Admitted(asm, fullPath in old(pluginLoadTime))
      ensures calls == old(calls) + AdmissionCalls(asm, fullPath in old(pluginLoadTime))
      ensures pluginLoadTime == old(pluginLoadTime) && jobs == old(jobs)
      ensures reloads == old(reloads) && allPluginsLoaded == old(allPluginsLoaded)
    {
      var types := asm.types;
      if |types| == 0 {
        return NoTypes;
      }
      if !HasSettingsType(types) {
        return NoSettingsType;
      }
      var timed := fullPath in pluginLoadTime;
      var i := 0;
      while i < |types|
        invariant 0 <= i <= |types|
        invariant old(plugins) + AdmitTypes(types, timed) == plugins + AdmitTypes(types[i..], timed)
        invariant old(calls) + LoadCalls(types, timed) == calls + LoadCalls(types[i..], timed)
        invariant forall j :: 0 <= j < i && IsConcretePlugin(types[j]) ==> !LoadThrows(types[j], timed)
        invariant pluginLoadTime == old(pluginLoadTime) && jobs == old(jobs)
        invariant reloads == old(reloads) && allPluginsLoaded == old(allPluginsLoaded)
      {
        var t := types[i];
        assert types[i..][0] == t && types[i..][1..] == types[i + 1..];
        if IsConcretePlugin(t) {
          ghost var before := calls;
          var loaded := LoadType(t, timed);
          if !loaded {
            return LoadError;
          }
          AppendAssoc(before, SetupHooks(t.wrapper), LoadCalls(types[i + 1..], timed));
        }
        i := i + 1;
      }
      return Loaded;
    }

    /**
     * Loads one concrete plugin type: creates the instance and its wrapper, calls SetApi,
     * LoadSettings and Onload on the wrapper, looks up its directory's load timer
     * (`timed` says whether there is one) and registers the wrapper. Reports false when
     * a step throws; the calls made before it stay made and nothing is registered.
     */
    method LoadType(t: TypeDesc, timed: bool) returns (loaded: bool)
      requires IsConcretePlugin(t)
      modifies this
      ensures loaded <==> !LoadThrows(t, timed)
      ensures calls == old(calls) + TypeCalls(t)
      ensures plugins == old(plugins) + (if loaded then [t.wrapper] else [])
      ensures pluginLoadTime == old(pluginLoadTime) && jobs == old(jobs)
      ensures reloads == old(reloads) && allPluginsLoaded == old(allPluginsLoaded)
    {
      var w := t.wrapper;
      SetupPrefixes(calls, w);
      if t.failure == InCreateInstance {
        return false;
      }
      calls := calls + [Call(w.id, SetApi)];
      if t.failure == InSetApi {
        return false;
      }
      calls := calls + [Call(w.id, LoadSettings)];
      if t.failure == InLoadSettings {
        return false;
      }
      calls := calls + [Call(w.id, Onload)];
      if t.failure == InOnload || !timed {
        return false;
      }
      plugins := plugins + [w];
      return true;
    }

    /** The call log after each of the setup calls on `w`, as a prefix of its setup calls. */
    static lemma SetupPrefixes(before: seq<Call>, w: PluginWrapper)
      ensures before == before + SetupHooks(w)[..0]
      ensures before + [Call(w.id, SetApi)] == before + SetupHooks(w)[..1]
      ensures before + [Call(w.id, SetApi)] + [Call(w.id, LoadSettings)] == before + SetupHooks(w)[..2]
      ensures before + [Call(w.id, SetApi)] + [Call(w.id, LoadSettings)] + [Call(w.id, Onload)]
        == before + SetupHooks(w)[..3] == before + SetupHooks(w)
    {
    }

    /**
     * File-change handler of the wrapper at `index`, for a change to `fullPath` at tick
     * `now`. A path that is not the wrapper directory's own dll changes nothing; a second
     * change within two seconds of the wrapper's LastWrite changes nothing; otherwise
     * LastWrite becomes `now` and one reload of the named plugin is scheduled.
     */
    method HotReloadDll(index: nat, fullPath: string, now: int) returns (scheduled: bool)
      requires index < |plugins|
      modifies this
      ensures scheduled <==> ReloadTarget(fullPath).Some? && !WithinDebounce(old(plugins)[index].lastWrite, now)
      ensures scheduled ==>
        && plugins == old(plugins)[index := old(plugins)[index].(lastWrite := now)]
        && reloads == old(reloads) + [ReloadRequest(old(plugins)[index].id, fullPath, ReloadTarget(fullPath).value)]
      ensures !scheduled ==> plugins == old(plugins) && reloads == old(reloads)
      ensures pluginLoadTime == old(pluginLoadTime) && calls == old(calls) && jobs == old(jobs)
      ensures allPluginsLoaded == old(allPluginsLoaded)
      ensures old(Valid()) ==> Valid()
    {
      var target := ReloadTarget(fullPath);
      if target.None? {
        return false;
      }
      var wrapper := plugins[index];
      if WithinDebounce(wrapper.lastWrite, now) {
        return false;
      }
      RestampKeepsOrder(plugins, index, now);
      plugins := plugins[index := wrapper.(lastWrite := now)];
      reloads := reloads + [ReloadRequest(wrapper.id, fullPath, target.value)];
      return true;
    }

    /** Calls `hook` on each wrapper of the registry that `audience` accepts, in registry order. */
    method Broadcast(hook: Hook, audience: Audience)
      modifies this
      ensures calls == old(calls) + Deliveries(plugins, hook, audience)
      ensures plugins == old(plugins) && pluginLoadTime == old(pluginLoadTime) && jobs == old(jobs)
      ensures reloads == old(reloads) && allPluginsLoaded == old(allPluginsLoaded)
    {
      var i := 0;
      while i < |plugins|
        invariant 0 <= i <= |plugins|
        invariant calls == old(calls) + Deliveries(plugins[..i], hook, audience)
        invariant plugins == old(plugins) && pluginLoadTime == old(pluginLoadTime) && jobs == old(jobs)
        invariant reloads == old(reloads) && allPluginsLoaded == old(allPluginsLoaded)
      {
        DeliveriesStep(plugins, i, hook, audience);
        if Accepts(audience, plugins[i]) {
          calls := calls + [Call(plugins[i].id, hook)];
        }
        i := i + 1;
      }
      assert plugins[..|plugins|] == plugins;
    }

    /** Closes every wrapper, enabled or not. */
    method CloseAllPlugins()
      modifies this
      ensures calls == old(calls) + Deliveries(plugins, Close, Everyone)
      ensures plugins == old(plugins) && pluginLoadTime == old(pluginLoadTime) && jobs == old(jobs)
      ensures reloads == old(reloads) && allPluginsLoaded == old(allPluginsLoaded)
    {
      Broadcast(Close, Everyone);
    }

    /** Reports the new area to every enabled wrapper. */
    method OnAreaChange(area: int)
      modifies this
      ensures calls == old(calls) + Deliveries(plugins, AreaChange(area), EnabledOnly)
      ensures plugins == old(plugins) && pluginLoadTime == old(pluginLoadTime) && jobs == old(jobs)
      ensures reloads == old(reloads) && allPluginsLoaded == old(allPluginsLoaded)
    {
      Broadcast(AreaChange(area), EnabledOnly);
    }

    method OnEntityIgnored(entity: int)
      modifies this
      ensures calls == old(calls) + Deliveries(plugins, EntityIgnored(entity), EnabledOnly)
      ensures plugins == old(plugins) && pluginLoadTime == old(pluginLoadTime) && jobs == old(jobs)
      ensures reloads == old(reloads) && allPluginsLoaded == old(allPluginsLoaded)
    {
      Broadcast(EntityIgnored(entity), EnabledOnly);
    }

    method OnEntityAddedAny(entity: int)
      modifies this
      ensures calls == old(calls) + Deliveries(plugins, EntityAddedAny(entity), EnabledOnly)
      ensures plugins == old(plugins) && pluginLoadTime == old(pluginLoadTime) && jobs == old(jobs)
      ensures reloads == old(reloads) && allPluginsLoaded == old(allPluginsLoaded)
    {
      Broadcast(EntityAddedAny(entity), EnabledOnly);
    }

    method OnEntityRemoved(entity: int)
      modifies this
      ensures calls == old(calls) + Deliveries(plugins, EntityRemoved(entity), EnabledOnly)
      ensures plugins == old(plugins) && pluginLoadTime == old(pluginLoadTime) && jobs == old(jobs)
      ensures reloads == old(reloads) && allPluginsLoaded == old(allPluginsLoaded)
    {
      Broadcast(EntityRemoved(entity), EnabledOnly);
    }

    /**
     * Reports an added entity to every enabled wrapper. With multi-threaded dispatch on
     * and at least one worker thread, the enabled wrappers are cut into batches of
     * `threadsCount` and one job per batch is submitted; otherwise the calls are made in
     * turn on the caller's thread.
     */
    method OnEntityAdded(entity: int, addedMultiThread: bool, threadsCount: int)
      modifies this
      ensures addedMultiThread && threadsCount > 0 ==>
        && jobs == old(jobs) + BatchJobs(Batch(Select(plugins, EnabledOnly), threadsCount), EntityAdded(entity))
        && calls == old(calls)
      ensures !(addedMultiThread && threadsCount > 0) ==>
        && calls == old(calls) + Deliveries(plugins, EntityAdded(entity), EnabledOnly)
        && jobs == old(jobs)
      ensures plugins == old(plugins) && pluginLoadTime == old(pluginLoadTime)
      ensures reloads == old(reloads) && allPluginsLoaded == old(allPluginsLoaded)
    {
      if addedMultiThread && threadsCount > 0 {
        var hook := EntityAdded(entity);
        var batches := Batch(Select(plugins, EnabledOnly), threadsCount);
        var k := 0;
        while k < |batches|
          invariant 0 <= k <= |batches|
          invariant jobs == old(jobs) + BatchJobs(batches[..k], hook)
          invariant plugins == old(plugins) && pluginLoadTime == old(pluginLoadTime) && calls == old(calls)
          invariant reloads == old(reloads) && allPluginsLoaded == old(allPluginsLoaded)
        {
          assert batches[..k + 1] == batches[..k] + [batches[k]];
          BatchJobsAppend(batches[..k], batches[k], hook);
          jobs := jobs + [Calls(batches[k], hook)];
          k := k + 1;
        }
        assert batches[..|batches|] == batches;
      } else {
        Broadcast(EntityAdded(entity), EnabledOnly);
      }
    }

    /** Relays a plugin event to every enabled wrapper except the one whose plugin sent it. */
    method ReceivePluginEvent(eventId: string, args: int, owner: nat)
      modifies this
      ensures calls == old(calls) + Deliveries(plugins, ReceiveEvent(eventId, args), EnabledExcept(owner))
      ensures plugins == old(plugins) && pluginLoadTime == old(pluginLoadTime) && jobs == old(jobs)
      ensures reloads == old(reloads) && allPluginsLoaded == old(allPluginsLoaded)
    {
      Broadcast(ReceiveEvent(eventId, args), EnabledExcept(owner));
    }
  }
}
