# Plugin manager model

A Dafny model of the plugin orchestrator of ExileApi, `Core/Shared/PluginManager.cs`.
At start-up the manager does the following:

- It discovers plugin directories. Only the compiled tree is loaded. The source tree is filtered:
  hidden directories, directories holding `Errors.txt` (with the exception described below), and
  directories whose name also exists in the compiled tree are dropped. The source directories
  that survive only get a load timer; none of them is loaded.
- It starts a load timer for every compiled and every surviving source directory.
- It loads the assembly of each compiled directory. An assembly without types, or without a
  settings type, adds nothing. Otherwise each concrete plugin type, in type order, gets a new
  `PluginWrapper`. The manager calls `SetApi`, `LoadSettings` and `Onload` on it and registers it.
  The first type whose load throws ends the loop for that assembly. The wrappers registered
  before it stay, and the calls already made on its own wrapper stay made (module `Admission`).
- It sorts the registry by `Order`, then multi-threading-capable first, then `Name`.
- It initialises every wrapper, reports the current area and subscribes every wrapper to file
  changes.

After start-up it does three more things:

- It fans host events out to the enabled wrappers. Plugin-to-plugin events go to the enabled
  wrappers except the sender.
- On the multi-threaded `EntityAdded` path it cuts the enabled wrappers into batches of
  `ThreadsCount`, one job per batch.
- It schedules a hot reload when the subscribed wrapper reports a change to a dll named after its
  own directory (`...\Name\Name.ext` with ext ending in "dll", such as `Name.Core.dll`), where
  that name holds no '.', at most once every two seconds per wrapper. The path is not compared with the wrapper's own directory. The filter
  compares the directory name with the text before the first '.' of the file name, so a plugin
  whose directory name holds a '.' never hot-reloads.

Modules:

- `Plugins`: the entities. Wrappers are records `(id, name, order, canBeMultiThreading, isEnable,
  lastWrite)`. `id` stands for the identity of the wrapped plugin object. Directories carry
  their name, full path, Hidden attribute and whether they hold `Errors.txt`. A directory also
  carries the assembly its dll loads to, or none when loading fails. An assembly is a list of
  type descriptors: implements IPlugin, implements ISettings, abstract, the step at which loading
  an instance throws (CreateInstance, SetApi, LoadSettings, Onload, or none), and the wrapper it
  yields.
- `Ordering`: the stable LINQ sort `OrderBy(Order).ThenByDescending(CanBeMultiThreading).ThenBy(Name)`,
  specified by sortedness, permutation and stability, and proved to be the only arrangement with
  those properties.
- `Discovery`: the Hidden filter, the `Errors.txt` removal loop and MoreLinq's `ExceptBy` keyed on
  the directory name.
- `Admission`: what `TryLoadPlugin` appends for one assembly, and the setup calls it makes.
- `HotReload`: the `.dll` / `\`-segment path filter and the two-second debounce on `LastWrite`.
- `Dispatch`: audiences, fan-out call sequences and MoreLinq's `Batch`.
- `Manager`: the `PluginManager` class. The registry, the load-timer map and the logs of hook
  calls, submitted jobs and scheduled reloads are fields that its methods update. `Valid()` only
  records that the registry stays sorted by the `OrderPlugins` key. The constructor and
  `LoadPlugins` establish it, and `HotReloadDll` keeps it. No method needs it, because each
  fan-out method states its full call log in terms of the registry.

Time is integer ticks of 100 ns, like `DateTime` ticks. The two-second window is 20,000,000 ticks.
The clock is a `now` parameter.

`ExceptBy` keeps the first directory of each name (`ExceptByNameKeepsFirst`). Names within one
directory listing are unique anyway, so this only matters for the model's generality.

The `Errors.txt` loop calls `RemoveAt(index)` and then still increments `index`. The directory that
slides into the freed slot is therefore never examined. A marked directory that directly follows a
removed one stays in the source set. It gets a load timer, like every surviving source directory,
but source directories are never loaded. The directory after it is examined again, so of three
marked directories in a row the first and third are removed and the middle one is kept. The model
keeps this behaviour (`SkipErrors`, `DropErrorMarked`). `RemovedSuccessorKept`,
`MarkedSuccessorSurvives` and `ThreeMarkedKeepMiddle` exhibit it. `SkipErrorsAgreesWithoutAdjacentMarks`
shows that the loop differs from the filter the log message describes (`WithoutErrors`) only when
two marked directories are adjacent.

## Model

| member | source | states |
|---|---|---|
| Ordering.NameLeTotal | Core/Shared/PluginManager.cs:86 | the ordinal name order compares any two names |
| Ordering.NameLeAntisymmetric | Core/Shared/PluginManager.cs:86 | two names each at most the other are equal |
| Ordering.NameLeTransitive | Core/Shared/PluginManager.cs:86 | the name order is transitive |
| Ordering.KeyLeTotal | Core/Shared/PluginManager.cs:86 | the composite sort key (Order, CanBeMultiThreading descending, Name) compares any two wrappers |
| Ordering.KeyLeTransitive | Core/Shared/PluginManager.cs:86 | the composite sort key is transitive |
| Ordering.KeyTie | Core/Shared/PluginManager.cs:86 | two wrappers tie under the sort exactly when Order, CanBeMultiThreading and Name all agree |
| Ordering.Insert | Core/Shared/PluginManager.cs:86-87 | inserting a wrapper adds exactly that wrapper to the multiset of the registry |
| Ordering.InsertOrdered | Core/Shared/PluginManager.cs:86-87 | inserting into a sorted registry keeps it sorted |
| Ordering.InsertWithKey | Core/Shared/PluginManager.cs:86-87 | insertion places the new wrapper before every wrapper with an equal key, so the relative order of ties is that of the input |
| Ordering.OrderPluginsSorts | Core/Shared/PluginManager.cs:86-87 | the ordered registry is sorted by the key, is a permutation of the loaded wrappers, and keeps every group of tied wrappers in its original relative order (stable sort) |
| Ordering.WithKeyMembers | Core/Shared/PluginManager.cs:86-87 | the tie group of a key holds only registry wrappers with that key |
| Ordering.StableArrangementUnique | Core/Shared/PluginManager.cs:86-87 | two sorted arrangements with the same tie groups in the same order are equal |
| Ordering.OrderPluginsUnique | Core/Shared/PluginManager.cs:86-87 | any sorted arrangement that keeps the input order of ties is the ordered registry, so the stable sort's result is fully determined |
| Ordering.OrderScenario | Core/Shared/PluginManager.cs:86-87 | Order 0 comes first, and between equal Order a multi-threading-capable plugin comes before one that is not |
| Discovery.Visible | Core/Shared/PluginManager.cs:306 | exactly the source directories without the Hidden attribute are kept, in listing order |
| Discovery.DropErrorMarked | Core/Shared/PluginManager.cs:307-315 | the index loop with RemoveAt leaves exactly SkipErrors of its input |
| Discovery.SkipErrorsMatchesReference | Core/Shared/PluginManager.cs:307-315 | a directory is removed exactly when it holds Errors.txt and its predecessor was not removed |
| Discovery.SkipErrorsKeeps | Core/Shared/PluginManager.cs:307-315 | the loop only removes: its result is an order-preserving subsequence that keeps every directory without Errors.txt |
| Discovery.MarkedSuccessorSurvives | Core/Shared/PluginManager.cs:307-315 | a marked directory at the front is removed, the directory after it is kept whatever it holds, and the rest is filtered as from the start |
| Discovery.RemovedSuccessorKept | Core/Shared/PluginManager.cs:307-315 | wherever the loop removes a directory, the next one is kept even when it holds Errors.txt, and the one after that is examined as if nothing had been removed |
| Discovery.ThreeMarkedKeepMiddle | Core/Shared/PluginManager.cs:307-315 | of three marked directories in a row only the middle one is kept |
| Discovery.WithoutErrors | Core/Shared/PluginManager.cs:310-313 | the filter the log message describes keeps exactly the directories without Errors.txt, in order |
| Discovery.SkipErrorsAgreesWithoutAdjacentMarks | Core/Shared/PluginManager.cs:307-315 | when no two marked directories are adjacent the loop drops every marked directory |
| Discovery.ExceptByName | Core/Shared/PluginManager.cs:317-319 | ExceptBy yields an order-preserving subsequence with no excluded name and no repeated name |
| Discovery.ExceptByNameCovers | Core/Shared/PluginManager.cs:317-319 | every name that is not excluded is represented in the ExceptBy result |
| Discovery.ExceptByNameKeepsFirst | Core/Shared/PluginManager.cs:317-319 | the directory kept for a name is its first occurrence in the input |
| Discovery.SurvivingSourcesShape | Core/Shared/PluginManager.cs:304-319 | the surviving source set is an order-preserving subsequence of the non-hidden directories, shares no name with a compiled directory, has distinct names, and represents every non-hidden unmarked source name absent from the compiled tree |
| Admission.AdmitTypesPrefix | Core/Shared/PluginManager.cs:203-230 | the type loop appends a prefix of the concrete plugin types' wrappers in type order, and all of them when no type throws |
| Admission.AdmitTypesStopsAtFailure | Core/Shared/PluginManager.cs:203-230 | a throwing concrete type ends the loop: nothing from it or any later type is appended |
| Admission.AdmittedRejects | Core/Shared/PluginManager.cs:186-200 | no types, or no settings type, adds nothing, makes no call and reports which; a clean load adds every concrete plugin type's wrapper after its three setup calls |
| Admission.HooksReached | Core/Shared/PluginManager.cs:207-215 | at most the three setup calls are made on a wrapper before its load throws |
| Admission.LoadCallsClean | Core/Shared/PluginManager.cs:203-225 | when no concrete type throws, SetApi, LoadSettings and Onload are called on each registered wrapper, wrapper after wrapper in type order |
| Admission.LoadCallsAtFailure | Core/Shared/PluginManager.cs:203-230 | when the concrete type at k is the first to throw, exactly the concrete types before it are registered, each after its three setup calls, and the throwing type's wrapper gets the setup calls up to the one that throws |
| Admission.AdmittedSetUp | Core/Shared/PluginManager.cs:211-222 | every registered wrapper has received SetApi, LoadSettings and Onload |
| Admission.AdmittedMembers | Core/Shared/PluginManager.cs:193-211 | every appended wrapper belongs to a non-abstract IPlugin type of the assembly |
| HotReload.Split | Core/Shared/PluginManager.cs:243-244 | Split yields at least one piece and no piece holds the separator |
| HotReload.JoinSplit | Core/Shared/PluginManager.cs:243-244 | joining the pieces of Split with the separator gives back the string |
| HotReload.SplitJoin | Core/Shared/PluginManager.cs:243-244 | splitting a join of separator-free pieces gives back the pieces |
| HotReload.ReloadTargetComplete | Core/Shared/PluginManager.cs:239-248 | every path `...\Name\Name.ext` ending in ".dll", where Name holds no '.' or '\\' and ext no '\\', passes the filter and names Name |
| HotReload.ReloadTargetSound | Core/Shared/PluginManager.cs:239-248 | every path that passes the filter ends in ".dll" and has the form `...\Name\Name.ext` for the name it yields |
| HotReload.DottedDirectoryNeverReloads | Core/Shared/PluginManager.cs:243-248 | a path whose second-to-last segment holds a '.' never passes the filter |
| HotReload.ScheduledTimesSpaced | Core/Shared/PluginManager.cs:251-253 | successive scheduled reloads of one wrapper are at least two seconds apart and each is the time of a trigger |
| HotReload.BurstSchedulesAtMostOne | Core/Shared/PluginManager.cs:251-253 | triggers all within two seconds of each other schedule at most one reload |
| Dispatch.Select | Core/Shared/PluginManager.cs:340-347 | the audience is an order-preserving subsequence of the registry |
| Dispatch.SelectMembers | Core/Shared/PluginManager.cs:340-347 | a wrapper is in the audience exactly when it is in the registry and the audience accepts it |
| Dispatch.DeliveredExactlyOnce | Core/Shared/PluginManager.cs:340-398 | with one wrapper per plugin, a fan-out calls each accepted wrapper exactly once and every other wrapper never |
| Dispatch.NotCalled | Core/Shared/PluginManager.cs:340-398 | a plugin with no wrapper in the registry receives no call |
| Dispatch.SenderExcluded | Core/Shared/PluginManager.cs:405-412 | the sender of a plugin event never receives it |
| Dispatch.BatchShape | Core/Shared/PluginManager.cs:373 | the batches concatenate to the input; all but the last hold ThreadsCount wrappers; the last is non-empty and holds at most ThreadsCount |
| Dispatch.BatchJobsFlatten | Core/Shared/PluginManager.cs:373-376 | the jobs together make the calls of the concatenated batches, in order |
| Dispatch.BatchedDeliverySame | Core/Shared/PluginManager.cs:369-388 | the multi-threaded jobs together issue exactly the calls of the sequential path, in registry order |
| Manager.StartTimersShape | Core/Shared/PluginManager.cs:320-328 | starting timers keys every directory's full path to the start tick, adds no other key and keeps other timers |
| Manager.StartupTimers | Core/Shared/PluginManager.cs:320-328 | after discovery the timer map holds exactly the compiled and surviving source full paths, so no compiled plugin lacks a timer |
| Manager.LoadedSetUp | Core/Shared/PluginManager.cs:83 | every wrapper that start-up registers received SetApi, LoadSettings and Onload during loading |
| Manager.LoadedFromMembers | Core/Shared/PluginManager.cs:83 | only compiled directories are loaded: every registered wrapper comes from the assembly of a compiled directory |
| Manager.RestampKeepsOrder | Core/Shared/PluginManager.cs:253 | re-stamping LastWrite keeps every wrapper's sort key and identity, so the registry stays sorted |
| Manager.PluginManager.constructor | Core/Shared/PluginManager.cs:40-117 | the timer map is that of discovery; the registry is the sorted wrappers of the compiled directories; the calls are the setup calls of loading, then Initialise to all, AreaChange to the enabled, then the file subscription to all; the registry is sorted |
| Manager.PluginManager.LoadPlugins | Core/Shared/PluginManager.cs:82-87 | discovery, loading of the compiled tree, then the sort: the registry is the ordered load result and is sorted, and the call log gains the setup calls of loading |
| Manager.PluginManager.StartPlugins | Core/Shared/PluginManager.cs:103-116 | Initialise on every wrapper, AreaChange on the enabled, file subscription on every wrapper, in registry order, then AllPluginsLoaded |
| Manager.PluginManager.SearchPlugins | Core/Shared/PluginManager.cs:302-330 | returns the compiled set unchanged and the surviving source set, and starts a timer for each of both |
| Manager.PluginManager.LoadCompiled | Core/Shared/PluginManager.cs:118-141 | appends each compiled directory's admitted wrappers and setup calls in directory order; a directory whose dll did not load adds nothing |
| Manager.PluginManager.LoadDirectory | Core/Shared/PluginManager.cs:122-129 | one compiled directory adds its assembly's admitted wrappers and setup calls, or nothing when its dll did not load |
| Manager.PluginManager.TryLoadPlugin | Core/Shared/PluginManager.cs:178-231 | appends exactly the admitted wrappers of the assembly after the existing entries, logs exactly the setup calls the type loop makes, and reports the outcome |
| Manager.PluginManager.LoadType | Core/Shared/PluginManager.cs:205-223 | a concrete type's wrapper gets SetApi, LoadSettings and Onload in order up to the step that throws; it is registered exactly when no step throws and its directory has a load timer |
| Manager.PluginManager.HotReloadDll | Core/Shared/PluginManager.cs:234-299 | a reload is scheduled exactly when the path passes the filter and LastWrite is at least two seconds from now; then LastWrite becomes now and one reload is recorded, otherwise nothing changes; the registry stays sorted |
| Manager.PluginManager.Broadcast | Core/Shared/PluginManager.cs:340-347 | one call on each accepted wrapper, in registry order, and nothing else changes |
| Manager.PluginManager.CloseAllPlugins | Core/Shared/PluginManager.cs:332-338 | Close on every wrapper in registry order |
| Manager.PluginManager.OnAreaChange | Core/Shared/PluginManager.cs:340-347 | AreaChange on every enabled wrapper in registry order |
| Manager.PluginManager.OnEntityIgnored | Core/Shared/PluginManager.cs:349-356 | EntityIgnored on every enabled wrapper in registry order |
| Manager.PluginManager.OnEntityAddedAny | Core/Shared/PluginManager.cs:358-365 | EntityAddedAny on every enabled wrapper in registry order |
| Manager.PluginManager.OnEntityRemoved | Core/Shared/PluginManager.cs:391-398 | EntityRemoved on every enabled wrapper in registry order |
| Manager.PluginManager.OnEntityAdded | Core/Shared/PluginManager.cs:367-389 | with multi-threading on and ThreadsCount > 0, one job per batch of the enabled wrappers; otherwise EntityAdded on every enabled wrapper in registry order |
| Manager.PluginManager.ReceivePluginEvent | Core/Shared/PluginManager.cs:405-412 | the event goes to every enabled wrapper except the sender's, in registry order |

## Left out

- File-system access is not modelled. This covers creating the plugin directories, listing
  directories and files, and reading the dll and pdb bytes. Directory listings, the Hidden
  attribute and the presence of `Errors.txt` are inputs.
- `LoadAssembly` is not modelled. Whether a compiled directory's dll loads is an input: the
  directory's optional assembly.
- Reflection is abstracted. The list `GetTypes` returns is the assembly's `types`.
  `IsAssignableFrom` and `IsAbstract` become the flags `isPlugin`, `isSettings` and `isAbstract`
  of a type descriptor. Where loading an instance throws is its `failure`: `InCreateInstance`
  for `Activator.CreateInstance`, `InSetApi`, `InLoadSettings` or `InOnload` for the three setup
  calls, and `NoFailure` when none throws. A missing load-timer entry throws after the three
  setup calls. When `GetTypes` itself throws, the handler at line 227 catches it: nothing is
  added and no call is made. The model represents that case as an assembly without types, so
  its outcome reads `NoTypes`.
- The `DevTree` field injection through reflection is left out. It does not change the registry.
- `PluginUpdater` and the wait for its update tasks are left out: they are outside the manager.
- Parallel loading and parallel initialisation are modelled in sequential order. With parallel
  loading the pre-sort order of the registry, and so the order of ties after the sort, depends on
  thread interleaving. The `lock` around the append is left out with it.
- `Stopwatch` elapsed times, `LoadedTime` and all `DebugWindow` logging are left out. A load timer
  is the tick at which it was started.
- The clock is one `now` parameter per operation. `HotReloadDll` reads `UtcNow` twice; the model
  uses the same tick for the check and for the new `LastWrite`.
- Manager.PluginManager.HotReloadDll: the coroutine body is not modelled. That covers re-loading
  the assembly, checking its types and calling `ReloadPlugin`, as well as the one-second delay.
  The method records a reload request instead.
- The bodies of the wrapper hooks are left out: SetApi, LoadSettings, Onload, Initialise,
  AreaChange, the entity hooks, ReceiveEvent, Close and the file subscription. A hook call is a
  recorded `Call`. Only loading models a hook that throws (the type descriptor's failure step);
  a throwing hook during start-up or fan-out is not modelled.
- Manager.PluginManager.OnEntityAdded: submitting jobs to the thread manager, `Process` and the
  500 ms `SpinWait` are left out. The method records the jobs it submits, with each job's calls in
  order, but not when they run.
- `GetCompiledAssemblies` returns a list that is never filled and is unused. The model keeps
  only its effect on the registry.
- Culture-sensitive comparison of plugin names in `ThenBy(Name)` is not modelled. Names are
  compared ordinally, character by character.
- HotReload.ReloadTarget: `EndsWith(".dll")` at line 239 compares in the current culture. The
  model tests for the suffix ordinally, character by character.
- Wrappers are values identified by `id`, not shared objects. `HotReloadDll` receives the
  wrapper's registry index. Aliasing between the registry and the wrapper a file watcher holds
  is not modelled.
- `IsEnable` is read once per call. Changes to it made by a hook during a fan-out are not
  modelled.
