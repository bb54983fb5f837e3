/**
 * The entities the plugin manager works with: plugin wrappers, the directories
 * found on disk, the types of a loaded assembly, and the hook calls it issues.
 */
module Plugins {

  /** Ticks of 100 ns, the unit of a .NET DateTime. */
  const TicksPerSecond: int := 10_000_000

  /**
   * One PluginWrapper as the manager sees it. `id` stands for the identity of the
   * wrapped plugin object (the `Plugin` property compared against a sender), and
   * `lastWrite` is the wrapper's LastWrite timestamp in ticks.
   */
  datatype PluginWrapper = PluginWrapper(
    id: nat,
    name: string,
    order: int,
    canBeMultiThreading: bool,
    isEnable: bool,
    lastWrite: int)

  /**
   * Where loading an instance of a type throws, if it does: in CreateInstance, or in
   * the SetApi, LoadSettings or Onload call on its new wrapper.
   */
  datatype Failure = NoFailure | InCreateInstance | InSetApi | InLoadSettings | InOnload

  /**
   * A type exported by a plugin assembly: whether it implements IPlugin, whether it
   * implements ISettings, whether it is abstract, where loading an instance of it
   * throws, and the wrapper that loading it produces.
   */
  datatype TypeDesc = TypeDesc(
    isPlugin: bool,
    isSettings: bool,
    isAbstract: bool,
    failure: Failure,
    wrapper: PluginWrapper)

  /** A loaded assembly, reduced to the list its GetTypes() returns. */
  datatype Assembly = Assembly(types: seq<TypeDesc>)

  /**
   * A plugin directory as listed on disk. `hidden` is the Hidden attribute,
   * `hasErrorsFile` says whether it holds a file named exactly "Errors.txt", and
   * `assembly` is what loading its dll gives (None when no matching dll is found or
   * loading throws).
   */
  datatype Directory = Directory(
    name: string,
    fullName: string,
    hidden: bool,
    hasErrorsFile: bool,
    assembly: Option<Assembly>)

  datatype Option<T> = None | Some(value: T)

  /** The hooks of a PluginWrapper that the manager invokes. */
  datatype Hook =
    | SetApi
    | LoadSettings
    | Onload
    | Initialise
    | AreaChange(area: int)
    | EntityAdded(entity: int)
    | EntityRemoved(entity: int)
    | EntityAddedAny(entity: int)
    | EntityIgnored(entity: int)
    | ReceiveEvent(eventId: string, args: int)
    | SubscribeOnFile
    | Close

  /** One invocation of `hook` on the plugin whose identity is `target`. */
  datatype Call = Call(target: nat, hook: Hook)

  /** A reload that HotReloadDll hands to the coroutine runner. */
  datatype ReloadRequest = ReloadRequest(target: nat, fullPath: string, pluginName: string)

  /** No two wrappers in the registry wrap the same plugin object. */
  predicate UniqueIds(ps: seq<PluginWrapper>)
  {
    forall i, j :: 0 <= i < j < |ps| ==> ps[i].id != ps[j].id
  }
}
