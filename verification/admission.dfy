/**
 * Which wrappers one loaded plugin assembly contributes to the registry: nothing
 * without types or without a settings type, otherwise one wrapper per concrete
 * plugin type in type order, until a type whose load throws ends the loop.
 */
module Admission {
  import opened Plugins

  /** How TryLoadPlugin ended for one assembly. */
  datatype LoadOutcome = NoTypes | NoSettingsType | Loaded | LoadError

  /** Some type implements ISettings (FirstOrDefault finds one). */
  predicate HasSettingsType(types: seq<TypeDesc>)
  {
    exists i :: 0 <= i < |types| && types[i].isSettings
  }

  /** A type the loop instantiates: it implements IPlugin and is not abstract. */
  predicate IsConcretePlugin(t: TypeDesc)
  {
    t.isPlugin && !t.isAbstract
  }

  /**
   * The wrappers of every concrete plugin type, in type order: what the loop would
   * append if no type failed.
   */
  function ConcretePlugins(types: seq<TypeDesc>): (r: seq<PluginWrapper>)
  {
    if types == [] then []
    else (if IsConcretePlugin(types[0]) then [types[0].wrapper] else []) + ConcretePlugins(types[1..])
  }

  /**
   * A concrete plugin type fails to load when creating or loading its instance throws,
   * or when its directory has no load timer (the dictionary lookup throws).
   */
  predicate LoadThrows(t: TypeDesc, timed: bool)
  {
    t.failure != NoFailure || !timed
  }

  /** The calls loading makes on a new wrapper before it is registered, in order. */
  function SetupHooks(p: PluginWrapper): (r: seq<Call>)
  {
    [Call(p.id, SetApi), Call(p.id, LoadSettings), Call(p.id, Onload)]
  }

  /** How many of the three setup calls are made before `failure` throws (all three when none does). */
  function HooksReached(failure: Failure): (n: nat)
    ensures n <= 3
  {
    match failure
    case InCreateInstance => 0
    case InSetApi => 1
    case InLoadSettings => 2
    case InOnload => 3
    case NoFailure => 3
  }

  /** The setup calls made on the wrapper of a concrete plugin type, up to the one that throws. */
  function TypeCalls(t: TypeDesc): (r: seq<Call>)
  {
    SetupHooks(t.wrapper)[..HooksReached(t.failure)]
  }

  /** The setup calls of each wrapper of `ps` in turn. */
  function SetupCalls(ps: seq<PluginWrapper>): (r: seq<Call>)
  {
    if ps == [] then [] else SetupHooks(ps[0]) + SetupCalls(ps[1..])
  }

  /** What the loop over the plugin types appends; the first throwing type ends it. */
  function AdmitTypes(types: seq<TypeDesc>, timed: bool): (r: seq<PluginWrapper>)
  {
    if types == [] then []
    else if !IsConcretePlugin(types[0]) then AdmitTypes(types[1..], timed)
    else if LoadThrows(types[0], timed) then []
    else [types[0].wrapper] + AdmitTypes(types[1..], timed)
  }

  /**
   * The calls the loop over the plugin types makes: the setup calls of each concrete
   * type in type order, until the first throwing type, whose calls stop where it throws.
   */
  function LoadCalls(types: seq<TypeDesc>, timed: bool): (r: seq<Call>)
  {
    if types == [] then []
    else if !IsConcretePlugin(types[0]) then LoadCalls(types[1..], timed)
    else if LoadThrows(types[0], timed) then TypeCalls(types[0])
    else SetupHooks(types[0].wrapper) + LoadCalls(types[1..], timed)
  }

  /** What TryLoadPlugin adds to the registry for one assembly. */
  function Admitted(asm: Assembly, timed: bool): (r: seq<PluginWrapper>)
  {
    if |asm.types| == 0 || !HasSettingsType(asm.types) then []
    else AdmitTypes(asm.types, timed)
  }

  /** The calls TryLoadPlugin makes for one assembly. */
  function AdmissionCalls(asm: Assembly, timed: bool): (r: seq<Call>)
  {
    if |asm.types| == 0 || !HasSettingsType(asm.types) then []
    else LoadCalls(asm.types, timed)
  }

  /** The outcome TryLoadPlugin logs for one assembly. */
  function Outcome(asm: Assembly, timed: bool): (r: LoadOutcome)
  {
    if |asm.types| == 0 then NoTypes
    else if !HasSettingsType(asm.types) then NoSettingsType
    else if exists i :: 0 <= i < |asm.types| && IsConcretePlugin(asm.types[i]) && LoadThrows(asm.types[i], timed)
    then LoadError
    else Loaded
  }

  /**
   * The loop keeps what it appended before a failure: what it admits is always a prefix
   * of the concrete plugin types' wrappers, and all of them when no concrete type throws.
   */
  lemma {:induction false} AdmitTypesPrefix(types: seq<TypeDesc>, timed: bool)
    ensures var r := AdmitTypes(types, timed);
      |r| <= |ConcretePlugins(types)| && r == ConcretePlugins(types)[..|r|]
    ensures (forall i :: 0 <= i < |types| && IsConcretePlugin(types[i]) ==> !LoadThrows(types[i], timed))
      ==> AdmitTypes(types, timed) == ConcretePlugins(types)
  {
    if types != [] {
      AdmitTypesPrefix(types[1..], timed);
      if (forall i :: 0 <= i < |types| && IsConcretePlugin(types[i]) ==> !LoadThrows(types[i], timed)) {
        assert forall i :: 0 <= i < |types[1..]| && IsConcretePlugin(types[1..][i]) ==> !LoadThrows(types[1..][i], timed) by {
          forall i | 0 <= i < |types[1..]| && IsConcretePlugin(types[1..][i]) ensures !LoadThrows(types[1..][i], timed) {
            assert types[1..][i] == types[i + 1];
          }
        }
      }
    }
  }

  /** A failing concrete type contributes nothing, and neither does any type after it. */
  lemma {:induction false} AdmitTypesStopsAtFailure(types: seq<TypeDesc>, timed: bool, k: nat)
    requires k < |types| && IsConcretePlugin(types[k]) && LoadThrows(types[k], timed)
    ensures AdmitTypes(types, timed) == AdmitTypes(types[..k], timed)
  {
    if k == 0 {
      assert types[..0] == [];
    } else {
      assert types[..k][1..] == types[1..][..k - 1];
      assert types[..k][0] == types[0];
      AdmitTypesStopsAtFailure(types[1..], timed, k - 1);
    }
  }

  /** Without types, or without a settings type, an assembly adds nothing and says why. */
  lemma AdmittedRejects(asm: Assembly, timed: bool)
    ensures |asm.types| == 0 ==>
      Admitted(asm, timed) == [] && AdmissionCalls(asm, timed) == [] && Outcome(asm, timed) == NoTypes
    ensures |asm.types| > 0 && !HasSettingsType(asm.types) ==>
      Admitted(asm, timed) == [] && AdmissionCalls(asm, timed) == [] && Outcome(asm, timed) == NoSettingsType
    ensures Outcome(asm, timed) == Loaded ==>
      Admitted(asm, timed) == ConcretePlugins(asm.types) && AdmissionCalls(asm, timed) == SetupCalls(ConcretePlugins(asm.types))
  {
    if Outcome(asm, timed) == Loaded {
      AdmitTypesPrefix(asm.types, timed);
      LoadCallsClean(asm.types, timed);
    }
  }

  /**
   * When no concrete plugin type throws, the loop calls SetApi, LoadSettings and Onload
   * on every wrapper it registers, wrapper after wrapper in type order.
   */
  lemma {:induction false} LoadCallsClean(types: seq<TypeDesc>, timed: bool)
    requires forall i :: 0 <= i < |types| && IsConcretePlugin(types[i]) ==> !LoadThrows(types[i], timed)
    ensures LoadCalls(types, timed) == SetupCalls(ConcretePlugins(types))
  {
    if types != [] {
      assert forall i :: 0 <= i < |types[1..]| && IsConcretePlugin(types[1..][i]) ==> !LoadThrows(types[1..][i], timed) by {
        forall i | 0 <= i < |types[1..]| && IsConcretePlugin(types[1..][i]) ensures !LoadThrows(types[1..][i], timed) {
          assert types[1..][i] == types[i + 1];
        }
      }
      LoadCallsClean(types[1..], timed);
      if IsConcretePlugin(types[0]) {
        assert ConcretePlugins(types) == [types[0].wrapper] + ConcretePlugins(types[1..]);
      } else {
        var rest := ConcretePlugins(types[1..]);
        assert [] + rest == rest;
      }
    }
  }

  /**
   * When the concrete type at `k` is the first to throw, the wrappers of the concrete
   * types before it are registered, each after its three setup calls, and the calls
   * on the throwing type's wrapper stop where it throws; nothing after it is touched.
   */
  lemma LoadCallsAtFailure(types: seq<TypeDesc>, timed: bool, k: nat)
    requires k < |types| && IsConcretePlugin(types[k]) && LoadThrows(types[k], timed)
    requires forall i :: 0 <= i < k && IsConcretePlugin(types[i]) ==> !LoadThrows(types[i], timed)
    ensures AdmitTypes(types, timed) == ConcretePlugins(types[..k])
    ensures LoadCalls(types, timed) == SetupCalls(ConcretePlugins(types[..k])) + TypeCalls(types[k])
  {
    AdmitUpToFailure(types, timed, k);
    CallsUpToFailure(types, timed, k);
  }

  lemma {:induction false} AdmitUpToFailure(types: seq<TypeDesc>, timed: bool, k: nat)
    requires k < |types| && IsConcretePlugin(types[k]) && LoadThrows(types[k], timed)
    requires forall i :: 0 <= i < k && IsConcretePlugin(types[i]) ==> !LoadThrows(types[i], timed)
    ensures AdmitTypes(types, timed) == ConcretePlugins(types[..k])
  {
    if k == 0 {
      assert types[..0] == [];
    } else {
      NoThrowBeforeTail(types, timed, k);
      AdmitUpToFailure(types[1..], timed, k - 1);
      ConcretePluginsPrefixCons(types, k);
    }
  }

  lemma {:induction false} CallsUpToFailure(types: seq<TypeDesc>, timed: bool, k: nat)
    requires k < |types| && IsConcretePlugin(types[k]) && LoadThrows(types[k], timed)
    requires forall i :: 0 <= i < k && IsConcretePlugin(types[i]) ==> !LoadThrows(types[i], timed)
    ensures LoadCalls(types, timed) == SetupCalls(ConcretePlugins(types[..k])) + TypeCalls(types[k])
  {
    if k == 0 {
      assert types[..0] == [];
    } else {
      NoThrowBeforeTail(types, timed, k);
      CallsUpToFailure(types[1..], timed, k - 1);
      ConcretePluginsPrefixCons(types, k);
      var tail := ConcretePlugins(types[1..][..k - 1]);
      if IsConcretePlugin(types[0]) {
        SetupCallsCons(types[0].wrapper, tail);
        assert (SetupHooks(types[0].wrapper) + SetupCalls(tail)) + TypeCalls(types[k])
          == SetupHooks(types[0].wrapper) + (SetupCalls(tail) + TypeCalls(types[k]));
      } else {
        assert [] + tail == tail;
      }
    }
  }

  /** The no-throw guarantee for the types before `k` carries over to the tail. */
  lemma NoThrowBeforeTail(types: seq<TypeDesc>, timed: bool, k: nat)
    requires 0 < k <= |types|
    requires forall i :: 0 <= i < k && IsConcretePlugin(types[i]) ==> !LoadThrows(types[i], timed)
    ensures !IsConcretePlugin(types[0]) || !LoadThrows(types[0], timed)
    ensures forall i :: 0 <= i < k - 1 && IsConcretePlugin(types[1..][i]) ==> !LoadThrows(types[1..][i], timed)
  {
    forall i | 0 <= i < k - 1 && IsConcretePlugin(types[1..][i]) ensures !LoadThrows(types[1..][i], timed) {
      assert types[1..][i] == types[i + 1];
    }
  }

  lemma ConcretePluginsPrefixCons(types: seq<TypeDesc>, k: nat)
    requires 0 < k <= |types|
    ensures ConcretePlugins(types[..k]) ==
      (if IsConcretePlugin(types[0]) then [types[0].wrapper] else []) + ConcretePlugins(types[1..][..k - 1])
  {
    assert types[..k][1..] == types[1..][..k - 1];
    assert types[..k][0] == types[0];
  }

  lemma SetupCallsCons(w: PluginWrapper, tail: seq<PluginWrapper>)
    ensures SetupCalls([w] + tail) == SetupHooks(w) + SetupCalls(tail)
  {
    assert ([w] + tail)[1..] == tail;
  }

  /** Every wrapper an assembly contributes has received SetApi, LoadSettings and Onload. */
  lemma {:induction false} AdmittedSetUp(types: seq<TypeDesc>, timed: bool, p: PluginWrapper)
    requires p in AdmitTypes(types, timed)
    ensures Call(p.id, SetApi) in LoadCalls(types, timed)
    ensures Call(p.id, LoadSettings) in LoadCalls(types, timed)
    ensures Call(p.id, Onload) in LoadCalls(types, timed)
  {
    if !IsConcretePlugin(types[0]) {
      AdmittedSetUp(types[1..], timed, p);
    } else if p != types[0].wrapper {
      AdmittedSetUp(types[1..], timed, p);
    }
  }

  /** Every wrapper an assembly contributes is the wrapper of one of its concrete plugin types. */
  lemma AdmittedMembers(asm: Assembly, timed: bool, p: PluginWrapper)
    requires p in Admitted(asm, timed)
    ensures exists t :: t in asm.types && IsConcretePlugin(t) && t.wrapper == p
  {
    AdmitTypesPrefix(asm.types, timed);
    var r := AdmitTypes(asm.types, timed);
    assert p in ConcretePlugins(asm.types)[..|r|];
    ConcretePluginsMembers(asm.types, p);
  }

  lemma {:induction false} ConcretePluginsMembers(types: seq<TypeDesc>, p: PluginWrapper)
    requires p in ConcretePlugins(types)
    ensures exists t :: t in types && IsConcretePlugin(t) && t.wrapper == p
  {
    if IsConcretePlugin(types[0]) && types[0].wrapper == p {
      assert types[0] in types;
    } else {
      ConcretePluginsMembers(types[1..], p);
      var t :| t in types[1..] && IsConcretePlugin(t) && t.wrapper == p;
      assert t in types;
    }
  }
}
