/** AssetReduxController: the refresh request debounce, the frame-sliced scan
    of every loaded component that asks the managers for replacements, the
    guard the replacement callbacks apply, and the discovery of resource
    modules in the loaded assemblies. */
module Controller {
  import opened Common
  import opened CommonTool
  import opened Models
  import opened PathMaps
  import opened Sprites
  import opened Textures
  import opened TextAssets
  import opened Registry
  import opened Validation

  // ---------------------------------------------------------------------
  // System assemblies

  /** The lower-case name prefixes of assemblies that are never scanned. */
  const SystemPrefixes: seq<string> :=
    ["system", "microsoft", "unityengine", "mscorlib", "netstandard",
     "interop", "bepinex", "unhollower", "harmony"]

  /** A null full name is not a system assembly; otherwise the lower-cased
      name is compared with each prefix. */
  function IsSystemAssembly(fullName: Option<string>): (r: bool)
    ensures r <==> fullName.Some? &&
                   exists i :: 0 <= i < |SystemPrefixes| && StartsWith(Lower(fullName.value), SystemPrefixes[i])
  {
    if fullName.None? then false
    else
      var asmName := Lower(fullName.value);
      var r := StartsWith(asmName, "system") || StartsWith(asmName, "microsoft") ||
               StartsWith(asmName, "unityengine") || StartsWith(asmName, "mscorlib") ||
               StartsWith(asmName, "netstandard") || StartsWith(asmName, "interop") ||
               StartsWith(asmName, "bepinex") || StartsWith(asmName, "unhollower") ||
               StartsWith(asmName, "harmony");
      assert r ==> exists i :: 0 <= i < |SystemPrefixes| && StartsWith(asmName, SystemPrefixes[i]) by {
        if StartsWith(asmName, "system") { assert StartsWith(asmName, SystemPrefixes[0]); }
        else if StartsWith(asmName, "microsoft") { assert StartsWith(asmName, SystemPrefixes[1]); }
        else if StartsWith(asmName, "unityengine") { assert StartsWith(asmName, SystemPrefixes[2]); }
        else if StartsWith(asmName, "mscorlib") { assert StartsWith(asmName, SystemPrefixes[3]); }
        else if StartsWith(asmName, "netstandard") { assert StartsWith(asmName, SystemPrefixes[4]); }
        else if StartsWith(asmName, "interop") { assert StartsWith(asmName, SystemPrefixes[5]); }
        else if StartsWith(asmName, "bepinex") { assert StartsWith(asmName, SystemPrefixes[6]); }
        else if StartsWith(asmName, "unhollower") { assert StartsWith(asmName, SystemPrefixes[7]); }
        else if StartsWith(asmName, "harmony") { assert StartsWith(asmName, SystemPrefixes[8]); }
      }
      r
  }

  /** The test is on prefixes only: any name that extends a system name is
      skipped too, a plugin called "SystemTweaks" or "HarmonyFix" included. */
  lemma SystemNameExtended(name: string, suffix: string)
    requires IsSystemAssembly(Some(name))
    ensures IsSystemAssembly(Some(name + suffix))
  {
    MapCharsAppend(LowerChar, name, suffix);
    var i :| 0 <= i < |SystemPrefixes| && StartsWith(Lower(name), SystemPrefixes[i]);
    assert StartsWith(Lower(name + suffix), SystemPrefixes[i]);
  }

  // ---------------------------------------------------------------------
  // Module discovery

  /** What instantiating one exported type gives: a resource module, an
      object that is not one (or null), or an exception. `GetTypes` failing
      for the whole assembly is an assembly whose first entry throws. */
  datatype Instance = ModuleInstance(m: ResourceModule) | NotAModule | Throws

  /** A loaded assembly with the outcome of instantiating each of its
      concrete `BaseResourceModule` types, in `GetTypes` order. */
  datatype LoadedAssembly = LoadedAssembly(assembly: Assembly, instances: seq<Instance>)

  /** The modules an assembly registers: its instances in order, up to the
      first exception, which abandons the rest of that assembly. */
  function Instantiated(source: Assembly, instances: seq<Instance>): seq<(ResourceModule, Assembly)>
    decreases |instances|
  {
    if instances == [] then []
    else match instances[0]
      case Throws => []
      case NotAModule => Instantiated(source, instances[1..])
      case ModuleInstance(m) => [(m, source)] + Instantiated(source, instances[1..])
  }

  /** The registrations the refresh makes, in order: the modules of every
      assembly that is not a system assembly. */
  function Registrations(assemblies: seq<LoadedAssembly>): seq<(ResourceModule, Assembly)>
    decreases |assemblies|
  {
    if assemblies == [] then []
    else
      var last := assemblies[|assemblies| - 1];
      Registrations(assemblies[..|assemblies| - 1]) +
        (if IsSystemAssembly(last.assembly.fullName) then [] else Instantiated(last.assembly, last.instances))
  }

  /** An exception abandons what follows it in its own assembly only. */
  lemma {:induction false} InstantiatedStopsAtThrow(source: Assembly, before: seq<Instance>, after: seq<Instance>)
    ensures Instantiated(source, before + [Throws] + after) == Instantiated(source, before)
    decreases |before|
  {
    if before == [] {
      assert (before + [Throws] + after)[0] == Throws;
    } else {
      assert (before + [Throws] + after)[1..] == before[1..] + [Throws] + after;
      InstantiatedStopsAtThrow(source, before[1..], after);
    }
  }

  lemma {:induction false} InstantiatedFromSource(source: Assembly, instances: seq<Instance>)
    ensures forall k :: 0 <= k < |Instantiated(source, instances)| ==> Instantiated(source, instances)[k].1 == source
    decreases |instances|
  {
    if instances != [] {
      InstantiatedFromSource(source, instances[1..]);
    }
  }

  /** Each assembly contributes its own modules, in place, whatever the
      assemblies before and after it do: a failure in one does not stop the
      others. */
  lemma {:induction false} RegistrationsAppend(a: seq<LoadedAssembly>, b: seq<LoadedAssembly>)
    ensures Registrations(a + b) == Registrations(a) + Registrations(b)
    decreases |b|
  {
    if b == [] {
      assert a + b == a;
    } else {
      var n := |b|;
      assert (a + b)[..|a + b| - 1] == a + b[..n - 1];
      RegistrationsAppend(a, b[..n - 1]);
    }
  }

  /** No module of a system assembly is registered. */
  lemma {:induction false} RegistrationsSkipSystem(assemblies: seq<LoadedAssembly>)
    ensures forall k :: 0 <= k < |Registrations(assemblies)| ==>
              !IsSystemAssembly(Registrations(assemblies)[k].1.fullName)
    decreases |assemblies|
  {
    if assemblies != [] {
      var last := assemblies[|assemblies| - 1];
      RegistrationsSkipSystem(assemblies[..|assemblies| - 1]);
      InstantiatedFromSource(last.assembly, last.instances);
    }
  }

  /** What registration changes besides the module list: the registry's
      assembly names and the three manager tables. */
  datatype Tables = Tables(processed: set<string>, spritePaths: PathMap, texturePaths: PathMap,
                           processors: ProcessorMap)

  /** One `RegisterModule` of module `m` from assembly `source`. */
  function RegisterStep(t: Tables, m: ResourceModule, source: Assembly, p: Platform): Tables {
    Tables(t.processed + AssemblyNames(source),
           SpritePathsAfter(t.spritePaths, m, source, p),
           RegisterAll(t.texturePaths, m.textures),
           AddAll(t.processors, m.textAssetProcessors))
  }

  /** The tables after a series of registrations, in order. */
  function TablesAfter(t: Tables, regs: seq<(ResourceModule, Assembly)>, p: Platform): Tables
    decreases |regs|
  {
    if regs == [] then t
    else
      var last := regs[|regs| - 1];
      RegisterStep(TablesAfter(t, regs[..|regs| - 1], p), last.0, last.1, p)
  }

  /** The modules a series of registrations adds to the registry, as it
      stores them. */
  function RegisteredModules(regs: seq<(ResourceModule, Assembly)>, p: Platform): (r: seq<ResourceModule>)
    decreases |regs|
  {
    if regs == [] then []
    else
      var last := regs[|regs| - 1];
      RegisteredModules(regs[..|regs| - 1], p) + [Registered(last.0, last.1, p)]
  }

  /** Registering `a` and then `b` is registering `a + b`. */
  lemma {:induction false} TablesAfterCompose(t: Tables, a: seq<(ResourceModule, Assembly)>,
                                              b: seq<(ResourceModule, Assembly)>, p: Platform)
    ensures TablesAfter(t, a + b, p) == TablesAfter(TablesAfter(t, a, p), b, p)
    decreases |b|
  {
    if b == [] {
      assert a + b == a;
    } else {
      var n := |b|;
      assert (a + b)[..|a + b| - 1] == a + b[..n - 1];
      assert (a + b)[|a + b| - 1] == b[n - 1];
      TablesAfterCompose(t, a, b[..n - 1], p);
    }
  }

  /** ... and adds the modules of `a` followed by those of `b`. */
  lemma {:induction false} RegisteredModulesCompose(a: seq<(ResourceModule, Assembly)>,
                                                    b: seq<(ResourceModule, Assembly)>, p: Platform)
    ensures RegisteredModules(a + b, p) == RegisteredModules(a, p) + RegisteredModules(b, p)
    decreases |b|
  {
    if b == [] {
      assert a + b == a;
    } else {
      var n := |b|;
      assert (a + b)[..|a + b| - 1] == a + b[..n - 1];
      assert (a + b)[|a + b| - 1] == b[n - 1];
      RegisteredModulesCompose(a, b[..n - 1], p);
    }
  }

  /** The registry holds exactly the registered modules, rewritten, one
      entry per registration, and every module's source assembly name. */
  lemma {:induction false} RegisteredModulesExact(t: Tables, regs: seq<(ResourceModule, Assembly)>, p: Platform)
    ensures |RegisteredModules(regs, p)| == |regs|
    ensures forall k :: 0 <= k < |regs| ==> RegisteredModules(regs, p)[k] == Registered(regs[k].0, regs[k].1, p)
    ensures forall k :: 0 <= k < |regs| && regs[k].1.fullName.Some? ==>
              regs[k].1.fullName.value in TablesAfter(t, regs, p).processed
    decreases |regs|
  {
    if regs != [] {
      var init := regs[..|regs| - 1];
      RegisteredModulesExact(t, init, p);
      assert forall k :: 0 <= k < |init| ==> init[k] == regs[k];
    }
  }

  /** After a series of registrations an assembly name is recorded exactly
      when it was recorded before or some registration came from an
      assembly of that name. */
  lemma {:induction false} ProcessedExactly(t: Tables, regs: seq<(ResourceModule, Assembly)>, p: Platform, name: string)
    ensures name in TablesAfter(t, regs, p).processed <==>
              name in t.processed || exists k :: 0 <= k < |regs| && regs[k].1.fullName == Some(name)
    decreases |regs|
  {
    if regs != [] {
      var init := regs[..|regs| - 1];
      ProcessedExactly(t, init, p, name);
      if exists k :: 0 <= k < |regs| && regs[k].1.fullName == Some(name) {
        var k :| 0 <= k < |regs| && regs[k].1.fullName == Some(name);
        if k < |init| {
          assert init[k] == regs[k];
        }
      }
      if exists k :: 0 <= k < |init| && init[k].1.fullName == Some(name) {
        var k :| 0 <= k < |init| && init[k].1.fullName == Some(name);
        assert regs[k] == init[k];
      }
    }
  }

  // ---------------------------------------------------------------------
  // The scan

  /** What the scan's `TryCast` tests can see of a component. A
      `SpriteRenderer` is also a `Renderer`; `OtherRenderer` is any other
      `Renderer` (a `MeshRenderer`, ...). */
  datatype Asset = Asset(instanceId: int, name: string)
  datatype Material = Material(hasMainTex: bool, mainTexture: Option<Asset>)
  datatype Component =
    | ImageComponent(sprite: Option<Asset>)
    | SpriteRendererComponent(sprite: Option<Asset>, sharedMaterial: Option<Material>)
    | OtherRenderer(sharedMaterial: Option<Material>)
    | OtherComponent

  /** The replacement the scan asks for, for the component at `index` of
      the scanned array: a sprite by name from `SpriteManager`, or a texture
      by name from `TextureManager`. */
  datatype Request = SpriteRequest(index: nat, name: string) | TextureRequest(index: nat, name: string)

  /** The material branch: a material with `_MainTex` set to a texture. */
  function MaterialRequest(material: Option<Material>, index: nat): Option<Request> {
    if material.Some? && material.value.hasMainTex && material.value.mainTexture.Some? then
      Some(TextureRequest(index, material.value.mainTexture.value.name))
    else None
  }

  /** The branches in order: an image with a sprite, a sprite renderer with
      a sprite, then any renderer with a textured material. The first that
      applies is the only one taken. */
  function Handle(c: Component, index: nat): (r: Option<Request>)
    ensures r.Some? ==> r.value.index == index
  {
    match c
    case ImageComponent(sprite) =>
      if sprite.Some? then Some(SpriteRequest(index, sprite.value.name)) else None
    case SpriteRendererComponent(sprite, material) =>
      if sprite.Some? then Some(SpriteRequest(index, sprite.value.name)) else MaterialRequest(material, index)
    case OtherRenderer(material) => MaterialRequest(material, index)
    case OtherComponent => None
  }

  /** A sprite renderer with a sprite asks for the sprite only, even when
      its material has a main texture; without a sprite it is handled as a
      renderer. An image without a sprite asks for nothing. */
  lemma BranchOrder(sprite: Asset, material: Material, index: nat)
    requires material.hasMainTex && material.mainTexture.Some?
    ensures Handle(SpriteRendererComponent(Some(sprite), Some(material)), index) == Some(SpriteRequest(index, sprite.name))
    ensures Handle(SpriteRendererComponent(None, Some(material)), index)
            == Some(TextureRequest(index, material.mainTexture.value.name))
    ensures Handle(ImageComponent(None), index).None?
  {
  }

  /** The components the scan counts: the non-null ones. */
  function NonNullCount(s: seq<Option<Component>>): (n: nat)
    ensures n <= |s|
    decreases |s|
  {
    if s == [] then 0
    else NonNullCount(s[..|s| - 1]) + (if s[|s| - 1].Some? then 1 else 0)
  }

  /** The requests a complete pass over `s` makes, in order. */
  function RequestsOf(s: seq<Option<Component>>): seq<Request>
    decreases |s|
  {
    if s == [] then []
    else
      var i := |s| - 1;
      RequestsOf(s[..i]) + (if s[i].Some? && Handle(s[i].value, i).Some? then [Handle(s[i].value, i).value] else [])
  }

  /** Each request comes from the non-null component at its index, the
      components are visited in order and each asks at most once; every
      component that has a branch to take asks. */
  lemma {:induction false} RequestsOfExact(s: seq<Option<Component>>)
    ensures forall k :: 0 <= k < |RequestsOf(s)| ==>
              var r := RequestsOf(s)[k];
              r.index < |s| && s[r.index].Some? && Handle(s[r.index].value, r.index) == Some(r)
    ensures forall k, l :: 0 <= k < l < |RequestsOf(s)| ==> RequestsOf(s)[k].index < RequestsOf(s)[l].index
    ensures forall i :: 0 <= i < |s| && s[i].Some? && Handle(s[i].value, i).Some? ==>
              Handle(s[i].value, i).value in RequestsOf(s)
    decreases |s|
  {
    if s != [] {
      var i := |s| - 1;
      var init := s[..i];
      RequestsOfExact(init);
      forall j | 0 <= j < i && s[j].Some? && Handle(s[j].value, j).Some?
        ensures Handle(s[j].value, j).value in RequestsOf(s)
      {
        assert init[j] == s[j];
      }
    }
  }

  /** Extending a scanned prefix by one component. */
  lemma ScanStep(s: seq<Option<Component>>, pos: nat)
    requires pos < |s|
    ensures NonNullCount(s[..pos + 1]) == NonNullCount(s[..pos]) + (if s[pos].Some? then 1 else 0)
    ensures RequestsOf(s[..pos + 1]) == RequestsOf(s[..pos]) +
              (if s[pos].Some? && Handle(s[pos].value, pos).Some? then [Handle(s[pos].value, pos).value] else [])
  {
    assert s[..pos + 1][..pos] == s[..pos];
  }

  /** Counting one more component adds a yield exactly when the new count
      is a multiple of the yield interval. */
  lemma YieldStep(count: nat)
    ensures (count + 1) % YieldEvery != 0 ==> (count + 1) / YieldEvery == count / YieldEvery
    ensures (count + 1) % YieldEvery == 0 ==> (count + 1) / YieldEvery == count / YieldEvery + 1
  {
  }

  /** The scan has passed `s[..pos]`: it counted its non-null components
      (and the one at `pos` when suspended before handling it), made their
      requests and yielded once per 500 counted. */
  ghost predicate ScanInvariant(s: seq<Option<Component>>, pos: nat, count: nat, counted: bool,
                                requests: seq<Request>, yieldCount: nat)
  {
    && pos <= |s|
    && count == NonNullCount(s[..pos]) + (if counted then 1 else 0)
    && requests == RequestsOf(s[..pos])
    && yieldCount == count / YieldEvery
    && (counted ==> pos < |s| && s[pos].Some? && count % YieldEvery == 0)
  }

  ghost function ScanMeasure(s: seq<Option<Component>>, pos: nat, counted: bool): nat
    requires pos <= |s|
  {
    2 * (|s| - pos) + (if counted then 0 else 1)
  }

  /** Refresh delay: 0.5 s, in milliseconds. */
  const DebounceMillis: int := 500
  /** The scan gives the frame back after every this many counted components. */
  const YieldEvery: nat := 500

  /** A replacement callback's effect on the slot it rebinds (an image's or
      sprite renderer's sprite, a material's main texture): only a non-null
      result, for a target that still exists and still holds an asset with
      another instance id, replaces the asset. */
  function Rebind(targetAlive: bool, current: Option<Asset>, result: Option<Asset>): (r: Option<Asset>)
    ensures r == current || r == result
    ensures r != current <==>
              targetAlive && current.Some? && result.Some? && current.value.instanceId != result.value.instanceId
  {
    if result.Some? && targetAlive && current.Some? && current.value.instanceId != result.value.instanceId then result
    else current
  }

  /** A callback never clears a slot, and delivering the same result twice
      changes nothing more. */
  lemma RebindStable(targetAlive: bool, current: Option<Asset>, result: Option<Asset>)
    ensures current.Some? ==> Rebind(targetAlive, current, result).Some?
    ensures Rebind(targetAlive, Rebind(targetAlive, current, result), result) == Rebind(targetAlive, current, result)
  {
  }

  /** A component property the scan asked a replacement for. */
  class AssetSlot {
    /** False once Unity has destroyed the component or material. */
    var alive: bool
    var asset: Option<Asset>

    constructor (asset: Option<Asset>)
      ensures this.asset == asset && alive
    {
      this.asset := asset;
      alive := true;
    }

    /** The callback passed to `GetSpriteAsync` / `GetTextureAsync`. */
    method OnLoaded(result: Option<Asset>)
      modifies this
      ensures alive == old(alive)
      ensures asset == Rebind(old(alive), old(asset), result)
    {
      if result.Some? && alive && asset.Some? {
        if asset.value.instanceId != result.value.instanceId {
          asset := result;
        }
      }
    }
  }

  class AssetController {
    /** `_isRefreshing`. */
    var isRefreshing: bool
    /** The time at which the invoked `ExecuteRefreshInternal` is due, if one
        is scheduled. */
    var pendingDue: Option<int>
    /** The components of the current (or last) scan, null ones as `None`. */
    var snapshot: seq<Option<Component>>
    /** The scan's position in `snapshot`. */
    var pos: nat
    /** `count`: the non-null components counted so far. */
    var count: nat
    /** The scan is suspended after counting the component at `pos` and
        before handling it. */
    var counted: bool
    /** The requests the scan has made. */
    var requests: seq<Request>
    /** The frames the scan has given back. */
    var yieldCount: nat
    /** How many scans have been started. */
    ghost var scansStarted: nat

    ghost predicate Valid()
      reads this
    {
      && ScanInvariant(snapshot, pos, count, counted, requests, yieldCount)
      && (counted ==> isRefreshing)
      && (!isRefreshing ==> pos == |snapshot|)
    }

    /** Decreases with every frame of a running scan. */
    ghost function Progress(): nat
      reads this
      requires pos <= |snapshot|
    {
      ScanMeasure(snapshot, pos, counted)
    }

    constructor ()
      ensures Valid() && !isRefreshing && pendingDue.None? && scansStarted == 0
    {
      isRefreshing := false;
      pendingDue := None;
      snapshot := [];
      pos := 0;
      count := 0;
      counted := false;
      requests := [];
      yieldCount := 0;
      scansStarted := 0;
    }

    /** Cancels the pending run and schedules one a debounce delay from now. */
    method RequestRefresh(now: int)
      modifies this
      ensures pendingDue == Some(now + DebounceMillis)
      ensures isRefreshing == old(isRefreshing) && snapshot == old(snapshot) && pos == old(pos)
      ensures count == old(count) && counted == old(counted) && requests == old(requests) && yieldCount == old(yieldCount)
      ensures scansStarted == old(scansStarted)
    {
      pendingDue := Some(now + DebounceMillis);
    }

    /** A frame at time `now`: the scheduled run fires once it is due, on
        the components loaded at that moment, and does what
        `ExecuteRefreshInternal` does. */
    method Tick(now: int, population: seq<Option<Component>>)
      requires Valid()
      modifies this
      ensures Valid()
      ensures !(old(pendingDue).Some? && old(pendingDue).value <= now) ==> unchanged(this)
      ensures old(pendingDue).Some? && old(pendingDue).value <= now ==>
                && pendingDue.None?
                && (old(isRefreshing) ==>
                      isRefreshing && snapshot == old(snapshot) && pos == old(pos) && count == old(count) &&
                      counted == old(counted) && requests == old(requests) && yieldCount == old(yieldCount) &&
                      scansStarted == old(scansStarted))
                && (!old(isRefreshing) ==>
                      && snapshot == population && scansStarted == old(scansStarted) + 1
                      && (isRefreshing ==> counted)
                      && (!isRefreshing ==> requests == RequestsOf(population) &&
                                            yieldCount == NonNullCount(population) / YieldEvery))
    {
      if pendingDue.Some? && pendingDue.value <= now {
        pendingDue := None;
        ExecuteRefreshInternal(population);
      }
    }

    /** A run that finds a scan in progress does nothing; otherwise a scan
        of `population` starts and runs until its first yield or its end. */
    method ExecuteRefreshInternal(population: seq<Option<Component>>)
      requires Valid()
      modifies this
      ensures Valid() && pendingDue == old(pendingDue)
      ensures old(isRefreshing) ==> unchanged(this)
      ensures !old(isRefreshing) ==>
                && snapshot == population && scansStarted == old(scansStarted) + 1
                && (isRefreshing ==> counted)
                && (!isRefreshing ==> requests == RequestsOf(population) &&
                                      yieldCount == NonNullCount(population) / YieldEvery)
    {
      if isRefreshing {
        return;
      }
      isRefreshing := true;
      scansStarted := scansStarted + 1;
      snapshot := population;
      pos, count, counted := 0, 0, false;
      requests, yieldCount := [], 0;
      assert snapshot[..0] == [];
      RunScan();
    }

    /** A later frame: a suspended scan resumes where it yielded. */
    method NextFrame()
      requires Valid()
      modifies this
      ensures Valid() && snapshot == old(snapshot) && pendingDue == old(pendingDue)
      ensures scansStarted == old(scansStarted)
      ensures isRefreshing ==> counted && Progress() < old(Progress())
      ensures !isRefreshing ==> requests == RequestsOf(snapshot) && yieldCount == NonNullCount(snapshot) / YieldEvery
    {
      if isRefreshing {
        RunScan();
      } else {
        assert snapshot[..pos] == snapshot;
      }
    }

    /** The body of the coroutine from its current position: skip null
        components; count the others and yield on every 500th before
        handling it; handle each by the first branch that applies. When the
        array is exhausted the scan ends and `_isRefreshing` is reset. */
    method RunScan()
      requires Valid() && isRefreshing
      modifies this
      ensures Valid() && snapshot == old(snapshot) && pendingDue == old(pendingDue)
      ensures scansStarted == old(scansStarted)
      ensures isRefreshing ==> counted && Progress() < old(Progress())
      ensures !isRefreshing ==> requests == RequestsOf(snapshot) && count == NonNullCount(snapshot) &&
                                yieldCount == NonNullCount(snapshot) / YieldEvery
    {
      var s := snapshot;
      var i, n, suspended, made, frames := ScanFrame(s, pos, count, counted, requests, yieldCount);
      pos, count, counted, requests, yieldCount := i, n, suspended, made, frames;
      if !suspended {
        isRefreshing := false;
        assert s[..i] == s;
      }
    }
  }

  /** One frame of the scan coroutine, from position `start`: it runs to
      the end of `s` or up to the next yield, and moves the scan forward. */
  method ScanFrame(s: seq<Option<Component>>, start: nat, count: nat, counted: bool,
                   requests: seq<Request>, yieldCount: nat)
      returns (i: nat, n: nat, suspended: bool, made: seq<Request>, frames: nat)
    requires ScanInvariant(s, start, count, counted, requests, yieldCount)
    ensures ScanInvariant(s, i, n, suspended, made, frames)
    ensures suspended ==> ScanMeasure(s, i, suspended) < ScanMeasure(s, start, counted)
    ensures !suspended ==> i == |s|
  {
    i, n, suspended, made, frames := start, count, counted, requests, yieldCount;
    while i < |s|
      invariant ScanInvariant(s, i, n, suspended, made, frames)
      invariant i > start || (i == start && suspended == counted)
      decreases |s| - i
    {
      ScanStep(s, i);
      YieldStep(n);
      var comp := s[i];
      if comp.None? {
        i := i + 1;
        continue;
      }
      if !suspended {
        n := n + 1;
        if n % YieldEvery == 0 {
          suspended := true;
          frames := frames + 1;
          return;
        }
      }
      suspended := false;
      var request := Handle(comp.value, i);
      if request.Some? {
        made := made + [request.value];
      }
      i := i + 1;
    }
  }

  /** Any burst of refresh requests leaves exactly one run pending, due a
      debounce delay after the latest request, and touches no scan. */
  method RequestRefreshBurst(controller: AssetController, times: seq<int>)
    requires |times| > 0
    modifies controller
    ensures controller.pendingDue == Some(times[|times| - 1] + DebounceMillis)
    ensures controller.isRefreshing == old(controller.isRefreshing)
    ensures controller.snapshot == old(controller.snapshot) && controller.pos == old(controller.pos)
    ensures controller.count == old(controller.count) && controller.counted == old(controller.counted)
    ensures controller.requests == old(controller.requests) && controller.yieldCount == old(controller.yieldCount)
    ensures controller.scansStarted == old(controller.scansStarted)
  {
    for i := 0 to |times|
      invariant i > 0 ==> controller.pendingDue == Some(times[i - 1] + DebounceMillis)
      invariant controller.isRefreshing == old(controller.isRefreshing)
      invariant controller.snapshot == old(controller.snapshot) && controller.pos == old(controller.pos)
      invariant controller.count == old(controller.count) && controller.counted == old(controller.counted)
      invariant controller.requests == old(controller.requests) && controller.yieldCount == old(controller.yieldCount)
      invariant controller.scansStarted == old(controller.scansStarted)
    {
      controller.RequestRefresh(times[i]);
    }
  }

  /** The debounce: on an idle controller, a burst of requests followed by
      frames before the delay has passed, the frame at which it has passed
      and any later frames starts exactly one scan, on the components loaded
      when the delay has passed. */
  method DebouncedBurst(controller: AssetController, times: seq<int>, early: seq<int>, due: int,
                        later: seq<int>, populations: seq<seq<Option<Component>>>, population: seq<Option<Component>>)
    requires controller.Valid() && !controller.isRefreshing && |times| > 0
    requires due == times[|times| - 1] + DebounceMillis
    requires forall k :: 0 <= k < |early| ==> early[k] < due
    requires |populations| == |early| + |later|
    modifies controller
    ensures controller.Valid()
    ensures controller.scansStarted == old(controller.scansStarted) + 1
    ensures controller.pendingDue.None? && controller.snapshot == population
  {
    RequestRefreshBurst(controller, times);
    for k := 0 to |early|
      invariant controller.Valid() && !controller.isRefreshing
      invariant controller.pendingDue == Some(due)
      invariant controller.scansStarted == old(controller.scansStarted)
    {
      controller.Tick(early[k], populations[k]);
    }
    controller.Tick(due, population);
    for k := 0 to |later|
      invariant controller.Valid() && controller.pendingDue.None? && controller.snapshot == population
      invariant controller.scansStarted == old(controller.scansStarted) + 1
    {
      controller.Tick(later[k], populations[|early| + k]);
    }
  }

  /** Started on an idle controller and given frames until it ends, a scan
      makes exactly the requests of one pass over the population and yieldCount
      once per 500 non-null components. */
  method RefreshToCompletion(controller: AssetController, population: seq<Option<Component>>)
      returns (frames: nat)
    requires controller.Valid() && !controller.isRefreshing
    modifies controller
    ensures controller.Valid() && !controller.isRefreshing
    ensures controller.requests == RequestsOf(population)
    ensures controller.yieldCount == NonNullCount(population) / YieldEvery
  {
    controller.ExecuteRefreshInternal(population);
    frames := 0;
    while controller.isRefreshing
      invariant controller.Valid() && controller.snapshot == population
      invariant controller.isRefreshing ==> controller.counted
      invariant !controller.isRefreshing ==> controller.requests == RequestsOf(population) &&
                                             controller.yieldCount == NonNullCount(population) / YieldEvery
      decreases if controller.pos <= |controller.snapshot| then controller.Progress() else 0
    {
      controller.NextFrame();
      frames := frames + 1;
    }
  }

  // ---------------------------------------------------------------------
  // RefreshModules

  /** How `Instantiated` proceeds from position `j`: a module is taken, a
      non-module skipped, and an exception (or the end) ends the list. */
  lemma InstantiatedStep(source: Assembly, instances: seq<Instance>, j: nat)
    requires j <= |instances|
    ensures j == |instances| || instances[j].Throws? ==> Instantiated(source, instances[j..]) == []
    ensures j < |instances| && instances[j].NotAModule? ==>
              Instantiated(source, instances[j..]) == Instantiated(source, instances[j + 1..])
    ensures j < |instances| && instances[j].ModuleInstance? ==>
              Instantiated(source, instances[j..]) == [(instances[j].m, source)] + Instantiated(source, instances[j + 1..])
  {
    if j < |instances| {
      assert instances[j..][1..] == instances[j + 1..];
    }
  }

  /** One more registration extends the series by one step. */
  lemma SeriesStep(t: Tables, done: seq<(ResourceModule, Assembly)>, m: ResourceModule, source: Assembly, p: Platform)
    ensures TablesAfter(t, done + [(m, source)], p) == RegisterStep(TablesAfter(t, done, p), m, source, p)
    ensures RegisteredModules(done + [(m, source)], p) == RegisteredModules(done, p) + [Registered(m, source, p)]
  {
    assert (done + [(m, source)])[..|done|] == done;
  }

  /** The part of the registry and the managers that registration changes. */
  ghost function TablesOf(registry: ModuleRegistry, sprites: SpriteManager, textures: TextureManager,
                          texts: TextAssetManager): Tables
    reads registry, sprites, textures, texts
  {
    Tables(registry.processedAssemblies, sprites.pathMap, textures.pathMap, texts.processorMap)
  }

  /** `ModuleRegistry.RegisterModule` on one instantiated module, as the
      next step of a series of registrations that started from `t0`. */
  method RegisterInstance(m: ResourceModule, source: Assembly, p: Platform, registry: ModuleRegistry,
                          sprites: SpriteManager, textures: TextureManager, texts: TextAssetManager,
                          ghost t0: Tables, ghost modules0: seq<ResourceModule>,
                          ghost done: seq<(ResourceModule, Assembly)>)
      returns (ghost done': seq<(ResourceModule, Assembly)>)
    requires registry.Valid()
    requires TablesOf(registry, sprites, textures, texts) == TablesAfter(t0, done, p)
    requires multiset(registry.modules) == multiset(modules0) + multiset(RegisteredModules(done, p))
    modifies registry, sprites, textures, texts
    ensures done' == done + [(m, source)]
    ensures registry.Valid()
    ensures TablesOf(registry, sprites, textures, texts) == TablesAfter(t0, done', p)
    ensures multiset(registry.modules) == multiset(modules0) + multiset(RegisteredModules(done', p))
    ensures sprites.spriteCache == old(sprites.spriteCache) && textures.instanceCache == old(textures.instanceCache)
  {
    registry.RegisterModule(Some(m), source, p, sprites, textures, texts);
    SeriesStep(t0, done, m, source, p);
    done' := done + [(m, source)];
  }

  /** Registers the modules of one assembly, stopping at the first type
      whose instantiation throws. */
  method RegisterAssemblyModules(loaded: LoadedAssembly, p: Platform, registry: ModuleRegistry,
                                 sprites: SpriteManager, textures: TextureManager, texts: TextAssetManager)
      returns (ghost done: seq<(ResourceModule, Assembly)>)
    requires registry.Valid()
    modifies registry, sprites, textures, texts
    ensures registry.Valid()
    ensures done == Instantiated(loaded.assembly, loaded.instances)
    ensures multiset(registry.modules) == multiset(old(registry.modules)) + multiset(RegisteredModules(done, p))
    ensures TablesOf(registry, sprites, textures, texts)
            == TablesAfter(old(TablesOf(registry, sprites, textures, texts)), done, p)
    ensures sprites.spriteCache == old(sprites.spriteCache) && textures.instanceCache == old(textures.instanceCache)
  {
    var source := loaded.assembly;
    var instances := loaded.instances;
    ghost var t0 := TablesOf(registry, sprites, textures, texts);
    ghost var modules0 := registry.modules;
    done := [];
    var j := 0;
    // the `try` ends the loop at the first instantiation that throws
    while j < |instances| && !instances[j].Throws?
      invariant 0 <= j <= |instances| && registry.Valid()
      invariant Instantiated(source, instances) == done + Instantiated(source, instances[j..])
      invariant TablesOf(registry, sprites, textures, texts) == TablesAfter(t0, done, p)
      invariant multiset(registry.modules) == multiset(modules0) + multiset(RegisteredModules(done, p))
      invariant sprites.spriteCache == old(sprites.spriteCache) && textures.instanceCache == old(textures.instanceCache)
    {
      InstantiatedStep(source, instances, j);
      if instances[j].ModuleInstance? {
        done := RegisterInstance(instances[j].m, source, p, registry, sprites, textures, texts, t0, modules0, done);
      }
      j := j + 1;
    }
    InstantiatedStep(source, instances, j);
    assert done + [] == done;
  }

  /** `RefreshModules`: the registry and the validation cache are cleared
      (the managers' tables are not), then every assembly that is not a
      system assembly registers its modules, in load order. */
  method RefreshModules(assemblies: seq<LoadedAssembly>, p: Platform, registry: ModuleRegistry,
                        validator: VersionValidator, sprites: SpriteManager, textures: TextureManager,
                        texts: TextAssetManager)
    modifies registry, validator, sprites, textures, texts
    ensures registry.Valid() && validator.validationCache == map[]
    ensures multiset(registry.modules) == multiset(RegisteredModules(Registrations(assemblies), p))
    ensures TablesOf(registry, sprites, textures, texts)
            == TablesAfter(Tables({}, old(sprites.pathMap), old(textures.pathMap), old(texts.processorMap)),
                           Registrations(assemblies), p)
    ensures forall a :: registry.IsAssemblyProcessed(a) <==>
              a.fullName.Some? &&
              exists k :: 0 <= k < |Registrations(assemblies)| && Registrations(assemblies)[k].1.fullName == a.fullName
    ensures sprites.spriteCache == old(sprites.spriteCache) && textures.instanceCache == old(textures.instanceCache)
  {
    registry.Clear();
    validator.ClearCache();
    ghost var t0 := TablesOf(registry, sprites, textures, texts);
    ghost var done: seq<(ResourceModule, Assembly)> := [];
    for i := 0 to |assemblies|
      invariant registry.Valid() && validator.validationCache == map[]
      invariant done == Registrations(assemblies[..i])
      invariant TablesOf(registry, sprites, textures, texts) == TablesAfter(t0, done, p)
      invariant multiset(registry.modules) == multiset(RegisteredModules(done, p))
      invariant sprites.spriteCache == old(sprites.spriteCache) && textures.instanceCache == old(textures.instanceCache)
    {
      assert assemblies[..i + 1][..i] == assemblies[..i];
      if IsSystemAssembly(assemblies[i].assembly.fullName) {
        continue;
      }
      ghost var regs := RegisterAssemblyModules(assemblies[i], p, registry, sprites, textures, texts);
      TablesAfterCompose(t0, done, regs, p);
      RegisteredModulesCompose(done, regs, p);
      done := done + regs;
    }
    assert assemblies[..|assemblies|] == assemblies;
    forall a: Assembly | a.fullName.Some?
      ensures registry.IsAssemblyProcessed(a) <==>
                exists k :: 0 <= k < |done| && done[k].1.fullName == a.fullName
    {
      ProcessedExactly(t0, done, p, a.fullName.value);
    }
  }
}
