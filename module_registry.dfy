/** ModuleRegistry: the list of registered modules, kept ordered by
    priority, the set of assemblies they came from, and the one-time push of
    each new module's declarations into the managers. */
module Registry {
  import opened Common
  import opened CommonTool
  import opened Models
  import opened PathMaps
  import opened Sprites
  import opened Textures
  import opened TextAssets

  /** Higher priority first. Equal priorities may come in any order. */
  ghost predicate SortedByPriority(s: seq<ResourceModule>) {
    forall i, j :: 0 <= i < j < |s| ==> s[i].priority >= s[j].priority
  }

  /** Inserts `m` into a list already ordered by priority, after every module
      of higher or equal priority. */
  method InsertByPriority(s: seq<ResourceModule>, m: ResourceModule) returns (r: seq<ResourceModule>)
    requires SortedByPriority(s)
    ensures SortedByPriority(r)
    ensures multiset(r) == multiset(s) + multiset{m}
  {
    var i := 0;
    while i < |s| && s[i].priority >= m.priority
      invariant 0 <= i <= |s|
      invariant forall j :: 0 <= j < i ==> s[j].priority >= m.priority
    {
      i := i + 1;
    }
    r := s[..i] + [m] + s[i..];
    assert s == s[..i] + s[i..];
  }

  /** `List.Sort` with the comparison `b.Priority.CompareTo(a.Priority)`:
      some ordering of the same modules, by non-increasing priority.
      `List.Sort` is not stable; this is one of the orders it may produce. */
  method SortByPriority(s: seq<ResourceModule>) returns (r: seq<ResourceModule>)
    ensures SortedByPriority(r)
    ensures multiset(r) == multiset(s)
  {
    r := [];
    for i := 0 to |s|
      invariant SortedByPriority(r)
      invariant multiset(r) == multiset(s[..i])
    {
      r := InsertByPriority(r, s[i]);
      assert s[..i + 1] == s[..i] + [s[i]];
    }
    assert s[..|s|] == s;
  }

  const BlueprintPrefix: string := "Blueprint_"

  /** The sprite key of a blueprint snapshot: the guid itself when it already
      starts with `Blueprint_`, the prefixed guid otherwise. */
  function SnapshotKey(guid: string): (key: string)
    ensures StartsWith(key, BlueprintPrefix)
    ensures StartsWith(guid, BlueprintPrefix) ==> key == guid
    ensures !StartsWith(guid, BlueprintPrefix) ==> key == BlueprintPrefix + guid
  {
    if StartsWith(guid, BlueprintPrefix) then guid else BlueprintPrefix + guid
  }

  /** Prefixing is idempotent: a snapshot key is its own key. */
  lemma SnapshotKeyIdempotent(guid: string)
    ensures SnapshotKey(SnapshotKey(guid)) == SnapshotKey(guid)
  {
  }

  /** The sprite registrations a module's blueprint snapshots make, in order. */
  function SnapshotSprites(snapshots: seq<(string, string)>, source: Assembly, p: Platform): (r: seq<(string, string)>)
    ensures |r| == |snapshots|
    ensures forall i :: 0 <= i < |r| ==>
              r[i] == (SnapshotKey(snapshots[i].0), GetAbsolutePath(snapshots[i].1, Some(source), p))
  {
    seq(|snapshots|, i requires 0 <= i < |snapshots| =>
      (SnapshotKey(snapshots[i].0), GetAbsolutePath(snapshots[i].1, Some(source), p)))
  }

  /** The blueprint table after its paths are made absolute: same keys in
      the same order, each value resolved against the source assembly. */
  function AbsolutePaths(entries: seq<(string, string)>, source: Assembly, p: Platform): (r: seq<(string, string)>)
    ensures |r| == |entries|
    ensures forall i :: 0 <= i < |r| ==>
              r[i] == (entries[i].0, GetAbsolutePath(entries[i].1, Some(source), p))
  {
    seq(|entries|, i requires 0 <= i < |entries| =>
      (entries[i].0, GetAbsolutePath(entries[i].1, Some(source), p)))
  }

  /** The loop over a snapshot of the blueprint keys that rewrites each
      value in place. */
  method RewriteBlueprintPaths(blueprints: seq<(string, string)>, source: Assembly, p: Platform)
      returns (r: seq<(string, string)>)
    ensures r == AbsolutePaths(blueprints, source, p)
  {
    r := blueprints;
    for i := 0 to |r|
      invariant |r| == |blueprints|
      invariant forall j :: 0 <= j < i ==>
                  r[j] == (blueprints[j].0, GetAbsolutePath(blueprints[j].1, Some(source), p))
      invariant forall j :: i <= j < |r| ==> r[j] == blueprints[j]
    {
      var guid := r[i].0;
      r := r[i := (guid, GetAbsolutePath(r[i].1, Some(source), p))];
    }
  }

  /** The module as the list holds it once registered: the registry rewrites
      its blueprint paths in place. */
  function Registered(m: ResourceModule, source: Assembly, p: Platform): ResourceModule {
    m.(blueprints := AbsolutePaths(m.blueprints, source, p))
  }

  /** The sprite table after a module's registration: its sprites, then its
      blueprint snapshots. */
  function SpritePathsAfter(pm: PathMap, m: ResourceModule, source: Assembly, p: Platform): PathMap {
    RegisterAll(RegisterAll(pm, m.sprites), SnapshotSprites(m.blueprintSnapshots, source, p))
  }

  /** The assembly names recorded for a registration. */
  function AssemblyNames(source: Assembly): set<string> {
    if source.fullName.Some? then {source.fullName.value} else {}
  }

  /** A contested texture name goes to the module registered last, whatever
      the two priorities are, because each module's entries are pushed once,
      when it registers. */
  lemma ContestedTextureGoesToLastRegistered(pm: PathMap, first: ResourceModule, last: ResourceModule, i: int)
    requires 0 <= i < |last.textures| && Effective(last.textures, i, Key(last.textures[i].0))
    requires forall j :: i < j < |last.textures| ==> !Effective(last.textures, j, Key(last.textures[i].0))
    ensures Lookup(RegisterAll(RegisterAll(pm, first.textures), last.textures), last.textures[i].0)
            == Some(last.textures[i].1)
  {
    RegisterAllLastWins(RegisterAll(pm, first.textures), last.textures, i, Key(last.textures[i].0));
  }

  /** The same for sprites, for a name none of the later module's snapshots
      registers. */
  lemma ContestedSpriteGoesToLastRegistered(pm: PathMap, first: ResourceModule, sourceFirst: Assembly,
                                            last: ResourceModule, sourceLast: Assembly, p: Platform, i: int)
    requires 0 <= i < |last.sprites| && Effective(last.sprites, i, Key(last.sprites[i].0))
    requires forall j :: i < j < |last.sprites| ==> !Effective(last.sprites, j, Key(last.sprites[i].0))
    requires forall j :: 0 <= j < |last.blueprintSnapshots| ==>
               Key(SnapshotKey(last.blueprintSnapshots[j].0)) != Key(last.sprites[i].0)
    ensures Lookup(SpritePathsAfter(SpritePathsAfter(pm, first, sourceFirst, p), last, sourceLast, p),
                   last.sprites[i].0)
            == Some(last.sprites[i].1)
  {
    var key := Key(last.sprites[i].0);
    var mid := RegisterAll(SpritePathsAfter(pm, first, sourceFirst, p), last.sprites);
    RegisterAllLastWins(SpritePathsAfter(pm, first, sourceFirst, p), last.sprites, i, key);
    var snaps := SnapshotSprites(last.blueprintSnapshots, sourceLast, p);
    assert forall j :: 0 <= j < |snaps| ==> !Effective(snaps, j, key);
    RegisterAllUntouched(mid, snaps, key);
  }

  class ModuleRegistry {
    var modules: seq<ResourceModule>
    var processedAssemblies: set<string>

    ghost predicate Valid()
      reads this
    {
      SortedByPriority(modules)
    }

    constructor ()
      ensures Valid() && modules == [] && processedAssemblies == {}
    {
      modules := [];
      processedAssemblies := {};
    }

    /** `ActiveModules`: the registered modules, highest priority first. */
    function ActiveModules(): (active: seq<ResourceModule>)
      reads this
      ensures Valid() ==> SortedByPriority(active)
    {
      modules
    }

    /** Whether an assembly has registered a module since the last `Clear`;
        an assembly whose full name is null never counts as processed. */
    predicate IsAssemblyProcessed(assembly: Assembly): (processed: bool)
      reads this
      ensures processed ==> assembly.fullName.Some? && assembly.fullName.value in processedAssemblies
    {
      assembly.fullName.Some? && assembly.fullName.value in processedAssemblies
    }

    /** A null module changes nothing. Otherwise the module joins the list,
        the list is re-sorted by priority, the assembly is recorded (an
        assembly seen before is not rejected), and the module's sprites,
        textures, text processors and blueprint snapshots are pushed into the
        managers, overwriting entries of the same name. */
    method RegisterModule(candidate: Option<ResourceModule>, sourceAssembly: Assembly, p: Platform,
                          sprites: SpriteManager, textures: TextureManager, texts: TextAssetManager)
      requires Valid()
      modifies this, sprites, textures, texts
      ensures Valid()
      ensures candidate.None? ==>
                && modules == old(modules) && processedAssemblies == old(processedAssemblies)
                && sprites.pathMap == old(sprites.pathMap) && textures.pathMap == old(textures.pathMap)
                && texts.processorMap == old(texts.processorMap)
      ensures candidate.Some? ==>
                && |modules| == |old(modules)| + 1
                && multiset(modules) == multiset(old(modules)) + multiset{Registered(candidate.value, sourceAssembly, p)}
                && processedAssemblies == old(processedAssemblies) + AssemblyNames(sourceAssembly)
                && sprites.pathMap == SpritePathsAfter(old(sprites.pathMap), candidate.value, sourceAssembly, p)
                && textures.pathMap == RegisterAll(old(textures.pathMap), candidate.value.textures)
                && texts.processorMap == AddAll(old(texts.processorMap), candidate.value.textAssetProcessors)
      ensures candidate.Some? ==> Registered(candidate.value, sourceAssembly, p) in ActiveModules()
      ensures candidate.Some? ==> (IsAssemblyProcessed(sourceAssembly) <==> sourceAssembly.fullName.Some?)
      ensures forall a :: old(IsAssemblyProcessed(a)) ==> IsAssemblyProcessed(a)
      ensures sprites.spriteCache == old(sprites.spriteCache) && sprites.loadAttempts == old(sprites.loadAttempts)
      ensures textures.instanceCache == old(textures.instanceCache)
      ensures textures.loadAttempts == old(textures.loadAttempts)
    {
      if candidate.None? {
        return;
      }
      var m := candidate.value;
      // The list holds the module object whose blueprint paths are rewritten
      // below; the value inserted here is that object after the rewrite.
      var rewritten := RewriteBlueprintPaths(m.blueprints, sourceAssembly, p);
      var registered := m.(blueprints := rewritten);
      modules := SortByPriority(modules + [registered]);
      assert registered in multiset(modules);
      if sourceAssembly.fullName.Some? {
        processedAssemblies := processedAssemblies + {sourceAssembly.fullName.value};
      }
      assert processedAssemblies == old(processedAssemblies) + AssemblyNames(sourceAssembly);
      SyncModuleToManagers(m, sprites, textures, texts);
      RegisterSnapshots(m.blueprintSnapshots, sourceAssembly, p, sprites);
    }

    /** Registers each blueprint snapshot as a sprite under its snapshot key,
        with its path made absolute. */
    method RegisterSnapshots(snapshots: seq<(string, string)>, sourceAssembly: Assembly, p: Platform,
                             sprites: SpriteManager)
      modifies sprites
      ensures sprites.pathMap == RegisterAll(old(sprites.pathMap), SnapshotSprites(snapshots, sourceAssembly, p))
      ensures sprites.spriteCache == old(sprites.spriteCache) && sprites.loadAttempts == old(sprites.loadAttempts)
    {
      ghost var entries := SnapshotSprites(snapshots, sourceAssembly, p);
      for i := 0 to |snapshots|
        invariant sprites.pathMap == RegisterAll(old(sprites.pathMap), entries[..i])
        invariant sprites.spriteCache == old(sprites.spriteCache) && sprites.loadAttempts == old(sprites.loadAttempts)
      {
        var spriteKey := SnapshotKey(snapshots[i].0);
        var absPath := GetAbsolutePath(snapshots[i].1, Some(sourceAssembly), p);
        sprites.RegisterSprite(spriteKey, absPath);
        assert entries[..i + 1][..i] == entries[..i];
      }
      assert entries[..|snapshots|] == entries;
    }

    /** Pushes one module's sprites, textures and text processors into the
        managers, in each table's enumeration order. */
    method SyncModuleToManagers(m: ResourceModule, sprites: SpriteManager, textures: TextureManager,
                                texts: TextAssetManager)
      modifies sprites, textures, texts
      ensures sprites.pathMap == RegisterAll(old(sprites.pathMap), m.sprites)
      ensures textures.pathMap == RegisterAll(old(textures.pathMap), m.textures)
      ensures texts.processorMap == AddAll(old(texts.processorMap), m.textAssetProcessors)
      ensures sprites.spriteCache == old(sprites.spriteCache) && sprites.loadAttempts == old(sprites.loadAttempts)
      ensures textures.instanceCache == old(textures.instanceCache)
      ensures textures.loadAttempts == old(textures.loadAttempts)
    {
      for i := 0 to |m.sprites|
        invariant sprites.pathMap == RegisterAll(old(sprites.pathMap), m.sprites[..i])
        invariant sprites.spriteCache == old(sprites.spriteCache) && sprites.loadAttempts == old(sprites.loadAttempts)
        invariant unchanged(textures, texts)
      {
        sprites.RegisterSprite(m.sprites[i].0, m.sprites[i].1);
        assert m.sprites[..i + 1][..i] == m.sprites[..i];
      }
      assert m.sprites[..|m.sprites|] == m.sprites;
      for i := 0 to |m.textures|
        invariant textures.pathMap == RegisterAll(old(textures.pathMap), m.textures[..i])
        invariant textures.instanceCache == old(textures.instanceCache)
        invariant textures.loadAttempts == old(textures.loadAttempts)
        invariant unchanged(texts)
        invariant sprites.pathMap == RegisterAll(old(sprites.pathMap), m.sprites)
        invariant sprites.spriteCache == old(sprites.spriteCache) && sprites.loadAttempts == old(sprites.loadAttempts)
      {
        textures.RegisterTexture(m.textures[i].0, m.textures[i].1);
        assert m.textures[..i + 1][..i] == m.textures[..i];
      }
      assert m.textures[..|m.textures|] == m.textures;
      for i := 0 to |m.textAssetProcessors|
        invariant texts.processorMap == AddAll(old(texts.processorMap), m.textAssetProcessors[..i])
        invariant sprites.pathMap == RegisterAll(old(sprites.pathMap), m.sprites)
        invariant sprites.spriteCache == old(sprites.spriteCache) && sprites.loadAttempts == old(sprites.loadAttempts)
        invariant textures.pathMap == RegisterAll(old(textures.pathMap), m.textures)
        invariant textures.instanceCache == old(textures.instanceCache)
        invariant textures.loadAttempts == old(textures.loadAttempts)
      {
        texts.RegisterProcessor(m.textAssetProcessors[i].0, m.textAssetProcessors[i].1);
        assert m.textAssetProcessors[..i + 1][..i] == m.textAssetProcessors[..i];
      }
      assert m.textAssetProcessors[..|m.textAssetProcessors|] == m.textAssetProcessors;
    }

    /** Empties the module list and the assembly set. The managers' tables
        are left as they are. */
    method Clear()
      modifies this
      ensures Valid() && modules == [] && processedAssemblies == {}
      ensures ActiveModules() == [] && forall a :: !IsAssemblyProcessed(a)
    {
      modules := [];
      processedAssemblies := {};
    }
  }
}
