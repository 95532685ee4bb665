# AssetRedux override-resolution core, in Dafny

AssetRedux lets plugins declare replacements for named game assets:
sprites, textures, text assets and build blueprints. This project models
the core that resolves those overrides:

- the module registry, which sorts modules by priority and pushes each
  module's declarations into the managers once, when the module registers;
- the two-level sprite and texture caches. The first level maps a name to
  a path, case-insensitively. The second maps a path to one loaded object;
- the text-processor pipelines;
- the blueprint merge patch;
- the path helpers;
- the version validator and its memoisation;
- the asset controller: the refresh debounce, the frame-sliced scan, the
  callback guard, the system-assembly test and module discovery.

Each source file has one Dafny module:

| Dafny module | file | source |
|---|---|---|
| `Common` | common.dfy | shared: `Option`, ASCII case mapping, string prefixes, `Assembly` |
| `CommonTool` | common_tool.dfy | AssetRedux/Tools/CommonTool.cs |
| `Unity` | unity.dfy | the Unity objects the caches hand out |
| `Models` | base_resource_module.dfy | AssetRedux/Models/BaseResourceModule.cs |
| `PathMaps` | path_map.dfy | the name → path table both managers use |
| `Sprites` | sprite_manager.dfy | AssetRedux/Tools/SpriteManager.cs |
| `Textures` | texture_manager.dfy | AssetRedux/Tools/TextureManager.cs |
| `TextAssets` | text_asset_manager.dfy | AssetRedux/Tools/TextAssetManager.cs |
| `Registry` | module_registry.dfy | AssetRedux/Models/ModuleRegistry.cs |
| `BlueprintPatch` | build_blueprint_patch.dfy | AssetRedux/Patches/BuildBlueprintPatch.cs |
| `Validation` | version_validator.dfy | AssetRedux/Services/VersionValidator.cs |
| `Controller` | asset_controller.dfy | AssetRedux/Components/AssetController.cs |

## How the model represents the source

- **Static classes become objects.** The source keeps each manager's
  dictionaries in static fields. Here each manager is a class whose methods
  update its fields (`pathMap`, `spriteCache`, `instanceCache`,
  `processorMap`, `modules`, `processedAssemblies`, `validationCache`).
  Callers pass the objects explicitly.
- **Case-insensitive dictionaries.** A dictionary built with
  `StringComparer.OrdinalIgnoreCase` is a `map` keyed by the ASCII
  upper-case fold of the name (`PathMaps.Key`).
- **Module dictionaries.** A module's dictionaries are association lists in
  enumeration order, because the order in which they are pushed decides
  which entry wins.
- **Unity objects.** A Unity object is a `UnityObject` with a `name` and an
  `alive` flag. `Object.Destroy` clears the flag. A cleared flag is what
  makes Unity's `== null` true for a live reference.
- **Loading.** `TextureService.LoadTexture` is the oracle
  `decodes: string -> bool`. A ghost `loadAttempts` log records every load,
  so the contracts can say when no load happens.
- **Exceptions.** The exceptions the source catches close to where they
  arise become an `Option`. `Processor` returns `None` where the delegate
  throws. `Parser` returns `None` where `JsonUtility.FromJson` returns null
  or throws. An exception inside `ModuleRegistry.RegisterModule` is not
  modelled (see "Left out").
- **Reflection.** Reflection results are inputs:
  - `TypeListing`, `TypeInfo` and `FieldLookup` stand for what `GetTypes`
    and the `TargetVersion` field report;
  - `LoadedAssembly` pairs an assembly with the outcome of instantiating
    each of its module types.
- **Time.** Time is an integer in milliseconds. The 0.5 s debounce is
  `DebounceMillis = 500`.
- **The scan coroutine.** The coroutine is the controller's state: the
  snapshot, the position, the count, whether it is suspended before
  handling a counted component, the requests made and the frames yielded.
  `NextFrame` resumes it.

Several places where the code and its documented design differ. The model
follows the code:

- `ModuleRegistry.Clear` empties only the module list and the assembly set.
  The managers' tables stay as they were
  (AssetRedux/Models/ModuleRegistry.cs:98-103).
- Each module's declarations are pushed into the managers once, at
  registration. So a contested name goes to the module registered last,
  whatever the priorities. `Registry.ContestedTextureGoesToLastRegistered`
  and `Registry.ContestedSpriteGoesToLastRegistered` state this.
- `TextureManager.GetTextureAsync` runs the synchronous lookup first, and
  that lookup loads on a cache miss. The asynchronous load starts only
  after the synchronous load of the mapped path has failed.
- `GetAbsolutePath` uses the main plugin's directory only when no assembly
  is given. A given assembly whose directory is null falls back to
  `AppContext.BaseDirectory`.
- A module's own sprite and texture paths are pushed into the managers as
  the module gives them; only blueprint paths and snapshot paths are made
  absolute (AssetRedux/Models/ModuleRegistry.cs:77-86).
- The replacement callbacks compare instance ids only. They do not check
  that the slot's asset name is unchanged.
- The text pipeline has no result cache. `TryGetModifiedContent` runs the
  processors on every call.
- `IsSystemAssembly` is a prefix test, so it also skips plugins whose names
  merely start with a system name, such as `SystemTweaks`
  (`Controller.SystemNameExtended`).

## Model

| member | source | states |
|---|---|---|
| Common.EqualsIgnoreCaseCharwise | AssetRedux/Tools/SpriteManager.cs:12 | ordinal case-insensitive equality holds exactly when the lengths match and the characters agree up to ASCII case |
| CommonTool.BaseDirectory | AssetRedux/Tools/CommonTool.cs:28-33 | the base directory is the given assembly's directory; with no assembly it is the main plugin's directory; when the chosen directory is null it is `AppContext.BaseDirectory` |
| CommonTool.GetAbsolutePath | AssetRedux/Tools/CommonTool.cs:23-34 | a rooted path comes back unchanged; any other path is combined with the base directory |
| CommonTool.GetAbsolutePathIdempotent | AssetRedux/Tools/CommonTool.cs:23-34 | on a platform where combining onto a rooted directory gives a rooted path, and whose base directory is rooted, the result is rooted and resolving it again changes nothing |
| CommonTool.IsSupportedImage | AssetRedux/Tools/CommonTool.cs:61-66 | false for an empty path; otherwise true exactly when the lower-cased extension is `.png`, `.jpg` or `.jpeg` |
| CommonTool.IsSupportedImageIgnoresCase | AssetRedux/Tools/CommonTool.cs:64-65 | two paths whose extensions differ only in case get the same answer |
| CommonTool.NormalizePath | AssetRedux/Tools/CommonTool.cs:71-75 | length is preserved; every `\` and `/` becomes the platform separator; every other character is kept |
| CommonTool.NormalizePathIdempotent | AssetRedux/Tools/CommonTool.cs:74 | normalising twice equals normalising once |
| CommonTool.NormalizePathSeparators | AssetRedux/Tools/CommonTool.cs:74 | after normalisation, the only separator character left is the platform's own |
| Models.DefaultModule | AssetRedux/Models/BaseResourceModule.cs:6-39 | the base-class defaults: name "UnknownModule", priority 0, empty tables, empty description, not locked |
| PathMaps.Register | AssetRedux/Tools/SpriteManager.cs:23-29 | an empty name or path changes nothing; otherwise the name (up to case) now maps to the path and no other entry changes |
| PathMaps.RegisterAllLastWins | AssetRedux/Models/ModuleRegistry.cs:77-80 | across a series of registrations, a key gets the path of its last effective registration |
| PathMaps.RegisterAllUntouched | AssetRedux/Tools/SpriteManager.cs:28 | a key that no registration names keeps its entry, or stays absent |
| PathMaps.RegisterAllKeys | AssetRedux/Tools/SpriteManager.cs:25-28 | registrations never remove a key, and every new key comes from an effective entry |
| Sprites.SpriteManager.RegisterSprite | AssetRedux/Tools/SpriteManager.cs:23-29 | the path table becomes `Register(old, name, path)`; the cache is unchanged and nothing is loaded |
| Sprites.SpriteManager.TryGetSprite | AssetRedux/Tools/SpriteManager.cs:37-75 | unmapped name: false, nothing loaded, nothing changed. Live cached object: that object, nothing loaded. Otherwise: exactly one load of the mapped path, and on success a fresh sprite named after the requested name is cached under the path; failure leaves the cache unchanged |
| Sprites.SpriteManager.Clear | AssetRedux/Tools/SpriteManager.cs:80-89 | both tables are empty and every previously cached sprite is destroyed |
| Sprites.SharedPathSharesInstance | AssetRedux/Tools/SpriteManager.cs:42-71 | two names mapped to one path get the same sprite instance |
| Textures.TextureManager.RegisterTexture | AssetRedux/Tools/TextureManager.cs:16-20 | the path table becomes `Register(old, name, path)`; the cache is unchanged |
| Textures.TextureManager.TryGetTexture | AssetRedux/Tools/TextureManager.cs:25-44 | the same three cases as for sprites: unmapped, live cache hit, one load that caches a fresh texture renamed after the request on success |
| Textures.TextureManager.GetTextureAsync | AssetRedux/Tools/TextureManager.cs:49-62 | unmapped name: callback now with null. Hit or successful synchronous load: callback now with that texture. Failed synchronous load: an asynchronous load of the mapped path starts |
| Textures.TextureManager.CompleteTextureAsync | AssetRedux/Tools/TextureManager.cs:63-75 | a loaded texture is renamed, stored under the path (overwriting) and passed on; null is passed on and the cache is unchanged |
| Textures.TextureManager.Clear | AssetRedux/Tools/TextureManager.cs:78-87 | both tables are empty and every previously cached texture is destroyed |
| TextAssets.AddProcessor | AssetRedux/Tools/TextAssetManager.cs:16-27 | an empty name or null processor changes nothing; otherwise the processor is appended to the name's list (created if absent) and no other list changes |
| TextAssets.RunPipelineAppend | AssetRedux/Tools/TextAssetManager.cs:47-58 | running two pipelines in turn equals running their concatenation |
| TextAssets.ThrowingStageSkipped | AssetRedux/Tools/TextAssetManager.cs:48-58 | a stage that throws is as if absent; the later stages run on the earlier stages' output |
| TextAssets.AddAllAppends | AssetRedux/Models/ModuleRegistry.cs:89-92 | after a batch of registrations, each name's pipeline is its old pipeline followed by its registered processors, in order |
| TextAssets.TextAssetManager.RegisterProcessor | AssetRedux/Tools/TextAssetManager.cs:16-27 | the table becomes `AddProcessor(old, name, processor)` |
| TextAssets.TextAssetManager.TryGetModifiedContent | AssetRedux/Tools/TextAssetManager.cs:36-62 | true exactly when the name has a non-empty pipeline; the output is the pipeline folded over the input in registration order |
| TextAssets.TextAssetManager.Clear | AssetRedux/Tools/TextAssetManager.cs:67-71 | no pipeline is left |
| BlueprintPatch.ExistingGuids | AssetRedux/Patches/BuildBlueprintPatch.cs:18-23 | a folded guid is in the set exactly when some non-null entry has a non-empty guid with that fold |
| BlueprintPatch.CollectExistingGuids | AssetRedux/Patches/BuildBlueprintPatch.cs:18-23 | the first loop computes `ExistingGuids` of the list |
| BlueprintPatch.Postfix | AssetRedux/Patches/BuildBlueprintPatch.cs:14-50 | a null list becomes empty; the result is the original list followed by the blueprints `Appended` takes from the active modules' entries, in order |
| BlueprintPatch.AppendModules | AssetRedux/Patches/BuildBlueprintPatch.cs:25-49 | the outer loop appends exactly what `Appended` takes from the modules' entries in `ActiveModules` order |
| BlueprintPatch.AppendModuleBlueprints | AssetRedux/Patches/BuildBlueprintPatch.cs:28-48 | one module's entries append a prefix of `Appended`; the rest is decided by the grown guid set |
| BlueprintPatch.AppendedGuidsFresh | AssetRedux/Patches/BuildBlueprintPatch.cs:33-41 | no appended guid matches, ignoring case, an existing guid or an earlier appended one |
| BlueprintPatch.AppendedComesFromEntry | AssetRedux/Patches/BuildBlueprintPatch.cs:30-41 | each appended blueprint is the parse of some entry, carrying that entry's key as its guid |
| BlueprintPatch.FirstParsedEntryWins | AssetRedux/Patches/BuildBlueprintPatch.cs:25-48 | for a new guid, the first entry that parses is appended: earlier entries that fail to parse do not block it, and later ones lose |
| Validation.FirstNamed | AssetRedux/Services/VersionValidator.cs:49 | `FirstOrDefault`: none exactly when no type has the name; otherwise the first type with it |
| Validation.PerformValidation | AssetRedux/Services/VersionValidator.cs:33-81 | incompatible exactly when the first `AssetReduxConfig` type has a readable `TargetVersion` that differs from the current version, ignoring case; every failure path gives compatible |
| Validation.DeclaredVersionDecides | AssetRedux/Services/VersionValidator.cs:63-72 | a null target version is a mismatch; a version differing only in case is compatible |
| Validation.FirstConfigTypeDecides | AssetRedux/Services/VersionValidator.cs:49-51 | only the first config type counts; what follows it does not change the decision |
| Validation.OtherTypesIrrelevant | AssetRedux/Services/VersionValidator.cs:49 | types with other names before the config type do not change the decision |
| Validation.VersionValidator.IsCompatible | AssetRedux/Services/VersionValidator.cs:18-31 | a cached name returns its cached answer without validating; otherwise it validates, and caches the answer when the name is not null |
| Validation.VersionValidator.ClearCache | AssetRedux/Services/VersionValidator.cs:86-89 | the cache is empty |
| Validation.MemoisationTransparent | AssetRedux/Services/VersionValidator.cs:18-31 | when reflection reports the same facts for a name each time, every answer, cached or not, is the decision on those facts, and the cache stays consistent |
| Registry.InsertByPriority | AssetRedux/Models/ModuleRegistry.cs:40 | inserting into a priority-ordered list keeps it ordered and adds exactly the module |
| Registry.SortByPriority | AssetRedux/Models/ModuleRegistry.cs:40 | the result is a permutation of the input, ordered by non-increasing priority |
| Registry.SnapshotKey | AssetRedux/Models/ModuleRegistry.cs:60 | the key starts with `Blueprint_`; a guid with the prefix is kept, and any other guid gets it prepended |
| Registry.SnapshotKeyIdempotent | AssetRedux/Models/ModuleRegistry.cs:60 | prefixing a key twice equals prefixing it once |
| Registry.SnapshotSprites | AssetRedux/Models/ModuleRegistry.cs:57-65 | one sprite registration per snapshot, in order: its snapshot key, with its path made absolute |
| Registry.AbsolutePaths | AssetRedux/Models/ModuleRegistry.cs:49-54 | same keys in the same order; each value is resolved against the source assembly |
| Registry.RewriteBlueprintPaths | AssetRedux/Models/ModuleRegistry.cs:49-54 | the loop over the key snapshot yields `AbsolutePaths` of the table |
| Registry.ContestedTextureGoesToLastRegistered | AssetRedux/Models/ModuleRegistry.cs:83-86 | a texture name declared by two modules resolves to the later-registered module's path, whatever the priorities |
| Registry.ContestedSpriteGoesToLastRegistered | AssetRedux/Models/ModuleRegistry.cs:77-80 | the same for sprite names that the later module's snapshots do not reuse |
| Registry.ModuleRegistry.ActiveModules | AssetRedux/Models/ModuleRegistry.cs:20 | the modules are listed highest priority first |
| Registry.ModuleRegistry.IsAssemblyProcessed | AssetRedux/Models/ModuleRegistry.cs:25-26 | an assembly with a null full name is never processed; a processed one has its name recorded |
| Registry.ModuleRegistry.RegisterModule | AssetRedux/Models/ModuleRegistry.cs:31-69 | a null module changes nothing. Otherwise: the list gains exactly the module (paths rewritten), which `ActiveModules` then holds, and stays priority-ordered; the assembly name is added, so the assembly is processed exactly when its name is not null, and no processed assembly stops being one; the managers' tables get the module's sprites then snapshots, its textures and its processors; the caches are untouched |
| Registry.ModuleRegistry.RegisterSnapshots | AssetRedux/Models/ModuleRegistry.cs:57-65 | the sprite table becomes the old table with `SnapshotSprites` registered in order |
| Registry.ModuleRegistry.SyncModuleToManagers | AssetRedux/Models/ModuleRegistry.cs:74-93 | each manager's table becomes the old table with the module's entries registered in enumeration order |
| Registry.ModuleRegistry.Clear | AssetRedux/Models/ModuleRegistry.cs:98-103 | the module list and the assembly set are empty: `ActiveModules` is empty and no assembly is processed |
| Controller.IsSystemAssembly | AssetRedux/Components/AssetController.cs:216-228 | true exactly when the name is not null and its lower-cased form starts with one of the nine prefixes |
| Controller.SystemNameExtended | AssetRedux/Components/AssetController.cs:218-227 | any name extending a system name is a system name too |
| Controller.InstantiatedStopsAtThrow | AssetRedux/Components/AssetController.cs:193-211 | an exception abandons the rest of its own assembly and keeps the modules before it |
| Controller.RegistrationsAppend | AssetRedux/Components/AssetController.cs:188-212 | each assembly contributes its own modules in load order, whatever the other assemblies do |
| Controller.RegistrationsSkipSystem | AssetRedux/Components/AssetController.cs:190 | no registered module comes from a system assembly |
| Controller.RegisteredModulesExact | AssetRedux/Components/AssetController.cs:198-204 | one stored module per registration, with its paths rewritten, and every named source assembly is recorded |
| Controller.ProcessedExactly | AssetRedux/Models/ModuleRegistry.cs:37 | after a series of registrations, a name is recorded exactly when it was recorded before or some registration came from an assembly of that name |
| Controller.RegisterAssemblyModules | AssetRedux/Components/AssetController.cs:193-211 | registers exactly `Instantiated` of the assembly; the registry and tables advance by that series; the caches are untouched |
| Controller.RefreshModules | AssetRedux/Components/AssetController.cs:180-213 | after clearing the registry and the validation cache, the registry holds exactly the modules of `Registrations(assemblies)`, an assembly is processed exactly when one of those registrations came from an assembly of its name, and the tables are the old manager tables advanced by that series |
| Controller.Handle | AssetRedux/Components/AssetController.cs:122-169 | a request, if any, is for the component's own index |
| Controller.BranchOrder | AssetRedux/Components/AssetController.cs:123-157 | an image, then a sprite renderer with a sprite, then a renderer's textured material: the first branch that applies is the only one taken |
| Controller.RequestsOfExact | AssetRedux/Components/AssetController.cs:114-170 | every request comes from the non-null component at its index; requests come in index order, at most one per component; every component with an applicable branch asks |
| Controller.Rebind | AssetRedux/Components/AssetController.cs:129-133 | the slot keeps its asset or takes the result; it changes exactly when the result is non-null, the target is alive, holds an asset, and the instance ids differ |
| Controller.RebindStable | AssetRedux/Components/AssetController.cs:144-148 | a callback never clears a slot, and delivering the same result twice changes nothing more |
| Controller.AssetSlot.OnLoaded | AssetRedux/Components/AssetController.cs:160-167 | the slot's asset becomes `Rebind` of its old state and the result |
| Controller.AssetController.RequestRefresh | AssetRedux/Components/AssetController.cs:83-89 | exactly one run is pending, due one debounce delay from now; the scan state is unchanged |
| Controller.AssetController.Tick | AssetRedux/Components/AssetController.cs:86-99 | a run not yet due changes nothing. A due run is no longer pending and does what `ExecuteRefreshInternal` does: a running scan is left alone; on an idle controller one scan of the population starts and either ends with its requests and yields or is suspended |
| Controller.AssetController.ExecuteRefreshInternal | AssetRedux/Components/AssetController.cs:95-99 | during a scan nothing changes; otherwise one more scan, of the population, starts and either ends with all its requests and yields or is suspended |
| Controller.AssetController.NextFrame | AssetRedux/Components/AssetController.cs:118-120 | a suspended scan resumes and strictly progresses, or ends with the requests and the yield count of one full pass |
| Controller.AssetController.RunScan | AssetRedux/Components/AssetController.cs:105-174 | the refreshing flag stays set while suspended and is cleared at the end, when the requests are `RequestsOf(snapshot)` and the yields number ⌊non-null/500⌋ |
| Controller.ScanFrame | AssetRedux/Components/AssetController.cs:114-170 | one frame keeps the scan invariant: the counted prefix, the requests made and one yield per 500 counted; it ends at the array's end or strictly advances to a suspension |
| Controller.RequestRefreshBurst | AssetRedux/Components/AssetController.cs:83-89 | any burst of requests leaves one run pending, due one debounce delay after the latest, and leaves the scan state as it was |
| Controller.DebouncedBurst | AssetRedux/Components/AssetController.cs:83-99 | on an idle controller, a burst of requests followed by frames before the delay has passed, the frame at which it has passed and any later frames starts exactly one scan, on the components loaded when the delay passed, and leaves nothing pending |
| Controller.RefreshToCompletion | AssetRedux/Components/AssetController.cs:105-174 | a scan started on an idle controller ends after finitely many frames, with the requests of one pass and ⌊non-null/500⌋ yields |

## Left out

- AssetRedux/Services/TextureService.cs: disk reads and image decoding are not modelled. A load is the oracle `decodes`; an asynchronous load is its completion value.
- Plugin bootstrap, Harmony patch registration and the interception patches (images, sprite renderers, materials, text assets) are not modelled. Their swap-if-different-instance decision is the controller's `Rebind`.
- Logging is not modelled: it has no observable effect on state.
- `CommonTool.ReadFileBytes` is file I/O and is not modelled.
- `Path.IsPathRooted`, `Path.Combine`, `Path.GetExtension`, the directory separator and the main plugin directory are parameters (`Platform`).
- `VersionValidator.CheckGameVersion`, `VersionValidator.ValidateModule`, `SpriteManager.GetSpriteAsync` and `TextAssetManager.TryGetCachedContent` are called by the source but defined in none of its files.
  - The refresh registers modules whatever `ValidateModule` would decide.
  - The scan records its requests instead of calling the managers.
- The module's `Blueprints` and `BlueprintSnapshots` tables are not declared by `BaseResourceModule`. They are inputs of the module record. How `LoadedBlueprints` gets filled is likewise not modelled.
- Registry.ModuleRegistry.RegisterModule: the source rewrites the module object's `Blueprints` in place, so every holder of that object sees the rewritten paths. The model stores the rewritten value in the list and does not model that aliasing.
- Registry.SortByPriority: `List.Sort` is unstable, and its exact order for equal priorities is not modelled. The contract states only order and permutation, and the model produces one admissible order.
- Case mapping covers ASCII letters only. `ToLower` is culture-sensitive and `StartsWith(string)` compares with the current culture; both are modelled as ordinal ASCII operations.
- Sprites.SpriteManager.Clear: destroying a sprite does not destroy the `Texture2D` it wraps, and the model has no separate texture object for it.
- Controller.ScanFrame: components destroyed while the scan is suspended are not modelled. The snapshot is fixed when the scan starts, and a `None` in it stands for a component that was null when visited.
- Controller.AssetController.RequestRefresh: the scene-loaded event and `Start` only call `RequestRefresh`. Time is a parameter in milliseconds, and the `Invoke` timer is the `pendingDue` field fired by `Tick`.
- Validation.PerformValidation: the mismatch branch calls `assembly.GetName()` to log, and the catch-all would turn an exception there into "compatible". The model treats that call as not throwing.
- Strings are never null in the model. A processor that returns null hands null to the next stage in the source; `Processor` cannot express a null result.
- Registry.ModuleRegistry.RegisterModule: an exception inside it is not modelled. In the source, a module getter that throws, or a null path in `Blueprints` or `BlueprintSnapshots` (which makes `Path.Combine` throw), leaves the module in the list, possibly half-pushed into the managers, and the catch in `RefreshModules` abandons the rest of that assembly. The model's registration always completes.
- Reflection (`GetAssemblies`, `GetTypes`, `Activator.CreateInstance`, field lookup) is not modelled. Its results are inputs: `LoadedAssembly` and `TypeListing`. A `GetTypes` failure is an assembly whose first instantiation throws.
- The controller's `Awake` and `OnDestroy` only sequence calls that are modelled separately: `RefreshModules`, `ModuleRegistry.Clear` and `VersionValidator.ClearCache`.
