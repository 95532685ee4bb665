/** TextureManager: the same two-level cache as SpriteManager, for the
    textures of 3D materials, with an extra asynchronous lookup used by the
    bulk refresh. */
module Textures {
  import opened Common
  import opened PathMaps
  import opened Unity

  /** What `GetTextureAsync` does before returning: invoke the callback at
      once with a texture or null, or start a coroutine that loads `path`
      and later runs the completion (`CompleteTextureAsync`). */
  datatype AsyncStart = CallbackNow(texture: UnityObject?) | LoadStarted(path: string)

  class TextureManager {
    var pathMap: PathMap
    var instanceCache: map<string, UnityObject>
    /** The paths handed to the synchronous `TextureService.LoadTexture`,
        oldest first. */
    ghost var loadAttempts: seq<string>

    constructor ()
      ensures pathMap == map[] && instanceCache == map[] && loadAttempts == []
    {
      pathMap := map[];
      instanceCache := map[];
      loadAttempts := [];
    }

    /** The cached texture for `path`, if Unity does not report it as null. */
    predicate CachedAlive(path: string)
      reads this, instanceCache.Values
    {
      path in instanceCache && instanceCache[path].alive
    }

    method RegisterTexture(originalName: string, absolutePath: string)
      modifies this
      ensures pathMap == Register(old(pathMap), originalName, absolutePath)
      ensures instanceCache == old(instanceCache) && loadAttempts == old(loadAttempts)
    {
      if originalName == "" || absolutePath == "" {
        return;
      }
      pathMap := pathMap[Key(originalName) := absolutePath];
    }

    /** `decodes(path)` says whether the synchronous load of `path` yields a
        texture; a loaded texture is renamed after `originalName`. */
    method TryGetTexture(originalName: string, decodes: string -> bool) returns (found: bool, texture: UnityObject?)
      modifies this
      ensures pathMap == old(pathMap)
      ensures found <==> texture != null
      ensures Lookup(pathMap, originalName).None? ==>
                !found && instanceCache == old(instanceCache) && loadAttempts == old(loadAttempts)
      ensures Lookup(pathMap, originalName).Some? && old(CachedAlive(pathMap[Key(originalName)])) ==>
                found && texture == old(instanceCache)[pathMap[Key(originalName)]] &&
                instanceCache == old(instanceCache) && loadAttempts == old(loadAttempts)
      ensures Lookup(pathMap, originalName).Some? && !old(CachedAlive(pathMap[Key(originalName)])) ==>
                var path := pathMap[Key(originalName)];
                && loadAttempts == old(loadAttempts) + [path]
                && found == decodes(path)
                && (found ==> fresh(texture) && texture.alive && texture.name == originalName &&
                              instanceCache == old(instanceCache)[path := texture])
                && (!found ==> instanceCache == old(instanceCache))
    {
      if Key(originalName) !in pathMap {
        return false, null;
      }
      var fullPath := pathMap[Key(originalName)];
      if fullPath in instanceCache && instanceCache[fullPath].alive {
        return true, instanceCache[fullPath];
      }
      loadAttempts := loadAttempts + [fullPath];
      if decodes(fullPath) {
        texture := new UnityObject(originalName);
        instanceCache := instanceCache[fullPath := texture];
        return true, texture;
      }
      return false, null;
    }

    /** The synchronous lookup runs first, and it loads on a cache miss; the
        asynchronous load is started only when that synchronous load of the
        mapped path failed. An unmapped name gets the callback with null. */
    method GetTextureAsync(originalName: string, decodes: string -> bool) returns (start: AsyncStart)
      modifies this
      ensures pathMap == old(pathMap)
      ensures Lookup(pathMap, originalName).None? ==>
                start == CallbackNow(null) && instanceCache == old(instanceCache) &&
                loadAttempts == old(loadAttempts)
      ensures Lookup(pathMap, originalName).Some? && old(CachedAlive(pathMap[Key(originalName)])) ==>
                start == CallbackNow(old(instanceCache)[pathMap[Key(originalName)]]) &&
                instanceCache == old(instanceCache) && loadAttempts == old(loadAttempts)
      ensures Lookup(pathMap, originalName).Some? && !old(CachedAlive(pathMap[Key(originalName)])) ==>
                var path := pathMap[Key(originalName)];
                && loadAttempts == old(loadAttempts) + [path]
                && (decodes(path) ==> start.CallbackNow? && start.texture != null &&
                                      fresh(start.texture) && start.texture.name == originalName &&
                                      instanceCache == old(instanceCache)[path := start.texture])
                && (!decodes(path) ==> start == LoadStarted(path) && instanceCache == old(instanceCache))
    {
      var found, cached := TryGetTexture(originalName, decodes);
      if found && cached != null {
        return CallbackNow(cached);
      }
      if Key(originalName) !in pathMap {
        return CallbackNow(null);
      }
      return LoadStarted(pathMap[Key(originalName)]);
    }

    /** The completion of an asynchronous load of `path` requested for
        `originalName`: a texture is renamed, stored under the path
        (overwriting any entry) and passed on; null is passed on and nothing
        changes. Returns what the caller's callback receives. */
    method CompleteTextureAsync(originalName: string, path: string, loaded: UnityObject?)
        returns (delivered: UnityObject?)
      modifies this, loaded
      ensures delivered == loaded
      ensures pathMap == old(pathMap) && loadAttempts == old(loadAttempts)
      ensures loaded != null ==> loaded.name == originalName &&
                                 instanceCache == old(instanceCache)[path := loaded]
      ensures loaded == null ==> instanceCache == old(instanceCache)
    {
      if loaded != null {
        loaded.name := originalName;
        instanceCache := instanceCache[path := loaded];
        return loaded;
      }
      return null;
    }

    /** Empties both tables after destroying every cached texture that is
        not already destroyed. */
    method Clear()
      modifies this, instanceCache.Values
      ensures pathMap == map[] && instanceCache == map[]
      ensures forall t :: t in old(instanceCache.Values) ==> !t.alive
      ensures loadAttempts == old(loadAttempts)
    {
      pathMap := map[];
      var pending := instanceCache.Values;
      while pending != {}
        invariant pending <= old(instanceCache.Values)
        invariant instanceCache == old(instanceCache) && pathMap == map[]
        invariant loadAttempts == old(loadAttempts)
        invariant forall t :: t in old(instanceCache.Values) - pending ==> !t.alive
        decreases pending
      {
        var t :| t in pending;
        if t.alive {
          t.alive := false;
        }
        pending := pending - {t};
      }
      instanceCache := map[];
    }
  }
}
