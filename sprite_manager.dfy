/** SpriteManager: a two-level cache from a sprite's original name to the
    file that replaces it (case-insensitive), and from that file's path to
    the one sprite created from it. */
module Sprites {
  import opened Common
  import opened PathMaps
  import opened Unity

  class SpriteManager {
    var pathMap: PathMap
    var spriteCache: map<string, UnityObject>
    /** The paths handed to `TextureService.LoadTexture`, oldest first. */
    ghost var loadAttempts: seq<string>

    constructor ()
      ensures pathMap == map[] && spriteCache == map[] && loadAttempts == []
    {
      pathMap := map[];
      spriteCache := map[];
      loadAttempts := [];
    }

    /** The cached sprite for `path`, if there is one that Unity does not
        report as null. */
    predicate CachedAlive(path: string)
      reads this, spriteCache.Values
    {
      path in spriteCache && spriteCache[path].alive
    }

    method RegisterSprite(originalName: string, absolutePath: string)
      modifies this
      ensures pathMap == Register(old(pathMap), originalName, absolutePath)
      ensures spriteCache == old(spriteCache) && loadAttempts == old(loadAttempts)
    {
      if originalName == "" || absolutePath == "" {
        return;
      }
      pathMap := pathMap[Key(originalName) := absolutePath];
    }

    /** `decodes(path)` says whether the file at `path` loads and decodes;
        a successful load creates a new sprite named after `originalName`. */
    method TryGetSprite(originalName: string, decodes: string -> bool) returns (found: bool, sprite: UnityObject?)
      modifies this
      ensures pathMap == old(pathMap)
      ensures found <==> sprite != null
      // an unmapped name: nothing is loaded and nothing changes
      ensures Lookup(pathMap, originalName).None? ==>
                !found && spriteCache == old(spriteCache) && loadAttempts == old(loadAttempts)
      // a cache hit: the cached instance, no load
      ensures Lookup(pathMap, originalName).Some? && old(CachedAlive(pathMap[Key(originalName)])) ==>
                found && sprite == old(spriteCache)[pathMap[Key(originalName)]] &&
                spriteCache == old(spriteCache) && loadAttempts == old(loadAttempts)
      // a cache miss: one load of the mapped path
      ensures Lookup(pathMap, originalName).Some? && !old(CachedAlive(pathMap[Key(originalName)])) ==>
                var path := pathMap[Key(originalName)];
                && loadAttempts == old(loadAttempts) + [path]
                && found == decodes(path)
                && (found ==> fresh(sprite) && sprite.alive && sprite.name == originalName &&
                              spriteCache == old(spriteCache)[path := sprite])
                && (!found ==> spriteCache == old(spriteCache))
    {
      sprite := null;
      if Key(originalName) !in pathMap {
        return false, null;
      }
      var fullPath := pathMap[Key(originalName)];
      if fullPath in spriteCache && spriteCache[fullPath].alive {
        return true, spriteCache[fullPath];
      }
      loadAttempts := loadAttempts + [fullPath];
      if decodes(fullPath) {
        sprite := new UnityObject(originalName);
        spriteCache := spriteCache[fullPath := sprite];
        return true, sprite;
      }
      return false, null;
    }

    /** Empties both tables after destroying every cached sprite that is not
        already destroyed. */
    method Clear()
      modifies this, spriteCache.Values
      ensures pathMap == map[] && spriteCache == map[]
      ensures forall s :: s in old(spriteCache.Values) ==> !s.alive
      ensures loadAttempts == old(loadAttempts)
    {
      pathMap := map[];
      var pending := spriteCache.Values;
      while pending != {}
        invariant pending <= old(spriteCache.Values)
        invariant spriteCache == old(spriteCache) && pathMap == map[]
        invariant loadAttempts == old(loadAttempts)
        invariant forall s :: s in old(spriteCache.Values) - pending ==> !s.alive
        decreases pending
      {
        var s :| s in pending;
        if s.alive {
          s.alive := false;
        }
        pending := pending - {s};
      }
      spriteCache := map[];
    }
  }

  /** Two names mapped to one path resolve to the same sprite: the first
      lookup loads it, the second finds it in the cache. */
  method SharedPathSharesInstance(sm: SpriteManager, name1: string, name2: string, decodes: string -> bool)
      returns (sprite1: UnityObject?, sprite2: UnityObject?)
    requires Lookup(sm.pathMap, name1).Some? && Lookup(sm.pathMap, name1) == Lookup(sm.pathMap, name2)
    modifies sm
    ensures sprite1 != null ==> sprite1 == sprite2
  {
    var found1, found2;
    found1, sprite1 := sm.TryGetSprite(name1, decodes);
    found2, sprite2 := sm.TryGetSprite(name2, decodes);
  }
}
