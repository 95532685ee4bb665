/** The name → absolute-path table shared in shape by SpriteManager and
    TextureManager: a `Dictionary<string, string>` built with
    `StringComparer.OrdinalIgnoreCase`, where registering a name overwrites
    its path. */
module PathMaps {
  import opened Common

  /** Keyed by the case fold of the name, so that names differing only in
      ASCII case share one entry. */
  type PathMap = map<string, string>

  function Key(name: string): string {
    Upper(name)
  }

  /** `PathMap.TryGetValue(name, out path)`. */
  function Lookup(pm: PathMap, name: string): Option<string> {
    if Key(name) in pm then Some(pm[Key(name)]) else None
  }

  /** One registration: an empty name or an empty path changes nothing;
      otherwise the name's entry is overwritten and no other entry changes. */
  function Register(pm: PathMap, name: string, path: string): (r: PathMap)
    ensures name == "" || path == "" ==> r == pm
    ensures name != "" && path != "" ==> Lookup(r, name) == Some(path)
    ensures forall k :: k != Key(name) ==> (k in r <==> k in pm)
    ensures forall k :: k != Key(name) && k in pm ==> r[k] == pm[k]
  {
    if name == "" || path == "" then pm else pm[Key(name) := path]
  }

  /** Registering each entry in turn, first to last. */
  function RegisterAll(pm: PathMap, entries: seq<(string, string)>): PathMap
    decreases |entries|
  {
    if entries == [] then pm
    else
      var last := entries[|entries| - 1];
      Register(RegisterAll(pm, entries[..|entries| - 1]), last.0, last.1)
  }

  /** Entry `i` is a registration that takes effect for `key`. */
  predicate Effective(entries: seq<(string, string)>, i: int, key: string)
    requires 0 <= i < |entries|
  {
    entries[i].0 != "" && entries[i].1 != "" && Key(entries[i].0) == key
  }

  /** The last effective registration for a key decides its path, whatever
      the table held before. */
  lemma {:induction false} RegisterAllLastWins(pm: PathMap, entries: seq<(string, string)>, i: int, key: string)
    requires 0 <= i < |entries| && Effective(entries, i, key)
    requires forall j :: i < j < |entries| ==> !Effective(entries, j, key)
    ensures key in RegisterAll(pm, entries) && RegisterAll(pm, entries)[key] == entries[i].1
  {
    var n := |entries|;
    var init := entries[..n - 1];
    if i < n - 1 {
      assert forall j :: i < j < |init| ==> Effective(init, j, key) == Effective(entries, j, key);
      RegisterAllLastWins(pm, init, i, key);
      assert !Effective(entries, n - 1, key);
    }
  }

  /** A key no entry registers keeps its entry, or its absence. */
  lemma {:induction false} RegisterAllUntouched(pm: PathMap, entries: seq<(string, string)>, key: string)
    requires forall j :: 0 <= j < |entries| ==> !Effective(entries, j, key)
    ensures key in RegisterAll(pm, entries) <==> key in pm
    ensures key in pm ==> RegisterAll(pm, entries)[key] == pm[key]
  {
    var n := |entries|;
    if n > 0 {
      var init := entries[..n - 1];
      assert forall j :: 0 <= j < |init| ==> Effective(init, j, key) == Effective(entries, j, key);
      RegisterAllUntouched(pm, init, key);
      assert !Effective(entries, n - 1, key);
    }
  }

  /** Registering a list of entries only adds keys that some entry names. */
  lemma {:induction false} RegisterAllKeys(pm: PathMap, entries: seq<(string, string)>)
    ensures pm.Keys <= RegisterAll(pm, entries).Keys
    ensures forall k :: k in RegisterAll(pm, entries) && k !in pm ==>
              exists j :: 0 <= j < |entries| && Effective(entries, j, k)
  {
    var n := |entries|;
    if n > 0 {
      var init := entries[..n - 1];
      RegisterAllKeys(pm, init);
      forall k | k in RegisterAll(pm, entries) && k !in pm
        ensures exists j :: 0 <= j < |entries| && Effective(entries, j, k)
      {
        if k in RegisterAll(pm, init) {
          var j :| 0 <= j < |init| && Effective(init, j, k);
          assert Effective(entries, j, k);
        } else {
          assert Effective(entries, n - 1, k);
        }
      }
    }
  }
}
