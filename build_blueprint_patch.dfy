/** BuildBlueprintPatch: after the game builds its blueprint list, append
    the blueprints the registered modules loaded, skipping every guid the
    list already holds (compared ignoring case). */
module BlueprintPatch {
  import opened Common
  import opened Models

  /** A `BuildBlueprint`: its guid and the rest of the parsed record, which
      the patch does not look at. */
  datatype Blueprint = Blueprint(guid: string, fields: string)

  /** `JsonUtility.FromJson<BuildBlueprint>`: `None` when it returns null or
      throws. */
  type Parser = string -> Option<Blueprint>

  /** The folded guids of the non-null entries with a non-empty guid. */
  function ExistingGuids(list: seq<Option<Blueprint>>): (seen: set<string>)
    ensures forall g :: g in seen <==>
              exists i :: 0 <= i < |list| && list[i].Some? && list[i].value.guid != "" &&
                          Upper(list[i].value.guid) == g
    decreases |list|
  {
    if list == [] then {}
    else
      var last := list[|list| - 1];
      ExistingGuids(list[..|list| - 1]) +
        (if last.Some? && last.value.guid != "" then {Upper(last.value.guid)} else {})
  }

  /** The `LoadedBlueprints` entries of the modules, in the modules' order. */
  function LoadedEntries(modules: seq<ResourceModule>): seq<(string, string)>
    decreases |modules|
  {
    if modules == [] then [] else modules[0].loadedBlueprints + LoadedEntries(modules[1..])
  }

  /** What the patch appends: for each entry in order whose folded guid has
      not been seen, the parsed blueprint carrying the entry's key as guid;
      an entry that does not parse is skipped. */
  function Appended(seen: set<string>, entries: seq<(string, string)>, parse: Parser): seq<Blueprint>
    decreases |entries|
  {
    if entries == [] then []
    else
      var (guid, json) := entries[0];
      if Upper(guid) in seen then Appended(seen, entries[1..], parse)
      else match parse(json)
        case None => Appended(seen, entries[1..], parse)
        case Some(bp) => [bp.(guid := guid)] + Appended(seen + {Upper(guid)}, entries[1..], parse)
  }

  /** Appended guids are new: none matches, ignoring case, a guid already
      seen or a guid appended before it. */
  lemma {:induction false} AppendedGuidsFresh(seen: set<string>, entries: seq<(string, string)>, parse: Parser)
    ensures forall i :: 0 <= i < |Appended(seen, entries, parse)| ==>
              Upper(Appended(seen, entries, parse)[i].guid) !in seen
    ensures forall i, j :: 0 <= i < j < |Appended(seen, entries, parse)| ==>
              Upper(Appended(seen, entries, parse)[i].guid) != Upper(Appended(seen, entries, parse)[j].guid)
    decreases |entries|
  {
    if entries != [] {
      var (guid, json) := entries[0];
      AppendedGuidsFresh(seen, entries[1..], parse);
      AppendedGuidsFresh(seen + {Upper(guid)}, entries[1..], parse);
    }
  }

  /** Every appended blueprint is the parse of some entry, with that entry's
      key as its guid. */
  lemma {:induction false} AppendedComesFromEntry(seen: set<string>, entries: seq<(string, string)>, parse: Parser, i: int)
    requires 0 <= i < |Appended(seen, entries, parse)|
    ensures exists k :: 0 <= k < |entries| && parse(entries[k].1).Some? &&
              Appended(seen, entries, parse)[i] == parse(entries[k].1).value.(guid := entries[k].0)
    decreases |entries|
  {
    var (guid, json) := entries[0];
    var rest := entries[1..];
    if Upper(guid) in seen || parse(json).None? {
      AppendedComesFromEntry(seen, rest, parse, i);
      var k :| 0 <= k < |rest| && parse(rest[k].1).Some? &&
               Appended(seen, rest, parse)[i] == parse(rest[k].1).value.(guid := rest[k].0);
      assert entries[k + 1] == rest[k];
    } else if i == 0 {
      assert parse(entries[0].1).Some?;
    } else {
      AppendedComesFromEntry(seen + {Upper(guid)}, rest, parse, i - 1);
      var k :| 0 <= k < |rest| && parse(rest[k].1).Some? &&
               Appended(seen + {Upper(guid)}, rest, parse)[i - 1] == parse(rest[k].1).value.(guid := rest[k].0);
      assert entries[k + 1] == rest[k];
    }
  }

  /** The first entry for a new guid that parses is the one appended: an
      earlier entry that fails to parse does not stop it, and a later entry
      for the same guid (from the same or a later module) loses. */
  lemma {:induction false} FirstParsedEntryWins(seen: set<string>, entries: seq<(string, string)>, parse: Parser, k: int)
    requires 0 <= k < |entries| && Upper(entries[k].0) !in seen && parse(entries[k].1).Some?
    requires forall j :: 0 <= j < k && Upper(entries[j].0) == Upper(entries[k].0) ==> parse(entries[j].1).None?
    ensures parse(entries[k].1).value.(guid := entries[k].0) in Appended(seen, entries, parse)
    decreases |entries|
  {
    var (guid, json) := entries[0];
    var rest := entries[1..];
    if k > 0 {
      if Upper(guid) in seen || parse(json).None? {
        FirstParsedEntryWins(seen, rest, parse, k - 1);
      } else {
        assert Upper(guid) != Upper(entries[k].0);
        FirstParsedEntryWins(seen + {Upper(guid)}, rest, parse, k - 1);
      }
    }
  }

  /** The Harmony postfix. A null list becomes an empty one; the list is
      only appended to. */
  method Postfix(result: Option<seq<Option<Blueprint>>>, activeModules: seq<ResourceModule>, parse: Parser)
      returns (list: seq<Option<Blueprint>>)
    ensures list == (if result.Some? then result.value else []) +
                    Wrap(Appended(ExistingGuids(if result.Some? then result.value else []),
                                  LoadedEntries(activeModules), parse))
  {
    list := if result.Some? then result.value else [];
    var existingGuids := CollectExistingGuids(list);
    list := AppendModules(list, existingGuids, activeModules, parse);
  }

  /** The outer loop, over the active modules in priority order. */
  method AppendModules(list: seq<Option<Blueprint>>, existingGuids: set<string>,
                       activeModules: seq<ResourceModule>, parse: Parser)
      returns (list': seq<Option<Blueprint>>)
    ensures list' == list + Wrap(Appended(existingGuids, LoadedEntries(activeModules), parse))
  {
    list' := list;
    var guids := existingGuids;
    assert activeModules[0..] == activeModules;
    for mi := 0 to |activeModules|
      invariant list + Wrap(Appended(existingGuids, LoadedEntries(activeModules), parse))
                == list' + Wrap(Appended(guids, LoadedEntries(activeModules[mi..]), parse))
    {
      ghost var later := LoadedEntries(activeModules[mi + 1..]);
      LoadedEntriesFrom(activeModules, mi);
      ghost var added;
      list', guids, added :=
        AppendModuleBlueprints(list', guids, activeModules[mi].loadedBlueprints, later, parse);
      WrapAppend(added, Appended(guids, later, parse));
    }
    assert activeModules[|activeModules|..] == [];
    assert Wrap([]) == [];
  }

  /** The first loop of the postfix: the folded guids already in the list. */
  method CollectExistingGuids(list: seq<Option<Blueprint>>) returns (existingGuids: set<string>)
    ensures existingGuids == ExistingGuids(list)
  {
    existingGuids := {};
    for i := 0 to |list|
      invariant existingGuids == ExistingGuids(list[..i])
    {
      var bp := list[i];
      if bp.Some? && bp.value.guid != "" {
        existingGuids := existingGuids + {Upper(bp.value.guid)};
      }
      assert list[..i + 1][..i] == list[..i];
    }
    assert list[..|list|] == list;
  }

  /** The inner loop, over one module's `LoadedBlueprints`: appends what
      `Appended` takes from these entries and returns the grown guid set,
      with which the entries of the later modules are then considered. */
  method AppendModuleBlueprints(list: seq<Option<Blueprint>>, existingGuids: set<string>,
                                entries: seq<(string, string)>, ghost later: seq<(string, string)>, parse: Parser)
      returns (list': seq<Option<Blueprint>>, existingGuids': set<string>, ghost added: seq<Blueprint>)
    ensures list' == list + Wrap(added)
    ensures Appended(existingGuids, entries + later, parse) == added + Appended(existingGuids', later, parse)
  {
    list', existingGuids', added := list, existingGuids, [];
    for j := 0 to |entries|
      invariant list' == list + Wrap(added)
      invariant Appended(existingGuids, entries + later, parse)
                == added + Appended(existingGuids', entries[j..] + later, parse)
    {
      assert entries[j..] + later == [entries[j]] + (entries[j + 1..] + later);
      var guid := entries[j].0;
      if Upper(guid) !in existingGuids' {
        var parsed := parse(entries[j].1);
        if parsed.Some? {
          var blueprint := parsed.value.(guid := guid);
          existingGuids' := existingGuids' + {Upper(guid)};
          WrapAppend(added, [blueprint]);
          list' := list' + [Some(blueprint)];
          added := added + [blueprint];
        }
      }
    }
    assert entries[|entries|..] + later == later;
    assert entries + later == entries[0..] + later;
  }

  lemma LoadedEntriesFrom(modules: seq<ResourceModule>, i: nat)
    requires i < |modules|
    ensures LoadedEntries(modules[i..]) == modules[i].loadedBlueprints + LoadedEntries(modules[i + 1..])
  {
    assert modules[i..][1..] == modules[i + 1..];
  }

  /** The blueprints as the non-null list entries the patch adds. */
  function Wrap(bps: seq<Blueprint>): (r: seq<Option<Blueprint>>)
    ensures |r| == |bps| && forall i :: 0 <= i < |bps| ==> r[i] == Some(bps[i])
  {
    seq(|bps|, i requires 0 <= i < |bps| => Some(bps[i]))
  }

  lemma WrapAppend(a: seq<Blueprint>, b: seq<Blueprint>)
    ensures Wrap(a + b) == Wrap(a) + Wrap(b)
  {
  }
}
