/** BaseResourceModule: the record a plugin supplies to declare its overrides. */
module Models {
  import opened Common

  /** A resource module. Each dictionary is an association list in its
      enumeration order, keys compared with the default (case-sensitive)
      comparer. `blueprints` and `blueprintSnapshots` are read by the
      registry but not declared by the base class; they are inputs here. */
  datatype ResourceModule = ResourceModule(
    moduleName: string,
    priority: int,
    sprites: seq<(string, string)>,
    textures: seq<(string, string)>,
    textAssetProcessors: seq<(string, Option<Processor>)>,
    blueprintFolders: seq<string>,
    loadedBlueprints: seq<(string, string)>,
    jsonFolderProcessors: seq<(string, string)>,
    description: string,
    isLocked: bool,
    blueprints: seq<(string, string)>,
    blueprintSnapshots: seq<(string, string)>)

  /** A module that overrides none of the base class's members, given the
      two dictionaries the base class does not declare. */
  function DefaultModule(blueprints: seq<(string, string)>,
                         blueprintSnapshots: seq<(string, string)>): (m: ResourceModule)
    ensures m.moduleName == "UnknownModule" && m.priority == 0
    ensures m.sprites == [] && m.textures == [] && m.textAssetProcessors == []
    ensures m.blueprintFolders == [] && m.jsonFolderProcessors == []
    ensures m.loadedBlueprints == []
    ensures m.description == "" && !m.isLocked
    ensures m.blueprints == blueprints && m.blueprintSnapshots == blueprintSnapshots
  {
    ResourceModule("UnknownModule", 0, [], [], [], [], [], [], "", false,
                   blueprints, blueprintSnapshots)
  }
}
