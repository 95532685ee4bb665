/** VersionValidator: decides whether a third-party plugin assembly targets
    the running AssetRedux version, and remembers the answer per assembly
    name. Reflection enters as the facts it would report. */
module Validation {
  import opened Common

  /** What `configType.GetField("TargetVersion", ...)` and reading it give:
      no such field, a lookup or read (`GetValue`, `ToString`) that throws,
      or the field's value as a string, null when the value is null. */
  datatype FieldLookup = NoField | FieldThrows | Field(value: Option<string>)

  /** A type of the assembly: its simple name and its `TargetVersion` field. */
  datatype TypeInfo = TypeInfo(name: string, targetVersion: FieldLookup)

  /** What `assembly.GetTypes()` does: throw a `ReflectionTypeLoadException`,
      throw anything else, or return the types in order. */
  datatype TypeListing = TypeLoadFailure | OtherFailure | Types(types: seq<TypeInfo>)

  const ConfigTypeName := "AssetReduxConfig"

  /** The index of the first type called `name` (ordinal comparison), or
      `|types|` when there is none. */
  function FirstIndexNamed(types: seq<TypeInfo>, name: string): (i: nat)
    ensures i <= |types|
    ensures forall j :: 0 <= j < i ==> types[j].name != name
    ensures i < |types| ==> types[i].name == name
    decreases |types|
  {
    if types == [] || types[0].name == name then 0
    else 1 + FirstIndexNamed(types[1..], name)
  }

  /** `FirstOrDefault(t => t.Name == name)`. */
  function FirstNamed(types: seq<TypeInfo>, name: string): (r: Option<TypeInfo>)
    ensures r.None? <==> forall i :: 0 <= i < |types| ==> types[i].name != name
    ensures r.Some? ==> exists i :: 0 <= i < |types| && types[i] == r.value && r.value.name == name &&
                                   forall j :: 0 <= j < i ==> types[j].name != name
  {
    var i := FirstIndexNamed(types, name);
    if i < |types| then Some(types[i]) else None
  }

  /** The assembly is declared for another version: its first type named
      `AssetReduxConfig` has a readable `TargetVersion` whose value is not
      the current version, compared ignoring case (a null value never
      equals the current version). */
  predicate Mismatch(listing: TypeListing, currentVersion: string) {
    && listing.Types?
    && exists i :: 0 <= i < |listing.types| && listing.types[i].name == ConfigTypeName &&
                   (forall j :: 0 <= j < i ==> listing.types[j].name != ConfigTypeName) &&
                   listing.types[i].targetVersion.Field? &&
                   !NullableEqualsIgnoreCase(listing.types[i].targetVersion.value, Some(currentVersion))
  }

  /** The decision chain: a type-load failure, any other exception, no
      config type, no field: compatible. A field whose value differs,
      ignoring case, from the current version: incompatible. */
  function PerformValidation(listing: TypeListing, currentVersion: string): (compatible: bool)
    ensures !compatible <==> Mismatch(listing, currentVersion)
  {
    match listing
    case TypeLoadFailure => true
    case OtherFailure => true
    case Types(types) =>
      match FirstNamed(types, ConfigTypeName)
      case None => true
      case Some(configType) =>
        match configType.targetVersion
        case NoField => true
        case FieldThrows => true
        case Field(targetVersion) => NullableEqualsIgnoreCase(targetVersion, Some(currentVersion))
  }

  /** A config type that declares the current version in another case is
      compatible; one whose field holds null is not. */
  lemma DeclaredVersionDecides(types: seq<TypeInfo>, target: Option<string>, currentVersion: string)
    requires |types| > 0 && types[0].name == ConfigTypeName && types[0].targetVersion == Field(target)
    ensures target.None? ==> !PerformValidation(Types(types), currentVersion)
    ensures target.Some? && EqualsIgnoreCase(target.value, currentVersion) ==>
              PerformValidation(Types(types), currentVersion)
  {
  }

  /** Only the first config type counts: whatever follows it, including
      further types of the same name, does not change the decision. */
  lemma FirstConfigTypeDecides(config: TypeInfo, rest: seq<TypeInfo>, currentVersion: string)
    requires config.name == ConfigTypeName
    ensures PerformValidation(Types([config] + rest), currentVersion)
            == PerformValidation(Types([config]), currentVersion)
  {
    assert ([config] + rest)[0] == config;
  }

  /** Types before the first config type do not change the decision. */
  lemma OtherTypesIrrelevant(others: seq<TypeInfo>, rest: seq<TypeInfo>, currentVersion: string)
    requires forall i :: 0 <= i < |others| ==> others[i].name != ConfigTypeName
    ensures PerformValidation(Types(others + rest), currentVersion)
            == PerformValidation(Types(rest), currentVersion)
  {
    FirstIndexSkips(others, rest, ConfigTypeName);
  }

  lemma {:induction false} FirstIndexSkips(others: seq<TypeInfo>, rest: seq<TypeInfo>, name: string)
    requires forall i :: 0 <= i < |others| ==> others[i].name != name
    ensures FirstNamed(others + rest, name) == FirstNamed(rest, name)
    ensures FirstIndexNamed(others + rest, name) == |others| + FirstIndexNamed(rest, name)
    decreases |others|
  {
    if others != [] {
      assert (others + rest)[1..] == others[1..] + rest;
      FirstIndexSkips(others[1..], rest, name);
    } else {
      assert others + rest == rest;
    }
  }

  class VersionValidator {
    /** `ValidationCache`: assembly full name to the decision. */
    var validationCache: map<string, bool>
    /** The assemblies `PerformValidation` has run on, oldest first. */
    ghost var validated: seq<Assembly>

    constructor ()
      ensures validationCache == map[] && validated == []
    {
      validationCache := map[];
      validated := [];
    }

    /** Every cached answer is the decision for that name's facts. */
    ghost predicate Consistent(facts: string -> TypeListing, currentVersion: string)
      reads this
    {
      forall n :: n in validationCache ==> validationCache[n] == PerformValidation(facts(n), currentVersion)
    }

    /** `listing` is what reflection reports for `assembly`. A cached name
        returns the cached answer without validating; otherwise the
        decision is computed and, when the name is not null, cached. */
    method IsCompatible(assembly: Assembly, listing: TypeListing, currentVersion: string)
        returns (compatible: bool)
      modifies this
      ensures assembly.fullName.Some? && assembly.fullName.value in old(validationCache) ==>
                compatible == old(validationCache)[assembly.fullName.value] &&
                validationCache == old(validationCache) && validated == old(validated)
      ensures assembly.fullName.None? ==>
                compatible == PerformValidation(listing, currentVersion) &&
                validationCache == old(validationCache) && validated == old(validated) + [assembly]
      ensures assembly.fullName.Some? && assembly.fullName.value !in old(validationCache) ==>
                compatible == PerformValidation(listing, currentVersion) &&
                validationCache == old(validationCache)[assembly.fullName.value := compatible] &&
                validated == old(validated) + [assembly]
    {
      var asmName := assembly.fullName;
      if asmName.Some? && asmName.value in validationCache {
        return validationCache[asmName.value];
      }
      validated := validated + [assembly];
      compatible := PerformValidation(listing, currentVersion);
      if asmName.Some? {
        validationCache := validationCache[asmName.value := compatible];
      }
    }

    method ClearCache()
      modifies this
      ensures validationCache == map[] && validated == old(validated)
    {
      validationCache := map[];
    }
  }

  /** When reflection reports the same facts for a name every time, the
      cache is invisible: each answer, cached or not, is the decision on the
      assembly's facts, and the cache stays consistent with them. */
  method MemoisationTransparent(v: VersionValidator, assembly: Assembly, facts: string -> TypeListing,
                                currentVersion: string)
      returns (compatible: bool)
    requires assembly.fullName.Some? && v.Consistent(facts, currentVersion)
    modifies v
    ensures compatible == PerformValidation(facts(assembly.fullName.value), currentVersion)
    ensures v.Consistent(facts, currentVersion)
  {
    compatible := v.IsCompatible(assembly, facts(assembly.fullName.value), currentVersion);
  }
}
