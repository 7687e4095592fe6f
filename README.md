# Velocity Tools configuration model in Dafny

This project models the configuration-merge core of Velocity Tools
(`org.apache.velocity.tools.config`) and proves properties about it.

- **`Configuration`** is a set of named properties kept in a `TreeSet`, ordered and
  deduplicated by name. Adding a property whose name is already present
  replaces the old one: `TreeSet.remove`, then `TreeSet.add`. `setProperties` and
  `addConfiguration` are built from that step, so they merge by replacement and
  the incoming property wins on a name clash. The class also offers lookup by
  name, a `validate` pass over every property, and `equals`/`hashCode`. Its
  `compareTo` always throws.
- **`ToolboxConfiguration`** is a compound configuration whose children are
  tools. It keeps a `scope` field and mirrors it as the property `"scope"`. It looks
  tools up by key. Its `validate` checks that the scope is recognised and that
  every tool allows it. Its order, equality and hash depend on `scope` alone.

The project has four files:

- `JavaLang.dfy` holds Java `null` as `Option`, a thrown exception as a
  `Result`/`Outcome` value, and `String.compareTo` as `Compare`, with proofs that it
  is antisymmetric, zero only for equal strings, and transitive.
- `SortedSets.dfy` holds the `TreeSet` used by both classes: a sequence kept in
  strictly ascending key order. `Remove`, `Insert` and `Put` (remove-then-add) act
  on it, and the map view `ByKey` sends each key to its element.
- `Configuration.dfy` (module `Config`) holds the class `Configuration`. Its field
  `properties` is the sorted sequence, and its abstract state `Contents()` maps
  each name to its property. Every mutating method states the new `Contents()` in
  terms of the old one.
- `ToolboxConfiguration.dfy` (module `Toolbox`) holds the class
  `ToolboxConfiguration`. Inheritance is modelled by composition:
  - the inherited property set is the constant field `base: Configuration`;
  - the inherited children are the field `tools`, sorted by key;
  - the scope check of `validate` is the function `ScopeCheck`, and the method
    `Validate` proves its nested loops compute it.

A few facts about the code that are easy to get wrong:

- `Configuration.equals` delegates to `TreeSet.equals`. That is a size check plus
  `containsAll`, and `containsAll` looks elements up through the name order. So two
  configurations are equal when they hold the same property *names*, whatever
  their values. `Config.Configuration.Equals` states this.
- The field/property mirror of `scope` holds after the constructor and after every
  `setScope`. Tool operations keep it. A direct `setProperty("scope", …)` or
  `removeProperty("scope")` on a toolbox can break it, because the toolbox does not
  override those methods. So `ScopeMirrored()` is a separate predicate, not part of
  `Valid()`.
- `removeProperty(String)` throws a `NullPointerException` for an absent name. It
  does not return `false`; see Findings.

## Model

| member | source | states |
|---|---|---|
| `JavaLang.CompareZero` | src/main/java/org/apache/velocity/tools/config/ToolboxConfiguration.java:150 | the string comparison used for scopes (and for property names) is zero exactly when the two strings are equal |
| `JavaLang.CompareAntisymmetric` | src/main/java/org/apache/velocity/tools/config/ToolboxConfiguration.java:150 | swapping the two strings negates the comparison |
| `JavaLang.LessTransitive` | src/main/java/org/apache/velocity/tools/config/Configuration.java:46-49 | the name order the property set is kept in is transitive |
| `SortedSets.RemoveSpec` | src/main/java/org/apache/velocity/tools/config/Configuration.java:52-55 | removing by key keeps the set in ascending order and takes out exactly that key, leaving every other entry as it was |
| `SortedSets.InsertSpec` | src/main/java/org/apache/velocity/tools/config/Configuration.java:49 | adding an element with a new key keeps ascending order and adds exactly that key, bound to the element |
| `SortedSets.PutSpec` | src/main/java/org/apache/velocity/tools/config/Configuration.java:46-49 | remove-then-add keeps ascending order; afterwards the key holds the new element, and every other key keeps its old one |
| `SortedSets.ByKeyAt` | src/main/java/org/apache/velocity/tools/config/Configuration.java:46 | in the ordered set, each name is held by exactly one element, the one at its index |
| `SortedSets.ByKeyConcat` | src/main/java/org/apache/velocity/tools/config/Configuration.java:108-114 | the name map of a run of additions is the earlier map overridden by the later one |
| `SortedSets.SizeAndContainsAll` | src/main/java/org/apache/velocity/tools/config/Configuration.java:156 | for two ordered sets, equal size plus containment of every element by name holds exactly when their name sets are equal |
| `SortedSets.SameKeysSameOrder` | src/main/java/org/apache/velocity/tools/config/Configuration.java:134-138 | two ordered sets with the same names list them in the same order, so they iterate alike |
| `Config.NamedPrefix` | src/main/java/org/apache/velocity/tools/config/Configuration.java:108-114 | the index of the first unnamed property of a collection (where setProperties throws), every earlier one being named |
| `Config.HashSumByNames` | src/main/java/org/apache/velocity/tools/config/Configuration.java:134-138 | with a property hash that looks only at names, two runs with the same names hash to the same sum |
| `Config.Configuration.constructor` | src/main/java/org/apache/velocity/tools/config/Configuration.java:37 | a new configuration holds no properties |
| `Config.Configuration.AddProperty` | src/main/java/org/apache/velocity/tools/config/Configuration.java:39-50 | an unnamed property throws an illegal-argument error and changes nothing; otherwise the name now maps to `p` and every other name keeps its property |
| `Config.Configuration.RemoveProperty` | src/main/java/org/apache/velocity/tools/config/Configuration.java:52-55 | returns true exactly when a property of that name was present; that name, and only it, is gone afterwards |
| `Config.Configuration.SetProperty` | src/main/java/org/apache/velocity/tools/config/Configuration.java:57-68 | a null name throws a null-pointer error with no change; otherwise it is addProperty of a new untyped property with that name and value |
| `Config.Configuration.RemovePropertyNamed` | src/main/java/org/apache/velocity/tools/config/Configuration.java:70-74 | a present name is removed and true returned; an absent or null name throws a null-pointer error and changes nothing |
| `Config.Configuration.RemovePropertyNamedIntended` | src/main/java/org/apache/velocity/tools/config/Configuration.java:70-74 | corrected: an absent name returns false and changes nothing; a present one is removed and true returned |
| `Config.RemoveMissingAsWritten` | src/main/java/org/apache/velocity/tools/config/Configuration.java:70-74 | removing a missing name from a configuration holding only property "a" throws a null-pointer error |
| `Config.RemoveMissingIntended` | src/main/java/org/apache/velocity/tools/config/Configuration.java:70-74 | the corrected removal of a missing name returns false and leaves property "a" in place |
| `Config.Configuration.HasProperties` | src/main/java/org/apache/velocity/tools/config/Configuration.java:76-79 | true exactly when some property is present |
| `Config.Configuration.GetProperty` | src/main/java/org/apache/velocity/tools/config/Configuration.java:81-91 | returns the property holding the name, or null exactly when no property holds it; a null name throws unless the set is empty |
| `Config.Configuration.GetProperties` | src/main/java/org/apache/velocity/tools/config/Configuration.java:93-96 | a new sequence in ascending name order, one named property per name, holding exactly the configuration's properties |
| `Config.Configuration.GetPropertyMap` | src/main/java/org/apache/velocity/tools/config/Configuration.java:98-106 | the map's keys are exactly the property names and each maps to its property's converted value |
| `Config.Configuration.SetProperties` | src/main/java/org/apache/velocity/tools/config/Configuration.java:108-114 | replace-merge in input order, with later entries winning; at the first unnamed property it throws, keeping the additions made before it |
| `Config.Configuration.AddConfiguration` | src/main/java/org/apache/velocity/tools/config/Configuration.java:116-119 | the result is the old name map overridden by the other's: names are the union, the incoming property wins a clash, the receiver-only names keep their property |
| `Config.Configuration.Validate` | src/main/java/org/apache/velocity/tools/config/Configuration.java:121-127 | passes exactly when every property validates; otherwise fails naming the first invalid property in name order |
| `Config.Configuration.CompareTo` | src/main/java/org/apache/velocity/tools/config/Configuration.java:129-132 | the base type always throws an unsupported-operation error |
| `Config.Configuration.Equals` | src/main/java/org/apache/velocity/tools/config/Configuration.java:140-158 | false for null or a non-Configuration; otherwise true exactly when both hold the same property names (the same object trivially does) |
| `Config.Configuration.HashCode` | src/main/java/org/apache/velocity/tools/config/Configuration.java:134-138 | the hash is a Java int: the sum of the property hashes wraps around to 32 bits |
| `Config.EqualsHashCode` | src/main/java/org/apache/velocity/tools/config/Configuration.java:134-138 | equal configurations have equal hash codes, given a property hash that depends on the name alone |
| `Toolbox.FirstDisallowed` | src/main/java/org/apache/velocity/tools/config/ToolboxConfiguration.java:108-137 | none exactly when every tool allows the scope; otherwise the first tool in order that does not |
| `Toolbox.FirstDisallowedAt` | src/main/java/org/apache/velocity/tools/config/ToolboxConfiguration.java:108-137 | a disallowed tool preceded only by allowed ones is the one reported |
| `Toolbox.ScopeCheckMeaning` | src/main/java/org/apache/velocity/tools/config/ToolboxConfiguration.java:98-137 | the scope check passes exactly when the scope is recognised and every tool allows it; an unknown scope fails as such; otherwise the first disallowed tool is named |
| `Toolbox.ToolboxConfiguration.constructor` | src/main/java/org/apache/velocity/tools/config/ToolboxConfiguration.java:36-42 | the scope is the default scope, the property "scope" holds it too, and there are no tools |
| `Toolbox.ToolboxConfiguration.SetScope` | src/main/java/org/apache/velocity/tools/config/ToolboxConfiguration.java:44-54 | a null scope throws with field and properties unchanged; otherwise field and property "scope" both become the new scope, tools untouched |
| `Toolbox.ToolboxConfiguration.GetScope` | src/main/java/org/apache/velocity/tools/config/ToolboxConfiguration.java:56-59 | while mirrored, the returned scope is the value of the property "scope" |
| `Toolbox.ToolboxConfiguration.AddTool` | src/main/java/org/apache/velocity/tools/config/ToolboxConfiguration.java:61-64 | the tool's key now maps to it, replacing any tool with that key; other tools and the scope are unchanged |
| `Toolbox.ToolboxConfiguration.RemoveTool` | src/main/java/org/apache/velocity/tools/config/ToolboxConfiguration.java:66-69 | exactly the tool with that key is gone |
| `Toolbox.ToolboxConfiguration.GetTool` | src/main/java/org/apache/velocity/tools/config/ToolboxConfiguration.java:71-81 | returns a held tool whose key equals the argument, or null exactly when none has it; a null key throws unless there are no tools |
| `Toolbox.ToolboxConfiguration.GetTools` | src/main/java/org/apache/velocity/tools/config/ToolboxConfiguration.java:83-86 | the tools in ascending key order, one per key |
| `Toolbox.ToolboxConfiguration.SetTools` | src/main/java/org/apache/velocity/tools/config/ToolboxConfiguration.java:88-91 | replace-merge of the given tools by key, later ones winning |
| `Toolbox.ToolboxConfiguration.Validate` | src/main/java/org/apache/velocity/tools/config/ToolboxConfiguration.java:93-139 | an inherited failure propagates; otherwise the verdict is the scope check over (scope, recognised scopes, tools) |
| `Toolbox.ToolboxConfiguration.CompareTo` | src/main/java/org/apache/velocity/tools/config/ToolboxConfiguration.java:141-151 | a non-toolbox throws; between toolboxes it is zero exactly for equal scopes and negative exactly when the scope sorts first |
| `Toolbox.CompareToAntisymmetric` | src/main/java/org/apache/velocity/tools/config/ToolboxConfiguration.java:141-151 | swapping two toolboxes negates their comparison |
| `Toolbox.CompareToTransitive` | src/main/java/org/apache/velocity/tools/config/ToolboxConfiguration.java:141-151 | the toolbox order is transitive |
| `Toolbox.ToolboxConfiguration.Equals` | src/main/java/org/apache/velocity/tools/config/ToolboxConfiguration.java:159-167 | equals holds exactly when compareTo returns 0, that is, for another toolbox with the same scope; false for null or a non-toolbox |
| `Toolbox.ToolboxConfiguration.HashCode` | src/main/java/org/apache/velocity/tools/config/ToolboxConfiguration.java:153-157 | the hash is the scope string's hash, the scope being what getScope returns |
| `Toolbox.EqualsConsistent` | src/main/java/org/apache/velocity/tools/config/ToolboxConfiguration.java:153-167 | equal toolboxes hash alike, whatever their tools and properties |
| `Toolbox.InvalidScopeExample` | src/main/java/org/apache/velocity/tools/config/ToolboxConfiguration.java:108-117 | a tool declared invalid in "session" fails a session toolbox and passes a request toolbox |
| `Toolbox.ValidScopesExample` | src/main/java/org/apache/velocity/tools/config/ToolboxConfiguration.java:121-137 | a tool limited to "application" fails a page toolbox and passes an application toolbox |

## Left out

- `Config.Configuration.RemoveProperty` requires a named property. With an unnamed one, `TreeSet.remove` calls `Property.compareTo`, and `Property` is not part of this model.
- `Property` is not part of this model. Its `validate`, `getConvertedValue` and `hashCode` are function parameters (`valid`, `convert`, `hash`) of `Validate`, `GetPropertyMap` and `HashCode`.
- `Config.Configuration.GetProperties`: returns the property values themselves. Java returns a new `ArrayList` of the same mutable `Property` objects, so a caller could change a property inside the configuration through it. No operation of this core changes a property in place.
- `Config.Configuration.AddConfiguration`: copies property values. In Java both configurations then hold the same `Property` objects, and a later `setValue` on one would show in the other. Sharing between objects is not modelled.
- `Config.EqualsHashCode` holds only for a property hash that depends on the name alone. Whether `Property.hashCode` does is not part of this model.
- `CompoundConfiguration` is not part of this model:
  - `addChild` and `removeChild` are taken to replace and remove by tool key, as `addProperty` and `removeProperty` do for names;
  - `setChildren` is taken to add each tool in turn;
  - `super.validate()` is the `inherited` parameter of `Toolbox.ToolboxConfiguration.Validate`;
  - the compound `addConfiguration` override is not modelled.
- `ToolConfiguration` is not part of this model. A tool is a record of key, invalid scopes and optional valid scopes, ordered and deduplicated by key. Null tools, null keys and null entries in scope lists are not modelled.
- `Scope` is not part of this model. Its runtime registry is the `registered` set passed to `Validate`, and `Scope.exists` is taken as membership in it.
- `ToolboxFactory` is not part of this model. Its `DEFAULT_SCOPE` is taken as `"request"`.
- The `getScope() == null` check of `validate` (ToolboxConfiguration.java:98-101) cannot fire: the constructor and `setScope` never store null, so the model's scope is always a string.
- Null arguments that only raise a `NullPointerException` are not modelled: a null property passed to `addProperty`, a null collection or null element given to `setProperties`, a null configuration given to `addConfiguration`.
- Concrete hash values are not modelled. `String.hashCode` and `Property.hashCode` are parameters. The 32-bit wrap-around of `TreeSet.hashCode`'s sum is modelled by `Int32`.
- `Compare` compares Dafny characters (Unicode scalar values). Java compares UTF-16 code units, so strings with characters outside the Basic Multilingual Plane may compare differently.
- Subclass dispatch is not modelled. On a toolbox, the inherited `Configuration.equals` and `compareTo` are reached by calling them on `base`. The overrides are the `ToolboxConfiguration` members.
- `toString` and `appendProperties` only format diagnostic text and are not modelled.
- `TilesTool` is request-scoped glue over Struts Tiles and the servlet API, outside this core.

## Findings

| source | as written | input that shows it | evidently intended | confidence | as-written member | corrected member |
|---|---|---|---|---|---|---|
| src/main/java/org/apache/velocity/tools/config/Configuration.java:70-74 | `getProperty` returns null for an absent name, and that null goes to `TreeSet.remove`. A naturally ordered `TreeSet` throws `NullPointerException` on a null argument. | `removeProperty("missing")` on a configuration holding only property `"a"`; on an empty one it throws only on Java 6 and later | return `false` and change nothing, as the `boolean` result and the `Property` overload suggest | not executed; rests on `java.util.TreeMap` rejecting null keys under natural ordering | `Config.Configuration.RemovePropertyNamed` | `Config.Configuration.RemovePropertyNamedIntended` |
