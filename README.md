# AgentType member lists, modelled in Dafny

This project models the member bookkeeping of `AgentType`, the class through
which the behaviac designer describes an agent class. Its parts are:

- the agent's own property list and method list;
- its base type;
- the operations that edit those lists: add, clear parameters, remove,
  swap, and the index searches;
- the flattened ("effective") lists that combine a type's own members with
  those it inherits along its base chain;
- the filtered method selection;
- the name accessors;
- the literal-text handlers of the bool, string and integer types.

Modules:

- `Descriptors` holds the property and method descriptors as records, and
  the name-comparison and sorted-insertion helpers.
- `PropertyLists`, `MethodLists` and `Merge` define each list operation as
  a function of the old list. Lemmas state what the designer relies on:
  parameters stay a prefix, there are no duplicates, a swap is a
  permutation, and inherited entries come from the ancestors the walk
  visits.
- `Agents` holds the class `AgentType`. Its fields are `propertyList`,
  `methodsList`, `base`, the names and `isCustomized`. Each list-editing
  method changes only the field it names in `modifies`. Each method is
  proved to leave exactly the state the specification function describes.
  The scans are `while` loops with invariants.
- `AgentNames` holds `Namespace`, `BasicClassName` and `DisplayName`.
- `TypeHandlers` holds bool and string parsing and default values, the
  integer handlers' range clamps, and their default values.

Modelling choices:

- A descriptor is a value. Its `id` stands for the object's identity, so
  "the same object" is "the same `id`". Setting a flag on an entry in a list
  replaces that entry.
- `string.Compare` under the zh-CN culture is a parameter `le`, a relation
  read as "comes before or ties". `Compare(a, b) < 0` is `!le(b, a)`.
  Sortedness is proved for any `le` that is a total preorder.
- The base chain is passed to the reading methods as a ghost sequence
  `chain`. The predicate `IsBaseChain` ties it to the `base` fields, and it
  ends at a type without a base.
- The element accessor that an array-typed property brings along comes from
  `Clone` and `SetArrayElement`, whose code is not part of this model. It is
  a parameter `element`, and it is not itself of an array type.
- `Plugin.IsMatchedStatusMethod` is a parameter `matches`. The numeric
  `TryParse` of each integer type is a parameter `tryParse`.

Behaviour of the code worth knowing, each point stated by a lemma:

- When an added property clashes with an entry, the code sets the entry's
  "exported but also customized" flag exactly when the existing entry is not
  customized and the incoming one is (`AddRejectedOnlyMarks`).
- Quoted string literals lose their first and last characters without any
  check that the closing quote matches (`StringParseStripsAnyCloser`).
- The integer clamps raise only the lower end of a range and lower only the
  upper end, to the editor's bounds. For the 64-bit and unsigned 32- and
  64-bit types the upper bound is `int.MaxValue`, not the type's own, and
  the signed 64-bit types' lower bound is `int.MinValue` (`ClampIsOneSided`,
  `DesignerBoundsWithinType`).
- Names are unique in a type's own list but not in its effective list.
  AddProperty checks only the own list (`InheritedNameCanRepeat`).
  Duplicates are detected case-sensitively, while lookups ignore case
  (`CaseVariantFoundFirst`). A non-parameter whose name differs from an
  entry's only in letter case is accepted, and the lookup of its own name
  then finds the older entry. A parameter goes in front of the other
  entries, so there the lookup finds the new one: it returns the first
  match in list order.
- An edit can leave a partial mutation: SwapTwoMethods can store one method
  and then throw (see Findings).

## Model

| member | source | states |
|---|---|---|
| `Agents.AgentType.AddProperty` | tools/designer/BehaviacDesignerBase/Agent.cs:187-215 | the result and the new list are those of `AddPropertyEffect` on the old list: duplicate test against every entry, flag marking, parameters placed after the leading run, element accessor added at the same index |
| `Agents.AgentType.AddArrayAccessorProperty` | tools/designer/BehaviacDesignerBase/Agent.cs:232-238 | the element accessor goes through the same duplicate test and placement as any property, at the index the array property used |
| `PropertyLists.AddRejectedOnlyMarks` | tools/designer/BehaviacDesignerBase/Agent.cs:187-197 | an add fails exactly for no property or a clash by identity or BasicName; a failed add keeps the length and every entry except the first clashing one; that entry gets the exported-but-also-customized flag when it is not customized and the new property is, and is kept as it was otherwise |
| `PropertyLists.AddEntryGrows` | tools/designer/BehaviacDesignerBase/Agent.cs:199-209 | a successful add grows the list by one and puts the property at the adjusted index, or at the end when that index is negative; a failed one keeps the length |
| `PropertyLists.AddPropertyGrows` | tools/designer/BehaviacDesignerBase/Agent.cs:199-212 | a successful add leaves the property's object in the list and grows it by one, or by two for an array type; an array property grows it by two exactly when its accessor clashes with nothing |
| `PropertyLists.AddPropertyKeepsParPrefix` | tools/designer/BehaviacDesignerBase/Agent.cs:199-203 | when the element accessor of an array-typed property is a parameter exactly when the property is, adding with no index, or at an index on the right side of the parameter run, keeps the parameters a contiguous prefix |
| `PropertyLists.AddEntryParRun` | tools/designer/BehaviacDesignerBase/Agent.cs:199-206 | on a list whose parameters form a prefix, an add with no index, or with an index that keeps a parameter inside the run and any other entry after it, never shortens the leading run of parameters, and leaves it unchanged when the added entry is not a parameter |
| `PropertyLists.AddPropertyKeepsDistinct` | tools/designer/BehaviacDesignerBase/Agent.cs:187-215 | a list with no two entries sharing an object or a BasicName keeps that property after any add |
| `PropertyLists.CaseVariantIsShadowed` | tools/designer/BehaviacDesignerBase/Agent.cs:176-197 | example: a customized non-parameter "speed" added to a list holding "Speed" is accepted, and the lookup of "speed" returns "Speed" |
| `PropertyLists.CaseVariantFoundFirst` | tools/designer/BehaviacDesignerBase/Agent.cs:176-206 | for every list holding a name that matches a non-parameter's name ignoring case, adding that non-parameter with no index, when accepted, appends it and leaves the lookup of its name unchanged, so the lookup finds an older entry and never the new one |
| `Agents.AgentType.GetLastParIndex` | tools/designer/BehaviacDesignerBase/Agent.cs:217-230 | the result is the length of the longest prefix of parameters (`ParRunLength`: every entry before it is a parameter, the one at it is not) |
| `Agents.AgentType.ClearPars` | tools/designer/BehaviacDesignerBase/Agent.cs:166-174 | the backward scan leaves exactly `NonPars` of the old list |
| `PropertyLists.NonParsKeepsExactlyNonPars` | tools/designer/BehaviacDesignerBase/Agent.cs:166-174 | an entry survives ClearPars if and only if it was in the list and is not a parameter |
| `PropertyLists.NonParsAppend` | tools/designer/BehaviacDesignerBase/Agent.cs:166-174 | clearing keeps the relative order of what it keeps: clearing a concatenation clears each part |
| `PropertyLists.NonParsDropsParRun` | tools/designer/BehaviacDesignerBase/Agent.cs:166-174 | when the parameters form a prefix, clearing drops exactly that prefix |
| `Agents.AgentType.AddPars` | tools/designer/BehaviacDesignerBase/Agent.cs:156-164 | the new list is the old one cleared of parameters, then each given parameter added with no index, in order; no list clears only |
| `PropertyLists.AddParsKeepsParPrefix` | tools/designer/BehaviacDesignerBase/Agent.cs:156-164 | when each parameter's element accessor is a parameter exactly when that parameter is, after AddPars the parameters form a prefix, whatever the list held before |
| `Agents.AgentType.GetPropertyByName` | tools/designer/BehaviacDesignerBase/Agent.cs:176-185 | no result for an empty name; otherwise the first entry whose BasicName equals the name ignoring case, and none when no entry does |
| `Agents.AgentType.RemoveProperty` | tools/designer/BehaviacDesignerBase/Agent.cs:240-245 | succeeds exactly for a present property that is customized or a parameter not added automatically; then the first copy goes, the length drops by one and the multiset loses that entry; otherwise nothing changes |
| `PropertyLists.RemovePropertyEffect` | tools/designer/BehaviacDesignerBase/Agent.cs:240-245 | the removal succeeds if and only if the property is present and may be removed; a success drops exactly the first copy of the entry, leaving the others in their order (`list[..k] + list[k+1..]`, so length one less and multiset minus that entry), a failure changes nothing |
| `PropertyLists.RemoveLeavesNoCopy` | tools/designer/BehaviacDesignerBase/Agent.cs:240-245 | in a list without repeated objects, a successful removal leaves no entry that is the removed object |
| `Agents.AgentType.IndexOfProperty` | tools/designer/BehaviacDesignerBase/Agent.cs:265-274 | -1 for no property; otherwise the first position holding that object, or -1 when none does |
| `Agents.AgentType.SwapTwoProperties` | tools/designer/BehaviacDesignerBase/Agent.cs:247-263 | when the guard holds and both objects are present, exactly their two positions are exchanged: same length, same multiset, every other position unchanged; otherwise false and no change |
| `PropertyLists.SwapPropertiesEffect` | tools/designer/BehaviacDesignerBase/Agent.cs:247-263 | the swap succeeds if and only if the guard holds and both objects are present; the result is always a permutation of the list, and on success only the two found positions differ, holding each other's entries |
| `PropertyLists.SwapKeepsParPrefix` | tools/designer/BehaviacDesignerBase/Agent.cs:247-263 | exchanging two parameters, or two non-parameters, keeps the parameters a prefix |
| `PropertyLists.SwapGuardAdmitsMixedPair` | tools/designer/BehaviacDesignerBase/Agent.cs:248-250 | the guard admits a customized parameter and a customized non-parameter, and swapping them breaks the parameter prefix |
| `Agents.AgentType.GetPropertyIndex` | tools/designer/BehaviacDesignerBase/Agent.cs:276-297 | the result is `SortedInsertIndex` of the list's (class, display name) keys |
| `Descriptors.FirstOfClass` | tools/designer/BehaviacDesignerBase/Agent.cs:277-284 | the first position of an entry of the given class, or the length: every earlier entry has another class |
| `Descriptors.FirstPrecededFrom` | tools/designer/BehaviacDesignerBase/Agent.cs:286-294 | from the class's first entry on, the first position whose display name sorts strictly after the new one, or the length |
| `Descriptors.SortedInsertKeepsOrder` | tools/designer/BehaviacDesignerBase/Agent.cs:276-297 | for a total preorder, inserting at the computed index keeps the run from the class's first entry on sorted |
| `Agents.AgentType.GetMethodIndex` | tools/designer/BehaviacDesignerBase/Agent.cs:353-374 | the result is `SortedInsertIndex` of the method list's keys, the same search as for properties |
| `Agents.AgentType.GetProperties` | tools/designer/BehaviacDesignerBase/Agent.cs:442-485 | the result is `EffectiveProperties`: what the walk along the base chain inherits, then the own list |
| `Agents.PrependInheritedProperties` | tools/designer/BehaviacDesignerBase/Agent.cs:451-459 | the backward scan with insertion at the front puts the kept clones of one base, in that base's order, in front of what was collected |
| `Agents.EffectivePropertyMembers` | tools/designer/BehaviacDesignerBase/Agent.cs:442-485 | an entry of the effective list is an own property, or the flagged clone of a property that a visited ancestor holds and that is kept (non-parameter for a customized type, customized for a native one), and every such clone is there |
| `Merge.InheritedMembers` | tools/designer/BehaviacDesignerBase/Agent.cs:446-481 | the inherited part holds exactly the clones of kept members of the ancestors the walk visits |
| `Merge.Walked` | tools/designer/BehaviacDesignerBase/Agent.cs:446-464 | a native type visits every ancestor; a customized one visits them up to and including its first non-customized ancestor |
| `Merge.FartherAncestorGoesFirst` | tools/designer/BehaviacDesignerBase/Agent.cs:446-481 | a farther ancestor's contribution lands in front of the nearer ones' when the walk reaches it, and not at all when it does not |
| `Agents.InheritedNameCanRepeat` | tools/designer/BehaviacDesignerBase/Agent.cs:187-197 | a customized type can add a property named like an inherited one, and its effective list then holds that name twice |
| `Agents.AgentType.GetMethods` | tools/designer/BehaviacDesignerBase/Agent.cs:555-595 | the result is `EffectiveMethods`: every method of the visited ancestors for a customized type, their customized methods for a native one, as flagged clones, then the own list |
| `Agents.PrependInheritedMethods` | tools/designer/BehaviacDesignerBase/Agent.cs:561-568 | the backward scan puts the kept clones of one base's methods, in order, in front of what was collected |
| `Agents.EffectiveMethodMembers` | tools/designer/BehaviacDesignerBase/Agent.cs:555-595 | an entry of the effective method list is an own method or the flagged clone of a kept method of a visited ancestor, and every such clone is there |
| `Agents.AgentType.GetMethodsOfType` | tools/designer/BehaviacDesignerBase/Agent.cs:487-553 | the result is `SelectMethods` of the effective list: the null method when allowed, then one pass per requested kind |
| `Agents.AppendNewMethods` | tools/designer/BehaviacDesignerBase/Agent.cs:497-504 | one pass appends, in order, each method of the kind that the list does not yet hold |
| `MethodLists.SelectMethodsSpec` | tools/designer/BehaviacDesignerBase/Agent.cs:487-553 | the selection holds no object twice, starts with the null method when allowed, holds only methods of the effective list that a requested kind takes, and holds every such method |
| `MethodLists.ChosenSectionsSelect` | tools/designer/BehaviacDesignerBase/Agent.cs:491-550 | a method is taken by one of the requested passes exactly when it is a plain method, task, getter of an asked return type, or status method whose kind is requested |
| `MethodLists.AppendNewUnique` | tools/designer/BehaviacDesignerBase/Agent.cs:497-504 | a pass never appends an object the list already holds |
| `Agents.AgentType.GetMethodByName` | tools/designer/BehaviacDesignerBase/Agent.cs:299-308 | no result for an empty name; otherwise the first method of the effective list whose BasicName equals the name ignoring case |
| `Agents.AgentType.AddMethod` | tools/designer/BehaviacDesignerBase/Agent.cs:310-327 | fails exactly for no method or a clash by identity or BasicName anywhere in the effective list, leaving the own list unchanged; otherwise the own list grows by one, at its end when appending and at its front otherwise |
| `MethodLists.AddMethodEffect` | tools/designer/BehaviacDesignerBase/Agent.cs:310-327 | the add succeeds if and only if a method is given and nothing in the effective list clashes with it; on success the own list gains exactly that method at its end or front, with the old entries kept in order |
| `MethodLists.AddMethodKeepsEffectiveDistinct` | tools/designer/BehaviacDesignerBase/Agent.cs:310-327 | an effective list without clashing entries keeps that property after any AddMethod |
| `Agents.AgentType.RemoveMethod` | tools/designer/BehaviacDesignerBase/Agent.cs:329-334 | succeeds exactly for a present customized method, whose first copy goes; otherwise nothing changes |
| `MethodLists.RemoveMethodEffect` | tools/designer/BehaviacDesignerBase/Agent.cs:329-334 | the removal succeeds if and only if the method is customized and present; a success drops exactly the first copy and keeps the others in order, a failure changes nothing |
| `Agents.AgentType.SwapTwoMethods` | tools/designer/BehaviacDesignerBase/Agent.cs:336-351 | corrected: two present customized methods swap their positions, same multiset and every other position unchanged; otherwise false and no change |
| `MethodLists.SwapMethodsEffect` | tools/designer/BehaviacDesignerBase/Agent.cs:336-351 | corrected swap: succeeds if and only if both methods are customized and present; the result is always a permutation, and on success only the two positions differ |
| `MethodLists.SwapMethodsAgreesWhereDefined` | tools/designer/BehaviacDesignerBase/Agent.cs:336-351 | wherever the call as written does not throw, the corrected swap returns the same result and leaves the same list |
| `MethodLists.SwapMethodsAsWrittenHalfSwaps` | tools/designer/BehaviacDesignerBase/Agent.cs:342-347 | with the first method present and the second absent, the call as written throws after overwriting the first, which is then lost from the list |
| `MethodLists.SwapMethodsAsWritten` | tools/designer/BehaviacDesignerBase/Agent.cs:336-351 | the call as written keeps the length; it throws exactly when both methods are customized and one of them is absent, and when the first is present it has then already overwritten it with the second, changing nothing else |
| `Agents.AgentType.Customized` | tools/designer/BehaviacDesignerBase/Agent.cs:115-119 | a customized type starts with the given names and base and with empty member lists |
| `Agents.AgentType.Native` | tools/designer/BehaviacDesignerBase/Agent.cs:63-110 | a native type starts with the given names and base and with the member lists it is handed |
| `Agents.AgentType.Reset` | tools/designer/BehaviacDesignerBase/Agent.cs:128-133 | sets the full name, base, display name and description |
| `AgentNames.QualifiedNameSplits` | tools/designer/BehaviacDesignerBase/Agent.cs:395-421 | for `ns::Name` with no ':' in the name, Namespace gives `ns` and BasicClassName gives `Name` |
| `AgentNames.Namespace` | tools/designer/BehaviacDesignerBase/Agent.cs:395-407 | the namespace is a prefix of the full name; when not empty it is followed by one character and then the last ':' of the name |
| `AgentNames.BasicClassName` | tools/designer/BehaviacDesignerBase/Agent.cs:409-421 | the class name is a suffix of the full name without any ':', and it is the whole name or follows a ':' |
| `AgentNames.NamespaceEmptyWhenUnqualified` | tools/designer/BehaviacDesignerBase/Agent.cs:395-407 | the namespace is empty exactly when the name's last ':' is missing or among its first two characters |
| `AgentNames.UnqualifiedName` | tools/designer/BehaviacDesignerBase/Agent.cs:395-421 | a name without ':' has no namespace and is its own class name |
| `AgentNames.SingleColonLosesACharacter` | tools/designer/BehaviacDesignerBase/Agent.cs:395-407 | example: `Namespace("ab:C")` is `"a"`, because Namespace assumes a two-character separator; the general form, a namespace ending one character before the last ':', is `Namespace`'s contract |
| `AgentNames.LastColon` | tools/designer/BehaviacDesignerBase/Agent.cs:398 | the position of the last ':' or -1, with no ':' after it |
| `AgentNames.DisplayName` | tools/designer/BehaviacDesignerBase/Agent.cs:433-435 | the name shown is either the display name or the full name, and it is empty only when both are |
| `AgentNames.DisplayNamePrefersDisplayName` | tools/designer/BehaviacDesignerBase/Agent.cs:433-435 | a set display name is always the one shown, and showing the shown name again changes nothing |
| `TypeHandlers.BoolRoundTrip` | tools/designer/BehaviacDesignerBase/Agent.cs:1086-1102 | the text of each bool value parses back to that value |
| `TypeHandlers.BoolDefaultAgreesWithParse` | tools/designer/BehaviacDesignerBase/Agent.cs:1110-1121 | Parse accepts exactly the texts that read as a value, DefaultValue then gives that value, and on text Parse rejects DefaultValue gives false |
| `TypeHandlers.BoolDefaultValue` | tools/designer/BehaviacDesignerBase/Agent.cs:1110-1121 | the default value is true exactly when the text reads "true" ignoring case |
| `TypeHandlers.BoolParseIgnoresCase` | tools/designer/BehaviacDesignerBase/Agent.cs:1086-1102 | examples: "TRUE" and "False" parse, while "yes" and the empty text are rejected and the default of the empty text is false; the general form is `BoolDefaultAgreesWithParse` |
| `TypeHandlers.BoolParse` | tools/designer/BehaviacDesignerBase/Agent.cs:1086-1102 | a rejection carries the lower-cased text the error message quotes |
| `TypeHandlers.BoolCreate` | tools/designer/BehaviacDesignerBase/Agent.cs:1081-1084 | a new bool value is false |
| `TypeHandlers.StringParse` | tools/designer/BehaviacDesignerBase/Agent.cs:1330-1353 | parsing always succeeds and gives the text itself or the text without its first and last characters, never longer |
| `TypeHandlers.StringQuoteRoundTrip` | tools/designer/BehaviacDesignerBase/Agent.cs:1330-1353 | a literal in single or double quotes parses to the text between them |
| `TypeHandlers.StringUnquotedUnchanged` | tools/designer/BehaviacDesignerBase/Agent.cs:1330-1353 | text that does not open with a quote passes through unchanged |
| `TypeHandlers.StringParseIgnoresClosingCharacter` | tools/designer/BehaviacDesignerBase/Agent.cs:1335-1342 | examples: `"ab'` parses to `ab`, and `'x` to the empty text |
| `TypeHandlers.StringParseStripsAnyCloser` | tools/designer/BehaviacDesignerBase/Agent.cs:1335-1342 | for every text and every closing character, a literal that opens with a quote parses to what lies between its first and last characters, whether or not the last one is the matching quote |
| `TypeHandlers.StringDefaultValue` | tools/designer/BehaviacDesignerBase/Agent.cs:1361-1367 | the default value of a string is the given text |
| `TypeHandlers.ClampRangeMin` | tools/designer/BehaviacDesignerBase/Agent.cs:1153 | the lower end is never below the editor's bound for the type, never below the given end, and is either the given end or the bound: the given end exactly when that is within the bound, the bound otherwise (the same line is at 1201, 1399, 1447, 1494, 1542, 1590, 1647, 1699, 1756 and 1808 for the other types) |
| `TypeHandlers.ClampRangeMax` | tools/designer/BehaviacDesignerBase/Agent.cs:1154 | the upper end is never above the bound, never above the given end, and is either the given end or the bound: kept exactly when within the bound, the bound otherwise (likewise at 1202, 1400, 1448, 1495, 1543, 1591, 1648, 1700, 1757 and 1809) |
| `TypeHandlers.DesignerBoundsWithinType` | tools/designer/BehaviacDesignerBase/Agent.cs:1396-1400 | each type's editor bounds are values of the type and admit zero |
| `TypeHandlers.ClampKeepsOrder` | tools/designer/BehaviacDesignerBase/Agent.cs:1150-1155 | clamping an ordered range that meets the bounds keeps it ordered, and a range holding zero still holds it |
| `TypeHandlers.ClampIsOneSided` | tools/designer/BehaviacDesignerBase/Agent.cs:1539-1543 | example: for `byte`, a lower end of 300 and an upper end of -5 are kept as given; the general form is the contracts of `ClampRangeMin` and `ClampRangeMax` |
| `TypeHandlers.IntDefaultValue` | tools/designer/BehaviacDesignerBase/Agent.cs:1159-1169 | the default value is either the value Create gives or the value Parse reads the text as |
| `TypeHandlers.IntDefaultAgreesWithParse` | tools/designer/BehaviacDesignerBase/Agent.cs:1132-1169 | on non-empty text Parse accepts, the default value is the parsed value; on empty or rejected text it is the value Create gives, which is the default of no text |
| `TypeHandlers.IntParse` | tools/designer/BehaviacDesignerBase/Agent.cs:1137-1149 | a rejection carries the text the error message quotes; a success gives the value the type's parser reads (the parser is the `tryParse` parameter) |
| `TypeHandlers.IntCreate` | tools/designer/BehaviacDesignerBase/Agent.cs:1132-1135 | a new integer value is a value of the type (zero) |
| `TypeHandlers.IntDefaultValueWithinType` | tools/designer/BehaviacDesignerBase/Agent.cs:1159-1169 | with a parser that yields values of the type, the default value is a value of the type |

## Left out

- The reflection-driven constructor, `getHierarchyTypes`, `CreateAction` and `CreateProperty` read .NET reflection and custom attributes. `AgentType.Native` takes the member lists already built.
- `Agents.AgentType.Native`: takes its member lists as given. The reflection that reads the fields and delegates of the .NET type, and inserts each at its sorted index, is not modelled.
- The copy constructor is not modelled. It copies the names and the base of another type, which `Reset` covers.
- The attribute classes, the float and double handlers, and the vector, quaternion, box, ray, sphere and angle classes hold data only, or floating-point data.
- Editor widgets (`CreateDesignerProperty` beyond its clamp arithmetic) and `GetEditorType` are not modelled.
- Numeric and character `TryParse` are not modelled. Their accepted syntax is library behaviour, and it appears only as the `tryParse` parameter of `IntParse` and `IntDefaultValue`.
- The clamps take the range ends as integers. The truncating cast of a float end, and the value of a cast out of `int` range, are not modelled.
- Culture-aware ordering is the parameter `le`. `ToLowerInvariant` and `ToLower` lower ASCII letters only.
- `Clone` keeps the descriptor's identity in this model. In the designer a clone is a new object, but here an inherited entry and the ancestor's entry share an `id`. Only the filtered GetMethods compares entries of an effective list by identity (see the line for `Agents.AgentType.GetMethodsOfType`).
- Aliasing is not modelled. A descriptor shared by several lists is a value in each, so a flag set through one list does not show in another.
- `Debug.Check` is not modelled. The task-return-type check in the filtered GetMethods is taken as not stopping the call.
- `Agents.AgentType.AddProperty`: an element accessor that is itself of an array type is excluded by a precondition. In the designer it would recurse through its own accessor.
- `Agents.AgentType.GetMethodsOfType`: `methods.Contains` is read as identity comparison, and identity is the `id`. In the designer every inherited entry is a fresh clone, so no two entries of an effective list are the same object. Here the clones keep the original's `id`. The model therefore agrees with the designer only on effective lists without a repeated `id`. Two cases repeat one: a type's own method is also held by an ancestor, or two ancestors hold the same method object. Both can arise, because AddMethod checks only the type's own effective list, so a method added to a derived type can later be added to its base. In those cases the designer keeps both entries and the model keeps one.
- `Agents.AgentType.AddProperty`, `Agents.AgentType.AddArrayAccessorProperty`: the index must be at most the list's length. A larger index makes `List.Insert` throw `ArgumentOutOfRangeException`, and that exception is not modelled. The callers in the code pass -1, or an index computed from the list itself (`getPropertyIndex`, `getLastParIndex`).
- `MethodLists.SelectMethods`: identity 0 stands for the null method that the filtered GetMethods offers first. Other descriptors are taken not to use it: an effective method with identity 0 would be treated as already selected.

## Findings

| source | as written | input that shows it | evidently intended | confidence | as-written member | corrected member |
|---|---|---|---|---|---|---|
| tools/designer/BehaviacDesignerBase/Agent.cs:336-351 | both positions are looked up, then method2 is stored at index1 and method1 at index2; a missing second method gives index2 = -1, and that store throws after the first store has overwritten method1 | a list `[Jump]`, with `Jump` and `Run` both customized and `Run` not in the list: the call throws and leaves `[Run]`, so `Jump` is lost | like SwapTwoProperties, return false and change nothing unless both methods are present | not executed; holds wherever `Debug.Check` does not stop the call | `MethodLists.SwapMethodsAsWrittenHalfSwaps` | `Agents.AgentType.SwapTwoMethods` |
