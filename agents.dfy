/** The agent type of the designer: its own property and method lists, its
    base type, and the operations that keep those lists. Each list operation
    is proved to produce the state that the corresponding specification
    function of PropertyLists, MethodLists or Merge describes. */
module Agents {
  import opened Descriptors
  import opened PropertyLists
  import opened MethodLists
  import opened Merge

  /** Which properties of an ancestor the effective list takes: a customized
      type takes every non-parameter, a native type only customized ones. */
  predicate KeepProperty(selfCustomized: bool, p: PropertyDef) {
    if selfCustomized then !p.isPar else p.isCustomized
  }

  /** The clone of an inherited property, flagged as inherited. */
  function InheritProperty(p: PropertyDef): PropertyDef {
    p.(isInherited := true)
  }

  /** A customized type takes every method of an ancestor, a native type only
      customized ones. */
  predicate KeepMethod(selfCustomized: bool, m: MethodDef) {
    selfCustomized || m.isCustomized
  }

  function InheritMethod(m: MethodDef): MethodDef {
    m.(isInherited := true)
  }

  /** The inner loop of GetProperties: scanning one base's list from the end,
      each kept property is cloned, flagged and inserted at the front. */
  method PrependInheritedProperties(c: bool, list: seq<PropertyDef>, acc: seq<PropertyDef>) returns (r: seq<PropertyDef>)
    ensures r == Contribution(c, list, KeepProperty, InheritProperty) + acc
  {
    r := acc;
    var i := |list|;
    while i > 0
      invariant 0 <= i <= |list|
      invariant r == Contribution(c, list[i..], KeepProperty, InheritProperty) + acc
    {
      i := i - 1;
      ghost var tail := Contribution(c, list[i + 1..], KeepProperty, InheritProperty);
      if KeepProperty(c, list[i]) {
        assert Contribution(c, list[i..], KeepProperty, InheritProperty) == [InheritProperty(list[i])] + tail by {
          ContributionStep(c, list, i, KeepProperty, InheritProperty);
        }
        r := [InheritProperty(list[i])] + r;
      } else {
        assert Contribution(c, list[i..], KeepProperty, InheritProperty) == tail by {
          ContributionStep(c, list, i, KeepProperty, InheritProperty);
        }
      }
    }
    assert list[0..] == list;
  }

  /** The inner loop of GetMethods. */
  method PrependInheritedMethods(c: bool, list: seq<MethodDef>, acc: seq<MethodDef>) returns (r: seq<MethodDef>)
    ensures r == Contribution(c, list, KeepMethod, InheritMethod) + acc
  {
    r := acc;
    var i := |list|;
    while i > 0
      invariant 0 <= i <= |list|
      invariant r == Contribution(c, list[i..], KeepMethod, InheritMethod) + acc
    {
      i := i - 1;
      ghost var tail := Contribution(c, list[i + 1..], KeepMethod, InheritMethod);
      if KeepMethod(c, list[i]) {
        assert Contribution(c, list[i..], KeepMethod, InheritMethod) == [InheritMethod(list[i])] + tail by {
          ContributionStep(c, list, i, KeepMethod, InheritMethod);
        }
        r := [InheritMethod(list[i])] + r;
      } else {
        assert Contribution(c, list[i..], KeepMethod, InheritMethod) == tail by {
          ContributionStep(c, list, i, KeepMethod, InheritMethod);
        }
      }
    }
    assert list[0..] == list;
  }

  /** One pass of the filtered GetMethods over `all`. */
  method AppendNewMethods(acc: seq<MethodDef>, all: seq<MethodDef>, section: Section) returns (r: seq<MethodDef>)
    ensures r == AppendNew(acc, all, section)
  {
    r := acc;
    var i := 0;
    while i < |all|
      invariant 0 <= i <= |all|
      invariant AppendNew(r, all[i..], section) == AppendNew(acc, all, section)
    {
      var m := all[i];
      assert all[i..][0] == m && all[i..][1..] == all[i + 1..];
      if Keeps(section, m) && !ContainsMethod(r, m.id) {
        r := r + [m];
      }
      i := i + 1;
    }
  }

  class AgentType {
    var propertyList: seq<PropertyDef>
    var methodsList: seq<MethodDef>
    var base: AgentType?
    var fullname: string
    var displayName: string
    var description: string
    /** Whether the type was defined in the designer rather than reflected
        from a native class. */
    const isCustomized: bool

    /** A customized agent type: it starts with no members. */
    constructor Customized(name: string, baseAgent: AgentType?, disp: string, desc: string)
      ensures isCustomized && fullname == name && base == baseAgent
      ensures displayName == disp && description == desc
      ensures propertyList == [] && methodsList == []
    {
      isCustomized := true;
      propertyList := [];
      methodsList := [];
      fullname := name;
      base := baseAgent;
      displayName := disp;
      description := desc;
    }

    /** A native agent type whose member lists were read from its class. */
    constructor Native(name: string, baseAgent: AgentType?, disp: string, desc: string,
                       properties: seq<PropertyDef>, methods: seq<MethodDef>)
      ensures !isCustomized && fullname == name && base == baseAgent
      ensures displayName == disp && description == desc
      ensures propertyList == properties && methodsList == methods
    {
      isCustomized := false;
      propertyList := properties;
      methodsList := methods;
      fullname := name;
      base := baseAgent;
      displayName := disp;
      description := desc;
    }

    method Reset(name: string, baseAgent: AgentType?, disp: string, desc: string)
      modifies this`fullname, this`base, this`displayName, this`description
      ensures fullname == name && base == baseAgent && displayName == disp && description == desc
    {
      fullname := name;
      base := baseAgent;
      displayName := disp;
      description := desc;
    }

    /** `chain` lists the base types from the nearest one on; the last has no
        base. */
    ghost predicate IsBaseChain(chain: seq<AgentType>)
      reads this, chain
    {
      && (if chain == [] then base == null else base == chain[0])
      && (forall i :: 0 <= i < |chain| - 1 ==> chain[i].base == chain[i + 1])
      && (chain != [] ==> chain[|chain| - 1].base == null)
    }

    ghost function PropertyAncestors(chain: seq<AgentType>): (r: seq<Ancestor<PropertyDef>>)
      reads chain
      ensures |r| == |chain|
      ensures forall i :: 0 <= i < |chain| ==> r[i] == Ancestor(chain[i].isCustomized, chain[i].propertyList)
    {
      if chain == [] then []
      else [Ancestor(chain[0].isCustomized, chain[0].propertyList)] + PropertyAncestors(chain[1..])
    }

    ghost function MethodAncestors(chain: seq<AgentType>): (r: seq<Ancestor<MethodDef>>)
      reads chain
      ensures |r| == |chain|
      ensures forall i :: 0 <= i < |chain| ==> r[i] == Ancestor(chain[i].isCustomized, chain[i].methodsList)
    {
      if chain == [] then []
      else [Ancestor(chain[0].isCustomized, chain[0].methodsList)] + MethodAncestors(chain[1..])
    }

    /** The effective property list: what is inherited along the chain, then
        the type's own properties. */
    ghost function EffectiveProperties(chain: seq<AgentType>): seq<PropertyDef>
      reads this, chain
    {
      Inherited(isCustomized, PropertyAncestors(chain), KeepProperty, InheritProperty) + propertyList
    }

    ghost function EffectiveMethods(chain: seq<AgentType>): seq<MethodDef>
      reads this, chain
    {
      Inherited(isCustomized, MethodAncestors(chain), KeepMethod, InheritMethod) + methodsList
    }

    // ----- properties -----

    /** getLastParIndex: the length of the leading run of parameters. */
    method GetLastParIndex() returns (index: nat)
      ensures index == ParRunLength(propertyList)
    {
      index := 0;
      var i := 0;
      while i < |propertyList|
        invariant 0 <= i <= |propertyList| && index == i
        invariant forall k :: 0 <= k < i ==> propertyList[k].isPar
      {
        if propertyList[i].isPar {
          index := index + 1;
        } else {
          break;
        }
        i := i + 1;
      }
      RunAtLeast(propertyList, index);
    }

    /** getPropertyIndex(property): the position of the object, or -1. */
    method IndexOfProperty(property: Option<PropertyDef>) returns (index: int)
      ensures property.None? ==> index == -1
      ensures property.Some? ==> index == IndexOfId(propertyList, property.value.id)
    {
      if property.Some? {
        var i := 0;
        while i < |propertyList|
          invariant 0 <= i <= |propertyList|
          invariant forall k :: 0 <= k < i ==> propertyList[k].id != property.value.id
        {
          if propertyList[i].id == property.value.id {
            return i;
          }
          i := i + 1;
        }
      }
      return -1;
    }

    /** getPropertyIndex(typeName, displayName): where a property of class
        `typeName` with that display name goes in the sorted list. */
    method GetPropertyIndex(typeName: string, propertyDisplayName: string, le: (string, string) -> bool)
      returns (index: nat)
      ensures index == SortedInsertIndex(PropertyKeys(propertyList), typeName, propertyDisplayName, le)
    {
      ghost var keys := PropertyKeys(propertyList);
      var typeIndex := |propertyList|;
      var i := 0;
      while i < |propertyList|
        invariant 0 <= i <= |propertyList|
        invariant forall k :: 0 <= k < i ==> keys[k].className != typeName
      {
        if propertyList[i].className == typeName {
          typeIndex := i;
          break;
        }
        i := i + 1;
      }
      assert typeIndex == FirstOfClass(keys, typeName);
      index := |propertyList|;
      i := typeIndex;
      while i < |propertyList|
        invariant typeIndex <= i <= |propertyList|
        invariant forall k :: typeIndex <= k < i ==> !Precedes(le, propertyDisplayName, keys[k].displayName)
      {
        if !le(propertyList[i].fullDisplayName, propertyDisplayName) {
          index := i;
          break;
        }
        i := i + 1;
      }
      assert index == FirstPrecededFrom(keys, typeIndex, propertyDisplayName, le);
    }

    method GetPropertyByName(propName: string) returns (r: Option<PropertyDef>)
      ensures r == PropertyByName(propertyList, propName)
    {
      if propName != "" {
        var i := 0;
        while i < |propertyList|
          invariant 0 <= i <= |propertyList|
          invariant forall k :: 0 <= k < i ==> !SameIgnoringCase(propertyList[k].basicName, propName)
        {
          if Lower(propertyList[i].basicName) == Lower(propName) {
            assert NamedAt(propertyList, propName) == i;
            return Some(propertyList[i]);
          }
          i := i + 1;
        }
      }
      return None;
    }

    /** AddProperty. `element` is the element accessor an array-typed property
        brings along; it is not itself of an array type. */
    method AddProperty(property: Option<PropertyDef>, index: int, element: PropertyDef) returns (added: bool)
      requires index <= |propertyList|
      requires property.Some? && property.value.isArray ==> !element.isArray
      modifies this`propertyList
      ensures (added, propertyList) == AddPropertyEffect(old(propertyList), property, index, element)
      decreases if property.Some? && property.value.isArray then 1 else 0, 1
    {
      if property.None? {
        return false;
      }
      var p := property.value;
      var i := 0;
      while i < |propertyList|
        invariant 0 <= i <= |propertyList|
        invariant propertyList == old(propertyList)
        invariant forall k :: 0 <= k < i ==> !Clashes(propertyList[k], p)
      {
        var q := propertyList[i];
        if q.id == p.id || q.basicName == p.basicName {
          assert DuplicateAt(propertyList, p) == i;
          if !q.isCustomized && p.isCustomized {
            propertyList := propertyList[i := q.(isExportedButAlsoCustomized := true)];
          }
          return false;
        }
        i := i + 1;
      }
      var at := index;
      if at < 0 && p.isPar {
        at := GetLastParIndex();
      }
      if at < 0 {
        propertyList := propertyList + [p];
      } else {
        propertyList := propertyList[..at] + [p] + propertyList[at..];
      }
      if p.isArray {
        AddArrayAccessorProperty(element, at);
      }
      return true;
    }

    /** AddArrayAccesorProperty: the element accessor goes through AddProperty
        at the index the array property was given. */
    method AddArrayAccessorProperty(element: PropertyDef, index: int)
      requires index <= |propertyList|
      requires !element.isArray
      modifies this`propertyList
      ensures propertyList == AddEntry(old(propertyList), element, index).1
      decreases 0, 2
    {
      var _ := AddProperty(Some(element), index, element);
    }

    /** ClearPars: removes the parameters, scanning from the end. */
    method ClearPars()
      modifies this`propertyList
      ensures propertyList == NonPars(old(propertyList))
    {
      ghost var orig := propertyList;
      var i := |propertyList|;
      while i > 0
        invariant 0 <= i <= |orig|
        invariant propertyList == orig[..i] + NonPars(orig[i..])
      {
        i := i - 1;
        NonParsRemoveStep(orig, i, propertyList);
        if propertyList[i].isPar {
          propertyList := propertyList[..i] + propertyList[i + 1..];
        }
      }
      assert orig[0..] == orig;
    }

    /** AddPars: clears the parameters, then adds each given one with no
        index; `elements[i]` is the element accessor for `pars[i]`. */
    method AddPars(pars: Option<seq<Option<PropertyDef>>>, elements: seq<PropertyDef>)
      requires pars.Some? ==> |elements| == |pars.value|
      requires pars.Some? ==> forall i :: 0 <= i < |pars.value| && pars.value[i].Some? && pars.value[i].value.isArray ==>
                                 !elements[i].isArray
      modifies this`propertyList
      ensures propertyList == AddParsEffect(old(propertyList), pars, elements)
    {
      ClearPars();
      if pars.Some? {
        var ps := pars.value;
        var i := 0;
        while i < |ps|
          invariant 0 <= i <= |ps|
          invariant AddAll(propertyList, ps[i..], elements[i..]) == AddParsEffect(old(propertyList), pars, elements)
        {
          assert ps[i..][0] == ps[i] && ps[i..][1..] == ps[i + 1..];
          assert elements[i..][0] == elements[i] && elements[i..][1..] == elements[i + 1..];
          var _ := AddProperty(ps[i], -1, elements[i]);
          i := i + 1;
        }
        assert ps[i..] == [] && elements[i..] == [];
      }
    }

    method RemoveProperty(prop: Option<PropertyDef>) returns (removed: bool)
      modifies this`propertyList
      ensures (removed, propertyList) == RemovePropertyEffect(old(propertyList), prop)
    {
      if prop.Some? && (prop.value.isCustomized || (prop.value.isPar && !prop.value.isAddedAutomatically)) {
        var k := IndexOfProperty(prop);
        if k >= 0 {
          propertyList := propertyList[..k] + propertyList[k + 1..];
          return true;
        }
      }
      return false;
    }

    method SwapTwoProperties(property1: Option<PropertyDef>, property2: Option<PropertyDef>) returns (swapped: bool)
      modifies this`propertyList
      ensures (swapped, propertyList) == SwapPropertiesEffect(old(propertyList), property1, property2)
    {
      if property1.Some? && (property1.value.isCustomized || property1.value.isPar)
        && property2.Some? && (property2.value.isCustomized || property2.value.isPar)
        && (property1.value.isCustomized == property2.value.isCustomized || property1.value.isPar == property2.value.isPar)
      {
        var index1 := IndexOfProperty(property1);
        var index2 := IndexOfProperty(property2);
        if index1 >= 0 && index2 >= 0 {
          var first, second := propertyList[index1], propertyList[index2];
          propertyList := propertyList[index1 := second];
          propertyList := propertyList[index2 := first];
          return true;
        }
      }
      return false;
    }

    /** GetProperties: walks the base chain from the nearest base, putting each
        base's kept properties, cloned and flagged, in front of what was
        collected; then appends the type's own properties. */
    method GetProperties(ghost chain: seq<AgentType>) returns (properties: seq<PropertyDef>)
      requires IsBaseChain(chain)
      ensures properties == EffectiveProperties(chain)
    {
      ghost var views := PropertyAncestors(chain);
      var c := isCustomized;
      properties := [];
      var baseType := base;
      ghost var k := 0;
      while baseType != null
        invariant 0 <= k <= |chain|
        invariant baseType == if k < |chain| then chain[k] else null
        invariant Inherited(c, views[k..], KeepProperty, InheritProperty) + properties
                  == Inherited(c, views, KeepProperty, InheritProperty)
        decreases |chain| - k
      {
        var list := baseType.propertyList;
        ghost var before := properties;
        properties := PrependInheritedProperties(c, list, properties);
        assert views[k] == Ancestor(baseType.isCustomized, list);
        WalkStep(c, views, k, before, properties, KeepProperty, InheritProperty);
        if c && !baseType.isCustomized {
          break;
        }
        baseType := baseType.base;
        k := k + 1;
      }
      properties := properties + propertyList;
    }

    // ----- methods -----

    /** GetMethods(): the same walk as GetProperties over the method lists. */
    method GetMethods(ghost chain: seq<AgentType>) returns (methods: seq<MethodDef>)
      requires IsBaseChain(chain)
      ensures methods == EffectiveMethods(chain)
    {
      ghost var views := MethodAncestors(chain);
      var c := isCustomized;
      methods := [];
      var baseType := base;
      ghost var k := 0;
      while baseType != null
        invariant 0 <= k <= |chain|
        invariant baseType == if k < |chain| then chain[k] else null
        invariant Inherited(c, views[k..], KeepMethod, InheritMethod) + methods
                  == Inherited(c, views, KeepMethod, InheritMethod)
        decreases |chain| - k
      {
        var list := baseType.methodsList;
        ghost var before := methods;
        methods := PrependInheritedMethods(c, list, methods);
        assert views[k] == Ancestor(baseType.isCustomized, list);
        WalkStep(c, views, k, before, methods, KeepMethod, InheritMethod);
        if c && !baseType.isCustomized {
          break;
        }
        baseType := baseType.base;
        k := k + 1;
      }
      methods := methods + methodsList;
    }

    /** The filtered GetMethods: the null method when allowed, then one pass
        per requested kind over the effective list. */
    method GetMethodsOfType(mask: MethodTypeMask, vt: ValueTypesMask, linked: Option<MethodDef>,
                            matches: (MethodDef, MethodDef) -> bool, ghost chain: seq<AgentType>)
      returns (methods: seq<MethodDef>)
      requires IsBaseChain(chain)
      ensures methods == SelectMethods(EffectiveMethods(chain), mask, vt, linked, matches)
    {
      var all := GetMethods(chain);
      SelectMethodsInSteps(all, mask, vt, linked, matches);
      methods := if mask.allowNullMethod then [NullMethod] else [];
      ghost var step := PassIf(methods, all, mask.methods, PlainMethods);
      if mask.methods {
        methods := AppendNewMethods(methods, all, PlainMethods);
      }
      assert methods == step;
      step := PassIf(methods, all, mask.tasks, Tasks);
      if mask.tasks {
        methods := AppendNewMethods(methods, all, Tasks);
      }
      assert methods == step;
      step := PassIf(methods, all, mask.getters, Getters(vt));
      if mask.getters {
        methods := AppendNewMethods(methods, all, Getters(vt));
      }
      assert methods == step;
      step := PassIf(methods, all, mask.status, Statuses(linked, matches));
      if mask.status {
        methods := AppendNewMethods(methods, all, Statuses(linked, matches));
      }
      assert methods == step;
    }

    method GetMethodByName(methodName: string, ghost chain: seq<AgentType>) returns (r: Option<MethodDef>)
      requires IsBaseChain(chain)
      ensures r == MethodByName(EffectiveMethods(chain), methodName)
    {
      if methodName != "" {
        var all := GetMethods(chain);
        var i := 0;
        while i < |all|
          invariant 0 <= i <= |all|
          invariant forall k :: 0 <= k < i ==> !SameIgnoringCase(all[k].basicName, methodName)
        {
          if Lower(all[i].basicName) == Lower(methodName) {
            assert MethodNamedAt(all, methodName) == i;
            return Some(all[i]);
          }
          i := i + 1;
        }
      }
      return None;
    }

    /** AddMethod: rejected when the effective list already holds the object
        or its name; otherwise appended to the own list, or put in front. */
    method AddMethod(md: Option<MethodDef>, append: bool, ghost chain: seq<AgentType>) returns (added: bool)
      requires IsBaseChain(chain)
      modifies this`methodsList
      ensures (added, methodsList) == AddMethodEffect(old(methodsList), old(EffectiveMethods(chain)), md, append)
    {
      if md.None? {
        return false;
      }
      var all := GetMethods(chain);
      var i := 0;
      while i < |all|
        invariant 0 <= i <= |all|
        invariant forall k :: 0 <= k < i ==> !MethodClashes(all[k], md.value)
      {
        if all[i].id == md.value.id || all[i].basicName == md.value.basicName {
          assert MethodDuplicateAt(all, md.value) >= 0;
          return false;
        }
        i := i + 1;
      }
      assert MethodDuplicateAt(all, md.value) == -1;
      if append {
        methodsList := methodsList + [md.value];
      } else {
        methodsList := [md.value] + methodsList;
      }
      return true;
    }

    method RemoveMethod(md: Option<MethodDef>) returns (removed: bool)
      modifies this`methodsList
      ensures (removed, methodsList) == RemoveMethodEffect(old(methodsList), md)
    {
      if md.Some? && md.value.isCustomized {
        var k := IndexOfMethod(methodsList, md.value.id);
        if k >= 0 {
          methodsList := methodsList[..k] + methodsList[k + 1..];
          return true;
        }
      }
      return false;
    }

    /** SwapTwoMethods, corrected: both positions are checked before anything
        is stored, so a call either exchanges the two methods or changes
        nothing. */
    method SwapTwoMethods(method1: Option<MethodDef>, method2: Option<MethodDef>) returns (swapped: bool)
      modifies this`methodsList
      ensures (swapped, methodsList) == SwapMethodsEffect(old(methodsList), method1, method2)
    {
      if method1.Some? && method1.value.isCustomized && method2.Some? && method2.value.isCustomized {
        var index1 := IndexOfMethod(methodsList, method1.value.id);
        var index2 := IndexOfMethod(methodsList, method2.value.id);
        if index1 >= 0 && index2 >= 0 {
          var first, second := methodsList[index1], methodsList[index2];
          methodsList := methodsList[index1 := second];
          methodsList := methodsList[index2 := first];
          return true;
        }
      }
      return false;
    }

    /** getMethodIndex: where a method of class `typeName` with that display
        name goes in the sorted method list. */
    method GetMethodIndex(typeName: string, methodDisplayName: string, le: (string, string) -> bool)
      returns (index: nat)
      ensures index == SortedInsertIndex(MethodKeys(methodsList), typeName, methodDisplayName, le)
    {
      ghost var keys := MethodKeys(methodsList);
      var typeIndex := |methodsList|;
      var i := 0;
      while i < |methodsList|
        invariant 0 <= i <= |methodsList|
        invariant forall k :: 0 <= k < i ==> keys[k].className != typeName
      {
        if methodsList[i].className == typeName {
          typeIndex := i;
          break;
        }
        i := i + 1;
      }
      assert typeIndex == FirstOfClass(keys, typeName);
      index := |methodsList|;
      i := typeIndex;
      while i < |methodsList|
        invariant typeIndex <= i <= |methodsList|
        invariant forall k :: typeIndex <= k < i ==> !Precedes(le, methodDisplayName, keys[k].displayName)
      {
        if !le(methodsList[i].fullDisplayName, methodDisplayName) {
          index := i;
          break;
        }
        i := i + 1;
      }
      assert index == FirstPrecededFrom(keys, typeIndex, methodDisplayName, le);
    }
  }

  /** An entry of the effective property list is an own property, or a
      flagged clone of a property that a walked ancestor holds and that the
      type keeps: a non-parameter for a customized type, a customized
      property for a native one. */
  lemma {:induction false} EffectivePropertyMembers(c: bool, ancestors: seq<Ancestor<PropertyDef>>, own: seq<PropertyDef>, x: PropertyDef)
    ensures x in Inherited(c, ancestors, KeepProperty, InheritProperty) + own <==>
      || x in own
      || exists j, q :: 0 <= j < Walked(c, ancestors) && q in ancestors[j].members
                        && (if c then !q.isPar else q.isCustomized) && x == q.(isInherited := true)
  {
    InheritedMembers(c, ancestors, KeepProperty, InheritProperty, x);
    if x in Inherited(c, ancestors, KeepProperty, InheritProperty) {
      var j, q :| 0 <= j < Walked(c, ancestors) && q in ancestors[j].members
                  && KeepProperty(c, q) && x == InheritProperty(q);
      assert (if c then !q.isPar else q.isCustomized) && x == q.(isInherited := true);
    }
    if exists j, q :: 0 <= j < Walked(c, ancestors) && q in ancestors[j].members
                      && (if c then !q.isPar else q.isCustomized) && x == q.(isInherited := true) {
      var j, q :| 0 <= j < Walked(c, ancestors) && q in ancestors[j].members
                  && (if c then !q.isPar else q.isCustomized) && x == q.(isInherited := true);
      assert KeepProperty(c, q) && x == InheritProperty(q);
    }
  }

  /** An entry of the effective method list is an own method, or a flagged
      clone of a method of a walked ancestor: any method for a customized
      type, a customized one for a native type. */
  lemma {:induction false} EffectiveMethodMembers(c: bool, ancestors: seq<Ancestor<MethodDef>>, own: seq<MethodDef>, x: MethodDef)
    ensures x in Inherited(c, ancestors, KeepMethod, InheritMethod) + own <==>
      || x in own
      || exists j, q :: 0 <= j < Walked(c, ancestors) && q in ancestors[j].members
                        && (c || q.isCustomized) && x == q.(isInherited := true)
  {
    InheritedMembers(c, ancestors, KeepMethod, InheritMethod, x);
    if x in Inherited(c, ancestors, KeepMethod, InheritMethod) {
      var j, q :| 0 <= j < Walked(c, ancestors) && q in ancestors[j].members
                  && KeepMethod(c, q) && x == InheritMethod(q);
      assert (c || q.isCustomized) && x == q.(isInherited := true);
    }
    if exists j, q :: 0 <= j < Walked(c, ancestors) && q in ancestors[j].members
                      && (c || q.isCustomized) && x == q.(isInherited := true) {
      var j, q :| 0 <= j < Walked(c, ancestors) && q in ancestors[j].members
                  && (c || q.isCustomized) && x == q.(isInherited := true);
      assert KeepMethod(c, q) && x == InheritMethod(q);
    }
  }

  /** AddProperty looks for clashes in the type's own list only, so a
      customized type can add a property named like one it inherits; its
      effective list then holds that name twice. */
  lemma InheritedNameCanRepeat()
    ensures var inherited := PropertyDef(1, "hp", "Base", "hp", false, true, false, false, false, false);
            var own := PropertyDef(2, "hp", "Hero", "hp", false, true, false, false, false, false);
            var (ok, list) := AddEntry([], own, -1);
            var e := Inherited(true, [Ancestor(true, [inherited])], KeepProperty, InheritProperty) + list;
            ok && |e| == 2 && e[0].basicName == e[1].basicName && e[0].id != e[1].id
  {
    var inherited := PropertyDef(1, "hp", "Base", "hp", false, true, false, false, false, false);
    var ancestors := [Ancestor(true, [inherited])];
    assert [inherited][1..] == [];
    assert Contribution(true, [inherited], KeepProperty, InheritProperty) == [InheritProperty(inherited)];
    assert ancestors[1..] == [];
    assert Inherited(true, ancestors, KeepProperty, InheritProperty) == [InheritProperty(inherited)];
  }
}
