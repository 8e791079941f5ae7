/** Member descriptors of the designer's metadata layer, and the ordering
    helpers shared by the property list and the method list of an agent type. */
module Descriptors {

  datatype Option<T> = None | Some(value: T)

  /** A property descriptor (PropertyDef). The descriptor is an object in the
      designer; `id` stands for its identity, so two records with the same
      `id` denote the same object. `isArray` stands for
      `Plugin.IsArrayType(property.Type)`. */
  datatype PropertyDef = PropertyDef(
    id: nat,
    basicName: string,
    className: string,
    fullDisplayName: string,
    isPar: bool,
    isCustomized: bool,
    isAddedAutomatically: bool,
    isExportedButAlsoCustomized: bool,
    isInherited: bool,
    isArray: bool)

  /** Kind of a method descriptor (MethodDef.MemberType). */
  datatype MemberType = Method | Task | Event

  /** The return type of a method, as far as the selection of methods looks at
      it: void, or the classes recognised by the boolean, 32-bit integer and
      floating-point type tests, or anything else. */
  datatype ReturnKind = Void | Bool | Int32 | Float | OtherType

  /** A method descriptor (MethodDef); `id` stands for its identity. */
  datatype MethodDef = MethodDef(
    id: nat,
    basicName: string,
    className: string,
    fullDisplayName: string,
    isCustomized: bool,
    isInherited: bool,
    memberType: MemberType,
    returnType: ReturnKind,
    isNamedEvent: bool)

  /** ToLowerInvariant on one character, restricted to ASCII letters. */
  function LowerChar(c: char): char {
    if 'A' <= c <= 'Z' then (c as int + 32) as char else c
  }

  function Lower(s: string): string {
    seq(|s|, i requires 0 <= i < |s| => LowerChar(s[i]))
  }

  /** The case-insensitive name comparison of GetPropertyByName and GetMethodByName. */
  predicate SameIgnoringCase(a: string, b: string) {
    Lower(a) == Lower(b)
  }

  lemma {:induction false} SameIgnoringCaseIsWeakerThanEquality(a: string, b: string)
    ensures a == b ==> SameIgnoringCase(a, b)
    ensures SameIgnoringCase(a, b) ==> |a| == |b|
    ensures SameIgnoringCase("Speed", "speed") && "Speed" != "speed"
  {
    assert |Lower(a)| == |a| && |Lower(b)| == |b|;
    var u, l := "Speed", "speed";
    assert Lower(u)[0] == 's';
    assert Lower(u) == l;
  }

  /** The key by which members are placed in a sorted list: the class that
      declares the member and its full display name. */
  datatype SortKey = SortKey(className: string, displayName: string)

  /** `le` is the culture-aware comparison used for display names, read as a
      "comes before or ties" relation; `string.Compare(a, b) < 0` is
      `Precedes(le, a, b)`. */
  predicate Precedes(le: (string, string) -> bool, a: string, b: string) {
    !le(b, a)
  }

  ghost predicate IsTotalPreorder(le: (string, string) -> bool) {
    && (forall a, b :: le(a, b) || le(b, a))
    && (forall a, b, c :: le(a, b) && le(b, c) ==> le(a, c))
  }

  /** Index of the first key of class `typeName`, or |keys| when there is none. */
  function FirstOfClass(keys: seq<SortKey>, typeName: string): (r: nat)
    ensures r <= |keys|
    ensures forall i :: 0 <= i < r ==> keys[i].className != typeName
    ensures r < |keys| ==> keys[r].className == typeName
  {
    if keys == [] then 0
    else if keys[0].className == typeName then 0
    else 1 + FirstOfClass(keys[1..], typeName)
  }

  /** Index of the first key at or after `from` whose display name `name`
      strictly precedes, or |keys| when there is none. */
  function FirstPrecededFrom(keys: seq<SortKey>, from: nat, name: string, le: (string, string) -> bool): (r: nat)
    requires from <= |keys|
    ensures from <= r <= |keys|
    ensures forall i :: from <= i < r ==> !Precedes(le, name, keys[i].displayName)
    ensures r < |keys| ==> Precedes(le, name, keys[r].displayName)
    decreases |keys| - from
  {
    if from == |keys| then from
    else if Precedes(le, name, keys[from].displayName) then from
    else FirstPrecededFrom(keys, from + 1, name, le)
  }

  /** Where a new member of class `typeName` with display name `name` goes:
      before the first member, from the first one of that class on, whose
      display name sorts after `name`; at the end when there is none. */
  function SortedInsertIndex(keys: seq<SortKey>, typeName: string, name: string, le: (string, string) -> bool): nat {
    FirstPrecededFrom(keys, FirstOfClass(keys, typeName), name, le)
  }

  ghost predicate SortedFrom(keys: seq<SortKey>, from: nat, le: (string, string) -> bool) {
    forall i, j :: from <= i < j < |keys| ==> le(keys[i].displayName, keys[j].displayName)
  }

  /** Inserting at SortedInsertIndex keeps the run from the class's first
      member on sorted, when the comparison is a total preorder. */
  lemma {:induction false} SortedInsertKeepsOrder(keys: seq<SortKey>, typeName: string, name: string, le: (string, string) -> bool)
    requires IsTotalPreorder(le)
    requires SortedFrom(keys, FirstOfClass(keys, typeName), le)
    ensures FirstOfClass(keys, typeName) <= SortedInsertIndex(keys, typeName, name, le) <= |keys|
    ensures var r := SortedInsertIndex(keys, typeName, name, le);
            SortedFrom(keys[..r] + [SortKey(typeName, name)] + keys[r..], FirstOfClass(keys, typeName), le)
  {
    var t := FirstOfClass(keys, typeName);
    var r := SortedInsertIndex(keys, typeName, name, le);
    var ks := keys[..r] + [SortKey(typeName, name)] + keys[r..];
    assert |ks| == |keys| + 1;
    forall i | t <= i < r
      ensures le(keys[i].displayName, name)
    {
    }
    forall j | r <= j < |keys|
      ensures le(name, keys[j].displayName)
    {
      assert le(name, keys[r].displayName);
      if j > r {
        assert le(keys[r].displayName, keys[j].displayName);
      }
    }
    forall i, j | t <= i < j < |ks|
      ensures le(ks[i].displayName, ks[j].displayName)
    {
      if j < r {
        assert ks[i] == keys[i] && ks[j] == keys[j];
      } else if j == r {
        assert ks[i] == keys[i] && ks[j].displayName == name;
      } else if i < r {
        assert ks[i] == keys[i] && ks[j] == keys[j - 1];
        assert le(keys[i].displayName, name) && le(name, keys[j - 1].displayName);
      } else if i == r {
        assert ks[j] == keys[j - 1];
      } else {
        assert ks[i] == keys[i - 1] && ks[j] == keys[j - 1];
      }
    }
  }

  function PropertyKeys(list: seq<PropertyDef>): (keys: seq<SortKey>)
    ensures |keys| == |list|
    ensures forall i :: 0 <= i < |list| ==> keys[i].className == list[i].className
    ensures forall i :: 0 <= i < |list| ==> keys[i].displayName == list[i].fullDisplayName
  {
    seq(|list|, i requires 0 <= i < |list| => SortKey(list[i].className, list[i].fullDisplayName))
  }

  function MethodKeys(list: seq<MethodDef>): (keys: seq<SortKey>)
    ensures |keys| == |list|
    ensures forall i :: 0 <= i < |list| ==> keys[i].className == list[i].className
    ensures forall i :: 0 <= i < |list| ==> keys[i].displayName == list[i].fullDisplayName
  {
    seq(|list|, i requires 0 <= i < |list| => SortKey(list[i].className, list[i].fullDisplayName))
  }
}
