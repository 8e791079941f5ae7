/** The rules by which an agent type edits its own method list
    (`_methodsList`), and the selection behind the filtered GetMethods, stated
    on values. */
module MethodLists {
  import opened Descriptors

  /** An entry clashes with a new method when it is the same object or has the
      same BasicName, compared case-sensitively. */
  predicate MethodClashes(q: MethodDef, m: MethodDef) {
    q.id == m.id || q.basicName == m.basicName
  }

  ghost predicate DistinctMethods(list: seq<MethodDef>) {
    forall i, j :: 0 <= i < j < |list| ==> !MethodClashes(list[i], list[j])
  }

  /** Position of the first entry that clashes with `m`, or -1. */
  function MethodDuplicateAt(list: seq<MethodDef>, m: MethodDef): (k: int)
    ensures -1 <= k < |list|
    ensures k == -1 <==> forall i :: 0 <= i < |list| ==> !MethodClashes(list[i], m)
    ensures k >= 0 ==> MethodClashes(list[k], m) && forall i :: 0 <= i < k ==> !MethodClashes(list[i], m)
  {
    if list == [] then -1
    else if MethodClashes(list[0], m) then 0
    else
      var k := MethodDuplicateAt(list[1..], m);
      if k == -1 then -1 else k + 1
  }

  /** Position of the first entry that is the object `id`, or -1 (FindIndex). */
  function IndexOfMethod(list: seq<MethodDef>, id: nat): (k: int)
    ensures -1 <= k < |list|
    ensures k == -1 <==> forall i :: 0 <= i < |list| ==> list[i].id != id
    ensures k >= 0 ==> list[k].id == id && forall i :: 0 <= i < k ==> list[i].id != id
  {
    if list == [] then -1
    else if list[0].id == id then 0
    else
      var k := IndexOfMethod(list[1..], id);
      if k == -1 then -1 else k + 1
  }

  /** Position of the first entry whose BasicName equals `name` when case is
      ignored, or -1. */
  function MethodNamedAt(list: seq<MethodDef>, name: string): (k: int)
    ensures -1 <= k < |list|
    ensures k == -1 <==> forall i :: 0 <= i < |list| ==> !SameIgnoringCase(list[i].basicName, name)
    ensures k >= 0 ==> SameIgnoringCase(list[k].basicName, name)
                       && forall i :: 0 <= i < k ==> !SameIgnoringCase(list[i].basicName, name)
  {
    if list == [] then -1
    else if SameIgnoringCase(list[0].basicName, name) then 0
    else
      var k := MethodNamedAt(list[1..], name);
      if k == -1 then -1 else k + 1
  }

  /** GetMethodByName over an effective list: nothing for an empty name;
      otherwise the first entry whose BasicName matches ignoring case. */
  function MethodByName(list: seq<MethodDef>, name: string): Option<MethodDef> {
    if name == "" then None
    else
      var k := MethodNamedAt(list, name);
      if k < 0 then None else Some(list[k])
  }

  /** AddMethod: `effective` is the class's effective method list (inherited
      ones, then its own); the duplicate test runs against it, and the new
      method goes at the end of the own list, or at its front. */
  function AddMethodEffect(own: seq<MethodDef>, effective: seq<MethodDef>, md: Option<MethodDef>, append: bool)
    : (r: (bool, seq<MethodDef>))
    ensures r.0 <==> md.Some? && forall i :: 0 <= i < |effective| ==> !MethodClashes(effective[i], md.value)
    ensures !r.0 ==> r.1 == own
    ensures r.0 ==> |r.1| == |own| + 1
    ensures r.0 && append ==> r.1[..|own|] == own && r.1[|own|] == md.value
    ensures r.0 && !append ==> r.1[0] == md.value && r.1[1..] == own
  {
    if md.Some? && MethodDuplicateAt(effective, md.value) < 0 then
      (true, if append then own + [md.value] else [md.value] + own)
    else (false, own)
  }

  /** Adding a method to a class whose effective list has no clashes leaves
      the effective list without clashes, wherever the method goes. */
  lemma {:induction false} AddMethodKeepsEffectiveDistinct(inherited: seq<MethodDef>, own: seq<MethodDef>, md: Option<MethodDef>, append: bool)
    requires DistinctMethods(inherited + own)
    ensures DistinctMethods(inherited + AddMethodEffect(own, inherited + own, md, append).1)
  {
    var (ok, own') := AddMethodEffect(own, inherited + own, md, append);
    if ok {
      var m := md.value;
      var e := inherited + own;
      var e' := inherited + own';
      assert |e'| == |e| + 1;
      forall i, j | 0 <= i < j < |e'|
        ensures !MethodClashes(e'[i], e'[j])
      {
        if append {
          assert forall x :: 0 <= x < |e| ==> e'[x] == e[x];
          assert e'[|e|] == m;
        } else {
          var n := |inherited|;
          assert forall x :: 0 <= x < n ==> e'[x] == e[x];
          assert e'[n] == m;
          assert forall x :: n < x < |e'| ==> e'[x] == e[x - 1];
        }
      }
    }
  }

  /** RemoveMethod: a customized method is removed at its first position. */
  function RemoveMethodEffect(list: seq<MethodDef>, md: Option<MethodDef>): (r: (bool, seq<MethodDef>))
    ensures r.0 <==> md.Some? && md.value.isCustomized && IndexOfMethod(list, md.value.id) >= 0
    ensures !r.0 ==> r.1 == list
    ensures r.0 ==> var k := IndexOfMethod(list, md.value.id);
      && r.1 == list[..k] + list[k + 1..]
      && |r.1| == |list| - 1 && multiset(r.1) + multiset{list[k]} == multiset(list)
  {
    if md.Some? && md.value.isCustomized then
      var k := IndexOfMethod(list, md.value.id);
      if k >= 0 then
        var rest := list[..k] + list[k + 1..];
        assert list == list[..k] + [list[k]] + list[k + 1..];
        assert multiset(list) == multiset(list[..k]) + multiset{list[k]} + multiset(list[k + 1..]);
        (true, rest)
      else (false, list)
    else (false, list)
  }

  /** How a call ends: with a value, or with an exception. */
  datatype Completion = Returned(value: bool) | Threw

  /** SwapTwoMethods as written: the two positions are looked up, then the
      stores run one after the other, and a store at position -1 throws. */
  function SwapMethodsAsWritten(list: seq<MethodDef>, m1: Option<MethodDef>, m2: Option<MethodDef>)
    : (r: (Completion, seq<MethodDef>))
    ensures |r.1| == |list|
    ensures r.0 == Threw <==>
              && m1.Some? && m1.value.isCustomized && m2.Some? && m2.value.isCustomized
              && (IndexOfMethod(list, m1.value.id) < 0 || IndexOfMethod(list, m2.value.id) < 0)
    ensures r.0 == Returned(false) ==> r.1 == list
    ensures r.0 == Threw && IndexOfMethod(list, m1.value.id) >= 0 ==>
              var i := IndexOfMethod(list, m1.value.id);
              r.1[i] == m2.value && forall x :: 0 <= x < |list| && x != i ==> r.1[x] == list[x]
  {
    if m1.Some? && m1.value.isCustomized && m2.Some? && m2.value.isCustomized then
      var i := IndexOfMethod(list, m1.value.id);
      var j := IndexOfMethod(list, m2.value.id);
      if i < 0 then (Threw, list)
      else if j < 0 then (Threw, list[i := m2.value])
      else (Returned(true), list[i := m2.value][j := m1.value])
    else (Returned(false), list)
  }

  /** When the first method is in the list and the second is not, the call as
      written throws after overwriting the first one: the list then holds a
      method it did not hold, and has lost one it held. */
  lemma SwapMethodsAsWrittenHalfSwaps()
    ensures var a := MethodDef(1, "Jump", "Hero", "Jump", true, false, Method, Void, false);
            var b := MethodDef(2, "Run", "Hero", "Run", true, true, Method, Void, false);
            var (c, l) := SwapMethodsAsWritten([a], Some(a), Some(b));
            c == Threw && l == [b] && a !in l
  {
  }

  /** SwapTwoMethods with both positions checked before anything is stored:
      two customized methods that are both in the list are exchanged;
      otherwise the result is false and nothing changes. */
  function SwapMethodsEffect(list: seq<MethodDef>, m1: Option<MethodDef>, m2: Option<MethodDef>)
    : (r: (bool, seq<MethodDef>))
    ensures r.0 <==> m1.Some? && m1.value.isCustomized && m2.Some? && m2.value.isCustomized
                     && IndexOfMethod(list, m1.value.id) >= 0 && IndexOfMethod(list, m2.value.id) >= 0
    ensures !r.0 ==> r.1 == list
    ensures |r.1| == |list| && multiset(r.1) == multiset(list)
    ensures r.0 ==> var i, j := IndexOfMethod(list, m1.value.id), IndexOfMethod(list, m2.value.id);
      && r.1[i] == list[j] && r.1[j] == list[i]
      && forall x :: 0 <= x < |list| && x != i && x != j ==> r.1[x] == list[x]
  {
    if m1.Some? && m1.value.isCustomized && m2.Some? && m2.value.isCustomized then
      var i := IndexOfMethod(list, m1.value.id);
      var j := IndexOfMethod(list, m2.value.id);
      if i >= 0 && j >= 0 then (true, list[i := list[j]][j := list[i]]) else (false, list)
    else (false, list)
  }

  /** Where both methods are in the list, the corrected swap does what the
      call as written does; it differs only where that call would throw. */
  lemma {:induction false} SwapMethodsAgreesWhereDefined(list: seq<MethodDef>, m1: Option<MethodDef>, m2: Option<MethodDef>)
    requires m1.Some? && m2.Some? ==>
      (IndexOfMethod(list, m1.value.id) >= 0 ==> list[IndexOfMethod(list, m1.value.id)] == m1.value) &&
      (IndexOfMethod(list, m2.value.id) >= 0 ==> list[IndexOfMethod(list, m2.value.id)] == m2.value)
    ensures var (c, l) := SwapMethodsAsWritten(list, m1, m2);
            var (ok, l') := SwapMethodsEffect(list, m1, m2);
            c != Threw ==> c == Returned(ok) && l == l'
  {
    var (c, l) := SwapMethodsAsWritten(list, m1, m2);
    if c != Threw && m1.Some? && m1.value.isCustomized && m2.Some? && m2.value.isCustomized {
      var i := IndexOfMethod(list, m1.value.id);
      var j := IndexOfMethod(list, m2.value.id);
      if i == j {
        assert m1.value == m2.value;
      }
    }
  }

  /** The method that the filtered GetMethods offers first when a null method
      is allowed. Identity 0 stands for this one object. */
  const NullMethod := MethodDef(0, "null_method", "NullAgent", "null", false, false, Method, Void, false)

  /** The flags of MethodType that the filtered GetMethods tests. */
  datatype MethodTypeMask = MethodTypeMask(allowNullMethod: bool, methods: bool, tasks: bool, getters: bool, status: bool)

  /** The return types asked for: every type (ValueTypes.All), or some of the
      integer, floating-point and boolean kinds. */
  datatype ValueTypesMask = ValueTypesMask(all: bool, int32: bool, float: bool, boolean: bool)

  predicate IsPlainMethod(m: MethodDef) { m.memberType == Method }

  predicate IsTask(m: MethodDef) { m.memberType == Task }

  /** A getter returns a value and is not a named event; unless every type is
      asked for, its return type must be one of those asked for, checked in
      the order integer, floating point, boolean. */
  predicate IsGetter(vt: ValueTypesMask, m: MethodDef) {
    && m.returnType != Void
    && !m.isNamedEvent
    && (if vt.all then true
        else if vt.int32 && m.returnType == Int32 then true
        else if vt.float && m.returnType == Float then true
        else vt.boolean && m.returnType == Bool)
  }

  /** A status method matches the linked method, or any method when there is
      no linked method; `matches` stands for Plugin.IsMatchedStatusMethod. */
  predicate IsStatusFor(linked: Option<MethodDef>, matches: (MethodDef, MethodDef) -> bool, m: MethodDef) {
    linked.None? || matches(linked.value, m)
  }

  /** Some entry of the list is the object `id`. */
  predicate ContainsMethod(list: seq<MethodDef>, id: nat) {
    exists i :: 0 <= i < |list| && list[i].id == id
  }

  ghost predicate UniqueIds(list: seq<MethodDef>) {
    forall i, j :: 0 <= i < j < |list| ==> list[i].id != list[j].id
  }

  /** The four passes of the filtered GetMethods. */
  datatype Section =
    | PlainMethods
    | Tasks
    | Getters(vt: ValueTypesMask)
    | Statuses(linked: Option<MethodDef>, matches: (MethodDef, MethodDef) -> bool)

  predicate Keeps(section: Section, m: MethodDef) {
    match section
    case PlainMethods => IsPlainMethod(m)
    case Tasks => IsTask(m)
    case Getters(vt) => IsGetter(vt, m)
    case Statuses(linked, matches) => IsStatusFor(linked, matches, m)
  }

  /** One pass of the filtered GetMethods: every method of `all` that belongs to
      `section` and whose object is not yet in the list built so far is
      appended, in order. */
  function AppendNew(acc: seq<MethodDef>, all: seq<MethodDef>, section: Section): (r: seq<MethodDef>)
    ensures |acc| <= |r| && r[..|acc|] == acc
    decreases |all|
  {
    if all == [] then acc
    else
      var m := all[0];
      var acc1 := if Keeps(section, m) && !ContainsMethod(acc, m.id) then acc + [m] else acc;
      var r := AppendNew(acc1, all[1..], section);
      assert r[..|acc|] == r[..|acc1|][..|acc|];
      r
  }

  /** What a pass appends comes from `all` and belongs to `section`. */
  lemma {:induction false} AppendNewSound(acc: seq<MethodDef>, all: seq<MethodDef>, section: Section)
    ensures var r := AppendNew(acc, all, section);
      forall i :: |acc| <= i < |r| ==> r[i] in all && Keeps(section, r[i])
    decreases |all|
  {
    if all != [] {
      var m := all[0];
      var acc1 := if Keeps(section, m) && !ContainsMethod(acc, m.id) then acc + [m] else acc;
      AppendNewSound(acc1, all[1..], section);
      var r := AppendNew(acc, all, section);
      assert r == AppendNew(acc1, all[1..], section);
      forall i | |acc| <= i < |r| ensures r[i] in all && Keeps(section, r[i]) {
        if i >= |acc1| {
          assert r[i] in all[1..];
        } else {
          assert r[i] == acc1[i] == m;
        }
      }
    }
  }

  /** After a pass, every method of `all` in `section` is in the list,
      as is everything that was in it before. */
  lemma {:induction false} AppendNewComplete(acc: seq<MethodDef>, all: seq<MethodDef>, section: Section)
    ensures var r := AppendNew(acc, all, section);
      forall m :: (m in all && Keeps(section, m)) || m in acc ==> ContainsMethod(r, m.id)
    decreases |all|
  {
    var r := AppendNew(acc, all, section);
    if all == [] {
      forall m | m in acc ensures ContainsMethod(r, m.id) {
        var k :| 0 <= k < |acc| && acc[k] == m;
        assert r[k] == m;
      }
    } else {
      var m0 := all[0];
      var acc1 := if Keeps(section, m0) && !ContainsMethod(acc, m0.id) then acc + [m0] else acc;
      AppendNewComplete(acc1, all[1..], section);
      assert r == AppendNew(acc1, all[1..], section);
      forall m | (m in all && Keeps(section, m)) || m in acc ensures ContainsMethod(r, m.id) {
        if m in acc {
          assert m in acc1;
        } else if m == m0 {
          if ContainsMethod(acc, m0.id) {
            var k :| 0 <= k < |acc| && acc[k].id == m0.id;
            assert acc[k] in acc1;
          } else {
            assert acc1[|acc|] == m0;
            assert m0 in acc1;
          }
        } else {
          assert m in all[1..];
        }
      }
    }
  }

  /** A pass never appends an object that is already in the list. */
  lemma {:induction false} AppendNewUnique(acc: seq<MethodDef>, all: seq<MethodDef>, section: Section)
    requires UniqueIds(acc)
    ensures UniqueIds(AppendNew(acc, all, section))
    decreases |all|
  {
    if all != [] {
      var m := all[0];
      var acc1 := if Keeps(section, m) && !ContainsMethod(acc, m.id) then acc + [m] else acc;
      assert UniqueIds(acc1);
      AppendNewUnique(acc1, all[1..], section);
    }
  }

  /** The passes the filtered GetMethods runs, in its order: plain methods,
      tasks, getters, status methods, each when its flag is set. */
  function ChosenSections(mask: MethodTypeMask, vt: ValueTypesMask,
                          linked: Option<MethodDef>, matches: (MethodDef, MethodDef) -> bool): seq<Section>
  {
    (if mask.methods then [PlainMethods] else [])
    + (if mask.tasks then [Tasks] else [])
    + (if mask.getters then [Getters(vt)] else [])
    + (if mask.status then [Statuses(linked, matches)] else [])
  }

  function Passes(acc: seq<MethodDef>, all: seq<MethodDef>, sections: seq<Section>): seq<MethodDef>
    decreases |sections|
  {
    if sections == [] then acc else Passes(AppendNew(acc, all, sections[0]), all, sections[1..])
  }

  /** The filtered GetMethods over the effective list `all`. */
  function SelectMethods(all: seq<MethodDef>, mask: MethodTypeMask, vt: ValueTypesMask,
                         linked: Option<MethodDef>, matches: (MethodDef, MethodDef) -> bool): seq<MethodDef>
  {
    Passes(if mask.allowNullMethod then [NullMethod] else [], all, ChosenSections(mask, vt, linked, matches))
  }

  /** A pass that runs only when its flag is set. */
  function PassIf(acc: seq<MethodDef>, all: seq<MethodDef>, on: bool, section: Section): seq<MethodDef> {
    if on then AppendNew(acc, all, section) else acc
  }

  lemma {:induction false} PassesConcat(acc: seq<MethodDef>, all: seq<MethodDef>, a: seq<Section>, b: seq<Section>)
    ensures Passes(acc, all, a + b) == Passes(Passes(acc, all, a), all, b)
    decreases |a|
  {
    if a == [] {
      assert a + b == b;
    } else {
      assert (a + b)[0] == a[0] && (a + b)[1..] == a[1..] + b;
      PassesConcat(AppendNew(acc, all, a[0]), all, a[1..], b);
    }
  }

  lemma PassesOfAtMostOne(acc: seq<MethodDef>, all: seq<MethodDef>, on: bool, section: Section)
    ensures Passes(acc, all, if on then [section] else []) == PassIf(acc, all, on, section)
  {
    if on {
      assert [section][1..] == [];
    }
  }

  /** SelectMethods runs its passes one after the other, in the order of the
      flags. */
  lemma SelectMethodsInSteps(all: seq<MethodDef>, mask: MethodTypeMask, vt: ValueTypesMask,
                             linked: Option<MethodDef>, matches: (MethodDef, MethodDef) -> bool)
    ensures var start := if mask.allowNullMethod then [NullMethod] else [];
            var s1 := PassIf(start, all, mask.methods, PlainMethods);
            var s2 := PassIf(s1, all, mask.tasks, Tasks);
            var s3 := PassIf(s2, all, mask.getters, Getters(vt));
            SelectMethods(all, mask, vt, linked, matches) == PassIf(s3, all, mask.status, Statuses(linked, matches))
  {
    var start := if mask.allowNullMethod then [NullMethod] else [];
    var a := if mask.methods then [PlainMethods] else [];
    var b := if mask.tasks then [Tasks] else [];
    var c := if mask.getters then [Getters(vt)] else [];
    var d := if mask.status then [Statuses(linked, matches)] else [];
    PassesConcat(start, all, a + b + c, d);
    PassesConcat(start, all, a + b, c);
    PassesConcat(start, all, a, b);
    var s1 := Passes(start, all, a);
    var s2 := Passes(s1, all, b);
    var s3 := Passes(s2, all, c);
    PassesOfAtMostOne(start, all, mask.methods, PlainMethods);
    PassesOfAtMostOne(s1, all, mask.tasks, Tasks);
    PassesOfAtMostOne(s2, all, mask.getters, Getters(vt));
    PassesOfAtMostOne(s3, all, mask.status, Statuses(linked, matches));
  }

  /** Whether the filtered GetMethods asks for the method `m`. */
  predicate Selected(mask: MethodTypeMask, vt: ValueTypesMask, linked: Option<MethodDef>,
                     matches: (MethodDef, MethodDef) -> bool, m: MethodDef) {
    || (mask.methods && IsPlainMethod(m))
    || (mask.tasks && IsTask(m))
    || (mask.getters && IsGetter(vt, m))
    || (mask.status && IsStatusFor(linked, matches, m))
  }

  predicate InSomeSection(sections: seq<Section>, m: MethodDef) {
    exists k :: 0 <= k < |sections| && Keeps(sections[k], m)
  }

  lemma {:induction false} ChosenSectionsSelect(mask: MethodTypeMask, vt: ValueTypesMask,
                                                linked: Option<MethodDef>, matches: (MethodDef, MethodDef) -> bool, m: MethodDef)
    ensures InSomeSection(ChosenSections(mask, vt, linked, matches), m) <==> Selected(mask, vt, linked, matches, m)
  {
    var a := if mask.methods then [PlainMethods] else [];
    var b := if mask.tasks then [Tasks] else [];
    var c := if mask.getters then [Getters(vt)] else [];
    var d := if mask.status then [Statuses(linked, matches)] else [];
    var ss := ChosenSections(mask, vt, linked, matches);
    assert ss == a + b + c + d;
    if Selected(mask, vt, linked, matches, m) {
      if mask.methods && IsPlainMethod(m) {
        assert Keeps(ss[0], m);
      } else if mask.tasks && IsTask(m) {
        assert Keeps(ss[|a|], m);
      } else if mask.getters && IsGetter(vt, m) {
        assert Keeps(ss[|a| + |b|], m);
      } else {
        assert Keeps(ss[|a| + |b| + |c|], m);
      }
    }
    if InSomeSection(ss, m) {
      var k :| 0 <= k < |ss| && Keeps(ss[k], m);
      if k < |a| {
        assert ss[k] == PlainMethods;
      } else if k < |a| + |b| {
        assert ss[k] == Tasks;
      } else if k < |a| + |b| + |c| {
        assert ss[k] == Getters(vt);
      } else {
        assert ss[k] == d[0];
      }
    }
  }

  lemma {:induction false} ContainsCarries(a: seq<MethodDef>, b: seq<MethodDef>)
    requires |a| <= |b| && b[..|a|] == a
    ensures forall id :: ContainsMethod(a, id) ==> ContainsMethod(b, id)
  {
    forall id | ContainsMethod(a, id) ensures ContainsMethod(b, id) {
      var k :| 0 <= k < |a| && a[k].id == id;
      assert b[k] == a[k];
    }
  }

  /** A run of passes keeps the list unique, keeps what it held, appends only
      methods of `all` in one of its sections, and leaves every such method in
      the list. */
  lemma {:induction false} PassesSpec(acc: seq<MethodDef>, all: seq<MethodDef>, sections: seq<Section>)
    requires UniqueIds(acc)
    ensures var r := Passes(acc, all, sections);
      && UniqueIds(r)
      && |acc| <= |r| && r[..|acc|] == acc
      && (forall i :: |acc| <= i < |r| ==> r[i] in all && InSomeSection(sections, r[i]))
      && (forall m :: m in all && InSomeSection(sections, m) ==> ContainsMethod(r, m.id))
    decreases |sections|
  {
    if sections != [] {
      var acc1 := AppendNew(acc, all, sections[0]);
      AppendNewSound(acc, all, sections[0]);
      AppendNewComplete(acc, all, sections[0]);
      AppendNewUnique(acc, all, sections[0]);
      PassesSpec(acc1, all, sections[1..]);
      var r := Passes(acc, all, sections);
      assert r == Passes(acc1, all, sections[1..]);
      assert r[..|acc|] == r[..|acc1|][..|acc|];
      ContainsCarries(acc1, r);
      forall i | |acc| <= i < |r| ensures r[i] in all && InSomeSection(sections, r[i]) {
        if i < |acc1| {
          assert r[i] == acc1[i];
          assert Keeps(sections[0], r[i]);
        } else {
          var k :| 0 <= k < |sections[1..]| && Keeps(sections[1..][k], r[i]);
          assert Keeps(sections[k + 1], r[i]);
        }
      }
      forall m | m in all && InSomeSection(sections, m) ensures ContainsMethod(r, m.id) {
        var k :| 0 <= k < |sections| && Keeps(sections[k], m);
        if k == 0 {
          assert ContainsMethod(acc1, m.id);
        } else {
          assert Keeps(sections[1..][k - 1], m);
        }
      }
    }
  }

  /** The filtered list holds each object at most once; it starts with the
      null method when that is allowed; every other entry is an asked-for
      method of `all`; and every asked-for method of `all` is in it. */
  lemma {:induction false} SelectMethodsSpec(all: seq<MethodDef>, mask: MethodTypeMask, vt: ValueTypesMask,
                                             linked: Option<MethodDef>, matches: (MethodDef, MethodDef) -> bool)
    ensures var r := SelectMethods(all, mask, vt, linked, matches);
      && UniqueIds(r)
      && (mask.allowNullMethod ==> |r| > 0 && r[0] == NullMethod)
      && (forall i :: (if mask.allowNullMethod then 1 else 0) <= i < |r| ==>
            r[i] in all && Selected(mask, vt, linked, matches, r[i]))
      && (forall m :: m in all && Selected(mask, vt, linked, matches, m) ==> ContainsMethod(r, m.id))
  {
    var s0 := if mask.allowNullMethod then [NullMethod] else [];
    var ss := ChosenSections(mask, vt, linked, matches);
    PassesSpec(s0, all, ss);
    var r := SelectMethods(all, mask, vt, linked, matches);
    if mask.allowNullMethod {
      assert r[..1] == [NullMethod];
    }
    forall m ensures InSomeSection(ss, m) <==> Selected(mask, vt, linked, matches, m) {
      ChosenSectionsSelect(mask, vt, linked, matches, m);
    }
  }
}
