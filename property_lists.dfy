/** The rules by which an agent type edits its own property list
    (`_propertyList`), stated on values: each function gives the outcome of one
    editing operation (its boolean result and the new list) from the old list. */
module PropertyLists {
  import opened Descriptors

  /** An entry clashes with a new property when it is the same object or has
      the same BasicName, compared case-sensitively. */
  predicate Clashes(q: PropertyDef, p: PropertyDef) {
    q.id == p.id || q.basicName == p.basicName
  }

  /** No two entries are the same object or share a BasicName. */
  ghost predicate Distinct(list: seq<PropertyDef>) {
    forall i, j :: 0 <= i < j < |list| ==> !Clashes(list[i], list[j])
  }

  /** The parameters of the list form a prefix of it. */
  ghost predicate ParsFormPrefix(list: seq<PropertyDef>) {
    forall i, j :: 0 <= i < j < |list| && list[j].isPar ==> list[i].isPar
  }

  /** Position of the first entry that clashes with `p`, or -1. */
  function DuplicateAt(list: seq<PropertyDef>, p: PropertyDef): (k: int)
    ensures -1 <= k < |list|
    ensures k == -1 <==> forall i :: 0 <= i < |list| ==> !Clashes(list[i], p)
    ensures k >= 0 ==> Clashes(list[k], p) && forall i :: 0 <= i < k ==> !Clashes(list[i], p)
  {
    if list == [] then -1
    else if Clashes(list[0], p) then 0
    else
      var k := DuplicateAt(list[1..], p);
      if k == -1 then -1 else k + 1
  }

  /** Length of the longest prefix made of parameters (getLastParIndex). */
  function ParRunLength(list: seq<PropertyDef>): (n: nat)
    ensures n <= |list|
    ensures forall i :: 0 <= i < n ==> list[i].isPar
    ensures n < |list| ==> !list[n].isPar
  {
    if list == [] || !list[0].isPar then 0 else 1 + ParRunLength(list[1..])
  }

  /** Position of the first entry that is the object `id`, or -1. */
  function IndexOfId(list: seq<PropertyDef>, id: nat): (k: int)
    ensures -1 <= k < |list|
    ensures k == -1 <==> forall i :: 0 <= i < |list| ==> list[i].id != id
    ensures k >= 0 ==> list[k].id == id && forall i :: 0 <= i < k ==> list[i].id != id
  {
    if list == [] then -1
    else if list[0].id == id then 0
    else
      var k := IndexOfId(list[1..], id);
      if k == -1 then -1 else k + 1
  }

  /** Position of the first entry whose BasicName equals `name` when case is
      ignored, or -1. */
  function NamedAt(list: seq<PropertyDef>, name: string): (k: int)
    ensures -1 <= k < |list|
    ensures k == -1 <==> forall i :: 0 <= i < |list| ==> !SameIgnoringCase(list[i].basicName, name)
    ensures k >= 0 ==> SameIgnoringCase(list[k].basicName, name)
                       && forall i :: 0 <= i < k ==> !SameIgnoringCase(list[i].basicName, name)
  {
    if list == [] then -1
    else if SameIgnoringCase(list[0].basicName, name) then 0
    else
      var k := NamedAt(list[1..], name);
      if k == -1 then -1 else k + 1
  }

  /** GetPropertyByName: nothing for an empty name; otherwise the first entry
      whose BasicName matches ignoring case. */
  function PropertyByName(list: seq<PropertyDef>, name: string): Option<PropertyDef> {
    if name == "" then None
    else
      var k := NamedAt(list, name);
      if k < 0 then None else Some(list[k])
  }

  /** Names are kept apart case-sensitively but looked up case-insensitively:
      a property whose name differs from an entry's only in case is accepted,
      and the lookup of its own name then finds the older entry. */
  lemma CaseVariantIsShadowed()
    ensures var speed := PropertyDef(1, "Speed", "Hero", "Speed", false, false, false, false, false, false);
            var speed2 := PropertyDef(2, "speed", "Hero", "speed", false, true, false, false, false, false);
            var (ok, list) := AddEntry([speed], speed2, -1);
            ok && list == [speed, speed2] && PropertyByName(list, "speed") == Some(speed)
  {
    var speed := PropertyDef(1, "Speed", "Hero", "Speed", false, false, false, false, false, false);
    SameIgnoringCaseIsWeakerThanEquality("Speed", "speed");
    assert Lower("speed") == "speed";
    assert SameIgnoringCase(speed.basicName, "speed");
  }

  /** In general: a non-parameter added with no index goes after every entry,
      so once the list holds a name that matches it ignoring case, the lookup
      of its own name finds an older entry, never the new one. */
  lemma {:induction false} CaseVariantFoundFirst(list: seq<PropertyDef>, p: PropertyDef, i: nat)
    requires !p.isPar && p.basicName != ""
    requires i < |list| && SameIgnoringCase(list[i].basicName, p.basicName)
    ensures var (ok, list') := AddEntry(list, p, -1);
      ok ==> list' == list + [p] && PropertyByName(list', p.basicName) == PropertyByName(list, p.basicName)
             && PropertyByName(list, p.basicName).Some?
  {
    var (ok, list') := AddEntry(list, p, -1);
    if ok {
      assert list' == list + [p];
      assert list'[i] == list[i];
      var j := NamedAt(list', p.basicName);
      var j0 := NamedAt(list, p.basicName);
      assert 0 <= j <= i && 0 <= j0 <= i;
      assert forall x :: 0 <= x < |list| ==> list'[x] == list[x];
      assert j == j0;
    }
  }

  /** The index AddProperty works with: a parameter given no index goes after
      the leading run of parameters. */
  function AdjustedIndex(list: seq<PropertyDef>, p: PropertyDef, index: int): int {
    if index < 0 && p.isPar then ParRunLength(list) else index
  }

  /** The list with `p` placed at the adjusted index, or appended when it is
      still negative. */
  function Placed(list: seq<PropertyDef>, p: PropertyDef, index: int): seq<PropertyDef>
    requires index <= |list|
  {
    var at := AdjustedIndex(list, p, index);
    if at < 0 then list + [p] else list[..at] + [p] + list[at..]
  }

  /** A customized property that clashes with a non-customized entry marks that
      entry as exported but also customized. */
  function MarkExported(list: seq<PropertyDef>, k: nat, p: PropertyDef): seq<PropertyDef>
    requires k < |list|
  {
    if !list[k].isCustomized && p.isCustomized
    then list[k := list[k].(isExportedButAlsoCustomized := true)]
    else list
  }

  /** One AddProperty call without its array branch: (result, new list). */
  function AddEntry(list: seq<PropertyDef>, p: PropertyDef, index: int): (bool, seq<PropertyDef>)
    requires index <= |list|
  {
    var k := DuplicateAt(list, p);
    if k >= 0 then (false, MarkExported(list, k, p)) else (true, Placed(list, p, index))
  }

  /** AddProperty(property, index): `element` is the element accessor that the
      clone of an array-typed property becomes; it is added at the same
      adjusted index, through the same duplicate test. */
  function AddPropertyEffect(list: seq<PropertyDef>, property: Option<PropertyDef>, index: int, element: PropertyDef)
    : (bool, seq<PropertyDef>)
    requires index <= |list|
  {
    match property
    case None => (false, list)
    case Some(p) =>
      var (ok, list1) := AddEntry(list, p, index);
      if ok && p.isArray then
        var at := AdjustedIndex(list, p, index);
        assert at <= |list| < |list1|;
        (true, AddEntry(list1, element, at).1)
      else (ok, list1)
  }

  /** A rejected add leaves every entry as it was, apart from the
      exported-but-also-customized flag of the first clashing entry, which is
      set exactly when that entry is not customized and the new one is. */
  lemma AddRejectedOnlyMarks(list: seq<PropertyDef>, property: Option<PropertyDef>, index: int, element: PropertyDef)
    requires index <= |list|
    ensures var (ok, list') := AddPropertyEffect(list, property, index, element);
      && (!ok <==> property.None? || exists i :: 0 <= i < |list| && Clashes(list[i], property.value))
      && (!ok ==> |list'| == |list|)
      && (!ok ==> forall i :: 0 <= i < |list| ==>
            list'[i] == list[i] ||
            (list'[i] == list[i].(isExportedButAlsoCustomized := true)
             && i == DuplicateAt(list, property.value)
             && !list[i].isCustomized && property.value.isCustomized))
      && (!ok && property.Some? ==>
            var k := DuplicateAt(list, property.value);
            && 0 <= k < |list|
            && list'[k] == if !list[k].isCustomized && property.value.isCustomized
                           then list[k].(isExportedButAlsoCustomized := true)
                           else list[k])
  {
  }

  lemma {:induction false} AddEntryGrows(list: seq<PropertyDef>, p: PropertyDef, index: int)
    requires index <= |list|
    ensures var (ok, list') := AddEntry(list, p, index);
      && (ok ==> |list'| == |list| + 1 && p in list')
      && (!ok ==> |list'| == |list|)
      && (ok ==> 0 <= AdjustedIndex(list, p, index) ==> list'[AdjustedIndex(list, p, index)] == p)
      && (ok && AdjustedIndex(list, p, index) < 0 ==> list' == list + [p])
  {
    var at := AdjustedIndex(list, p, index);
    if DuplicateAt(list, p) < 0 && at >= 0 {
      assert Placed(list, p, index)[at] == p;
    }
  }

  /** Some entry of the list is the object `id`. */
  ghost predicate HasId(list: seq<PropertyDef>, id: nat) {
    exists i :: 0 <= i < |list| && list[i].id == id
  }

  lemma {:induction false} AddEntryKeepsIds(list: seq<PropertyDef>, q: PropertyDef, index: int, id: nat)
    requires index <= |list|
    requires HasId(list, id)
    ensures HasId(AddEntry(list, q, index).1, id)
  {
    var i :| 0 <= i < |list| && list[i].id == id;
    var k := DuplicateAt(list, q);
    var at := AdjustedIndex(list, q, index);
    var l := AddEntry(list, q, index).1;
    if k >= 0 {
      assert l[i].id == id;
    } else if at < 0 || i < at {
      assert l[i] == list[i];
    } else {
      assert l[i + 1] == list[i];
    }
  }

  /** The placed list holds the entries of the list and the new one. */
  lemma PlacedMembers(list: seq<PropertyDef>, p: PropertyDef, index: int)
    requires index <= |list|
    ensures forall q :: q in Placed(list, p, index) <==> q in list || q == p
  {
    var at := AdjustedIndex(list, p, index);
    if at >= 0 {
      assert list == list[..at] + list[at..];
    }
  }

  /** A successful add grows the list by one, or by two when an array-typed
      property's element accessor is accepted as well; the new property is then
      in the list (and so is the accessor when the list grew by two). */
  lemma {:induction false} AddPropertyGrows(list: seq<PropertyDef>, property: Option<PropertyDef>, index: int, element: PropertyDef)
    requires index <= |list|
    ensures var (ok, list') := AddPropertyEffect(list, property, index, element);
      && (ok ==> HasId(list', property.value.id))
      && (ok ==> |list'| == |list| + 1 || |list'| == |list| + 2)
      && (ok && |list'| == |list| + 2 ==> property.value.isArray && element in list')
      && (ok && !property.value.isArray ==> |list'| == |list| + 1)
      && (ok && property.value.isArray ==>
            (|list'| == |list| + 2 <==>
             !Clashes(property.value, element) && forall i :: 0 <= i < |list| ==> !Clashes(list[i], element)))
  {
    if property.Some? {
      var p := property.value;
      var (ok, list1) := AddEntry(list, p, index);
      AddEntryGrows(list, p, index);
      if ok {
        var j :| 0 <= j < |list1| && list1[j] == p;
        assert HasId(list1, p.id);
        if p.isArray {
          var at := AdjustedIndex(list, p, index);
          AddEntryGrows(list1, element, at);
          AddEntryKeepsIds(list1, element, at, p.id);
          PlacedMembers(list, p, index);
          var unclashed := !Clashes(p, element) && forall i :: 0 <= i < |list| ==> !Clashes(list[i], element);
          if unclashed {
            forall i | 0 <= i < |list1| ensures !Clashes(list1[i], element) {
              assert list1[i] in list1;
              if list1[i] != p {
                var m :| 0 <= m < |list| && list[m] == list1[i];
              }
            }
          } else if Clashes(p, element) {
            var j :| 0 <= j < |list1| && list1[j] == p;
          } else {
            var m :| 0 <= m < |list| && Clashes(list[m], element);
            assert list[m] in list1;
          }
        }
      }
    }
  }

  /** Placing an entry keeps the parameters a prefix when a parameter goes
      into or right after the leading run and any other entry goes after it. */
  lemma {:induction false} InsertKeepsParPrefix(list: seq<PropertyDef>, q: PropertyDef, at: nat)
    requires at <= |list|
    requires ParsFormPrefix(list)
    requires if q.isPar then at <= ParRunLength(list) else ParRunLength(list) <= at
    ensures ParsFormPrefix(list[..at] + [q] + list[at..])
  {
    var n := ParRunLength(list);
    var l := list[..at] + [q] + list[at..];
    forall i, j | 0 <= i < j < |l| && l[j].isPar
      ensures l[i].isPar
    {
      if i < at {
        assert l[i] == list[i];
        if j < at {
          assert l[j] == list[j];
        } else if j == at {
          assert q.isPar;
          assert i < n;
        } else {
          assert l[j] == list[j - 1];
        }
      } else if i == at {
        assert l[j] == list[j - 1];
        if !q.isPar {
          assert false;
        }
      } else {
        assert l[i] == list[i - 1] && l[j] == list[j - 1];
      }
    }
  }

  lemma {:induction false} AddEntryKeepsParPrefix(list: seq<PropertyDef>, q: PropertyDef, index: int)
    requires index <= |list|
    requires ParsFormPrefix(list)
    requires index < 0 || (if q.isPar then index <= ParRunLength(list) else ParRunLength(list) <= index)
    ensures ParsFormPrefix(AddEntry(list, q, index).1)
  {
    var k := DuplicateAt(list, q);
    var at := AdjustedIndex(list, q, index);
    if k >= 0 {
      var l := MarkExported(list, k, q);
      assert forall i :: 0 <= i < |l| ==> l[i].isPar == list[i].isPar;
    } else if at < 0 {
      assert !q.isPar;
      var l := list + [q];
      assert forall i :: 0 <= i < |list| ==> l[i] == list[i];
    } else {
      InsertKeepsParPrefix(list, q, at);
    }
  }

  /** The leading run of parameters grows when a parameter is inserted into it
      and is unchanged when a non-parameter is inserted after it. */
  lemma {:induction false} AddEntryParRun(list: seq<PropertyDef>, q: PropertyDef, index: int)
    requires index <= |list|
    requires ParsFormPrefix(list)
    requires index < 0 || (if q.isPar then index <= ParRunLength(list) else ParRunLength(list) <= index)
    ensures var list' := AddEntry(list, q, index).1;
      && ParRunLength(list') >= ParRunLength(list)
      && (!q.isPar ==> ParRunLength(list') == ParRunLength(list))
  {
    var n := ParRunLength(list);
    var k := DuplicateAt(list, q);
    var at := AdjustedIndex(list, q, index);
    var l := AddEntry(list, q, index).1;
    AddEntryKeepsParPrefix(list, q, index);
    assert |l| >= |list|;
    if k >= 0 {
      assert forall i :: 0 <= i < |l| ==> l[i].isPar == list[i].isPar;
      RunLengthByPars(list, l);
    } else if at < 0 {
      assert l == list + [q];
      assert forall i :: 0 <= i < n ==> l[i].isPar;
      RunAtLeast(l, n);
      if n < |list| {
        assert l[n] == list[n];
      } else {
        assert l[n] == q;
      }
    } else {
      assert l == list[..at] + [q] + list[at..];
      if q.isPar {
        assert at <= n;
        assert forall i :: 0 <= i <= n ==> l[i].isPar by {
          forall i | 0 <= i <= n ensures l[i].isPar {
            if i < at { assert l[i] == list[i]; } else if i == at { } else { assert l[i] == list[i - 1]; }
          }
        }
        RunAtLeast(l, n + 1);
      } else {
        assert forall i :: 0 <= i < n ==> l[i] == list[i];
        RunAtLeast(l, n);
        if n < at {
          assert l[n] == list[n];
        } else {
          assert l[n] == q;
        }
      }
    }
  }

  lemma {:induction false} RunAtLeast(list: seq<PropertyDef>, n: nat)
    requires n <= |list|
    requires forall i :: 0 <= i < n ==> list[i].isPar
    ensures ParRunLength(list) >= n
    ensures n < |list| && !list[n].isPar ==> ParRunLength(list) == n
  {
    if n > 0 {
      RunAtLeast(list[1..], n - 1);
    } else if n < |list| && !list[n].isPar {
    }
  }

  lemma {:induction false} RunLengthByPars(a: seq<PropertyDef>, b: seq<PropertyDef>)
    requires |a| == |b|
    requires forall i :: 0 <= i < |a| ==> a[i].isPar == b[i].isPar
    ensures ParRunLength(a) == ParRunLength(b)
  {
    if a != [] && a[0].isPar {
      RunLengthByPars(a[1..], b[1..]);
    }
  }

  /** Adding a parameter with no index, or a property at an index that respects
      the parameter prefix, keeps the parameters a prefix of the list; the
      element accessor of an array-typed property is a parameter exactly when
      its property is. */
  lemma {:induction false} AddPropertyKeepsParPrefix(list: seq<PropertyDef>, property: Option<PropertyDef>, index: int, element: PropertyDef)
    requires index <= |list|
    requires ParsFormPrefix(list)
    requires property.Some? ==> element.isPar == property.value.isPar
    requires property.Some? && index >= 0 ==>
      if property.value.isPar then index <= ParRunLength(list) else ParRunLength(list) <= index
    ensures ParsFormPrefix(AddPropertyEffect(list, property, index, element).1)
  {
    if property.Some? {
      var p := property.value;
      var (ok, list1) := AddEntry(list, p, index);
      AddEntryKeepsParPrefix(list, p, index);
      if ok && p.isArray {
        var at := AdjustedIndex(list, p, index);
        AddEntryParRun(list, p, index);
        if at >= 0 {
          if !p.isPar {
            assert ParRunLength(list1) == ParRunLength(list) <= at;
          }
        }
        AddEntryKeepsParPrefix(list1, element, at);
      }
    }
  }

  lemma {:induction false} PlacedKeepsDistinct(list: seq<PropertyDef>, p: PropertyDef, index: int)
    requires index <= |list|
    requires Distinct(list)
    requires DuplicateAt(list, p) == -1
    ensures Distinct(Placed(list, p, index))
  {
    var at := AdjustedIndex(list, p, index);
    var l := Placed(list, p, index);
    if at < 0 {
      assert forall i :: 0 <= i < |list| ==> l[i] == list[i];
    } else {
      forall i, j | 0 <= i < j < |l|
        ensures !Clashes(l[i], l[j])
      {
        if j < at {
          assert l[i] == list[i] && l[j] == list[j];
        } else if j == at {
          assert l[i] == list[i];
        } else if i < at {
          assert l[i] == list[i] && l[j] == list[j - 1];
        } else if i == at {
          assert l[j] == list[j - 1];
        } else {
          assert l[i] == list[i - 1] && l[j] == list[j - 1];
        }
      }
    }
  }

  lemma {:induction false} AddEntryKeepsDistinct(list: seq<PropertyDef>, p: PropertyDef, index: int)
    requires index <= |list|
    requires Distinct(list)
    ensures Distinct(AddEntry(list, p, index).1)
  {
    var k := DuplicateAt(list, p);
    if k >= 0 {
      var l := MarkExported(list, k, p);
      assert forall i :: 0 <= i < |l| ==> l[i].id == list[i].id && l[i].basicName == list[i].basicName;
    } else {
      PlacedKeepsDistinct(list, p, index);
    }
  }

  /** No add ever produces two entries that are the same object or share a
      BasicName. */
  lemma {:induction false} AddPropertyKeepsDistinct(list: seq<PropertyDef>, property: Option<PropertyDef>, index: int, element: PropertyDef)
    requires index <= |list|
    requires Distinct(list)
    ensures Distinct(AddPropertyEffect(list, property, index, element).1)
  {
    if property.Some? {
      var p := property.value;
      var (ok, list1) := AddEntry(list, p, index);
      AddEntryKeepsDistinct(list, p, index);
      if ok && p.isArray {
        AddEntryGrows(list, p, index);
        AddEntryKeepsDistinct(list1, element, AdjustedIndex(list, p, index));
      }
    }
  }

  /** ClearPars: the list without its parameters, in the same order. */
  function NonPars(list: seq<PropertyDef>): (r: seq<PropertyDef>)
    ensures |r| <= |list|
  {
    if list == [] then []
    else (if list[0].isPar then [] else [list[0]]) + NonPars(list[1..])
  }

  /** ClearPars removes exactly the parameters: an entry survives if and only
      if it was in the list and is not a parameter. */
  lemma {:induction false} NonParsKeepsExactlyNonPars(list: seq<PropertyDef>)
    ensures forall q :: q in NonPars(list) <==> q in list && !q.isPar
  {
    if list != [] {
      NonParsKeepsExactlyNonPars(list[1..]);
      assert list == [list[0]] + list[1..];
    }
  }

  /** Clearing a suffix, one entry at a time. */
  lemma NonParsStep(list: seq<PropertyDef>, i: nat)
    requires i < |list|
    ensures NonPars(list[i..]) == (if list[i].isPar then [] else [list[i]]) + NonPars(list[i + 1..])
  {
    assert list[i..][0] == list[i] && list[i..][1..] == list[i + 1..];
  }

  /** One step of ClearPars's backward scan: `current` is the list with the
      entries after position i cleared; removing position i when it holds a
      parameter clears it from i on. */
  lemma NonParsRemoveStep(orig: seq<PropertyDef>, i: nat, current: seq<PropertyDef>)
    requires i < |orig|
    requires current == orig[..i + 1] + NonPars(orig[i + 1..])
    ensures i < |current| && current[i] == orig[i]
    ensures (if current[i].isPar then current[..i] + current[i + 1..] else current) == orig[..i] + NonPars(orig[i..])
  {
    var rest := NonPars(orig[i + 1..]);
    assert orig[..i + 1] == orig[..i] + [orig[i]];
    SplitAround(orig[..i], orig[i], rest);
    NonParsStep(orig, i);
  }

  /** Taking out the entry between `head` and `tail`. */
  lemma SplitAround<T>(head: seq<T>, x: T, tail: seq<T>)
    ensures var s := head + [x] + tail;
            |head| < |s| && s[|head|] == x && s[..|head|] + s[|head| + 1..] == head + tail
  {
    var s := head + [x] + tail;
    assert s[..|head|] == head;
    assert s[|head| + 1..] == tail;
  }

  /** ClearPars keeps the order of the entries it keeps: clearing a
      concatenation clears each part. */
  lemma {:induction false} NonParsAppend(a: seq<PropertyDef>, b: seq<PropertyDef>)
    ensures NonPars(a + b) == NonPars(a) + NonPars(b)
  {
    if a != [] {
      assert (a + b)[1..] == a[1..] + b;
      NonParsAppend(a[1..], b);
    } else {
      assert a + b == b;
    }
  }

  /** When the parameters form a prefix, ClearPars drops exactly that prefix. */
  lemma {:induction false} NonParsDropsParRun(list: seq<PropertyDef>)
    requires ParsFormPrefix(list)
    ensures NonPars(list) == list[ParRunLength(list)..]
  {
    if list != [] {
      if list[0].isPar {
        assert ParsFormPrefix(list[1..]) by {
          forall i, j | 0 <= i < j < |list[1..]| && list[1..][j].isPar ensures list[1..][i].isPar {
            assert list[1..][j] == list[j + 1] && list[1..][i] == list[i + 1];
          }
        }
        NonParsDropsParRun(list[1..]);
      } else {
        assert forall j :: 0 <= j < |list| ==> !list[j].isPar;
        NonParsOfNoPars(list);
      }
    }
  }

  lemma {:induction false} NonParsOfNoPars(list: seq<PropertyDef>)
    requires forall j :: 0 <= j < |list| ==> !list[j].isPar
    ensures NonPars(list) == list
  {
    if list != [] {
      NonParsOfNoPars(list[1..]);
    }
  }

  /** A property may be removed when it is customized, or when it is a
      parameter that was not added automatically. */
  predicate MayRemove(p: PropertyDef) {
    p.isCustomized || (p.isPar && !p.isAddedAutomatically)
  }

  /** RemoveProperty: the first entry that is the object `prop` goes. */
  function RemovePropertyEffect(list: seq<PropertyDef>, prop: Option<PropertyDef>): (r: (bool, seq<PropertyDef>))
    ensures r.0 <==> prop.Some? && MayRemove(prop.value) && IndexOfId(list, prop.value.id) >= 0
    ensures !r.0 ==> r.1 == list
    ensures r.0 ==> var k := IndexOfId(list, prop.value.id);
      && r.1 == list[..k] + list[k + 1..]
      && |r.1| == |list| - 1 && multiset(r.1) + multiset{list[k]} == multiset(list)
  {
    if prop.Some? && MayRemove(prop.value) then
      var k := IndexOfId(list, prop.value.id);
      if k >= 0 then
        var rest := list[..k] + list[k + 1..];
        assert list == list[..k] + [list[k]] + list[k + 1..];
        assert multiset(list) == multiset(list[..k]) + multiset{list[k]} + multiset(list[k + 1..]);
        (true, rest)
      else (false, list)
    else (false, list)
  }

  /** In a list of distinct entries, a successful removal leaves no entry that
      is the removed object. */
  lemma {:induction false} RemoveLeavesNoCopy(list: seq<PropertyDef>, prop: Option<PropertyDef>)
    requires Distinct(list)
    ensures var (ok, list') := RemovePropertyEffect(list, prop);
      ok ==> forall i :: 0 <= i < |list'| ==> list'[i].id != prop.value.id
  {
    var (ok, list') := RemovePropertyEffect(list, prop);
    if ok {
      var k := IndexOfId(list, prop.value.id);
      forall i | 0 <= i < |list'| ensures list'[i].id != prop.value.id {
        if i < k {
          assert list'[i] == list[i];
        } else {
          assert list'[i] == list[i + 1];
          assert !Clashes(list[k], list[i + 1]);
        }
      }
    }
  }

  /** The guard of SwapTwoProperties: both are customized or parameters, and
      they agree on being customized or on being parameters. */
  predicate SwapAllowed(p1: PropertyDef, p2: PropertyDef) {
    && (p1.isCustomized || p1.isPar)
    && (p2.isCustomized || p2.isPar)
    && (p1.isCustomized == p2.isCustomized || p1.isPar == p2.isPar)
  }

  /** SwapTwoProperties: when the guard holds and both objects are in the list,
      their positions are exchanged; otherwise nothing changes. */
  function SwapPropertiesEffect(list: seq<PropertyDef>, p1: Option<PropertyDef>, p2: Option<PropertyDef>)
    : (r: (bool, seq<PropertyDef>))
    ensures r.0 <==> p1.Some? && p2.Some? && SwapAllowed(p1.value, p2.value)
                     && IndexOfId(list, p1.value.id) >= 0 && IndexOfId(list, p2.value.id) >= 0
    ensures !r.0 ==> r.1 == list
    ensures |r.1| == |list| && multiset(r.1) == multiset(list)
    ensures r.0 ==> var i, j := IndexOfId(list, p1.value.id), IndexOfId(list, p2.value.id);
      && r.1[i] == list[j] && r.1[j] == list[i]
      && forall m :: 0 <= m < |list| && m != i && m != j ==> r.1[m] == list[m]
  {
    if p1.Some? && p2.Some? && SwapAllowed(p1.value, p2.value) then
      var i := IndexOfId(list, p1.value.id);
      var j := IndexOfId(list, p2.value.id);
      if i >= 0 && j >= 0 then (true, list[i := list[j]][j := list[i]]) else (false, list)
    else (false, list)
  }

  /** Exchanging two parameters, or two non-parameters, keeps the parameters a
      prefix. The guard alone does not: it admits two customized entries of
      which one is a parameter. */
  lemma {:induction false} SwapKeepsParPrefix(list: seq<PropertyDef>, p1: Option<PropertyDef>, p2: Option<PropertyDef>)
    requires ParsFormPrefix(list)
    requires p1.Some? && p2.Some? ==> p1.value.isPar == p2.value.isPar
    requires p1.Some? && p2.Some? && IndexOfId(list, p1.value.id) >= 0 && IndexOfId(list, p2.value.id) >= 0 ==>
      list[IndexOfId(list, p1.value.id)].isPar == p1.value.isPar && list[IndexOfId(list, p2.value.id)].isPar == p2.value.isPar
    ensures ParsFormPrefix(SwapPropertiesEffect(list, p1, p2).1)
  {
    var (ok, l) := SwapPropertiesEffect(list, p1, p2);
    if ok {
      assert forall m :: 0 <= m < |l| ==> l[m].isPar == list[m].isPar;
    }
  }

  lemma SwapGuardAdmitsMixedPair()
    ensures var par := PropertyDef(1, "a", "C", "a", true, true, false, false, false, false);
            var field := PropertyDef(2, "b", "C", "b", false, true, false, false, false, false);
            var (ok, l) := SwapPropertiesEffect([par, field], Some(par), Some(field));
            ok && ParsFormPrefix([par, field]) && !ParsFormPrefix(l)
  {
    var par := PropertyDef(1, "a", "C", "a", true, true, false, false, false, false);
    var field := PropertyDef(2, "b", "C", "b", false, true, false, false, false, false);
    var l := SwapPropertiesEffect([par, field], Some(par), Some(field)).1;
    assert l[0] == field && l[1] == par;
  }

  /** AddPars: clear the parameters, then add each given one with no index. */
  function AddAll(list: seq<PropertyDef>, pars: seq<Option<PropertyDef>>, elements: seq<PropertyDef>): seq<PropertyDef>
    requires |elements| == |pars|
    decreases |pars|
  {
    if pars == [] then list
    else AddAll(AddPropertyEffect(list, pars[0], -1, elements[0]).1, pars[1..], elements[1..])
  }

  function AddParsEffect(list: seq<PropertyDef>, pars: Option<seq<Option<PropertyDef>>>, elements: seq<PropertyDef>): seq<PropertyDef>
    requires pars.Some? ==> |elements| == |pars.value|
  {
    var cleared := NonPars(list);
    if pars.None? then cleared else AddAll(cleared, pars.value, elements)
  }

  lemma {:induction false} AddAllKeepsParPrefix(list: seq<PropertyDef>, pars: seq<Option<PropertyDef>>, elements: seq<PropertyDef>)
    requires |elements| == |pars|
    requires ParsFormPrefix(list)
    requires forall i :: 0 <= i < |pars| && pars[i].Some? ==> elements[i].isPar == pars[i].value.isPar
    ensures ParsFormPrefix(AddAll(list, pars, elements))
    decreases |pars|
  {
    if pars != [] {
      AddPropertyKeepsParPrefix(list, pars[0], -1, elements[0]);
      var list1 := AddPropertyEffect(list, pars[0], -1, elements[0]).1;
      assert forall i :: 0 <= i < |pars[1..]| && pars[1..][i].Some? ==> elements[1..][i].isPar == pars[1..][i].value.isPar by {
        forall i | 0 <= i < |pars[1..]| && pars[1..][i].Some? ensures elements[1..][i].isPar == pars[1..][i].value.isPar {
          assert pars[1..][i] == pars[i + 1] && elements[1..][i] == elements[i + 1];
        }
      }
      AddAllKeepsParPrefix(list1, pars[1..], elements[1..]);
    }
  }

  /** After AddPars the parameters form a prefix of the list, whatever the
      list held before, whenever each element accessor is a parameter exactly
      when its property is. */
  lemma {:induction false} AddParsKeepsParPrefix(list: seq<PropertyDef>, pars: Option<seq<Option<PropertyDef>>>, elements: seq<PropertyDef>)
    requires pars.Some? ==> |elements| == |pars.value|
    requires pars.Some? ==> forall i :: 0 <= i < |pars.value| && pars.value[i].Some? ==> elements[i].isPar == pars.value[i].value.isPar
    ensures ParsFormPrefix(AddParsEffect(list, pars, elements))
  {
    var cleared := NonPars(list);
    assert forall i :: 0 <= i < |cleared| ==> !cleared[i].isPar by {
      NonParsKeepsExactlyNonPars(list);
      forall i | 0 <= i < |cleared| ensures !cleared[i].isPar {
        assert cleared[i] in cleared;
      }
    }
    if pars.Some? {
      AddAllKeepsParPrefix(cleared, pars.value, elements);
    }
  }
}
