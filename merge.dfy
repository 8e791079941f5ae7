/** The effective (flattened) member list of an agent type: the members it
    inherits along its base chain, then its own. The same walk serves
    properties and methods; `keep` says which members of an ancestor are
    taken, and `inherit` is the clone that is flagged as inherited. */
module Merge {

  /** What the walk sees of one ancestor: whether it is customized, and its
      own member list. */
  datatype Ancestor<T> = Ancestor(customized: bool, members: seq<T>)

  /** The members of one ancestor that are taken, cloned and flagged, in the
      order they have in that ancestor. */
  function Contribution<T>(selfCustomized: bool, members: seq<T>, keep: (bool, T) -> bool, inherit: T -> T): seq<T>
  {
    if members == [] then []
    else (if keep(selfCustomized, members[0]) then [inherit(members[0])] else [])
         + Contribution(selfCustomized, members[1..], keep, inherit)
  }

  /** The inherited part of the effective list. The nearest ancestor is walked
      first and each contribution goes in front of what was built, so farther
      ancestors come first. A customized type stops after its first
      non-customized ancestor; a native type walks the whole chain. */
  function Inherited<T>(selfCustomized: bool, ancestors: seq<Ancestor<T>>, keep: (bool, T) -> bool, inherit: T -> T): seq<T>
    decreases |ancestors|
  {
    if ancestors == [] then []
    else
      var c := Contribution(selfCustomized, ancestors[0].members, keep, inherit);
      if selfCustomized && !ancestors[0].customized then c
      else Inherited(selfCustomized, ancestors[1..], keep, inherit) + c
  }

  /** How many ancestors the walk visits. */
  function Walked<T>(selfCustomized: bool, ancestors: seq<Ancestor<T>>): (n: nat)
    ensures n <= |ancestors|
    ensures !selfCustomized ==> n == |ancestors|
    ensures selfCustomized ==> forall j :: 0 <= j < n - 1 ==> ancestors[j].customized
    ensures selfCustomized && n < |ancestors| ==> 0 < n && !ancestors[n - 1].customized
    decreases |ancestors|
  {
    if ancestors == [] then 0
    else if selfCustomized && !ancestors[0].customized then 1
    else 1 + Walked(selfCustomized, ancestors[1..])
  }

  /** The contribution of a suffix, one member at a time. */
  lemma ContributionStep<T>(c: bool, members: seq<T>, i: nat, keep: (bool, T) -> bool, inherit: T -> T)
    requires i < |members|
    ensures keep(c, members[i]) ==>
              Contribution(c, members[i..], keep, inherit)
              == [inherit(members[i])] + Contribution(c, members[i + 1..], keep, inherit)
    ensures !keep(c, members[i]) ==>
              Contribution(c, members[i..], keep, inherit) == Contribution(c, members[i + 1..], keep, inherit)
  {
    assert members[i..][0] == members[i] && members[i..][1..] == members[i + 1..];
  }

  /** The walk from the k-th ancestor on, one ancestor at a time. */
  lemma InheritedStep<T>(c: bool, ancestors: seq<Ancestor<T>>, k: nat, keep: (bool, T) -> bool, inherit: T -> T)
    requires k < |ancestors|
    ensures var contribution := Contribution(c, ancestors[k].members, keep, inherit);
            Inherited(c, ancestors[k..], keep, inherit)
            == if c && !ancestors[k].customized then contribution
               else Inherited(c, ancestors[k + 1..], keep, inherit) + contribution
  {
    assert ancestors[k..][0] == ancestors[k] && ancestors[k..][1..] == ancestors[k + 1..];
  }

  /** One step of the walk: with `after` the contribution of the k-th
      ancestor put in front of `before`, either the walk stops there with the
      whole inherited part, or the invariant moves on to the next ancestor. */
  lemma WalkStep<T>(c: bool, ancestors: seq<Ancestor<T>>, k: nat, before: seq<T>, after: seq<T>,
                    keep: (bool, T) -> bool, inherit: T -> T)
    requires k < |ancestors|
    requires Inherited(c, ancestors[k..], keep, inherit) + before == Inherited(c, ancestors, keep, inherit)
    requires after == Contribution(c, ancestors[k].members, keep, inherit) + before
    ensures c && !ancestors[k].customized ==> after == Inherited(c, ancestors, keep, inherit)
    ensures !(c && !ancestors[k].customized) ==>
              Inherited(c, ancestors[k + 1..], keep, inherit) + after == Inherited(c, ancestors, keep, inherit)
  {
    InheritedStep(c, ancestors, k, keep, inherit);
  }

  ghost predicate AllCustomized<T>(ancestors: seq<Ancestor<T>>) {
    forall j :: 0 <= j < |ancestors| ==> ancestors[j].customized
  }

  /** A contribution holds exactly the clones of the members `keep` takes. */
  lemma {:induction false} ContributionMembers<T>(c: bool, members: seq<T>, keep: (bool, T) -> bool, inherit: T -> T, x: T)
    ensures x in Contribution(c, members, keep, inherit) <==> exists q :: q in members && keep(c, q) && x == inherit(q)
  {
    if members != [] {
      ContributionMembers(c, members[1..], keep, inherit, x);
      if x in Contribution(c, members[1..], keep, inherit) {
        var q :| q in members[1..] && keep(c, q) && x == inherit(q);
        assert q in members;
      }
      if exists q :: q in members && keep(c, q) && x == inherit(q) {
        var q :| q in members && keep(c, q) && x == inherit(q);
        if q != members[0] {
          var k :| 0 <= k < |members| && members[k] == q;
          assert members[1..][k - 1] == q;
        }
      }
    }
  }

  /** An entry of the inherited part is a clone of a member that `keep` takes
      from one of the walked ancestors, and each such clone is there. */
  lemma {:induction false} InheritedMembers<T>(c: bool, ancestors: seq<Ancestor<T>>, keep: (bool, T) -> bool, inherit: T -> T, x: T)
    ensures x in Inherited(c, ancestors, keep, inherit) <==>
      exists j, q :: 0 <= j < Walked(c, ancestors) && q in ancestors[j].members && keep(c, q) && x == inherit(q)
    decreases |ancestors|
  {
    if ancestors != [] {
      var a := ancestors[0];
      ContributionMembers(c, a.members, keep, inherit, x);
      var inContribution := exists q :: q in a.members && keep(c, q) && x == inherit(q);
      if c && !a.customized {
        assert Walked(c, ancestors) == 1;
        if inContribution {
          var q :| q in a.members && keep(c, q) && x == inherit(q);
          assert 0 < Walked(c, ancestors) && q in ancestors[0].members;
        }
      } else {
        var rest := ancestors[1..];
        InheritedMembers(c, rest, keep, inherit, x);
        assert Walked(c, ancestors) == 1 + Walked(c, rest);
        if x in Inherited(c, rest, keep, inherit) {
          var j, q :| 0 <= j < Walked(c, rest) && q in rest[j].members && keep(c, q) && x == inherit(q);
          assert q in ancestors[j + 1].members;
        }
        if inContribution {
          var q :| q in a.members && keep(c, q) && x == inherit(q);
          assert q in ancestors[0].members;
        }
        if exists j, q :: 0 <= j < Walked(c, ancestors) && q in ancestors[j].members && keep(c, q) && x == inherit(q) {
          var j, q :| 0 <= j < Walked(c, ancestors) && q in ancestors[j].members && keep(c, q) && x == inherit(q);
          if j > 0 {
            assert q in rest[j - 1].members;
          }
        }
      }
    }
  }

  /** Extending the chain by one more (farther) ancestor puts that ancestor's
      contribution in front, when the walk reaches it: always for a native
      type, and for a customized type only when every nearer ancestor is
      customized. */
  lemma {:induction false} FartherAncestorGoesFirst<T>(c: bool, ancestors: seq<Ancestor<T>>, v: Ancestor<T>,
                                                       keep: (bool, T) -> bool, inherit: T -> T)
    ensures Inherited(c, ancestors + [v], keep, inherit) ==
      if !c || AllCustomized(ancestors)
      then Contribution(c, v.members, keep, inherit) + Inherited(c, ancestors, keep, inherit)
      else Inherited(c, ancestors, keep, inherit)
    decreases |ancestors|
  {
    if ancestors == [] {
      assert [v][1..] == [];
    } else {
      var a := ancestors[0];
      assert (ancestors + [v])[0] == a;
      assert (ancestors + [v])[1..] == ancestors[1..] + [v];
      if c && !a.customized {
        assert !AllCustomized(ancestors);
      } else {
        FartherAncestorGoesFirst(c, ancestors[1..], v, keep, inherit);
        assert c ==> (AllCustomized(ancestors) <==> AllCustomized(ancestors[1..])) by {
          if c && AllCustomized(ancestors[1..]) {
            forall j | 0 <= j < |ancestors| ensures ancestors[j].customized {
              if j > 0 { assert ancestors[1..][j - 1] == ancestors[j]; }
            }
          }
          if AllCustomized(ancestors) {
            forall j | 0 <= j < |ancestors[1..]| ensures ancestors[1..][j].customized {
              assert ancestors[1..][j] == ancestors[j + 1];
            }
          }
        }
      }
    }
  }
}
