/**
 `WorkspaceModel` of the scale benchmark: how many actions an edit must rerun,
 found with a worklist over reverse dependencies.
 */
module ScaleModel {
  import opened Graph
  import opened Traversals

  type Source = nat

  datatype TargetModel = TargetModel(deps: seq<Name>, sources: set<Source>, actions: nat)

  type Targets = map<Name, TargetModel>

  function DepsOf(targets: Targets): Graph {
    map n | n in targets :: Elems(targets[n].deps)
  }

  /** Every dependency is a target, as the lookup in `rdeps` needs. */
  ghost predicate Resolved(targets: Targets) {
    forall n, d :: n in targets && d in targets[n].deps ==> d in targets
  }

  /** The targets that read a changed source. */
  function Seeds(targets: Targets, changed: set<Source>): set<Name> {
    set n | n in targets && targets[n].sources * changed != {}
  }

  /** The target depends, directly or not, on one that reads a changed source. */
  ghost predicate IsAffected(targets: Targets, changed: set<Source>, n: Name) {
    exists m, source ::
      Reach(DepsOf(targets), n, m) && m in targets && source in targets[m].sources && source in changed
  }

  ghost function Affected(targets: Targets, changed: set<Source>): set<Name> {
    set n | n in targets && IsAffected(targets, changed, n)
  }

  lemma AffectedIsClosure(targets: Targets, changed: set<Source>)
    ensures Affected(targets, changed) <= targets.Keys
    ensures Affected(targets, changed) == CoReachSet(DepsOf(targets), Seeds(targets, changed))
  {
    hide Reach;
    var g, seeds := DepsOf(targets), Seeds(targets, changed);
    forall m, source | m in targets && source in targets[m].sources && source in changed ensures m in seeds {
      assert source in targets[m].sources * changed;
    }
    forall m | m in seeds ensures exists source :: source in targets[m].sources && source in changed {
      var source :| source in targets[m].sources * changed;
    }
    forall n ensures n in Affected(targets, changed) <==> n in CoReachSet(g, seeds) {
    }
  }

  ghost predicate IsReverse(targets: Targets, reverse: map<Name, seq<Name>>) {
    && reverse.Keys == targets.Keys
    && forall a, b :: a in reverse ==> (b in reverse[a] <==> b in targets && a in targets[b].deps)
  }

  /** `reverse` with the dependencies of the labels in `done` turned around. */
  ghost predicate ReverseOf(targets: Targets, done: set<Name>, reverse: map<Name, seq<Name>>) {
    && reverse.Keys == targets.Keys
    && forall a, b :: a in reverse ==> (b in reverse[a] <==> b in done && b in targets && a in targets[b].deps)
  }

  /** `rdeps`; `labels` is the order of the dictionary. */
  method Rdeps(targets: Targets, labels: seq<Name>) returns (reverse: map<Name, seq<Name>>)
    requires Resolved(targets) && Elems(labels) == targets.Keys
    ensures IsReverse(targets, reverse)
  {
    reverse := map n | n in targets :: [];
    var i := 0;
    while i < |labels|
      invariant 0 <= i <= |labels| && ReverseOf(targets, Elems(labels[..i]), reverse)
    {
      var name := labels[i];
      assert name in Elems(labels);
      reverse := AddUser(targets, reverse, name, Elems(labels[..i]));
      assert Elems(labels[..i + 1]) == Elems(labels[..i]) + {name};
      i := i + 1;
    }
    assert labels[..i] == labels;
  }

  method AddUser(targets: Targets, reverse: map<Name, seq<Name>>, name: Name, ghost done: set<Name>)
    returns (reverse': map<Name, seq<Name>>)
    requires Resolved(targets) && name in targets && ReverseOf(targets, done, reverse)
    ensures ReverseOf(targets, done + {name}, reverse')
  {
    var deps := targets[name].deps;
    reverse' := reverse;
    var k := 0;
    while k < |deps|
      invariant 0 <= k <= |deps| && reverse'.Keys == targets.Keys
      invariant forall a, b :: a in reverse' ==>
                  (b in reverse'[a] <==> b in reverse[a] || (b == name && a in deps[..k]))
    {
      reverse' := reverse'[deps[k] := reverse'[deps[k]] + [name]];
      k := k + 1;
    }
    assert deps[..k] == deps;
  }

  /** Total actions of some targets. */
  ghost function ActionsOf(targets: Targets, s: set<Name>): nat
    requires s <= targets.Keys
  {
    if s == {} then 0
    else var n := Least(s); targets[n].actions + ActionsOf(targets, s - {n})
  }

  lemma {:induction false} ActionsWithout(targets: Targets, s: set<Name>, n: Name)
    requires s <= targets.Keys && n in s
    ensures ActionsOf(targets, s) == targets[n].actions + ActionsOf(targets, s - {n})
    decreases s
  {
    var m := Least(s);
    if m != n {
      ActionsWithout(targets, s - {m}, n);
      assert s - {m} - {n} == s - {n} - {m};
      ActionsWithout(targets, s - {n}, m);
    }
  }

  lemma ReverseIsUsers(targets: Targets, reverse: map<Name, seq<Name>>, n: Name)
    requires IsReverse(targets, reverse) && n in targets
    ensures Elems(reverse[n]) == Users(DepsOf(targets), n)
  {}

  /** The seeds are the roots of the reverse closure, and they are targets. */
  lemma AffectedAreTargets(targets: Targets, changed: set<Source>)
    ensures Seeds(targets, changed) <= targets.Keys
    ensures CoReachSet(DepsOf(targets), Seeds(targets, changed)) <= targets.Keys
  {}

  /**
   `affected_actions`: the actions of exactly the targets that depend, directly
   or not, on a target with a changed source.
   */
  method AffectedActions(targets: Targets, labels: seq<Name>, changed: set<Source>) returns (actions: nat)
    requires Resolved(targets) && Elems(labels) == targets.Keys
    ensures actions == ActionsOf(targets, Affected(targets, changed))
  {
    hide CoReachSet, Affected, Seeds, Resolved, IsReverse, ActionsOf, Users, DepsOf;
    ghost var g := DepsOf(targets);
    var seeds := Seeds(targets, changed);
    ghost var affected := CoReachSet(g, seeds);
    AffectedAreTargets(targets, changed);
    AffectedIsClosure(targets, changed);
    var stack := SelectLabels(labels, seeds);
    assert Elems(stack) == seeds;
    var reverse := Rdeps(targets, labels);
    var seen: set<Name> := {};
    RootsCoReach(g, seeds);
    while stack != []
      invariant seen <= affected && Elems(stack) <= affected && seeds <= seen + Elems(stack)
      invariant forall a :: a in seen ==> Users(g, a) <= seen + Elems(stack)
      decreases affected - seen, |stack|
    {
      var name := stack[|stack| - 1];
      ghost var all := Elems(stack);
      assert stack == stack[..|stack| - 1] + [name];
      ElemsAppend(stack[..|stack| - 1], [name]);
      assert Elems([name]) == {name};
      stack := stack[..|stack| - 1];
      if name !in seen {
        ReverseIsUsers(targets, reverse, name);
        CoReachUsers(g, seeds, name);
        ElemsAppend(stack, reverse[name]);
        seen := seen + {name};
        stack := stack + reverse[name];
      }
    }
    CoReachIsLeast(g, seeds, seen);
    assert seen == affected;
    actions := SumActions(targets, seen);
  }

  /** The seeds in dictionary order. */
  method SelectLabels(labels: seq<Name>, chosen: set<Name>) returns (r: seq<Name>)
    requires chosen <= Elems(labels)
    ensures Elems(r) == chosen
  {
    r := [];
    var i := 0;
    while i < |labels|
      invariant 0 <= i <= |labels| && Elems(r) == chosen * Elems(labels[..i])
    {
      if labels[i] in chosen {
        ElemsAppend(r, [labels[i]]);
        r := r + [labels[i]];
      }
      i := i + 1;
    }
    assert labels[..i] == labels;
  }

  method SumActions(targets: Targets, seen: set<Name>) returns (actions: nat)
    requires seen <= targets.Keys
    ensures actions == ActionsOf(targets, seen)
  {
    actions := 0;
    var rest := seen;
    while rest != {}
      invariant rest <= seen && actions + ActionsOf(targets, rest) == ActionsOf(targets, seen)
      decreases rest
    {
      var n :| n in rest;
      ActionsWithout(targets, rest, n);
      actions := actions + targets[n].actions;
      rest := rest - {n};
    }
  }
}
