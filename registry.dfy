/** The registry of mixin configurations and its activation pass.

    The loader keeps its configurations in a `LinkedHashMap` from
    configuration name to a possibly-null condition.  `put` appends a new
    name at the end and overwrites the condition of a name already present
    without moving it.  The activation pass walks the map in that order and
    sorts every entry into one of three cases: a null condition is reported
    as a warning and excluded, a false condition is reported as disabled, a
    true condition is reported as added and its name is handed to the mixin
    library.  A condition that throws aborts the rest of the pass. */
module MixinRegistry {
  import opened Wrappers
  import opened Conditions

  /** The three ways an entry can come out of the activation pass. */
  datatype Outcome = Activated | Skipped | MissingCondition

  /** The log severity of each outcome. */
  datatype LogLevel = Info | Warn

  /** One line reported by the activation pass. */
  datatype Decision = Decision(name: string, outcome: Outcome) {
    function Severity(): LogLevel {
      if outcome == MissingCondition then Warn else Info
    }
  }

  /** No name occurs twice in `s`. */
  predicate NoDuplicates(s: seq<string>) {
    forall i, j :: 0 <= i < j < |s| ==> s[i] != s[j]
  }

  /** The outcome of one entry under probe `p`; `None` when evaluating its
      condition throws. */
  function Decide(condition: Option<Cond>, p: Probe): Option<Outcome> {
    match condition
    case None => Some(MissingCondition)
    case Some(c) =>
      var v := Evaluate(c, p).value;
      if v.None? then None
      else if v.value then Some(Activated)
      else Some(Skipped)
  }

  /** The three-way classification: a null condition is a missing one
      whatever the probe says, a throwing condition gives no outcome, and
      otherwise the outcome follows the value of the condition. */
  lemma DecideCases(condition: Option<Cond>, p: Probe)
    ensures Decide(condition, p) == Some(MissingCondition) <==> condition.None?
    ensures Decide(condition, p).None? <==> condition.Some? && Evaluate(condition.value, p).value.None?
    ensures Decide(condition, p) == Some(Activated) <==> condition.Some? && Evaluate(condition.value, p).value == Some(true)
    ensures Decide(condition, p) == Some(Skipped) <==> condition.Some? && Evaluate(condition.value, p).value == Some(false)
  {
  }

  /** `name` is registered and its condition evaluates to true. */
  predicate Activates(name: string, conds: map<string, Option<Cond>>, p: Probe) {
    name in conds && Decide(conds[name], p) == Some(Activated)
  }

  /** The names of `names`, in order, whose condition activates: what the
      pass hands to the mixin library. */
  function Bridged(names: seq<string>, conds: map<string, Option<Cond>>, p: Probe): seq<string> {
    if names == [] then []
    else
      (if Activates(names[0], conds, p) then [names[0]] else [])
      + Bridged(names[1..], conds, p)
  }

  /** The pass over two runs of names hands on what each run hands on, in
      turn. */
  lemma {:induction false} BridgedAppend(a: seq<string>, b: seq<string>, conds: map<string, Option<Cond>>, p: Probe)
    ensures Bridged(a + b, conds, p) == Bridged(a, conds, p) + Bridged(b, conds, p)
  {
    if a == [] {
      assert a + b == b;
    } else {
      assert (a + b)[1..] == a[1..] + b;
      BridgedAppend(a[1..], b, conds, p);
    }
  }

  /** A name reaches the mixin library exactly when it is registered and its
      condition evaluates to true. */
  lemma {:induction false} BridgedMembers(names: seq<string>, conds: map<string, Option<Cond>>, p: Probe, x: string)
    ensures x in Bridged(names, conds, p) <==> x in names && Activates(x, conds, p)
  {
    if names != [] {
      BridgedMembers(names[1..], conds, p, x);
      assert x in names <==> x == names[0] || x in names[1..];
    }
  }

  /** `s` is `t` with some elements dropped, the rest kept in order. */
  predicate IsSubsequence(s: seq<string>, t: seq<string>)
    decreases |t|
  {
    if s == [] then true
    else if t == [] then false
    else if s[0] == t[0] then IsSubsequence(s[1..], t[1..])
    else IsSubsequence(s, t[1..])
  }

  /** The names reach the mixin library in registration order. */
  lemma {:induction false} BridgedKeepsOrder(names: seq<string>, conds: map<string, Option<Cond>>, p: Probe)
    ensures IsSubsequence(Bridged(names, conds, p), names)
  {
    if names != [] {
      BridgedKeepsOrder(names[1..], conds, p);
      var rest := Bridged(names[1..], conds, p);
      if Activates(names[0], conds, p) {
        assert Bridged(names, conds, p) == [names[0]] + rest;
      } else {
        assert Bridged(names, conds, p) == rest;
        SubsequenceOfTail(rest, names);
      }
    }
  }

  /** Dropping the head of `t` keeps every subsequence of `t[1..]`. */
  lemma {:induction false} SubsequenceOfTail(s: seq<string>, t: seq<string>)
    requires t != [] && IsSubsequence(s, t[1..])
    ensures IsSubsequence(s, t)
    decreases |t|, 0
  {
    if s != [] && s[0] == t[0] {
      SubsequenceDropHead(s, t[1..]);
    }
  }

  lemma {:induction false} SubsequenceDropHead(s: seq<string>, u: seq<string>)
    requires s != [] && IsSubsequence(s, u)
    ensures IsSubsequence(s[1..], u)
    decreases |u|, 1
  {
    if s[0] == u[0] {
      SubsequenceOfTail(s[1..], u);
    } else {
      SubsequenceDropHead(s, u[1..]);
      SubsequenceOfTail(s[1..], u);
    }
  }

  /** A registration with a null condition never reaches the mixin library,
      whatever the probe answers. */
  lemma MissingConditionNeverBridged(names: seq<string>, conds: map<string, Option<Cond>>, p: Probe, x: string)
    requires x in conds && conds[x].None?
    ensures x !in Bridged(names, conds, p)
  {
    BridgedMembers(names, conds, p, x);
  }

  /** The names a pass hands on are exactly the names of the entries it
      decided as activated. */
  lemma BridgedAreActivatedDecisions(decisions: seq<Decision>, order: seq<string>, conds: map<string, Option<Cond>>, p: Probe)
    requires |decisions| <= |order|
    requires forall k :: 0 <= k < |order| ==> order[k] in conds
    requires forall k :: 0 <= k < |decisions| ==> Decide(conds[order[k]], p) == Some(decisions[k].outcome)
    ensures forall x :: x in Bridged(order[..|decisions|], conds, p) <==>
      exists k :: 0 <= k < |decisions| && x == order[k] && decisions[k].outcome == Activated
  {
    forall x | x in Bridged(order[..|decisions|], conds, p)
      ensures exists k :: 0 <= k < |decisions| && x == order[k] && decisions[k].outcome == Activated
    {
      BridgedMembers(order[..|decisions|], conds, p, x);
      var k :| 0 <= k < |decisions| && order[..|decisions|][k] == x;
      assert decisions[k].outcome == Activated;
    }
    forall x | exists k :: 0 <= k < |decisions| && x == order[k] && decisions[k].outcome == Activated
      ensures x in Bridged(order[..|decisions|], conds, p)
    {
      var k :| 0 <= k < |decisions| && x == order[k] && decisions[k].outcome == Activated;
      assert order[..|decisions|][k] == x;
      BridgedMembers(order[..|decisions|], conds, p, x);
    }
  }

  /** A pass over entries none of whose conditions is null reports no
      missing condition and no warning. */
  lemma NoNullNoWarning(decisions: seq<Decision>, order: seq<string>, conds: map<string, Option<Cond>>, p: Probe)
    requires |decisions| <= |order|
    requires forall k :: 0 <= k < |order| ==> order[k] in conds && conds[order[k]].Some?
    requires forall k :: 0 <= k < |decisions| ==> Decide(conds[order[k]], p) == Some(decisions[k].outcome)
    ensures forall k :: 0 <= k < |decisions| ==> decisions[k].outcome != MissingCondition && decisions[k].Severity() == Info
  {
  }

  /** The names of the activated decisions of `ds`, in order. */
  function ActivatedNames(ds: seq<Decision>): seq<string> {
    if ds == [] then []
    else (if ds[0].outcome == Activated then [ds[0].name] else []) + ActivatedNames(ds[1..])
  }

  /** When `ds` decides every entry of `names`, in order, the pass hands on
      exactly the names of its activated decisions, in the same order and
      each once per decision. */
  lemma {:induction false} BridgedIsActivatedNames(names: seq<string>, conds: map<string, Option<Cond>>, p: Probe, ds: seq<Decision>)
    requires |ds| == |names|
    requires forall k :: 0 <= k < |ds| ==>
      names[k] in conds && ds[k].name == names[k] && Decide(conds[names[k]], p) == Some(ds[k].outcome)
    ensures Bridged(names, conds, p) == ActivatedNames(ds)
  {
    if names != [] {
      BridgedIsActivatedNames(names[1..], conds, p, ds[1..]);
    }
  }

  /** A pass over a registry holding the non-null conditions `cs` under
      `names`, described by the table itself: each decision is the outcome of
      its own condition, never a missing one and never a warning; a fault is
      a condition of the table that throws; and the names handed on are
      those decided as activated, in the order decided. */
  lemma TablePass(names: seq<string>, cs: seq<Cond>, conds: map<string, Option<Cond>>, p: Probe,
                  decisions: seq<Decision>, bridge: seq<string>, fault: Option<string>)
    requires |names| == |cs|
    requires forall i :: 0 <= i < |names| ==> names[i] in conds && conds[names[i]] == Some(cs[i])
    requires |decisions| <= |names|
    requires forall k :: 0 <= k < |decisions| ==>
      decisions[k].name == names[k] && Decide(conds[names[k]], p) == Some(decisions[k].outcome)
    requires fault.Some? ==> |decisions| < |names| && Decide(conds[names[|decisions|]], p).None?
    requires bridge == Bridged(names[..|decisions|], conds, p)
    ensures forall k :: 0 <= k < |decisions| ==>
      Decide(Some(cs[k]), p) == Some(decisions[k].outcome) && decisions[k].outcome != MissingCondition && decisions[k].Severity() == Info
    ensures fault.Some? ==> |decisions| < |cs| && Evaluate(cs[|decisions|], p).value.None?
    ensures forall x :: x in bridge <==>
      exists k :: 0 <= k < |decisions| && x == names[k] && decisions[k].outcome == Activated
    ensures bridge == ActivatedNames(decisions)
  {
    NoNullNoWarning(decisions, names, conds, p);
    BridgedAreActivatedDecisions(decisions, names, conds, p);
    BridgedIsActivatedNames(names[..|decisions|], conds, p, decisions);
  }

  /** The loader's `MIXIN_CONFIGS` map: `order` is the insertion order of
      the keys, `conds` the current condition of each key, `None` for a null
      supplier. */
  class Registry {
    var order: seq<string>
    var conds: map<string, Option<Cond>>

    ghost predicate Valid()
      reads this
    {
      && NoDuplicates(order)
      && (forall i :: 0 <= i < |order| ==> order[i] in conds)
      && (forall n :: n in conds ==> n in order)
    }

    constructor ()
      ensures Valid() && order == [] && conds == map[]
    {
      order := [];
      conds := map[];
    }

    /** `addMixinCFG(name, conditions)`: `put` on the linked map.  An unseen
        name goes to the end; a seen one keeps its position and takes the new
        condition. */
    method AddMixinConfigWith(name: string, condition: Option<Cond>)
      requires Valid()
      modifies this
      ensures Valid()
      ensures name in old(conds) ==> order == old(order)
      ensures name !in old(conds) ==> order == old(order) + [name]
      ensures conds == old(conds)[name := condition]
    {
      if name !in conds {
        order := order + [name];
      }
      conds := conds[name := condition];
    }

    /** `addMixinCFG(name)`: registers `name` with the always-true condition. */
    method AddMixinConfig(name: string)
      requires Valid()
      modifies this
      ensures Valid()
      ensures name in old(conds) ==> order == old(order)
      ensures name !in old(conds) ==> order == old(order) + [name]
      ensures conds == old(conds)[name := Some(Const(true))]
    {
      AddMixinConfigWith(name, Some(Const(true)));
    }

    /** `injectData`: walks the registry in order and decides every entry.
        Without a throwing condition there is one decision per entry, in
        registry order; a throwing condition stops the pass at its entry,
        whose name is returned in `fault`, and no later entry is decided.
        `bridge` holds the names handed to `Mixins.addConfiguration`, in call
        order: the activated names among the entries decided. */
    method InjectData(p: Probe) returns (decisions: seq<Decision>, bridge: seq<string>, fault: Option<string>)
      requires Valid()
      ensures |decisions| <= |order|
      ensures fault.None? <==> |decisions| == |order|
      ensures forall k :: 0 <= k < |decisions| ==>
        decisions[k].name == order[k] && Decide(conds[order[k]], p) == Some(decisions[k].outcome)
      ensures fault.Some? ==>
        fault.value == order[|decisions|] && Decide(conds[order[|decisions|]], p).None?
      ensures bridge == Bridged(order[..|decisions|], conds, p)
    {
      decisions, bridge, fault := [], [], None;
      var i := 0;
      while i < |order|
        invariant 0 <= i <= |order| && |decisions| == i
        invariant forall k :: 0 <= k < i ==>
          decisions[k].name == order[k] && Decide(conds[order[k]], p) == Some(decisions[k].outcome)
        invariant bridge == Bridged(order[..i], conds, p)
      {
        var name := order[i];
        assert name in conds;
        var outcome;
        match conds[name] {
          case None =>
            outcome := MissingCondition;
          case Some(c) =>
            var shouldLoad := Evaluate(c, p).value;
            if shouldLoad.None? {
              fault := Some(name);
              return;
            }
            outcome := if shouldLoad.value then Activated else Skipped;
        }
        assert Decide(conds[name], p) == Some(outcome);
        decisions := decisions + [Decision(name, outcome)];
        assert order[..i + 1] == order[..i] + [name];
        BridgedAppend(order[..i], [name], conds, p);
        if outcome == Activated {
          bridge := bridge + [name];
        }
        i := i + 1;
      }
    }
  }

  /** Registers `names[i]` with condition `cs[i]`, one after the other, on
      an empty registry: a run of `addMixinCFG` calls with distinct names,
      walked over a table. */
  method RegisterAll(r: Registry, names: seq<string>, cs: seq<Option<Cond>>)
    requires r.Valid() && r.order == [] && r.conds == map[]
    requires |names| == |cs| && NoDuplicates(names)
    modifies r
    ensures r.Valid() && r.order == names
    ensures forall i :: 0 <= i < |names| ==> r.conds[names[i]] == cs[i]
  {
    for i := 0 to |names|
      invariant r.Valid() && r.order == names[..i]
      invariant forall k :: 0 <= k < i ==> r.conds[names[k]] == cs[k]
    {
      assert names[i] !in names[..i];
      r.AddMixinConfigWith(names[i], cs[i]);
      assert names[..i + 1] == names[..i] + [names[i]];
    }
    assert names[..|names|] == names;
  }
}
