/** Small registries run through the activation pass, one per behaviour of
    the activation pass: the three-way classification with order kept,
    overwrite in place, and a throwing condition ending the pass. */
module Scenarios {
  import opened Wrappers
  import opened Conditions
  import opened MixinRegistry

  /** What the pass over the four entries hands on. */
  lemma MixedBridge(conds: map<string, Option<Cond>>, p: Probe)
    requires Activates("A", conds, p) && !Activates("B", conds, p) && !Activates("C", conds, p) && Activates("D", conds, p)
    ensures Bridged(["A", "B", "C", "D"], conds, p) == ["A", "D"]
  {
    var names := ["A", "B", "C", "D"];
    assert names[1..] == ["B", "C", "D"] && names[2..] == ["C", "D"] && names[3..] == ["D"];
    assert Bridged(["D"], conds, p) == ["D"];
    assert Bridged(["C", "D"], conds, p) == ["D"];
    assert Bridged(["B", "C", "D"], conds, p) == ["D"];
  }

  /** `A` always true, `B` always false, `C` with no condition, `D` always
      true, registered in that order: the pass decides all four in order,
      hands on `A` then `D`, and reports one warning, for `C`, whatever the
      probe says. */
  method MixedOutcomes(p: Probe) returns (decisions: seq<Decision>, bridge: seq<string>, fault: Option<string>)
    ensures |decisions| == 4 && fault.None?
    ensures decisions[0] == Decision("A", Activated) && decisions[1] == Decision("B", Skipped)
    ensures decisions[2] == Decision("C", MissingCondition) && decisions[3] == Decision("D", Activated)
    ensures bridge == ["A", "D"]
    ensures forall k :: 0 <= k < |decisions| ==> (decisions[k].Severity() == Warn <==> k == 2)
  {
    var names := ["A", "B", "C", "D"];
    var cs := [Some(Const(true)), Some(Const(false)), None, Some(Const(true))];
    var r := new Registry();
    RegisterAll(r, names, cs);
    var conds := r.conds;
    assert conds[names[0]] == cs[0] && conds[names[1]] == cs[1] && conds[names[2]] == cs[2] && conds[names[3]] == cs[3];
    MixedBridge(conds, p);
    decisions, bridge, fault := r.InjectData(p);
    assert |decisions| == 4;
    assert names[..4] == names;
  }

  /** Registering `A` with `c1`, then `B`, then `A` again with `c2` leaves
      the order `[A, B]`, and `A` is decided by `c2`. */
  method OverwriteKeepsPosition(p: Probe, c1: Cond, c2: Cond)
    returns (order: seq<string>, decisions: seq<Decision>, fault: Option<string>)
    ensures order == ["A", "B"]
    ensures fault == Some("A") <==> Evaluate(c2, p).value.None?
    ensures fault.None? ==> |decisions| == 2 && decisions[1] == Decision("B", Activated)
    ensures |decisions| > 0 ==> decisions[0].name == "A" && Decide(Some(c2), p) == Some(decisions[0].outcome)
  {
    var r := new Registry();
    r.AddMixinConfigWith("A", Some(c1));
    r.AddMixinConfig("B");
    r.AddMixinConfigWith("A", Some(c2));
    order := r.order;
    assert order == ["A", "B"];
    var bridge;
    decisions, bridge, fault := r.InjectData(p);
  }

  /** When the second entry's flag read throws, the pass stops there: the
      first entry is decided and handed on, the third is never reached. */
  method FatalStopsPass(p: Probe) returns (decisions: seq<Decision>, bridge: seq<string>, fault: Option<string>)
    requires p.flag("x").None?
    ensures decisions == [Decision("A", Activated)]
    ensures bridge == ["A"]
    ensures fault == Some("B")
  {
    var names := ["A", "B", "C"];
    var cs := [Some(Const(true)), Some(Flag("x")), Some(Const(true))];
    var r := new Registry();
    RegisterAll(r, names, cs);
    assert Decide(r.conds[names[0]], p) == Some(Activated);
    assert Decide(r.conds[names[1]], p).None?;
    decisions, bridge, fault := r.InjectData(p);
    assert |decisions| <= 1 by {
      assert forall k :: 0 <= k < |decisions| ==> Decide(r.conds[names[k]], p).Some?;
    }
    assert |decisions| == 1;
    assert names[..1] == ["A"];
    assert Bridged(["A"], r.conds, p) == ["A"];
  }
}
