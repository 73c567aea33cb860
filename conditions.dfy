/** Activation conditions of the early mixin loader.

    In the loader each mixin configuration is guarded by a `BooleanSupplier`,
    a side-effect-free boolean expression over configuration flags,
    component-presence probes, companion-specific checks and a list-length
    test, combined with Java's short-circuiting `&&`, `||` and `!`.  Here a
    condition is an expression tree, and the world it reads is an abstract
    `Probe`.  Any probe query may throw; a thrown query is an answer `None`. */
module Conditions {
  import opened Wrappers

  /** A condition expression. */
  datatype Cond =
    | Const(value: bool)                        // `() -> true`
    | Flag(path: string)                        // a boolean configuration field
    | Present(component: string)                // `X.isPresent()` / `Mods.X.loaded()`
    | Check(component: string, check: string)   // a companion's own check, e.g. `checkNBTMapModified()`
    | ListNonEmpty(path: string)                // `list.length > 0`
    | And(left: Cond, right: Cond)              // `&&`
    | Or(left: Cond, right: Cond)               // `||`
    | Not(operand: Cond)                        // `!`

  /** One query put to the probe. */
  datatype Query =
    | ReadFlag(path: string)
    | IsPresent(component: string)
    | RunCheck(component: string, check: string)
    | ReadListLength(path: string)

  /** The external state a condition reads: configuration fields, component
      presence, companion checks and configuration list lengths.  `None`
      means that the query threw. */
  datatype Probe = Probe(
    flag: string -> Option<bool>,
    present: string -> Option<bool>,
    check: (string, string) -> Option<bool>,
    listLength: string -> Option<nat>)

  /** The result of evaluating a condition: its value (`None` when a query
      threw and the exception escapes) and the queries made, in order. */
  datatype Evaluation = Evaluation(value: Option<bool>, trace: seq<Query>)

  /** Whether query `q` throws under probe `p`. */
  predicate Fails(p: Probe, q: Query) {
    match q
    case ReadFlag(path) => p.flag(path).None?
    case IsPresent(component) => p.present(component).None?
    case RunCheck(component, check) => p.check(component, check).None?
    case ReadListLength(path) => p.listLength(path).None?
  }

  /** Whether `p1` and `p2` give the same answer to `q`. */
  predicate SameAnswer(p1: Probe, p2: Probe, q: Query) {
    match q
    case ReadFlag(path) => p1.flag(path) == p2.flag(path)
    case IsPresent(component) => p1.present(component) == p2.present(component)
    case RunCheck(component, check) => p1.check(component, check) == p2.check(component, check)
    case ReadListLength(path) => p1.listLength(path) == p2.listLength(path)
  }

  /** Every query that occurs anywhere in `c`, reached or not. */
  function Queries(c: Cond): set<Query> {
    match c
    case Const(_) => {}
    case Flag(path) => {ReadFlag(path)}
    case Present(component) => {IsPresent(component)}
    case Check(component, check) => {RunCheck(component, check)}
    case ListNonEmpty(path) => {ReadListLength(path)}
    case And(l, r) => Queries(l) + Queries(r)
    case Or(l, r) => Queries(l) + Queries(r)
    case Not(x) => Queries(x)
  }

  /** Java's evaluation of a supplier: left to right, `&&` skips its right
      operand once the left one is false, `||` once it is true, and a thrown
      query ends the evaluation at once.  The result says that only queries
      of `c` are made, that every query but the last one was answered, that
      a value means every query was answered, and that a missing value means
      the last query threw. */
  function Evaluate(c: Cond, p: Probe): (r: Evaluation)
    ensures forall q :: q in r.trace ==> q in Queries(c)
    ensures forall i :: 0 <= i < |r.trace| - 1 ==> !Fails(p, r.trace[i])
    ensures r.value.Some? ==> forall i :: 0 <= i < |r.trace| ==> !Fails(p, r.trace[i])
    ensures r.value.None? ==> |r.trace| > 0 && Fails(p, r.trace[|r.trace| - 1])
  {
    match c
    case Const(b) => Evaluation(Some(b), [])
    case Flag(path) => Evaluation(p.flag(path), [ReadFlag(path)])
    case Present(component) => Evaluation(p.present(component), [IsPresent(component)])
    case Check(component, check) => Evaluation(p.check(component, check), [RunCheck(component, check)])
    case ListNonEmpty(path) =>
      var n := p.listLength(path);
      Evaluation(if n.Some? then Some(n.value > 0) else None, [ReadListLength(path)])
    case And(l, r) =>
      var a := Evaluate(l, p);
      if a.value == Some(true) then
        var b := Evaluate(r, p);
        Evaluation(b.value, a.trace + b.trace)
      else a
    case Or(l, r) =>
      var a := Evaluate(l, p);
      if a.value == Some(false) then
        var b := Evaluate(r, p);
        Evaluation(b.value, a.trace + b.trace)
      else a
    case Not(x) =>
      var a := Evaluate(x, p);
      Evaluation(if a.value.Some? then Some(!a.value.value) else None, a.trace)
  }

  /** No query of `c` throws under `p`. */
  predicate Total(c: Cond, p: Probe) {
    forall q :: q in Queries(c) ==> !Fails(p, q)
  }

  /** The plain boolean meaning of `c`, reading every leaf with no regard to
      evaluation order; it is the meaning of `c` when no query throws. */
  function Holds(c: Cond, p: Probe): bool {
    match c
    case Const(b) => b
    case Flag(path) => p.flag(path) == Some(true)
    case Present(component) => p.present(component) == Some(true)
    case Check(component, check) => p.check(component, check) == Some(true)
    case ListNonEmpty(path) => p.listLength(path).Some? && p.listLength(path).value > 0
    case And(l, r) => Holds(l, p) && Holds(r, p)
    case Or(l, r) => Holds(l, p) || Holds(r, p)
    case Not(x) => !Holds(x, p)
  }

  /** Whenever short-circuit evaluation yields a value, it is the plain
      boolean meaning of `c`, even if a skipped operand would have thrown;
      and when no query of `c` throws, it does yield a value. */
  lemma {:induction false} EvaluateMeansHolds(c: Cond, p: Probe)
    ensures Evaluate(c, p).value.Some? ==> Evaluate(c, p).value == Some(Holds(c, p))
    ensures Total(c, p) ==> Evaluate(c, p).value == Some(Holds(c, p))
  {
    match c
    case Const(_) =>
    case Flag(path) =>
      var v := p.flag(path);
      if v.Some? {
        assert v == Some(v.value) && (v.value <==> v == Some(true));
      }
    case Present(component) =>
      var v := p.present(component);
      if v.Some? {
        assert v == Some(v.value) && (v.value <==> v == Some(true));
      }
    case Check(component, check) =>
      var v := p.check(component, check);
      if v.Some? {
        assert v == Some(v.value) && (v.value <==> v == Some(true));
      }
    case ListNonEmpty(path) =>
    case And(l, r) => EvaluateMeansHolds(l, p); EvaluateMeansHolds(r, p);
    case Or(l, r) => EvaluateMeansHolds(l, p); EvaluateMeansHolds(r, p);
    case Not(x) => EvaluateMeansHolds(x, p);
  }

  /** Evaluation depends on nothing but the answers to the queries it made:
      a probe that agrees on those gives the same value and the same trace,
      whatever it answers to the queries that were skipped. */
  lemma {:induction false} EvaluateReadsOnlyTrace(c: Cond, p1: Probe, p2: Probe)
    requires forall q :: q in Evaluate(c, p1).trace ==> SameAnswer(p1, p2, q)
    ensures Evaluate(c, p2) == Evaluate(c, p1)
  {
    match c
    case Const(_) =>
    case Flag(path) => assert ReadFlag(path) in Evaluate(c, p1).trace;
    case Present(component) => assert IsPresent(component) in Evaluate(c, p1).trace;
    case Check(component, check) => assert RunCheck(component, check) in Evaluate(c, p1).trace;
    case ListNonEmpty(path) => assert ReadListLength(path) in Evaluate(c, p1).trace;
    case And(l, r) =>
      EvaluateReadsOnlyTrace(l, p1, p2);
      if Evaluate(l, p1).value == Some(true) {
        EvaluateReadsOnlyTrace(r, p1, p2);
      }
    case Or(l, r) =>
      EvaluateReadsOnlyTrace(l, p1, p2);
      if Evaluate(l, p1).value == Some(false) {
        EvaluateReadsOnlyTrace(r, p1, p2);
      }
    case Not(x) => EvaluateReadsOnlyTrace(x, p1, p2);
  }

  /** `&&` does not evaluate its right operand unless the left one yields
      true: the right operand then makes no query and cannot throw. */
  lemma AndSkipsRight(l: Cond, r: Cond, p: Probe)
    requires Evaluate(l, p).value != Some(true)
    ensures Evaluate(And(l, r), p) == Evaluate(l, p)
    ensures Evaluate(And(l, r), p).value != Some(true)
  {
  }

  /** `||` does not evaluate its right operand unless the left one yields
      false. */
  lemma OrSkipsRight(l: Cond, r: Cond, p: Probe)
    requires Evaluate(l, p).value != Some(false)
    ensures Evaluate(Or(l, r), p) == Evaluate(l, p)
    ensures Evaluate(Or(l, r), p).value != Some(false)
  {
  }

  /** The guard shape `flag && !(C.isPresent() && C.check())`: the companion
      check runs exactly when the flag is set and the companion is present,
      and then only after the presence probe. */
  function FlagUnlessCompanion(path: string, component: string, check: string): Cond {
    And(Flag(path), Not(And(Present(component), Check(component, check))))
  }

  lemma GuardedCheckRunsOnlyWhenPresent(path: string, component: string, check: string, p: Probe)
    ensures var e := Evaluate(FlagUnlessCompanion(path, component, check), p);
      (RunCheck(component, check) in e.trace <==>
        p.flag(path) == Some(true) && p.present(component) == Some(true))
      && (RunCheck(component, check) in e.trace ==>
        e.trace == [ReadFlag(path), IsPresent(component), RunCheck(component, check)])
  {
    var q := RunCheck(component, check);
    var inner := And(Present(component), Check(component, check));
    var e := Evaluate(FlagUnlessCompanion(path, component, check), p);
    assert Evaluate(Flag(path), p).trace == [ReadFlag(path)];
    assert Evaluate(Present(component), p).trace == [IsPresent(component)];
    if p.flag(path) == Some(true) {
      assert e.trace == [ReadFlag(path)] + Evaluate(Not(inner), p).trace;
      if p.present(component) == Some(true) {
        assert Evaluate(inner, p).trace == [IsPresent(component), q];
      } else {
        assert Evaluate(inner, p).trace == [IsPresent(component)];
      }
    } else {
      assert e.trace == [ReadFlag(path)];
    }
  }
}
