/** Where the evaluator is exact about real builds: on predicates in which no unknown
    flag, key or call occurs both as it is and under a `not`. */
module CfgPolarity {
  import opened CfgPolicies
  import opened CfgMeaning

  /** A call the evaluator looks into. */
  predicate IsKnownCall(p: Pred) {
    p.Call? && ((p.name == "not" && |p.args| == 1) || p.name == "all" || p.name == "any")
  }

  /** The unknown parts that occur under an even number of `not`s, or, for `plain`
      false, under an odd number. */
  function Parts(p: Pred, plain: bool): (parts: set<Pred>)
    decreases p, 1
  {
    if IsKnownCall(p) then AllParts(p.args, if p.name == "not" then !plain else plain)
    else if p == Flag("test") || !plain then {}
    else {p}
  }

  function AllParts(ps: seq<Pred>, plain: bool): (parts: set<Pred>)
    ensures forall i :: 0 <= i < |ps| ==> Parts(ps[i], plain) <= parts
    decreases ps, 0
  {
    if ps == [] then {}
    else
      var before := AllParts(ps[..|ps| - 1], plain);
      assert forall i :: 0 <= i < |ps| - 1 ==> ps[..|ps| - 1][i] == ps[i];
      before + Parts(ps[|ps| - 1], plain)
  }

  /** No unknown part occurs both ways. */
  predicate OneWay(p: Pred) {
    Parts(p, true) !! Parts(p, false)
  }

  type Flags = Pred -> bool

  /** The flags push the predicate towards v. */
  ghost predicate Pushes(p: Pred, flags: Flags, v: bool) {
    && (forall x :: x in Parts(p, true) ==> flags(x) == v)
    && (forall x :: x in Parts(p, false) ==> flags(x) == !v)
  }

  /** One push takes every occurrence the way that yields v, if v can be had at all. */
  lemma {:induction false} PushedValueIsTaken(p: Pred, testing: bool, flags: Flags, v: bool, path: seq<nat>)
    requires Pushes(p, flags, v) && v in Possible(p, testing)
    ensures Holds(p, testing, Consistent(flags), path) == v
    decreases p
  {
    if IsKnownCall(p) {
      var children, target := AllPossible(p.args, testing), if p.name == "not" then !v else v;
      forall i | 0 <= i < |p.args| && target in children[i]
        ensures Holds(p.args[i], testing, Consistent(flags), path + [i]) == target
      {
        ArgumentsArePushed(p, flags, v, i);
        PushedValueIsTaken(p.args[i], testing, flags, target, path + [i]);
      }
    } else if p != Flag("test") {
      assert p in Parts(p, true);
    }
  }

  lemma ArgumentsArePushed(p: Pred, flags: Flags, v: bool, i: nat)
    requires IsKnownCall(p) && Pushes(p, flags, v) && i < |p.args|
    ensures Pushes(p.args[i], flags, if p.name == "not" then !v else v)
  {
    assert Parts(p.args[i], true) <= AllParts(p.args, true) && Parts(p.args[i], false) <= AllParts(p.args, false);
  }

  function Push(p: Pred, v: bool): (flags: Flags) {
    x => (x in Parts(p, true)) == v
  }

  /** Where no unknown part occurs both ways, the computed values are exactly the
      ones the predicate takes over all real builds. */
  lemma EvaluatorIsExactOneWay(p: Pred, testing: bool, v: bool)
    requires OneWay(p)
    ensures v in CfgValues(Printed(p), 0, testing).0 <==> exists flags: Flags :: HoldsIn(p, testing, flags) == v
  {
    ReadsPredicate(Printed(p), 0, p, testing);
    if v in Possible(p, testing) {
      PushedValueIsTaken(p, testing, Push(p, v), v, []);
      assert HoldsIn(p, testing, Push(p, v)) == v;
    }
    forall flags: Flags ensures HoldsIn(p, testing, flags) in Possible(p, testing) {
      var build := Consistent(flags);
      EveryBuildIsCovered(p, testing, build, []);
    }
  }

  /** There a cfg is accepted exactly if it mentions `test`, is false in every real
      build without tests, and true in some real build with them. */
  lemma AcceptedExactlyOneWay(p: Pred)
    requires OneWay(p)
    ensures IsTestOnly(Cfg(Printed(p))) <==>
      && Word("test") in Printed(p)
      && (forall flags: Flags :: !HoldsIn(p, false, flags))
      && (exists flags: Flags :: HoldsIn(p, true, flags))
  {
    EvaluatorIsExactOneWay(p, false, true);
    EvaluatorIsExactOneWay(p, false, false);
    EvaluatorIsExactOneWay(p, true, true);
    var some: Flags := _ => true;
    var off := CfgValues(Printed(p), 0, false).0;
    if true !in off {
      assert !HoldsIn(p, false, some);
      assert off == {false};
    }
  }

  // ---------- parts that occur once ----------

  /** No two unknown parts are the same. */
  predicate Once(p: Pred)
    decreases p, 1
  {
    IsKnownCall(p) ==> AllOnce(p.args)
  }

  predicate AllOnce(ps: seq<Pred>)
    decreases ps, 0
  {
    ps == [] ||
      (&& AllOnce(ps[..|ps| - 1]) && Once(ps[|ps| - 1])
       && AllParts(ps[..|ps| - 1], true) + AllParts(ps[..|ps| - 1], false)
          !! Parts(ps[|ps| - 1], true) + Parts(ps[|ps| - 1], false))
  }

  /** What occurs once occurs one way. */
  lemma {:induction false} OnceIsOneWay(p: Pred)
    requires Once(p)
    ensures OneWay(p)
    decreases p, 1
  {
    if IsKnownCall(p) {
      AllOnceAreOneWay(p.args);
    }
  }

  lemma {:induction false} AllOnceAreOneWay(ps: seq<Pred>)
    requires AllOnce(ps)
    ensures AllParts(ps, true) !! AllParts(ps, false)
    decreases ps, 0
  {
    if ps != [] {
      AllOnceAreOneWay(ps[..|ps| - 1]);
      OnceIsOneWay(ps[|ps| - 1]);
    }
  }
}
