/** Why the evaluator can be trusted: what a conditional-compilation predicate
    means in a build, and that the values computed from its tokens are exactly the
    ones it can take. */
module CfgMeaning {
  import opened CfgPolicies

  /** A well-formed predicate. The value of a key is a literal, which is blanked
      before the tokens are read; a call may end in a comma. */
  datatype Pred =
    | Flag(name: string)
    | KeyValue(name: string, value: string)
    | Call(name: string, args: seq<Pred>, trailing: bool)

  function Printed(p: Pred): (tokens: seq<Token>)
    ensures |tokens| > 0 && tokens[0] == Word(p.name)
  {
    match p
    case Flag(name) => [Word(name)]
    case KeyValue(name, _) => [Word(name), Equals]
    case Call(name, args, trailing) =>
      [Word(name), Open] + PrintedArguments(args) + TrailingComma(args, trailing) + [Close]
  }

  /** The arguments, separated by commas. */
  function PrintedArguments(args: seq<Pred>): (tokens: seq<Token>)
  {
    if args == [] then []
    else if |args| == 1 then Printed(args[0])
    else Printed(args[0]) + [Comma] + PrintedArguments(args[1..])
  }

  /** What one build makes of everything the policy does not know: a flag, a key
      with its value, an unknown call. A real build answers by the predicate alone;
      an answer that may also depend on the occurrence treats all as unrelated. */
  type Build = (Pred, seq<nat>) -> bool

  /** The value of a predicate in a build; `path` says which occurrence this is. */
  function Holds(p: Pred, testing: bool, build: Build, path: seq<nat>): (v: bool) {
    match p
    case Flag(name) => if name == "test" then testing else build(p, path)
    case KeyValue(_, _) => build(p, path)
    case Call(name, args, _) =>
      if name == "not" && |args| == 1 then !Holds(args[0], testing, build, path + [0])
      else if name == "all" then forall i :: 0 <= i < |args| ==> Holds(args[i], testing, build, path + [i])
      else if name == "any" then exists i :: 0 <= i < |args| && Holds(args[i], testing, build, path + [i])
      else build(p, path)
  }

  /** The values of a predicate, by its structure. */
  function Possible(p: Pred, testing: bool): (r: Values) {
    match p
    case Flag(name) => if name == "test" then {testing} else UNKNOWN
    case KeyValue(_, _) => UNKNOWN
    case Call(name, args, _) => Combined(Word(name), AllPossible(args, testing))
  }

  function AllPossible(args: seq<Pred>, testing: bool): (r: seq<Values>)
    ensures |r| == |args| && forall i :: 0 <= i < |args| ==> r[i] == Possible(args[i], testing)
  {
    if args == [] then [] else [Possible(args[0], testing)] + AllPossible(args[1..], testing)
  }

  // ---------- the parser reads what is printed ----------

  /** These tokens stand at this position. */
  ghost predicate StandsAt(tokens: seq<Token>, position: nat, part: seq<Token>) {
    position + |part| <= |tokens| && forall i :: 0 <= i < |part| ==> tokens[position + i] == part[i]
  }

  /** What may follow a predicate. */
  predicate EndsAt(tokens: seq<Token>, position: nat) {
    position >= |tokens| || tokens[position] == Comma || tokens[position] == Close
  }

  lemma StandsSplit(tokens: seq<Token>, position: nat, left: seq<Token>, right: seq<Token>)
    requires StandsAt(tokens, position, left + right)
    ensures StandsAt(tokens, position, left) && StandsAt(tokens, position + |left|, right)
  {
    var all := left + right;
    forall i | 0 <= i < |left| ensures tokens[position + i] == left[i] {
      assert all[i] == left[i];
    }
    forall i | 0 <= i < |right| ensures tokens[position + |left| + i] == right[i] {
      assert all[|left| + i] == right[i];
    }
  }

  lemma TokenBetween(tokens: seq<Token>, position: nat, left: seq<Token>, token: Token, right: seq<Token>)
    requires StandsAt(tokens, position, left + [token] + right)
    ensures StandsAt(tokens, position, left)
    ensures position + |left| < |tokens| && tokens[position + |left|] == token
    ensures StandsAt(tokens, position + |left| + 1, right)
  {
    StandsSplit(tokens, position, left + [token], right);
    StandsSplit(tokens, position, left, [token]);
    assert [token][0] == token;
  }

  function TrailingComma(args: seq<Pred>, trailing: bool): (tokens: seq<Token>) {
    if trailing && args != [] then [Comma] else []
  }

  /** Where the parts of a printed call stand. */
  lemma CallStands(tokens: seq<Token>, position: nat, name: string, args: seq<Pred>, trailing: bool)
    requires StandsAt(tokens, position, Printed(Call(name, args, trailing)))
    ensures var start, commas := position + 2, |TrailingComma(args, trailing)|;
      var end := start + |PrintedArguments(args)|;
      && StandsAt(tokens, start, PrintedArguments(args))
      && end + commas < |tokens| && tokens[end + commas] == Close
      && (commas == 1 ==> tokens[end] == Comma)
      && tokens[position] == Word(name) && tokens[position + 1] == Open
      && end + commas + 1 == position + |Printed(Call(name, args, trailing))|
  {
    var inner, comma := PrintedArguments(args), TrailingComma(args, trailing);
    CallPartsStand(tokens, position, [Word(name), Open], inner, comma);
    assert [Word(name), Open][0] == Word(name) && [Word(name), Open][1] == Open;
    if |comma| == 1 {
      assert comma[0] == Comma;
    }
  }

  lemma CallPartsStand(tokens: seq<Token>, position: nat, head: seq<Token>, inner: seq<Token>, comma: seq<Token>)
    requires StandsAt(tokens, position, head + inner + comma + [Close])
    ensures StandsAt(tokens, position, head) && StandsAt(tokens, position + |head|, inner)
    ensures StandsAt(tokens, position + |head| + |inner|, comma)
    ensures position + |head| + |inner| + |comma| < |tokens|
    ensures tokens[position + |head| + |inner| + |comma|] == Close
  {
    TokenBetween(tokens, position, head + inner + comma, Close, []);
    StandsSplit(tokens, position, head + inner, comma);
    StandsSplit(tokens, position, head, inner);
  }

  lemma ArgumentsStand(tokens: seq<Token>, position: nat, args: seq<Pred>)
    requires |args| > 1 && StandsAt(tokens, position, PrintedArguments(args))
    ensures var next := position + |Printed(args[0])|;
      && StandsAt(tokens, position, Printed(args[0]))
      && next < |tokens| && tokens[next] == Comma
      && StandsAt(tokens, next + 1, PrintedArguments(args[1..]))
      && next + 1 + |PrintedArguments(args[1..])| == position + |PrintedArguments(args)|
  {
    var first, rest := Printed(args[0]), PrintedArguments(args[1..]);
    TokenBetween(tokens, position, first, Comma, rest);
  }

  lemma {:induction false} ReadsPredicate(tokens: seq<Token>, position: nat, p: Pred, testing: bool)
    requires StandsAt(tokens, position, Printed(p)) && EndsAt(tokens, position + |Printed(p)|)
    ensures position < |tokens|
    ensures CfgValues(tokens, position, testing) == (Possible(p, testing), position + |Printed(p)|)
    decreases p, 1
  {
    match p {
      case Flag(name) =>
        assert Printed(p)[0] == Word(name);
      case KeyValue(name, _) =>
        assert Printed(p)[1] == Equals;
      case Call(name, args, trailing) =>
        CallStands(tokens, position, name, args, trailing);
        ReadsArguments(tokens, position + 2, args, |TrailingComma(args, trailing)|, testing);
    }
  }

  lemma OneMoreArgument(tokens: seq<Token>, position: nat, next: nat, values: Values, testing: bool)
    requires position < |tokens| && tokens[position].Word?
    requires CfgValues(tokens, position, testing) == (values, next)
    ensures var (rest, end) := CfgArguments(tokens, next, testing);
      CfgArguments(tokens, position, testing) == ([values] + rest, end)
  {
  }

  lemma FirstArgument(tokens: seq<Token>, position: nat, args: seq<Pred>, next: nat, testing: bool)
    requires args != [] && StandsAt(tokens, position, Printed(args[0])) && position < |tokens|
    requires CfgValues(tokens, position, testing) == (Possible(args[0], testing), next)
    requires CfgArguments(tokens, next, testing).0 == AllPossible(args[1..], testing)
    ensures CfgArguments(tokens, position, testing) == (AllPossible(args, testing), CfgArguments(tokens, next, testing).1)
  {
    FirstIsWord(tokens, position, args[0]);
    OneMoreArgument(tokens, position, next, Possible(args[0], testing), testing);
  }

  lemma CommaIsSkipped(tokens: seq<Token>, position: nat, testing: bool)
    requires position < |tokens| && tokens[position] == Comma
    ensures CfgArguments(tokens, position, testing) == CfgArguments(tokens, position + 1, testing)
  {
  }

  lemma NoMoreArguments(tokens: seq<Token>, position: nat, commas: nat, testing: bool)
    requires commas <= 1 && position + commas < |tokens| && tokens[position + commas] == Close
    requires commas == 1 ==> tokens[position] == Comma
    ensures CfgArguments(tokens, position, testing) == ([], position + commas)
  {
  }

  /** Reads the arguments, and skips the comma that may follow them. */
  lemma {:induction false} ReadsArguments(tokens: seq<Token>, position: nat, args: seq<Pred>, commas: nat, testing: bool)
    requires StandsAt(tokens, position, PrintedArguments(args)) && commas <= 1 && (args == [] ==> commas == 0)
    requires var end := position + |PrintedArguments(args)|;
      && end + commas < |tokens| && tokens[end + commas] == Close
      && (commas == 1 ==> tokens[end] == Comma)
    ensures CfgArguments(tokens, position, testing)
         == (AllPossible(args, testing), position + |PrintedArguments(args)| + commas)
    decreases args, 0
  {
    if args == [] {
      NoMoreArguments(tokens, position, commas, testing);
    } else if |args| == 1 {
      var end := position + |Printed(args[0])|;
      ReadsPredicate(tokens, position, args[0], testing);
      NoMoreArguments(tokens, end, commas, testing);
      FirstArgument(tokens, position, args, end, testing);
      assert AllPossible(args[1..], testing) == [];
    } else {
      var next := position + |Printed(args[0])|;
      ArgumentsStand(tokens, position, args);
      ReadsPredicate(tokens, position, args[0], testing);
      ReadsArguments(tokens, next + 1, args[1..], commas, testing);
      CommaIsSkipped(tokens, next, testing);
      FirstArgument(tokens, position, args, next, testing);
    }
  }

  lemma FirstIsWord(tokens: seq<Token>, position: nat, p: Pred)
    requires StandsAt(tokens, position, Printed(p))
    ensures position < |tokens| && tokens[position].Word?
  {
    assert tokens[position + 0] == Printed(p)[0];
  }

  // ---------- soundness ----------

  /** Every build's value is among the computed ones. */
  lemma {:induction false} EveryBuildIsCovered(p: Pred, testing: bool, build: Build, path: seq<nat>)
    ensures Holds(p, testing, build, path) in Possible(p, testing)
    decreases p
  {
    if p.Call? {
      forall i | 0 <= i < |p.args| ensures Holds(p.args[i], testing, build, path + [i]) in Possible(p.args[i], testing) {
        EveryBuildIsCovered(p.args[i], testing, build, path + [i]);
      }
      ValuesCombine(p, testing, build, path);
    }
  }

  /** The value of a call is one the values of its arguments combine to. */
  lemma ValuesCombine(p: Pred, testing: bool, build: Build, path: seq<nat>)
    requires p.Call?
    requires forall i :: 0 <= i < |p.args| ==> Holds(p.args[i], testing, build, path + [i]) in Possible(p.args[i], testing)
    ensures Holds(p, testing, build, path) in Possible(p, testing)
  {
    if p.name == "all" {
      AllCombine(p, testing, build, path);
    } else if p.name == "any" {
      AnyCombine(p, testing, build, path);
    }
  }

  lemma AllCombine(p: Pred, testing: bool, build: Build, path: seq<nat>)
    requires p.Call? && p.name == "all"
    requires forall i :: 0 <= i < |p.args| ==> Holds(p.args[i], testing, build, path + [i]) in Possible(p.args[i], testing)
    ensures Holds(p, testing, build, path) in Possible(p, testing)
  {
    var children := AllPossible(p.args, testing);
    CombinedKeeps("all", children, true);
    if Holds(p, testing, build, path) {
      assert AllHold(children, true);
    } else {
      var i :| 0 <= i < |p.args| && !Holds(p.args[i], testing, build, path + [i]);
      assert false in children[i];
    }
  }

  /** `all` and `any` keep what all their arguments can be, and what one can be. */
  lemma CombinedKeeps(name: string, children: seq<Values>, unit: bool)
    requires (name == "all" && unit) || (name == "any" && !unit)
    ensures AllHold(children, unit) ==> unit in Combined(Word(name), children)
    ensures SomeHolds(children, !unit) ==> !unit in Combined(Word(name), children)
  {
  }

  lemma AnyCombine(p: Pred, testing: bool, build: Build, path: seq<nat>)
    requires p.Call? && p.name == "any"
    requires forall i :: 0 <= i < |p.args| ==> Holds(p.args[i], testing, build, path + [i]) in Possible(p.args[i], testing)
    ensures Holds(p, testing, build, path) in Possible(p, testing)
  {
    var children := AllPossible(p.args, testing);
    CombinedKeeps("any", children, false);
    if Holds(p, testing, build, path) {
      var i :| 0 <= i < |p.args| && Holds(p.args[i], testing, build, path + [i]);
      assert true in children[i];
    } else {
      assert AllHold(children, false);
    }
  }

  // ---------- and nothing more ----------

  ghost predicate SameBelow(left: Build, right: Build, path: seq<nat>) {
    forall p, q :: path <= q ==> left(p, q) == right(p, q)
  }

  lemma {:induction false} OnlyBelowMatters(p: Pred, testing: bool, left: Build, right: Build, path: seq<nat>)
    requires SameBelow(left, right, path)
    ensures Holds(p, testing, left, path) == Holds(p, testing, right, path)
    decreases p
  {
    if p.Call? {
      forall i | 0 <= i < |p.args|
        ensures Holds(p.args[i], testing, left, path + [i]) == Holds(p.args[i], testing, right, path + [i])
      {
        forall x, q | path + [i] <= q ensures left(x, q) == right(x, q) {
          assert path <= q;
        }
        OnlyBelowMatters(p.args[i], testing, left, right, path + [i]);
      }
    }
  }

  /** A build that answers for each argument as its own build does. */
  ghost function Joined(builds: seq<Build>, path: seq<nat>, rest: bool): (b: Build) {
    (p, q) => if |q| > |path| && q[|path|] < |builds| then builds[q[|path|]](p, q) else rest
  }

  lemma JoinedAgrees(builds: seq<Build>, path: seq<nat>, rest: bool, i: nat)
    requires i < |builds|
    ensures SameBelow(Joined(builds, path, rest), builds[i], path + [i])
  {
    forall p, q | path + [i] <= q ensures Joined(builds, path, rest)(p, q) == builds[i](p, q) {
      assert q[|path|] == (path + [i])[|path|];
    }
  }

  /** One build in which all the arguments take the value v. */
  lemma {:induction false} AllTake(args: seq<Pred>, testing: bool, v: bool, path: seq<nat>, n: nat) returns (builds: seq<Build>)
    requires n <= |args| && forall i :: 0 <= i < |args| ==> v in Possible(args[i], testing)
    ensures |builds| == n && forall i :: 0 <= i < n ==> Holds(args[i], testing, builds[i], path + [i]) == v
    decreases args, 0, n
  {
    builds := [];
    if n > 0 {
      builds := AllTake(args, testing, v, path, n - 1);
      var last := EveryValueIsTaken(args[n - 1], testing, v, path + [n - 1]);
      builds := builds + [last];
    }
  }

  /** Each computed value is the value in some build. */
  lemma {:induction false} EveryValueIsTaken(p: Pred, testing: bool, v: bool, path: seq<nat>) returns (build: Build)
    requires v in Possible(p, testing)
    ensures Holds(p, testing, build, path) == v
    decreases p, 1
  {
    build := (_, _) => v;
    if p.Call? {
      var children := AllPossible(p.args, testing);
      if p.name == "not" && |p.args| == 1 {
        build := EveryValueIsTaken(p.args[0], testing, !v, path + [0]);
      } else if p.name == "all" || p.name == "any" {
        if v == (p.name == "all") {
          build := EverywhereTheSame(p.args, testing, v, path);
        } else {
          var i :| 0 <= i < |children| && v in children[i];
          build := EveryValueIsTaken(p.args[i], testing, v, path + [i]);
        }
      }
    }
  }

  lemma {:induction false} EverywhereTheSame(args: seq<Pred>, testing: bool, v: bool, path: seq<nat>) returns (build: Build)
    requires forall i :: 0 <= i < |args| ==> v in Possible(args[i], testing)
    ensures forall i :: 0 <= i < |args| ==> Holds(args[i], testing, build, path + [i]) == v
    decreases args, 1
  {
    var builds := AllTake(args, testing, v, path, |args|);
    build := Joined(builds, path, v);
    forall i | 0 <= i < |args| ensures Holds(args[i], testing, build, path + [i]) == v {
      JoinedAgrees(builds, path, v, i);
      OnlyBelowMatters(args[i], testing, build, builds[i], path + [i]);
    }
  }

  // ---------- main results ----------

  /** On the tokens of a well-formed predicate the evaluator reads all of them, and
      returns exactly the values the predicate takes over all builds. */
  lemma EvaluatorIsExact(p: Pred, testing: bool, v: bool)
    ensures CfgValues(Printed(p), 0, testing).1 == |Printed(p)|
    ensures v in CfgValues(Printed(p), 0, testing).0 <==> exists build: Build :: Holds(p, testing, build, []) == v
  {
    ReadsPredicate(Printed(p), 0, p, testing);
    if v in Possible(p, testing) {
      var build := EveryValueIsTaken(p, testing, v, []);
    }
    forall build: Build ensures Holds(p, testing, build, []) in Possible(p, testing) {
      EveryBuildIsCovered(p, testing, build, []);
    }
  }

  /** A cfg is taken as test-only exactly when it mentions `test`, holds in no build
      without tests, and can hold in one with them. */
  lemma TestOnlyMeansTestOnly(p: Pred)
    ensures IsTestOnly(Cfg(Printed(p))) <==>
      && Word("test") in Printed(p)
      && (forall build: Build :: !Holds(p, false, build, []))
      && (exists build: Build :: Holds(p, true, build, []))
  {
    EvaluatorIsExact(p, false, true);
    EvaluatorIsExact(p, false, false);
    EvaluatorIsExact(p, true, true);
    var off := CfgValues(Printed(p), 0, false).0;
    var some: Build := (_, _) => true;
    if true !in off {
      assert !Holds(p, false, some, []);
      assert off == {false};
    }
  }

  /** A real build: everything unknown has one value, wherever it occurs. */
  function Consistent(flags: Pred -> bool): (build: Build) {
    (p, _) => flags(p)
  }

  predicate HoldsIn(p: Pred, testing: bool, flags: Pred -> bool) {
    Holds(p, testing, Consistent(flags), [])
  }

  /** An accepted cfg is false in every real build without tests. */
  lemma AcceptedCfgIsOffWithoutTests(p: Pred, flags: Pred -> bool)
    requires IsTestOnly(Cfg(Printed(p)))
    ensures !HoldsIn(p, false, flags)
  {
    TestOnlyMeansTestOnly(p);
    var build := Consistent(flags);
    assert !Holds(p, false, build, []);
  }

  /** In a real build it does not matter where a predicate stands. */
  lemma {:induction false} PlaceDoesNotMatter(p: Pred, testing: bool, flags: Pred -> bool, path: seq<nat>, other: seq<nat>)
    ensures Holds(p, testing, Consistent(flags), path) == Holds(p, testing, Consistent(flags), other)
    decreases p
  {
    if p.Call? {
      forall i | 0 <= i < |p.args|
        ensures Holds(p.args[i], testing, Consistent(flags), path + [i]) == Holds(p.args[i], testing, Consistent(flags), other + [i])
      {
        PlaceDoesNotMatter(p.args[i], testing, flags, path + [i], other + [i]);
      }
    }
  }

  /** `all(q, not(q))` */
  function Contradiction(q: Pred): (p: Pred) {
    Call("all", [q, Call("not", [q], false)], false)
  }

  lemma ContradictionIsOff(q: Pred, flags: Pred -> bool, path: seq<nat>)
    ensures !Holds(Contradiction(q), false, Consistent(flags), path)
  {
    var p, build := Contradiction(q), Consistent(flags);
    PlaceDoesNotMatter(q, false, flags, path + [0], path + [1] + [0]);
    assert Holds(p.args[1], false, build, path + [1]) == !Holds(q, false, build, path + [1] + [0]);
    assert !Holds(p.args[0], false, build, path + [0]) || !Holds(p.args[1], false, build, path + [1]);
  }

  lemma {:induction false} SomeValueIsPossible(p: Pred, testing: bool)
    ensures Possible(p, testing) != {}
  {
    EveryBuildIsCovered(p, testing, (_, _) => true, []);
  }

  /** The converse fails where a part occurs both as it is and under a `not`, since
      occurrences are taken as unrelated: `any(test, all(q, not(q)))` is off in every
      real build without tests, and is not accepted whenever q has both values. */
  lemma ContradictionIsNotSeen(q: Pred, p: Pred)
    requires p == Call("any", [Flag("test"), Contradiction(q)], false)
    ensures forall flags: Pred -> bool :: !HoldsIn(p, false, flags)
    ensures IsTestOnly(Cfg(Printed(p))) <==> Possible(q, false) != UNKNOWN
  {
    forall flags: Pred -> bool ensures !HoldsIn(p, false, flags) {
      var build := Consistent(flags);
      ContradictionIsOff(q, flags, [] + [1]);
      assert !Holds(p.args[0], false, build, [] + [0]) && !Holds(p.args[1], false, build, [] + [1]);
      assert !Holds(p, false, build, []);
    }
    ReadsPredicate(Printed(p), 0, p, false);
    ReadsPredicate(Printed(p), 0, p, true);
    TestIsMentioned(p);
    ContradictionValues(q);
    OffOrOn(p, Contradiction(q));
  }

  lemma TestIsMentioned(p: Pred)
    requires p.Call? && |p.args| == 2 && p.args[0] == Flag("test")
    ensures Word("test") in Printed(p)
  {
    var inner := Printed(p.args[0]) + [Comma] + PrintedArguments(p.args[1..]);
    assert PrintedArguments(p.args) == inner && inner[0] == Word("test");
    assert Printed(p)[2] == inner[0];
  }

  lemma ContradictionValues(q: Pred)
    ensures Possible(Contradiction(q), false) == if Possible(q, false) == UNKNOWN then UNKNOWN else {false}
  {
    SomeValueIsPossible(q, false);
    var no := Call("not", [q], false);
    assert AllPossible([q], false) == [Possible(q, false)];
    assert Possible(no, false) == Negated(Possible(q, false));
    var children := AllPossible([q, no], false);
    assert children == [Possible(q, false), Possible(no, false)];
    assert AllHold(children, true) <==> true in children[0] && true in children[1];
    assert SomeHolds(children, false) by {
      assert false in children[0] || false in children[1];
    }
  }

  lemma OffOrOn(p: Pred, rest: Pred)
    requires p == Call("any", [Flag("test"), rest], false) && false in Possible(rest, false)
    ensures Possible(p, false) == if true in Possible(rest, false) then UNKNOWN else {false}
    ensures true in Possible(p, true)
  {
    var off, on := AllPossible(p.args, false), AllPossible(p.args, true);
    assert off[0] == {false} && off[1] == Possible(rest, false) && on[0] == {true};
    assert AllHold(off, false);
    assert SomeHolds(off, true) <==> true in off[1];
  }
}
