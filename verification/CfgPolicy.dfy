/** Which attributes mark code as test-only. Source: scripts/rust-test-policy.py,
    from the tokens of an attribute whose literals were blanked. */
module CfgPolicies {

  datatype Token = Word(text: string) | Open | Close | Comma | Equals

  /** What a predicate may evaluate to. */
  type Values = set<bool>

  const UNKNOWN: Values := {false, true}

  // ---------- the evaluator ----------

  function Negated(values: Values): (r: Values) {
    set v | v in UNKNOWN && !v in values
  }

  predicate AllHold(children: seq<Values>, v: bool) {
    forall i :: 0 <= i < |children| ==> v in children[i]
  }

  predicate SomeHolds(children: seq<Values>, v: bool) {
    exists i :: 0 <= i < |children| && v in children[i]
  }

  /** What a call of this name makes of the values of its arguments. */
  function Combined(name: Token, children: seq<Values>): (r: Values) {
    if name == Word("not") && |children| == 1 then Negated(children[0])
    else if name == Word("all") then
      (if AllHold(children, true) then {true} else {}) + if SomeHolds(children, false) then {false} else {}
    else if name == Word("any") then
      (if AllHold(children, false) then {false} else {}) + if SomeHolds(children, true) then {true} else {}
    else UNKNOWN
  }

  /** The values of the predicate at a position, and where it ends. */
  function CfgValues(tokens: seq<Token>, position: nat, testEnabled: bool): (r: (Values, nat))
    requires position < |tokens|
    ensures r.1 > position
    decreases |tokens| - position, 1
  {
    var next := position + 1;
    if next < |tokens| && tokens[next] == Equals then (UNKNOWN, next + 1)
    else if next == |tokens| || tokens[next] != Open then
      (if tokens[position] == Word("test") then {testEnabled} else UNKNOWN, next)
    else
      var (children, end) := CfgArguments(tokens, next + 1, testEnabled);
      (Combined(tokens[position], children), end + 1)
  }

  /** The values of the arguments up to a closing parenthesis or the end. */
  function CfgArguments(tokens: seq<Token>, position: nat, testEnabled: bool): (r: (seq<Values>, nat))
    ensures r.1 >= position
    decreases if position < |tokens| then |tokens| - position else 0, 2
  {
    if position >= |tokens| || tokens[position] == Close then ([], position)
    else if tokens[position] == Comma then CfgArguments(tokens, position + 1, testEnabled)
    else
      var (values, next) := CfgValues(tokens, position, testEnabled);
      var (rest, end) := CfgArguments(tokens, next, testEnabled);
      ([values] + rest, end)
  }

  method EvaluateCfg(tokens: seq<Token>, start: nat, testEnabled: bool) returns (values: Values, position: nat)
    requires start < |tokens|
    ensures (values, position) == CfgValues(tokens, start, testEnabled)
    decreases |tokens| - start
  {
    var name := tokens[start];
    position := start + 1;
    if position < |tokens| && tokens[position] == Equals {
      return UNKNOWN, position + 1;
    }
    if position == |tokens| || tokens[position] != Open {
      return if name == Word("test") then {testEnabled} else UNKNOWN, position;
    }
    var children: seq<Values> := [];
    position := position + 1;
    ghost var (whole, end) := CfgArguments(tokens, position, testEnabled);
    assert children + whole == whole;
    while position < |tokens| && tokens[position] != Close
      invariant position > start
      invariant whole == children + CfgArguments(tokens, position, testEnabled).0
      invariant end == CfgArguments(tokens, position, testEnabled).1
      decreases |tokens| - position
    {
      if tokens[position] == Comma {
        position := position + 1;
      } else {
        var child, next := EvaluateCfg(tokens, position, testEnabled);
        ghost var rest := CfgArguments(tokens, next, testEnabled).0;
        assert children + ([child] + rest) == (children + [child]) + rest;
        children, position := children + [child], next;
      }
    }
    assert whole == children && end == position;
    return Combined(name, children), position + 1;
  }

  /** An attribute: a test marker, a cfg with its tokens, or something else. */
  datatype Attribute = TestMarker | Cfg(tokens: seq<Token>) | Other

  predicate IsTestOnly(attribute: Attribute) {
    match attribute
    case TestMarker => true
    case Cfg(tokens) =>
      && Word("test") in tokens
      && CfgValues(tokens, 0, false).0 == {false}
      && true in CfgValues(tokens, 0, true).0
    case Other => false
  }

  method TestAttribute(attributes: seq<Attribute>) returns (testOnly: bool)
    ensures testOnly <==>
      || TestMarker in attributes
      || exists i :: 0 <= i < |attributes| && attributes[i].Cfg? && IsTestOnly(attributes[i])
  {
    for i := 0 to |attributes|
      invariant forall k :: 0 <= k < i ==> !IsTestOnly(attributes[k])
    {
      match attributes[i] {
        case TestMarker =>
          return true;
        case Cfg(tokens) =>
          if Word("test") in tokens {
            var off, _ := EvaluateCfg(tokens, 0, false);
            if off == {false} {
              var on, _ := EvaluateCfg(tokens, 0, true);
              if true in on {
                assert IsTestOnly(attributes[i]);
                return true;
              }
            }
          }
        case Other =>
      }
    }
    return false;
  }
}
