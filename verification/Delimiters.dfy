/** Where a bracketed group ends, in code whose literals and comments are blanked.
    Source: scripts/rust-test-policy.py. */
module Delimiters {

  predicate IsOpening(c: char) {
    c == '(' || c == '[' || c == '{'
  }

  predicate IsClosing(c: char) {
    c == ')' || c == ']' || c == '}'
  }

  function Closer(open: char): (close: char) {
    if open == '(' then ')' else if open == '[' then ']' else '}'
  }

  predicate Closes(stack: seq<char>, c: char) {
    stack != [] && Closer(stack[|stack| - 1]) == c
  }

  /** The end of the group, or of the code if a bracket does not fit or is missing. */
  function Scanned(code: string, i: nat, stack: seq<char>): (end: nat)
    decreases |code| - i
  {
    if i >= |code| then |code|
    else if IsOpening(code[i]) then Scanned(code, i + 1, stack + [code[i]])
    else if IsClosing(code[i]) then
      if !Closes(stack, code[i]) then |code|
      else if |stack| == 1 then i + 1
      else Scanned(code, i + 1, stack[..|stack| - 1])
    else Scanned(code, i + 1, stack)
  }

  method ClosingDelimiter(code: string, start: nat) returns (end: nat)
    requires start <= |code|
    ensures end == Scanned(code, start, [])
  {
    var stack: seq<char> := [];
    for i := start to |code|
      invariant forall k :: 0 <= k < |stack| ==> IsOpening(stack[k])
      invariant Scanned(code, i, stack) == Scanned(code, start, [])
    {
      var c := code[i];
      if IsOpening(c) {
        stack := stack + [c];
      } else if IsClosing(c) {
        if stack == [] {
          return |code|;
        }
        var open := stack[|stack| - 1];
        stack := stack[..|stack| - 1];
        if Closer(open) != c {
          return |code|;
        }
        if stack == [] {
          return i + 1;
        }
      }
    }
    return |code|;
  }

  // ---------- the bracket grammar ----------

  /** Text without brackets of its own, or a group. */
  datatype Tree = Plain(c: char) | Group(open: char, body: seq<Tree>)

  /** The three kinds of brackets. */
  predicate Paired(open: char, close: char) {
    (open == '(' && close == ')') || (open == '[' && close == ']') || (open == '{' && close == '}')
  }

  predicate IsBracket(c: char) {
    exists d :: Paired(c, d) || Paired(d, c)
  }

  /** Every group is closed by its own kind of bracket. */
  predicate WellFormed(t: Tree) {
    match t
    case Plain(c) => !IsBracket(c)
    case Group(open, body) =>
      Paired(open, Closer(open)) && forall i :: 0 <= i < |body| ==> WellFormed(body[i])
  }

  lemma BracketsAreThese(c: char)
    ensures IsBracket(c) <==> IsOpening(c) || IsClosing(c)
    ensures IsOpening(c) <==> Paired(c, Closer(c))
  {
    if IsOpening(c) {
      assert Paired(c, Closer(c));
    } else if IsClosing(c) {
      assert Paired(if c == ')' then '(' else if c == ']' then '[' else '{', c);
    }
  }

  function Text(t: Tree): (s: string) {
    match t
    case Plain(c) => [c]
    case Group(open, body) => [open] + AllText(body) + [Closer(open)]
  }

  function AllText(ts: seq<Tree>): (s: string) {
    if ts == [] then [] else AllText(ts[..|ts| - 1]) + Text(ts[|ts| - 1])
  }

  predicate NoBrackets(s: string) {
    forall i :: 0 <= i < |s| ==> !IsBracket(s[i])
  }

  /** From `start` to `end` there is one group, after text without brackets. */
  ghost predicate GroupEndsAt(code: string, start: nat, end: nat) {
    exists lead: string, group: Tree :: Spells(code, start, end, lead, group)
  }

  ghost predicate Spells(code: string, start: nat, end: nat, lead: string, group: Tree) {
    && start <= end <= |code|
    && group.Group? && WellFormed(group) && NoBrackets(lead)
    && code[start..end] == lead + Text(group)
  }

  // ---------- a group is found ----------

  ghost predicate StandsAt(code: string, i: nat, s: string) {
    i + |s| <= |code| && code[i..i + |s|] == s
  }

  lemma StandsSplit(code: string, i: nat, left: string, right: string)
    requires StandsAt(code, i, left + right)
    ensures StandsAt(code, i, left) && StandsAt(code, i + |left|, right)
  {
    var all := left + right;
    assert code[i..i + |left|] == code[i..i + |all|][..|left|] == all[..|left|];
    assert code[i + |left|..i + |all|] == code[i..i + |all|][|left|..] == all[|left|..];
  }

  lemma CharAt(code: string, i: nat, c: char)
    requires StandsAt(code, i, [c])
    ensures i < |code| && code[i] == c
  {
    assert code[i..i + 1][0] == code[i];
  }

  lemma {:induction false} TextIsSkipped(code: string, i: nat, stack: seq<char>, t: Tree)
    requires WellFormed(t) && StandsAt(code, i, Text(t)) && stack != []
    ensures Scanned(code, i, stack) == Scanned(code, i + |Text(t)|, stack)
    decreases t, 1
  {
    match t {
      case Plain(c) =>
        CharAt(code, i, c);
        BracketsAreThese(c);
      case Group(open, body) =>
        var close := GroupIsRead(code, i, stack, t);
        assert (stack + [open])[..|stack|] == stack;
    }
  }

  /** Reading a group up to its last bracket, which stands at `close`. */
  lemma {:induction false} GroupIsRead(code: string, i: nat, stack: seq<char>, t: Tree) returns (close: nat)
    requires t.Group? && WellFormed(t) && StandsAt(code, i, Text(t))
    ensures close + 1 == i + |Text(t)| <= |code|
    ensures code[close] == Closer(t.open)
    ensures Scanned(code, i, stack) == Scanned(code, close, stack + [t.open])
    decreases t, 0
  {
    var inner := AllText(t.body);
    StandsSplit(code, i, [t.open] + inner, [Closer(t.open)]);
    StandsSplit(code, i, [t.open], inner);
    CharAt(code, i, t.open);
    close := i + 1 + |inner|;
    CharAt(code, close, Closer(t.open));
    AllTextIsSkipped(code, i + 1, stack + [t.open], t.body);
  }

  lemma {:induction false} AllTextIsSkipped(code: string, i: nat, stack: seq<char>, ts: seq<Tree>)
    requires (forall k :: 0 <= k < |ts| ==> WellFormed(ts[k])) && StandsAt(code, i, AllText(ts)) && stack != []
    ensures Scanned(code, i, stack) == Scanned(code, i + |AllText(ts)|, stack)
    decreases ts, 2
  {
    if ts != [] {
      var before := ts[..|ts| - 1];
      StandsSplit(code, i, AllText(before), Text(ts[|ts| - 1]));
      AllTextIsSkipped(code, i, stack, before);
      TextIsSkipped(code, i + |AllText(before)|, stack, ts[|ts| - 1]);
    }
  }

  lemma {:induction false} LeadIsSkipped(code: string, i: nat, lead: string)
    requires StandsAt(code, i, lead) && NoBrackets(lead)
    ensures Scanned(code, i, []) == Scanned(code, i + |lead|, [])
    decreases |lead|
  {
    if lead != [] {
      assert lead == lead[..1] + lead[1..];
      StandsSplit(code, i, lead[..1], lead[1..]);
      CharAt(code, i, lead[0]);
      BracketsAreThese(lead[0]);
      LeadIsSkipped(code, i + 1, lead[1..]);
    }
  }

  lemma GroupIsFound(code: string, start: nat, end: nat, lead: string, group: Tree)
    requires Spells(code, start, end, lead, group)
    ensures Scanned(code, start, []) == end
  {
    StandsSplit(code, start, lead, Text(group));
    LeadIsSkipped(code, start, lead);
    var close := GroupIsRead(code, start + |lead|, [], group);
    assert Closes([group.open], code[close]);
  }

  // ---------- what is found is a group ----------

  /** An open group and what was read of it. */
  datatype Unclosed = Unclosed(open: char, body: seq<Tree>)

  function Opens(groups: seq<Unclosed>): (stack: seq<char>)
    ensures |stack| == |groups| && forall i :: 0 <= i < |groups| ==> stack[i] == groups[i].open
  {
    seq(|groups|, i requires 0 <= i < |groups| => groups[i].open)
  }

  function TextSoFar(groups: seq<Unclosed>): (s: string) {
    if groups == [] then []
    else
      var last := groups[|groups| - 1];
      TextSoFar(groups[..|groups| - 1]) + ([last.open] + AllText(last.body))
  }

  ghost predicate Sound(groups: seq<Unclosed>) {
    forall i :: 0 <= i < |groups| ==> IsOpening(groups[i].open) && WellFormed(Group(groups[i].open, groups[i].body))
  }

  /** One more tree in the innermost open group. */
  function Extended(groups: seq<Unclosed>, t: Tree): (r: seq<Unclosed>)
    requires groups != []
  {
    var last := groups[|groups| - 1];
    groups[|groups| - 1 := last.(body := last.body + [t])]
  }

  lemma ExtendedText(groups: seq<Unclosed>, t: Tree)
    requires groups != [] && Sound(groups) && WellFormed(t)
    ensures TextSoFar(Extended(groups, t)) == TextSoFar(groups) + Text(t)
    ensures Opens(Extended(groups, t)) == Opens(groups) && Sound(Extended(groups, t))
  {
    var last, after := groups[|groups| - 1], Extended(groups, t);
    assert after[..|groups| - 1] == groups[..|groups| - 1];
    assert (last.body + [t])[..|last.body|] == last.body;
    assert AllText(last.body + [t]) == AllText(last.body) + Text(t);
    assert TextSoFar(after) == TextSoFar(groups[..|groups| - 1]) + ([last.open] + (AllText(last.body) + Text(t)));
  }

  lemma OpenedText(groups: seq<Unclosed>, open: char)
    requires Sound(groups) && IsOpening(open)
    ensures var after := groups + [Unclosed(open, [])];
      TextSoFar(after) == TextSoFar(groups) + [open] && Opens(after) == Opens(groups) + [open] && Sound(after)
  {
    var after := groups + [Unclosed(open, [])];
    assert after[..|groups|] == groups;
  }

  /** Closing the innermost open group turns it into a tree of the one around it. */
  lemma ClosedText(lead: string, groups: seq<Unclosed>, c: char) returns (before: seq<Unclosed>, group: Tree)
    requires Sound(groups) && Closes(Opens(groups), c)
    ensures groups != [] && before == groups[..|groups| - 1] && group.Group? && WellFormed(group) && Sound(before)
    ensures lead + TextSoFar(groups) + [c] == lead + TextSoFar(before) + Text(group)
    ensures before != [] ==>
      && Sound(Extended(before, group))
      && Opens(Extended(before, group)) == Opens(groups)[..|groups| - 1]
      && lead + TextSoFar(groups) + [c] == lead + TextSoFar(Extended(before, group))
  {
    var last := groups[|groups| - 1];
    before, group := groups[..|groups| - 1], Group(last.open, last.body);
    assert Opens(groups)[|groups| - 1] == last.open;
    assert lead + (TextSoFar(before) + ([last.open] + AllText(last.body))) + [c]
        == lead + TextSoFar(before) + ([last.open] + AllText(last.body) + [c]);
    if before != [] {
      ExtendedText(before, group);
      assert lead + TextSoFar(before) + Text(group) == lead + (TextSoFar(before) + Text(group));
    }
  }

  lemma ReadOneMore(code: string, start: nat, i: nat, text: string)
    requires start <= i < |code| && code[start..i] == text
    ensures code[start..i + 1] == text + [code[i]]
  {
  }

  lemma Regroup(a: string, b: string, c: string)
    ensures (a + b) + c == a + (b + c)
  {
  }

  /** One more character inside a group, or before the first. */
  lemma PlainRead(code: string, start: nat, i: nat, lead: string, groups: seq<Unclosed>)
    returns (lead': string, groups': seq<Unclosed>)
    requires start <= i < |code| && NoBrackets(lead) && Sound(groups) && code[start..i] == lead + TextSoFar(groups)
    requires WellFormed(Plain(code[i]))
    ensures NoBrackets(lead') && Sound(groups') && Opens(groups') == Opens(groups)
    ensures code[start..i + 1] == lead' + TextSoFar(groups')
  {
    var c := code[i];
    ReadOneMore(code, start, i, lead + TextSoFar(groups));
    if groups == [] {
      lead', groups' := lead + [c], groups;
      assert lead + TextSoFar(groups) == lead && lead' + TextSoFar(groups') == lead';
    } else {
      lead', groups' := lead, Extended(groups, Plain(c));
      ExtendedText(groups, Plain(c));
      Regroup(lead, TextSoFar(groups), [c]);
    }
  }

  lemma OpeningRead(code: string, start: nat, i: nat, lead: string, groups: seq<Unclosed>) returns (after: seq<Unclosed>)
    requires start <= i < |code| && Sound(groups) && code[start..i] == lead + TextSoFar(groups) && IsOpening(code[i])
    ensures Sound(after) && Opens(after) == Opens(groups) + [code[i]] && code[start..i + 1] == lead + TextSoFar(after)
  {
    after := groups + [Unclosed(code[i], [])];
    ReadOneMore(code, start, i, lead + TextSoFar(groups));
    OpenedText(groups, code[i]);
    Regroup(lead, TextSoFar(groups), [code[i]]);
  }

  lemma OutermostClosed(code: string, start: nat, i: nat, lead: string, groups: seq<Unclosed>)
    requires start <= i < |code| && NoBrackets(lead) && Sound(groups) && code[start..i] == lead + TextSoFar(groups)
    requires |groups| == 1 && Closes(Opens(groups), code[i])
    ensures GroupEndsAt(code, start, i + 1)
  {
    ReadOneMore(code, start, i, lead + TextSoFar(groups));
    var before, group := ClosedText(lead, groups, code[i]);
    assert before == [] && lead + TextSoFar(before) == lead;
    assert Spells(code, start, i + 1, lead, group);
  }

  lemma InnerClosed(code: string, start: nat, i: nat, lead: string, groups: seq<Unclosed>) returns (after: seq<Unclosed>)
    requires start <= i < |code| && Sound(groups) && code[start..i] == lead + TextSoFar(groups)
    requires |groups| > 1 && Closes(Opens(groups), code[i])
    ensures Sound(after) && Opens(after) == Opens(groups)[..|groups| - 1] && code[start..i + 1] == lead + TextSoFar(after)
  {
    ReadOneMore(code, start, i, lead + TextSoFar(groups));
    var before, group := ClosedText(lead, groups, code[i]);
    after := Extended(before, group);
  }

  /** Scanning on from i, with these groups still open, ends at the end of a group
      that began at `start`, or at the end of the code. */
  lemma {:induction false} FoundIsGroup(code: string, start: nat, i: nat, lead: string, groups: seq<Unclosed>)
    requires start <= i <= |code| && NoBrackets(lead) && Sound(groups)
    requires code[start..i] == lead + TextSoFar(groups)
    ensures var end := Scanned(code, i, Opens(groups)); end == |code| || GroupEndsAt(code, start, end)
    decreases |code| - i
  {
    if i < |code| {
      if IsOpening(code[i]) {
        var after := OpeningRead(code, start, i, lead, groups);
        FoundIsGroup(code, start, i + 1, lead, after);
      } else if IsClosing(code[i]) {
        if Closes(Opens(groups), code[i]) {
          if |groups| == 1 {
            OutermostClosed(code, start, i, lead, groups);
          } else {
            var after := InnerClosed(code, start, i, lead, groups);
            FoundIsGroup(code, start, i + 1, lead, after);
          }
        }
      } else {
        BracketsAreThese(code[i]);
        var lead', groups' := PlainRead(code, start, i, lead, groups);
        FoundIsGroup(code, start, i + 1, lead', groups');
      }
    }
  }

  // ---------- main result ----------

  /** The scan ends where the bracketed group that follows ends, which is one place
      at most; without one it ends with the code. */
  lemma ScanEndsWithTheGroup(code: string, start: nat, end: nat)
    requires start <= |code|
    ensures GroupEndsAt(code, start, end) ==> Scanned(code, start, []) == end
    ensures Scanned(code, start, []) == |code| || GroupEndsAt(code, start, Scanned(code, start, []))
  {
    if GroupEndsAt(code, start, end) {
      var lead: string, group: Tree :| Spells(code, start, end, lead, group);
      GroupIsFound(code, start, end, lead, group);
    }
    FoundIsGroup(code, start, start, [], []);
    assert Opens([]) == [];
  }
}
