/** The order of Rust strings, and the keys of an ordered map in that order.
    Comparing UTF-8 bytes and comparing scalar values give the same order. */
module Order {

  predicate Below(a: string, b: string) {
    b != [] && (a == [] || a[0] < b[0] || (a[0] == b[0] && Below(a[1..], b[1..])))
  }

  lemma {:induction false} Irreflexive(a: string)
    ensures !Below(a, a)
  {
    if a != [] {
      Irreflexive(a[1..]);
    }
  }

  lemma {:induction false} Transitive(a: string, b: string, c: string)
    requires Below(a, b) && Below(b, c)
    ensures Below(a, c)
  {
    if a != [] && a[0] == b[0] && b[0] == c[0] {
      Transitive(a[1..], b[1..], c[1..]);
    }
  }

  lemma {:induction false} Total(a: string, b: string)
    ensures a == b || Below(a, b) || Below(b, a)
  {
    if a != [] && b != [] && a[0] == b[0] {
      Total(a[1..], b[1..]);
      assert a == [a[0]] + a[1..] && b == [b[0]] + b[1..];
    }
  }

  lemma Asymmetric(a: string, b: string)
    requires Below(a, b)
    ensures !Below(b, a) && a != b
  {
    Irreflexive(a);
    if Below(b, a) {
      Transitive(a, b, a);
    }
  }

  ghost predicate IsLeast(m: string, s: set<string>) {
    m in s && forall x :: x in s ==> x == m || Below(m, x)
  }

  lemma {:induction false} LeastExists(s: set<string>) returns (m: string)
    requires s != {}
    ensures IsLeast(m, s)
  {
    m :| m in s;
    var rest := s - {m};
    if rest == {} {
      assert s == {m};
    } else {
      var n := LeastExists(rest);
      Total(m, n);
      if Below(n, m) {
        m := n;
      } else {
        forall x | x in s ensures x == m || Below(m, x) {
          if x != m && x != n {
            Transitive(m, n, x);
          }
        }
      }
    }
  }

  lemma SomeLeast(s: set<string>)
    requires s != {}
    ensures exists m :: IsLeast(m, s)
  {
    var m := LeastExists(s);
  }

  ghost function Least(s: set<string>): (m: string)
    requires s != {}
    ensures IsLeast(m, s)
  {
    SomeLeast(s);
    var m :| IsLeast(m, s);
    m
  }

  ghost predicate Ascending(s: seq<string>) {
    forall i, j :: 0 <= i < j < |s| ==> Below(s[i], s[j])
  }

  /** The elements of s in order, each once. */
  ghost function Sorted(s: set<string>): (r: seq<string>)
    ensures forall x :: x in r <==> x in s
    ensures Ascending(r) && |r| == |s|
  {
    if s == {} then []
    else
      var m := Least(s);
      var rest := Sorted(s - {m});
      LeastLeads(m, rest, s);
      [m] + rest
  }

  lemma LeastLeads(m: string, rest: seq<string>, s: set<string>)
    requires IsLeast(m, s) && Ascending(rest) && forall x :: x in rest <==> x in s - {m}
    ensures Ascending([m] + rest) && forall x :: x in [m] + rest <==> x in s
  {
    var all := [m] + rest;
    forall i, j | 0 <= i < j < |all| ensures Below(all[i], all[j]) {
      assert all[j] == rest[j - 1] && rest[j - 1] in rest;
      assert i > 0 ==> all[i] == rest[i - 1];
    }
  }

  /** An ascending sequence is determined by its elements. */
  lemma {:induction false} AscendingIsUnique(a: seq<string>, b: seq<string>)
    requires Ascending(a) && Ascending(b) && forall x :: x in a <==> x in b
    ensures a == b
  {
    if a == [] {
      assert forall i :: 0 <= i < |b| ==> b[i] in b;
    } else {
      assert a[0] in a && a[0] in b;
      assert b[0] in b && b[0] in a;
      FirstIsLeast(a, b[0]);
      FirstIsLeast(b, a[0]);
      if a[0] != b[0] {
        Asymmetric(a[0], b[0]);
      }
      TailKeepsElements(a, b);
      TailKeepsElements(b, a);
      AscendingIsUnique(a[1..], b[1..]);
      assert a == [a[0]] + a[1..] && b == [b[0]] + b[1..];
    }
  }

  lemma FirstIsLeast(a: seq<string>, x: string)
    requires Ascending(a) && x in a
    ensures x == a[0] || Below(a[0], x)
  {
    var i :| 0 <= i < |a| && a[i] == x;
  }

  lemma TailKeepsElements(a: seq<string>, b: seq<string>)
    requires a != [] && b != [] && a[0] == b[0] && Ascending(a)
    requires forall x :: x in a ==> x in b
    ensures forall x :: x in a[1..] ==> x in b[1..]
  {
    forall x | x in a[1..] ensures x in b[1..] {
      var i :| 0 <= i < |a[1..]| && a[1..][i] == x;
      assert a[i + 1] == x && Below(a[0], a[i + 1]);
      Asymmetric(a[0], x);
      assert x in a;
      var j :| 0 <= j < |b| && b[j] == x;
      assert j > 0 && b[1..][j - 1] == x;
    }
  }
}
