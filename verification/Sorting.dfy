/** The byte order of Go strings, and `sort.Strings` over the keys of a map. */
module Sorting {

  predicate Less(a: string, b: string)
  {
    b != "" && (a == "" || a[0] < b[0] || (a[0] == b[0] && Less(a[1..], b[1..])))
  }

  lemma {:induction false} LessTotal(a: string, b: string)
    ensures Less(a, b) || Less(b, a) || a == b
  {
    if a != "" && b != "" && a[0] == b[0] {
      LessTotal(a[1..], b[1..]);
      assert a == [a[0]] + a[1..] && b == [b[0]] + b[1..];
    }
  }

  lemma {:induction false} LessAsymmetric(a: string, b: string)
    ensures !(Less(a, b) && Less(b, a))
  {
    if a != "" && b != "" {
      LessAsymmetric(a[1..], b[1..]);
    }
  }

  lemma {:induction false} LessTransitive(a: string, b: string, c: string)
    requires Less(a, b) && Less(b, c)
    ensures Less(a, c)
  {
    if a != "" && a[0] == b[0] == c[0] {
      LessTransitive(a[1..], b[1..], c[1..]);
    }
  }

  predicate IsLeast(m: string, s: set<string>)
  {
    m in s && forall x :: x in s ==> x == m || Less(m, x)
  }

  lemma {:induction false} LeastExists(s: set<string>) returns (m: string)
    requires s != {}
    ensures IsLeast(m, s)
    decreases s
  {
    m :| m in s;
    var rest := s - {m};
    assert forall x :: x in s ==> x == m || x in rest;
    if rest != {} {
      var n := LeastExists(rest);
      LessTotal(m, n);
      if Less(m, n) {
        forall x | x in s ensures x == m || Less(m, x) {
          if x in rest && x != n {
            LessTransitive(m, n, x);
          }
        }
      } else {
        m := n;
      }
    }
  }

  lemma LeastIsDefined(s: set<string>)
    requires s != {}
    ensures exists m :: IsLeast(m, s)
    ensures forall x, y :: IsLeast(x, s) && IsLeast(y, s) ==> x == y
  {
    var m := LeastExists(s);
    forall x, y | IsLeast(x, s) && IsLeast(y, s) ensures x == y {
      LessAsymmetric(x, y);
    }
  }

  function Least(s: set<string>): (m: string)
    requires s != {}
    ensures IsLeast(m, s)
  {
    LeastIsDefined(s);
    var m :| IsLeast(m, s);
    m
  }

  predicate Sorted(ks: seq<string>)
  {
    forall i, j :: 0 <= i < j < |ks| ==> Less(ks[i], ks[j])
  }

  lemma SortedIsDistinct(ks: seq<string>)
    requires Sorted(ks)
    ensures forall i, j :: 0 <= i < j < |ks| ==> ks[i] != ks[j]
  {
    forall i, j | 0 <= i < j < |ks| ensures ks[i] != ks[j] {
      LessAsymmetric(ks[i], ks[j]);
    }
  }

  /** The members of `s` in ascending order, each once. */
  function SortedKeys(s: set<string>): (ks: seq<string>)
    ensures Sorted(ks)
    ensures forall x :: x in ks <==> x in s
  {
    if s == {} then []
    else
      var m := Least(s);
      var rest := SortedKeys(s - {m});
      assert forall i :: 0 <= i < |rest| ==> rest[i] in rest;
      [m] + rest
  }

  /** A set has one ascending enumeration. */
  lemma {:induction false} SortedIsUnique(ks: seq<string>, ls: seq<string>)
    requires Sorted(ks) && Sorted(ls) && forall x :: x in ks <==> x in ls
    ensures ks == ls
  {
    SortedIsDistinct(ks);
    SortedIsDistinct(ls);
    assert |ls| > 0 ==> ls[0] in ls;
    if ks != [] {
      assert ks[0] in ks;
      var i :| 0 <= i < |ls| && ls[i] == ks[0];
      var j :| 0 <= j < |ks| && ks[j] == ls[0];
      LessAsymmetric(ks[0], ls[0]);
      assert ks[0] == ls[0];
      forall x ensures x in ks[1..] <==> x in ls[1..] {
        TailMembers(ks, x);
        TailMembers(ls, x);
      }
      SortedIsUnique(ks[1..], ls[1..]);
    }
  }

  lemma TailMembers(ks: seq<string>, x: string)
    requires ks != [] && forall i, j :: 0 <= i < j < |ks| ==> ks[i] != ks[j]
    ensures x in ks[1..] <==> x in ks && x != ks[0]
  {
    if x in ks && x != ks[0] {
      var i :| 0 <= i < |ks| && ks[i] == x;
      assert ks[1..][i - 1] == x;
    }
  }
}
