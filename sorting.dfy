/**
  Python's ordering of strings and `sorted()` applied to a set of strings, which
  `_modify_rules` uses to decide the order of new chain declarations.
 */
module Sorting {

  /** Python's `a <= b` on strings: lexicographic by character code, a prefix first. */
  predicate LexLeq(a: string, b: string)
    decreases |a|
  {
    a == [] || (b != [] && (a[0] < b[0] || (a[0] == b[0] && LexLeq(a[1..], b[1..]))))
  }

  lemma {:induction false} LexLeqReflexive(a: string)
    ensures LexLeq(a, a)
    decreases |a|
  {
    if a != [] {
      LexLeqReflexive(a[1..]);
    }
  }

  lemma {:induction false} LexLeqAntisymmetric(a: string, b: string)
    requires LexLeq(a, b) && LexLeq(b, a)
    ensures a == b
    decreases |a|
  {
    if a != [] {
      LexLeqAntisymmetric(a[1..], b[1..]);
      assert a == [a[0]] + a[1..] && b == [b[0]] + b[1..];
    }
  }

  lemma {:induction false} LexLeqTransitive(a: string, b: string, c: string)
    requires LexLeq(a, b) && LexLeq(b, c)
    ensures LexLeq(a, c)
    decreases |a|
  {
    if a != [] && a[0] == b[0] && b[0] == c[0] {
      LexLeqTransitive(a[1..], b[1..], c[1..]);
    }
  }

  lemma {:induction false} LexLeqTotal(a: string, b: string)
    ensures LexLeq(a, b) || LexLeq(b, a)
    decreases |a|
  {
    if a != [] && b != [] && a[0] == b[0] {
      LexLeqTotal(a[1..], b[1..]);
    }
  }

  /** `m` is the smallest string of `s`. */
  ghost predicate IsLeast(m: string, s: set<string>) {
    m in s && forall x :: x in s ==> LexLeq(m, x)
  }

  /** Every non-empty finite set of strings has a smallest element. */
  lemma {:induction false} LeastExists(s: set<string>) returns (m: string)
    requires s != {}
    ensures IsLeast(m, s)
    decreases |s|
  {
    var x :| x in s;
    if s == {x} {
      LexLeqReflexive(x);
      m := x;
    } else {
      var rest := s - {x};
      var y := LeastExists(rest);
      LexLeqTotal(x, y);
      if LexLeq(x, y) {
        m := x;
        LexLeqReflexive(x);
        forall z | z in s ensures LexLeq(x, z) {
          if z != x {
            LexLeqTransitive(x, y, z);
          }
        }
      } else {
        m := y;
      }
    }
  }

  lemma HasLeast(s: set<string>)
    requires s != {}
    ensures exists m :: IsLeast(m, s)
  {
    var m := LeastExists(s);
  }

  lemma LeastUnique(m1: string, m2: string, s: set<string>)
    requires IsLeast(m1, s) && IsLeast(m2, s)
    ensures m1 == m2
  {
    LexLeqAntisymmetric(m1, m2);
  }

  ghost function Least(s: set<string>): (m: string)
    requires s != {}
    ensures IsLeast(m, s)
  {
    HasLeast(s);
    var m :| IsLeast(m, s);
    m
  }

  /** `sorted(s)` for a set of strings. */
  ghost function SortedSeq(s: set<string>): (r: seq<string>)
    decreases |s|
  {
    if s == {} then [] else [Least(s)] + SortedSeq(s - {Least(s)})
  }

  /** `sorted(s)` lists every element of the set exactly once, in increasing order. */
  lemma {:induction false} SortedSeqSpec(s: set<string>)
    ensures |SortedSeq(s)| == |s|
    ensures forall x :: x in s <==> x in SortedSeq(s)
    ensures forall i, j :: 0 <= i < j < |SortedSeq(s)| ==>
              LexLeq(SortedSeq(s)[i], SortedSeq(s)[j]) && SortedSeq(s)[i] != SortedSeq(s)[j]
    decreases |s|
  {
    if s != {} {
      var m := Least(s);
      var rest := SortedSeq(s - {m});
      SortedSeqSpec(s - {m});
      assert SortedSeq(s) == [m] + rest;
      forall i, j | 0 <= i < j < |SortedSeq(s)|
        ensures LexLeq(SortedSeq(s)[i], SortedSeq(s)[j]) && SortedSeq(s)[i] != SortedSeq(s)[j]
      {
        if i == 0 {
          assert SortedSeq(s)[j] == rest[j - 1];
          assert rest[j - 1] in s - {m};
        } else {
          assert SortedSeq(s)[i] == rest[i - 1] && SortedSeq(s)[j] == rest[j - 1];
        }
      }
    }
  }

  /** Python's `sorted(s)`, choosing the smallest remaining string each round. */
  method SortStrings(s: set<string>) returns (r: seq<string>)
    ensures r == SortedSeq(s)
  {
    r := [];
    var rest := s;
    while rest != {}
      invariant rest <= s
      invariant r + SortedSeq(rest) == SortedSeq(s)
      decreases |rest|
    {
      var w := LeastExists(rest);
      var m :| m in rest && forall x :: x in rest ==> LexLeq(m, x);
      LeastUnique(m, Least(rest), rest);
      assert SortedSeq(rest) == [m] + SortedSeq(rest - {m});
      r := r + [m];
      rest := rest - {m};
    }
  }
}
