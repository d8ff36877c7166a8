/** Sorted enumerations of finite sets: the order in which the encoder visits keys of its hash maps. */
module Ordering {
  import opened Prelude

  ghost predicate TotalOn<T(!new)>(leq: (T, T) -> bool) {
    && (forall x, y :: leq(x, y) || leq(y, x))
    && (forall x, y :: leq(x, y) && leq(y, x) ==> x == y)
    && (forall x, y, z :: leq(x, y) && leq(y, z) ==> leq(x, z))
  }

  ghost predicate IsLeast<T(!new)>(m: T, s: set<T>, leq: (T, T) -> bool) {
    m in s && forall x :: x in s ==> leq(m, x)
  }

  lemma {:induction false} LeastExists<T(!new)>(s: set<T>, leq: (T, T) -> bool)
    requires TotalOn(leq) && s != {}
    ensures exists m :: IsLeast(m, s, leq)
  {
    var x :| x in s;
    if s == {x} {
      assert IsLeast(x, s, leq);
    } else {
      LeastExists(s - {x}, leq);
      var m :| IsLeast(m, s - {x}, leq);
      assert IsLeast(if leq(x, m) then x else m, s, leq);
    }
  }

  /** The elements of `s`, least first. */
  ghost function Sorted<T(!new)>(s: set<T>, leq: (T, T) -> bool): (r: seq<T>)
    requires TotalOn(leq)
    ensures forall x :: x in r <==> x in s
  {
    if s == {} then [] else
      LeastExists(s, leq);
      var m :| IsLeast(m, s, leq);
      [m] + Sorted(s - {m}, leq)
  }

  lemma {:induction false} SortedIsAscending<T(!new)>(s: set<T>, leq: (T, T) -> bool)
    requires TotalOn(leq)
    ensures var r := Sorted(s, leq); forall i, j :: 0 <= i < j < |r| ==> r[i] != r[j] && leq(r[i], r[j])
  {
    if s != {} {
      var r := Sorted(s, leq);
      var m := r[0];
      SortedStartsLeast(s, leq);
      SortedIsAscending(s - {m}, leq);
      assert r[1..] == Sorted(s - {m}, leq);
      forall i, j | 0 <= i < j < |r| ensures r[i] != r[j] && leq(r[i], r[j]) {
        assert r[j] == r[1..][j - 1] && r[j] in r[1..];
        if i > 0 {
          assert r[i] == r[1..][i - 1];
        }
      }
    }
  }

  lemma SortedStartsLeast<T(!new)>(s: set<T>, leq: (T, T) -> bool)
    requires TotalOn(leq) && s != {}
    ensures var r := Sorted(s, leq); |r| > 0 && IsLeast(r[0], s, leq) && r == [r[0]] + Sorted(s - {r[0]}, leq)
  {
    LeastExists(s, leq);
  }

  lemma SortedUnfold<T(!new)>(s: set<T>, m: T, leq: (T, T) -> bool)
    requires TotalOn(leq) && IsLeast(m, s, leq)
    ensures Sorted(s, leq) == [m] + Sorted(s - {m}, leq)
  {
    SortedStartsLeast(s, leq);
  }

  method Least<T(!new, ==)>(s: set<T>, leq: (T, T) -> bool) returns (m: T)
    requires TotalOn(leq) && s != {}
    ensures IsLeast(m, s, leq)
  {
    LeastExists(s, leq);
    m :| m in s && forall x :: x in s ==> leq(m, x);
  }

  method Sort<T(!new, ==)>(s: set<T>, leq: (T, T) -> bool) returns (r: seq<T>)
    requires TotalOn(leq)
    ensures r == Sorted(s, leq)
  {
    r := [];
    var rest := s;
    while rest != {}
      invariant r + Sorted(rest, leq) == Sorted(s, leq)
      decreases rest
    {
      var m := Least(rest, leq);
      SortedUnfold(rest, m, leq);
      r, rest := r + [m], rest - {m};
    }
  }

  /** Lexicographic order of pairs of numbers, as `sort_unstable` orders placement keys. */
  predicate PairLeq(a: (u32, u32), b: (u32, u32)) {
    a.0 < b.0 || (a.0 == b.0 && a.1 <= b.1)
  }

  /** Lexicographic order of strings. */
  predicate StringLeq(a: string, b: string) {
    if a == [] then true
    else if b == [] then false
    else a[0] < b[0] || (a[0] == b[0] && StringLeq(a[1..], b[1..]))
  }

  lemma {:induction false} StringLeqTotal(a: string, b: string)
    ensures StringLeq(a, b) || StringLeq(b, a)
    ensures StringLeq(a, b) && StringLeq(b, a) ==> a == b
  {
    if a != [] && b != [] {
      StringLeqTotal(a[1..], b[1..]);
      assert a == [a[0]] + a[1..] && b == [b[0]] + b[1..];
    }
  }

  lemma {:induction false} StringLeqTransitive(a: string, b: string, c: string)
    requires StringLeq(a, b) && StringLeq(b, c)
    ensures StringLeq(a, c)
  {
    if a != [] && b != [] && c != [] && a[0] == b[0] && b[0] == c[0] {
      StringLeqTransitive(a[1..], b[1..], c[1..]);
    }
  }
}
