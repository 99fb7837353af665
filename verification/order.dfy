/** The ordering Python uses on `str` values (lexicographic by code point)
    and the `sorted(...)` of a set of strings that the facet builder and the
    environment list rely on. */
module Order {

  /** `a < b` on Python strings: the first differing character decides, and a
      proper prefix comes before the longer string. */
  predicate Below(a: string, b: string)
  {
    if a == [] then b != []
    else if b == [] then false
    else a[0] < b[0] || (a[0] == b[0] && Below(a[1..], b[1..]))
  }

  lemma {:induction false} BelowIrreflexive(a: string)
    ensures !Below(a, a)
  {
    if a != [] {
      BelowIrreflexive(a[1..]);
    }
  }

  lemma {:induction false} BelowTransitive(a: string, b: string, c: string)
    requires Below(a, b) && Below(b, c)
    ensures Below(a, c)
  {
    if a != [] && b != [] && c != [] && a[0] == b[0] == c[0] {
      BelowTransitive(a[1..], b[1..], c[1..]);
    }
  }

  /** Any two distinct strings are ordered one way or the other. */
  lemma {:induction false} BelowTotal(a: string, b: string)
    ensures a == b || Below(a, b) || Below(b, a)
  {
    if a != [] && b != [] && a[0] == b[0] {
      BelowTotal(a[1..], b[1..]);
      if a[1..] == b[1..] {
        assert a == [a[0]] + a[1..];
        assert b == [b[0]] + b[1..];
      }
    }
  }

  lemma BelowAsymmetric(a: string, b: string)
    requires Below(a, b)
    ensures !Below(b, a)
  {
    if Below(b, a) {
      BelowTransitive(a, b, a);
      BelowIrreflexive(a);
    }
  }

  /** Each element comes strictly before the next: sorted and free of duplicates. */
  predicate StrictlyAscending(s: seq<string>)
  {
    forall i, j :: 0 <= i < j < |s| ==> Below(s[i], s[j])
  }

  predicate IsLeast(m: string, s: set<string>)
  {
    m in s && forall x :: x in s ==> x == m || Below(m, x)
  }

  lemma {:induction false} LeastExists(s: set<string>)
    requires s != {}
    ensures exists m :: IsLeast(m, s)
    decreases |s|
  {
    var x :| x in s;
    if s == {x} {
      assert IsLeast(x, s);
    } else {
      LeastExists(s - {x});
      var m :| IsLeast(m, s - {x});
      BelowTotal(m, x);
      if Below(m, x) {
        assert IsLeast(m, s);
      } else {
        forall y | y in s
          ensures y == x || Below(x, y)
        {
          if y != x && y != m {
            BelowTransitive(x, m, y);
          }
        }
        assert IsLeast(x, s);
      }
    }
  }

  lemma LeastUnique(s: set<string>)
    ensures forall m1, m2 :: IsLeast(m1, s) && IsLeast(m2, s) ==> m1 == m2
  {
    forall m1, m2 | IsLeast(m1, s) && IsLeast(m2, s)
      ensures m1 == m2
    {
      if m1 != m2 {
        BelowAsymmetric(m1, m2);
      }
    }
  }

  /** The smallest string of a non-empty set. */
  function Least(s: set<string>): (m: string)
    requires s != {}
    ensures m in s
    ensures forall x :: x in s && x != m ==> Below(m, x)
  {
    LeastExists(s);
    LeastUnique(s);
    var m :| IsLeast(m, s);
    m
  }

  /** Python's `sorted(s)` for a set `s` of strings: every element exactly
      once, in ascending order. */
  function Sorted(s: set<string>): (r: seq<string>)
    ensures StrictlyAscending(r)
    ensures forall x :: x in r <==> x in s
    ensures |r| == |s|
    decreases |s|
  {
    if s == {} then []
    else
      var m := Least(s);
      var rest := Sorted(s - {m});
      assert forall x :: x in rest ==> x in s && x != m && Below(m, x);
      [m] + rest
  }

  /** The first element of a strictly ascending listing of `s` is the least of `s`. */
  lemma AscendingHeadLeast(r: seq<string>, s: set<string>)
    requires StrictlyAscending(r) && r != []
    requires forall x :: x in r <==> x in s
    ensures r[0] in s
    ensures r[0] == Least(s)
  {
    forall x | x in s
      ensures x == r[0] || Below(r[0], x)
    {
      var k :| 0 <= k < |r| && r[k] == x;
      if k > 0 {
        assert Below(r[0], r[k]);
      }
    }
    assert IsLeast(r[0], s);
    assert IsLeast(Least(s), s);
    LeastUnique(s);
  }

  /** The rest of a strictly ascending listing of `s` lists `s` without its first element. */
  lemma AscendingTail(r: seq<string>, s: set<string>)
    requires StrictlyAscending(r) && r != []
    requires forall x :: x in r <==> x in s
    ensures StrictlyAscending(r[1..])
    ensures forall x :: x in r[1..] <==> x in s - {r[0]}
  {
    forall x
      ensures x in r[1..] <==> x in s - {r[0]}
    {
      if x in r[1..] {
        var k :| 1 <= k < |r| && r[k] == x;
        assert Below(r[0], r[k]);
        BelowIrreflexive(r[0]);
      }
      if x in s - {r[0]} {
        var k :| 0 <= k < |r| && r[k] == x;
        assert k != 0;
        assert r[1..][k - 1] == x;
      }
    }
  }

  lemma HeadTail(r: seq<string>)
    requires r != []
    ensures r == [r[0]] + r[1..]
  {
  }

  /** `Sorted` lists the least element first, then the rest sorted. */
  lemma SortedCons(s: set<string>)
    requires s != {}
    ensures Sorted(s) == [Least(s)] + Sorted(s - {Least(s)})
  {
  }

  /** A strictly ascending listing of a set is unique: it is `Sorted` of that set. */
  lemma {:induction false} SortedUnique(r: seq<string>, s: set<string>)
    requires StrictlyAscending(r)
    requires forall x :: x in r <==> x in s
    ensures r == Sorted(s)
    decreases |r|
  {
    if r == [] {
      assert s == {};
    } else {
      AscendingHeadLeast(r, s);
      AscendingTail(r, s);
      var m := r[0];
      SortedUnique(r[1..], s - {m});
      SortedCons(s);
      HeadTail(r);
    }
  }
}
