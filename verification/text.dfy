/** The few Python `str` and `list` operations the inventory relies on:
    `list.remove` (with the first-occurrence search it performs),
    `str.lower`, `str.split` and the substring test `p in s`. */
module Text {
  import opened Wrappers

  /** The position of the first occurrence of `x`: the search that
      `list.remove` and `str.split` perform. */
  function IndexOf<T(==)>(s: seq<T>, x: T): (i: nat)
    requires x in s
    ensures i < |s| && s[i] == x
    ensures x !in s[..i]
  {
    if s[0] == x then 0
    else
      var i := IndexOf(s[1..], x);
      assert s[..i + 1] == [s[0]] + s[1..][..i];
      1 + i
  }

  /** `s.remove(x)` on a list: deletes the first occurrence of `x` and keeps
      everything else in order; `None` where Python raises `ValueError`
      because `x` does not occur. */
  function RemoveFirst<T(==)>(s: seq<T>, x: T): (r: Option<seq<T>>)
    ensures r.None? <==> x !in s
    ensures r.Some? ==> exists i :: 0 <= i < |s| && s[i] == x && x !in s[..i] && r.value == s[..i] + s[i + 1..]
    ensures r.Some? ==> multiset(r.value) == multiset(s) - multiset{x}
  {
    if x in s then
      var i := IndexOf(s, x);
      assert s == s[..i] + [x] + s[i + 1..];
      Some(s[..i] + s[i + 1..])
    else None
  }

  /** Removing the first occurrence leaves no occurrence exactly when there was one. */
  lemma RemoveFirstClears<T>(s: seq<T>, x: T)
    requires x in s
    ensures x !in RemoveFirst(s, x).value <==> multiset(s)[x] == 1
  {
    var r := RemoveFirst(s, x).value;
    assert x in r <==> x in multiset(r);
  }

  /** Python's `str.lower()` on one character (ASCII letters only). */
  function LowerChar(c: char): char
  {
    if 'A' <= c <= 'Z' then (c as int + ('a' as int - 'A' as int)) as char else c
  }

  /** Python's `s.lower()` (ASCII letters only). */
  function Lower(s: string): (r: string)
    ensures |r| == |s|
    ensures forall i :: 0 <= i < |s| ==> r[i] == LowerChar(s[i])
    ensures forall i :: 0 <= i < |r| ==> !('A' <= r[i] <= 'Z')
  {
    seq(|s|, i requires 0 <= i < |s| => LowerChar(s[i]))
  }

  /** Python's `p in s` for strings: `p` occurs as a contiguous substring of `s`. */
  predicate Contains(s: string, p: string)
    decreases |s|
  {
    p <= s || (s != [] && Contains(s[1..], p))
  }

  /** `p` occurs in `s` starting at position `i`. */
  predicate OccursAt(s: string, p: string, i: int)
  {
    0 <= i <= |s| - |p| && s[i..i + |p|] == p
  }

  /** An occurrence at a position is found by `Contains`. */
  lemma {:induction false} ContainsFrom(s: string, p: string, i: nat)
    requires OccursAt(s, p, i)
    ensures Contains(s, p)
    decreases i
  {
    if i == 0 {
      assert s[..|p|] == p;
    } else {
      assert s[1..][i - 1..i - 1 + |p|] == s[i..i + |p|];
      ContainsFrom(s[1..], p, i - 1);
    }
  }

  /** A substring found by `Contains` occurs at some position. */
  lemma {:induction false} ContainsWitness(s: string, p: string) returns (i: nat)
    requires Contains(s, p)
    ensures OccursAt(s, p, i)
    decreases |s|
  {
    if p <= s {
      i := 0;
      assert s[..|p|] == p;
    } else {
      var k := ContainsWitness(s[1..], p);
      assert s[1..][k..k + |p|] == s[k + 1..k + 1 + |p|];
      i := k + 1;
    }
  }

  /** `Contains` agrees with the positional definition of a substring. */
  lemma ContainsAt(s: string, p: string)
    ensures Contains(s, p) <==> exists i :: OccursAt(s, p, i)
  {
    if Contains(s, p) {
      var i := ContainsWitness(s, p);
    }
    if exists i :: OccursAt(s, p, i) {
      var i :| OccursAt(s, p, i);
      ContainsFrom(s, p, i);
    }
  }

  /** Python's `s.split(sep)` for a single-character separator: the pieces
      between separators, always at least one (`"".split(",") == [""]`). */
  function Split(s: string, sep: char): (r: seq<string>)
    ensures |r| >= 1
    ensures forall k :: 0 <= k < |r| ==> sep !in r[k]
    decreases |s|
  {
    if sep in s then
      var i := IndexOf(s, sep);
      [s[..i]] + Split(s[i + 1..], sep)
    else [s]
  }

  /** `sep.join(parts)`. */
  function Join(parts: seq<string>, sep: char): string
    requires |parts| >= 1
  {
    if |parts| == 1 then parts[0] else parts[0] + [sep] + Join(parts[1..], sep)
  }

  /** Joining the pieces of a split gives back the string. */
  lemma {:induction false} JoinSplit(s: string, sep: char)
    ensures Join(Split(s, sep), sep) == s
    decreases |s|
  {
    if sep in s {
      var i := IndexOf(s, sep);
      var head, tail := s[..i], s[i + 1..];
      var parts := Split(s, sep);
      assert parts == [head] + Split(tail, sep);
      assert parts[1..] == Split(tail, sep);
      JoinSplit(tail, sep);
      assert Join(parts, sep) == head + [sep] + tail;
      assert s == head + [sep] + tail;
    }
  }

  /** The first occurrence of `x` in `a + [x] + b`, when `a` lacks `x`, is right after `a`. */
  lemma IndexOfFirst<T>(a: seq<T>, x: T, b: seq<T>)
    ensures x in a + [x] + b
    ensures x !in a ==> IndexOf(a + [x] + b, x) == |a|
  {
    var s := a + [x] + b;
    assert s[|a|] == x;
    if x !in a {
      var i := IndexOf(s, x);
      assert s[..|a|] == a;
      assert i <= |a| ==> s[..i] == a[..i];
    }
  }

  /** A separator-free piece followed by the separator splits off as the first piece. */
  lemma SplitAt(a: string, sep: char, b: string)
    requires sep !in a
    ensures Split(a + [sep] + b, sep) == [a] + Split(b, sep)
  {
    var s := a + [sep] + b;
    IndexOfFirst(a, sep, b);
    assert s[..|a|] == a && s[|a| + 1..] == b;
  }

  /** Splitting a join of separator-free pieces gives back the pieces. */
  lemma {:induction false} SplitJoin(parts: seq<string>, sep: char)
    requires |parts| >= 1
    requires forall k :: 0 <= k < |parts| ==> sep !in parts[k]
    ensures Split(Join(parts, sep), sep) == parts
    decreases |parts|
  {
    if |parts| > 1 {
      var head, rest := parts[0], parts[1..];
      var tail := Join(rest, sep);
      assert Join(parts, sep) == head + [sep] + tail;
      SplitAt(head, sep, tail);
      assert forall k :: 0 <= k < |rest| ==> rest[k] == parts[k + 1];
      SplitJoin(rest, sep);
      assert parts == [head] + rest;
    }
  }

  /** The first piece of a split is empty exactly when the string is empty or starts with the separator. */
  lemma SplitHeadEmpty(s: string, sep: char)
    ensures Split(s, sep)[0] == "" <==> s == "" || s[0] == sep
  {
    if sep in s {
      var i := IndexOf(s, sep);
      assert Split(s, sep)[0] == s[..i];
    }
  }
}
