/**
 * Go's string order and `sort.Strings`.  Go compares strings byte by byte;
 * UTF-8 encoding preserves code-point order, so comparing the characters of
 * a Dafny string one by one gives the same order.
 */
module Sorting {

  /** `a` sorts no later than `b`: `a` is a prefix of `b`, or is smaller at the first difference. */
  predicate LessEq(a: string, b: string)
    decreases |a|
  {
    if a == [] then true
    else if b == [] then false
    else if a[0] != b[0] then a[0] < b[0]
    else LessEq(a[1..], b[1..])
  }

  lemma {:induction false} LessEqReflexive(a: string)
    ensures LessEq(a, a)
  {
    if a != [] {
      LessEqReflexive(a[1..]);
    }
  }

  lemma {:induction false} LessEqTotal(a: string, b: string)
    ensures LessEq(a, b) || LessEq(b, a)
  {
    if a != [] && b != [] && a[0] == b[0] {
      LessEqTotal(a[1..], b[1..]);
    }
  }

  lemma {:induction false} LessEqAntisymmetric(a: string, b: string)
    requires LessEq(a, b) && LessEq(b, a)
    ensures a == b
  {
    if a != [] && b != [] {
      LessEqAntisymmetric(a[1..], b[1..]);
      assert a == [a[0]] + a[1..] && b == [b[0]] + b[1..];
    }
  }

  lemma {:induction false} LessEqTransitive(a: string, b: string, c: string)
    requires LessEq(a, b) && LessEq(b, c)
    ensures LessEq(a, c)
  {
    if a != [] && b != [] && c != [] && a[0] == b[0] == c[0] {
      LessEqTransitive(a[1..], b[1..], c[1..]);
    }
  }

  /** Every element sorts no later than every element after it. */
  ghost predicate Sorted(s: seq<string>) {
    forall i, j :: 0 <= i < j < |s| ==> LessEq(s[i], s[j])
  }

  lemma SortedTail(s: seq<string>)
    requires Sorted(s) && s != []
    ensures Sorted(s[1..])
  {
    forall i, j | 0 <= i < j < |s| - 1 ensures LessEq(s[1..][i], s[1..][j]) {
      assert s[1..][i] == s[i + 1] && s[1..][j] == s[j + 1];
    }
  }

  /** Two sorted arrangements of the same strings are the same sequence. */
  lemma {:induction false} SortedUnique(a: seq<string>, b: seq<string>)
    requires Sorted(a) && Sorted(b) && multiset(a) == multiset(b)
    ensures a == b
  {
    assert |a| == |multiset(a)| == |multiset(b)| == |b|;
    if a != [] {
      SortedHeadsEqual(a, b);
      MultisetTail(a, b);
      SortedTail(a);
      SortedTail(b);
      SortedUnique(a[1..], b[1..]);
      assert a == [a[0]] + a[1..] && b == [b[0]] + b[1..];
    }
  }

  lemma SortedHeadsEqual(a: seq<string>, b: seq<string>)
    requires Sorted(a) && Sorted(b) && multiset(a) == multiset(b)
    requires a != [] && b != []
    ensures a[0] == b[0]
  {
    assert a[0] in multiset(b) && b[0] in multiset(a);
    var i :| 0 <= i < |a| && a[i] == b[0];
    var j :| 0 <= j < |b| && b[j] == a[0];
    assert LessEq(a[0], a[i]) by { if i == 0 { LessEqReflexive(a[0]); } }
    assert LessEq(b[0], b[j]) by { if j == 0 { LessEqReflexive(b[0]); } }
    LessEqAntisymmetric(a[0], b[0]);
  }

  lemma MultisetTail(a: seq<string>, b: seq<string>)
    requires multiset(a) == multiset(b) && a != [] && b != [] && a[0] == b[0]
    ensures multiset(a[1..]) == multiset(b[1..])
  {
    assert a == [a[0]] + a[1..] && b == [b[0]] + b[1..];
    assert multiset(a) == multiset{a[0]} + multiset(a[1..]);
    assert multiset(b) == multiset{b[0]} + multiset(b[1..]);
    forall x ensures multiset(a[1..])[x] == multiset(b[1..])[x] {
      assert multiset(a)[x] == multiset{a[0]}[x] + multiset(a[1..])[x];
      assert multiset(b)[x] == multiset{b[0]}[x] + multiset(b[1..])[x];
    }
  }

  /** sort.Strings: sorts the array in place (here by insertion). */
  method SortStrings(a: array<string>)
    modifies a
    ensures Sorted(a[..])
    ensures multiset(a[..]) == old(multiset(a[..]))
  {
    if a.Length == 0 {
      return;
    }
    var i := 1;
    while i < a.Length
      invariant 1 <= i <= a.Length
      invariant Sorted(a[..i])
      invariant multiset(a[..]) == old(multiset(a[..]))
    {
      InsertLast(a, i);
      i := i + 1;
    }
    assert a[..i] == a[..];
  }

  /**
   * The state of an insertion step: apart from position `j`, `s[..i + 1]` is
   * in order, and `s[j]` sorts no later than anything after it up to `i`.
   */
  ghost predicate Inserting(s: seq<string>, i: nat, j: nat) {
    && j <= i < |s|
    && (forall k, l :: 0 <= k < l <= i && k != j && l != j ==> LessEq(s[k], s[l]))
    && (forall l :: j < l <= i ==> LessEq(s[j], s[l]))
  }

  /** Swapping `s[j]` with a larger left neighbour moves the gap one place left. */
  lemma SwapStep(s: seq<string>, i: nat, j: nat)
    requires Inserting(s, i, j) && j > 0 && !LessEq(s[j - 1], s[j])
    ensures Inserting(s[j - 1 := s[j]][j := s[j - 1]], i, j - 1)
  {
    var t := s[j - 1 := s[j]][j := s[j - 1]];
    LessEqTotal(s[j - 1], s[j]);
    forall l | j - 1 < l <= i
      ensures LessEq(t[j - 1], t[l])
    {
      if l > j {
        LessEqTransitive(s[j], s[j - 1], s[l]);
      }
    }
  }

  /** When the left neighbour is no larger, the prefix up to `i` is sorted. */
  lemma InsertionDone(s: seq<string>, i: nat, j: nat)
    requires Inserting(s, i, j) && (j == 0 || LessEq(s[j - 1], s[j]))
    ensures Sorted(s[..i + 1])
  {
    forall k | 0 <= k < j
      ensures LessEq(s[k], s[j])
    {
      if k < j - 1 {
        LessEqTransitive(s[k], s[j - 1], s[j]);
      }
    }
  }

  /** One insertion step: moves a[i] left into the sorted prefix a[..i]. */
  method InsertLast(a: array<string>, i: nat)
    requires 1 <= i < a.Length
    requires Sorted(a[..i])
    modifies a
    ensures Sorted(a[..i + 1])
    ensures multiset(a[..]) == old(multiset(a[..]))
  {
    var j := i;
    while j > 0 && !LessEq(a[j - 1], a[j])
      invariant Inserting(a[..], i, j)
      invariant multiset(a[..]) == old(multiset(a[..]))
    {
      SwapStep(a[..], i, j);
      a[j - 1], a[j] := a[j], a[j - 1];
      j := j - 1;
    }
    InsertionDone(a[..], i, j);
  }

  /** Whether `k` sorts no later than every element of `s`. */
  ghost predicate IsLeast(k: string, s: set<string>) {
    k in s && forall x :: x in s ==> LessEq(k, x)
  }

  lemma {:induction false} LeastExists(s: set<string>)
    requires s != {}
    ensures exists k :: IsLeast(k, s)
    decreases s
  {
    var x :| x in s;
    if s == {x} {
      LessEqReflexive(x);
      assert IsLeast(x, s);
    } else {
      LeastExists(s - {x});
      var m :| IsLeast(m, s - {x});
      LessEqTotal(m, x);
      if LessEq(m, x) {
        assert IsLeast(m, s);
      } else {
        forall y | y in s ensures LessEq(x, y) {
          if y != x { LessEqTransitive(x, m, y); } else { LessEqReflexive(x); }
        }
        assert IsLeast(x, s);
      }
    }
  }

  /** The elements of a finite set of strings in ascending order. */
  ghost function SortedKeys(s: set<string>): (r: seq<string>)
    decreases s
  {
    if s == {} then []
    else
      LeastExists(s);
      var k :| IsLeast(k, s);
      [k] + SortedKeys(s - {k})
  }

  /** SortedKeys lists each element of the set once, in ascending order. */
  lemma {:induction false} SortedKeysSorted(s: set<string>)
    ensures Sorted(SortedKeys(s))
    ensures multiset(SortedKeys(s)) == multiset(s)
    decreases s
  {
    if s != {} {
      var r := SortedKeys(s);
      var k := r[0];
      assert IsLeast(k, s) && r == [k] + SortedKeys(s - {k});
      SortedKeysSorted(s - {k});
      assert multiset(s) == multiset(s - {k}) + multiset{k};
      forall i, j | 0 <= i < j < |r| ensures LessEq(r[i], r[j]) {
        if i > 0 {
          assert r[i] == SortedKeys(s - {k})[i - 1] && r[j] == SortedKeys(s - {k})[j - 1];
        } else {
          assert r[j] in multiset(SortedKeys(s - {k}));
        }
      }
    }
  }
}
