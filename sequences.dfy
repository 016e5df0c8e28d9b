/** Facts about sequences shared by the path filters. */
module Sequences {

  /** `idx` lists, in increasing order, the positions of `b` from which `a` is taken. */
  ghost predicate Embeds<T>(idx: seq<nat>, a: seq<T>, b: seq<T>) {
    && |idx| == |a|
    && (forall k :: 0 <= k < |idx| ==> idx[k] < |b| && a[k] == b[idx[k]])
    && (forall k, l :: 0 <= k < l < |idx| ==> idx[k] < idx[l])
  }

  /** `a` is `b` with some elements deleted and the rest kept in their relative order. */
  ghost predicate IsSubsequence<T>(a: seq<T>, b: seq<T>) {
    exists idx :: Embeds(idx, a, b)
  }

  lemma EmptyIsSubsequence<T>(b: seq<T>)
    ensures IsSubsequence([], b)
  {
    assert Embeds([], [], b);
  }

  /** Dropping a new element in front keeps a subsequence a subsequence. */
  lemma SubsequenceSkip<T>(a: seq<T>, b: seq<T>, x: T)
    requires IsSubsequence(a, b)
    ensures IsSubsequence(a, [x] + b)
  {
    var idx: seq<nat> :| Embeds(idx, a, b);
    var idx' := seq(|idx|, k requires 0 <= k < |idx| => idx[k] + 1);
    assert Embeds(idx', a, [x] + b);
  }

  /** Keeping a new element in front of both extends a subsequence. */
  lemma SubsequenceKeep<T>(a: seq<T>, b: seq<T>, x: T)
    requires IsSubsequence(a, b)
    ensures IsSubsequence([x] + a, [x] + b)
  {
    var idx: seq<nat> :| Embeds(idx, a, b);
    var idx' := [0] + seq(|idx|, k requires 0 <= k < |idx| => idx[k] + 1);
    assert Embeds(idx', [x] + a, [x] + b);
  }

  /** Appending an element to `b` only keeps a subsequence a subsequence. */
  lemma SubsequenceSnocSkip<T>(a: seq<T>, b: seq<T>, x: T)
    requires IsSubsequence(a, b)
    ensures IsSubsequence(a, b + [x])
  {
    var idx: seq<nat> :| Embeds(idx, a, b);
    assert Embeds(idx, a, b + [x]);
  }

  /** Appending the same element to both extends a subsequence. */
  lemma SubsequenceSnocKeep<T>(a: seq<T>, b: seq<T>, x: T)
    requires IsSubsequence(a, b)
    ensures IsSubsequence(a + [x], b + [x])
  {
    var idx: seq<nat> :| Embeds(idx, a, b);
    var idx': seq<nat> := idx + [|b|];
    assert Embeds(idx', a + [x], b + [x]);
  }
}
