/**
 The list of comments a post shows, as a plain value: comments are bare
 strings, identified only by their text. Deleting a comment filters out
 every entry equal to the given text, keeping the order of the rest.
 */
module CommentList {

  /** The comment list with every entry equal to `x` filtered out
      (the `comments.filter(c => c !== x)` of the post's delete handler). */
  function Without(comments: seq<string>, x: string): (r: seq<string>)
    ensures x !in r
    ensures |r| <= |comments|
    ensures forall c :: c in r ==> c in comments
  {
    if comments == [] then []
    else if comments[0] == x then Without(comments[1..], x)
    else [comments[0]] + Without(comments[1..], x)
  }

  /** `t` can be obtained from `s` by dropping entries, without reordering. */
  predicate IsSubsequence(t: seq<string>, s: seq<string>)
  {
    if t == [] then true
    else if s == [] then false
    else if t[0] == s[0] then IsSubsequence(t[1..], s[1..])
    else IsSubsequence(t, s[1..])
  }

  /** Deleting removes exactly the entries equal to `x`: every other text
      keeps its number of occurrences. */
  lemma {:induction false} WithoutCounts(comments: seq<string>, x: string)
    ensures multiset(Without(comments, x)) == multiset(comments)[x := 0]
  {
    if comments != [] {
      WithoutCounts(comments[1..], x);
      assert comments == [comments[0]] + comments[1..];
    }
  }

  /** The survivors appear in the order they had before the delete. */
  lemma {:induction false} WithoutIsSubsequence(comments: seq<string>, x: string)
    ensures IsSubsequence(Without(comments, x), comments)
  {
    if comments != [] {
      WithoutIsSubsequence(comments[1..], x);
    }
  }

  /** Deleting from a split list deletes from each part: the filter keeps
      relative order across any cut. */
  lemma {:induction false} WithoutConcat(a: seq<string>, b: seq<string>, x: string)
    ensures Without(a + b, x) == Without(a, x) + Without(b, x)
  {
    if a == [] {
      assert a + b == b;
    } else {
      assert (a + b)[0] == a[0];
      assert (a + b)[1..] == a[1..] + b;
      WithoutConcat(a[1..], b, x);
    }
  }

  /** The list shrinks by exactly the number of entries equal to `x`. */
  lemma {:induction false} WithoutLength(comments: seq<string>, x: string)
    ensures |Without(comments, x)| == |comments| - multiset(comments)[x]
  {
    if comments != [] {
      WithoutLength(comments[1..], x);
      assert comments == [comments[0]] + comments[1..];
    }
  }

  /** Deleting leaves the list as it was exactly when no entry equals `x`. */
  lemma {:induction false} WithoutAbsent(comments: seq<string>, x: string)
    ensures Without(comments, x) == comments <==> x !in comments
  {
    if comments != [] {
      WithoutAbsent(comments[1..], x);
      assert comments == [comments[0]] + comments[1..];
    }
  }

  /** Deleting the same text twice is the same as deleting it once. */
  lemma {:induction false} WithoutIdempotent(comments: seq<string>, x: string)
    ensures Without(Without(comments, x), x) == Without(comments, x)
  {
    WithoutAbsent(Without(comments, x), x);
  }

  /** Every equal entry goes, not just the first one. */
  lemma WithoutRemovesAllMatches()
    ensures Without(["a", "b", "a"], "a") == ["b"]
  {
  }
}
