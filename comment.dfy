/**
 One comment of a post. It shows its text and owns a like counter that
 only its own "Aplaudir" button raises; its trash button asks the post
 that owns it to delete the comment's text.
 */
module CommentComponent {
  import opened CommentList
  import opened PostComponent

  /** What a user can do to one comment. */
  datatype Reaction = Applaud | RequestDelete

  /** The like count after the reactions, starting from `count`: an
      applaud adds one, a delete request changes nothing locally. */
  function LikesAfter(count: nat, reactions: seq<Reaction>): (r: nat)
    ensures r >= count
    ensures reactions != [] && reactions[0] == Applaud ==> r > count
    decreases |reactions|
  {
    if reactions == [] then count
    else LikesAfter(if reactions[0] == Applaud then count + 1 else count, reactions[1..])
  }

  /** The number of applauds among the reactions. */
  function Applauds(reactions: seq<Reaction>): (n: nat)
    ensures n <= |reactions|
    decreases |reactions|
  {
    if reactions == [] then 0
    else (if reactions[0] == Applaud then 1 else 0) + Applauds(reactions[1..])
  }

  /** Each applaud raises the count by exactly one; nothing else moves it. */
  lemma {:induction false} LikesCountApplauds(count: nat, reactions: seq<Reaction>)
    ensures LikesAfter(count, reactions) == count + Applauds(reactions)
    decreases |reactions|
  {
    if reactions != [] {
      LikesCountApplauds(if reactions[0] == Applaud then count + 1 else count, reactions[1..]);
    }
  }

  /** `k` applauds on a fresh comment give a like count of `k`. */
  lemma {:induction false} ApplaudedTimes(k: nat)
    ensures LikesAfter(0, seq(k, _ => Applaud)) == k
  {
    var reactions := seq(k, _ => Applaud);
    LikesCountApplauds(0, reactions);
    AllApplauds(reactions);
  }

  lemma {:induction false} AllApplauds(reactions: seq<Reaction>)
    requires forall i :: 0 <= i < |reactions| ==> reactions[i] == Applaud
    ensures Applauds(reactions) == |reactions|
    decreases |reactions|
  {
    if reactions != [] {
      AllApplauds(reactions[1..]);
    }
  }

  /** Later reactions never lower the count reached by earlier ones. */
  lemma {:induction false} LikesNeverDecrease(count: nat, before: seq<Reaction>, after: seq<Reaction>)
    ensures LikesAfter(count, before + after) >= LikesAfter(count, before)
  {
    LikesCountApplauds(count, before);
    LikesCountApplauds(count, before + after);
    ApplaudsConcat(before, after);
  }

  lemma {:induction false} ApplaudsConcat(a: seq<Reaction>, b: seq<Reaction>)
    ensures Applauds(a + b) == Applauds(a) + Applauds(b)
    decreases |a|
  {
    if a == [] {
      assert a + b == b;
    } else {
      assert (a + b)[1..] == a[1..] + b;
      ApplaudsConcat(a[1..], b);
    }
  }

  class Comment {
    const content: string
    var likeCount: nat

    /** A comment is created with its text and no likes. */
    constructor (content: string)
      ensures this.content == content && likeCount == 0
    {
      this.content := content;
      likeCount := 0;
    }

    /** The "Aplaudir" handler: one more like, on this comment only. */
    method HandleLikeComment()
      modifies this
      ensures likeCount == old(likeCount) + 1
      ensures likeCount == LikesAfter(old(likeCount), [Applaud])
    {
      likeCount := likeCount + 1;
    }

    /** The trash handler: passes this comment's own text to the owning
        post's delete callback, and changes nothing of its own. */
    method HandleDeleteComment(owner: Post)
      modifies owner
      ensures owner.comments == Without(old(owner.comments), content)
      ensures content !in owner.comments
      ensures owner.draft == old(owner.draft) && owner.validity == old(owner.validity)
      ensures likeCount == old(likeCount) == LikesAfter(old(likeCount), [RequestDelete])
    {
      owner.DeleteComment(content);
    }
  }
}
