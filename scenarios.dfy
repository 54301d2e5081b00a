/**
 The worked examples of the comment section, driven through the post and
 comment objects: what a client can conclude from their contracts alone.
 */
module Scenarios {
  import opened CommentList
  import opened PostModel
  import opened PostComponent
  import opened CommentComponent

  method PublishAndDelete()
  {
    var post := new Post();
    assert post.IsSubmitDisabled();

    // A click on the disabled button does nothing.
    var submitted := post.PressPublish();
    assert !submitted && post.comments == [Welcome] && post.validity == [];

    // A submission attempt of the empty form shows the validity message.
    submitted := post.SubmitForm();
    assert !submitted && post.comments == [Welcome] && post.validity == EmptyDraftMessage;

    // Typing clears the message; publishing appends and clears the draft.
    post.HandleNewCommentChange("Ótimo!");
    assert post.validity == [];
    submitted := post.PressPublish();
    assert submitted && post.comments == [Welcome, "Ótimo!"] && post.draft == [];

    // A draft of one blank is not empty.
    post.HandleNewCommentChange(" ");
    submitted := post.PressPublish();
    assert submitted && post.comments == [Welcome, "Ótimo!", " "];

    // Deleting by text removes every equal comment.
    var thread := new Post();
    thread.HandleNewCommentChange("a");
    submitted := thread.PressPublish();
    thread.HandleNewCommentChange("b");
    submitted := thread.PressPublish();
    thread.HandleNewCommentChange("a");
    submitted := thread.PressPublish();
    assert thread.comments == [Welcome] + ["a", "b", "a"];
    WithoutConcat([Welcome], ["a", "b", "a"], "a");
    WithoutRemovesAllMatches();
    thread.DeleteComment("a");
    assert thread.comments == [Welcome, "b"];
  }

  method ApplaudAndDelete()
  {
    var post := new Post();
    post.HandleNewCommentChange("b");
    var submitted := post.PressPublish();
    var welcome := new Comment(Welcome);
    var other := new Comment("b");

    // Likes are counted per comment.
    welcome.HandleLikeComment();
    welcome.HandleLikeComment();
    other.HandleLikeComment();
    assert welcome.likeCount == 2 && other.likeCount == 1;

    // The trash button deletes the comment's own text from its post.
    assert post.comments == [Welcome, "b"];
    other.HandleDeleteComment(post);
    assert post.comments == [Welcome];
    assert welcome.likeCount == 2 && other.likeCount == 1;
  }
}
