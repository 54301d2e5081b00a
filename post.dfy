/**
 The post component's comment section as an object: the comments, the
 textarea's draft and its custom validity message are fields that the
 handlers replace, one synchronous transition per event.
 */
module PostComponent {
  import opened CommentList
  import opened PostModel

  class Post {
    var comments: seq<string>
    var draft: string
    var validity: string

    /** The fields as a value of the pure model. */
    function State(): PostState
      reads this
    {
      PostState(comments, draft, validity)
    }

    /** Mounting: the welcome comment, an empty draft, no error shown. */
    constructor ()
      ensures comments == [Welcome] && draft == [] && validity == []
      ensures State() == Mounted()
    {
      comments := [Welcome];
      draft := "";
      validity := "";
    }

    /** Whether the publish button is disabled. */
    function IsSubmitDisabled(): (disabled: bool)
      reads this
      ensures disabled <==> draft == []
    {
      IsNewCommentEmpty(draft)
    }

    /** The form's submit handler: appends the draft, then clears it. */
    method HandleCreateNewComment()
      requires !IsNewCommentEmpty(draft)
      modifies this
      ensures comments == old(comments) + [old(draft)]
      ensures draft == [] && validity == old(validity)
      ensures State() == Created(old(State()))
    {
      comments := comments + [draft];
      draft := "";
    }

    /** The textarea's change handler: clears the custom validity message
        and takes the new text as the draft. */
    method HandleNewCommentChange(text: string)
      modifies this
      ensures draft == text && validity == [] && comments == old(comments)
      ensures State() == Changed(old(State()), text)
    {
      validity := "";
      draft := text;
    }

    /** The textarea's invalid handler: sets the fixed message. */
    method HandleNewCommentInvalid()
      modifies this
      ensures validity == EmptyDraftMessage
      ensures comments == old(comments) && draft == old(draft)
      ensures State() == Invalidated(old(State()))
    {
      validity := EmptyDraftMessage;
    }

    /** The delete callback handed to every comment: keeps only the
        comments that differ from `commentToDelete`. */
    method DeleteComment(commentToDelete: string)
      modifies this
      ensures comments == Without(old(comments), commentToDelete)
      ensures draft == old(draft) && validity == old(validity)
      ensures State() == Deleted(old(State()), commentToDelete)
    {
      comments := Without(comments, commentToDelete);
    }

    /** A submission attempt of the form: the browser calls the submit
        handler only when the required textarea is filled, and otherwise
        raises the invalid event. */
    method SubmitForm() returns (submitted: bool)
      modifies this
      ensures submitted <==> !IsNewCommentEmpty(old(draft))
      ensures State() == SubmitAttempted(old(State()))
    {
      if IsNewCommentEmpty(draft) {
        HandleNewCommentInvalid();
        submitted := false;
      } else {
        HandleCreateNewComment();
        submitted := true;
      }
    }

    /** A click on "Publicar": a disabled button ignores the click, an
        enabled one submits the form. */
    method PressPublish() returns (submitted: bool)
      modifies this
      ensures submitted <==> !IsNewCommentEmpty(old(draft))
      ensures !submitted ==> unchanged(this)
      ensures State() == Pressed(old(State()))
    {
      if IsSubmitDisabled() {
        submitted := false;
      } else {
        submitted := SubmitForm();
      }
    }
  }
}
