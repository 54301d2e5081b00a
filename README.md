# IgniteFeed comment section, in Dafny

IgniteFeed is a small social-feed interface. Its one piece of real logic is
the comment section of a post. The post holds an ordered list of comment
texts, seeded with the welcome comment "Post muito bacana, hein?!". It also
holds the draft typed in the textarea and the textarea's custom validity
message. Publishing appends the draft and clears it. Typing replaces the
draft and clears the message. A submission attempt of an empty form shows
the fixed message "Idiota, escreva antes de enviar". Deleting keeps only the comments
that differ from the given text. Each comment owns a like counter that starts
at 0, and its "Aplaudir" button adds one to it. Its trash button hands the
comment's own text to the post's delete handler.

The project has five modules:

- `CommentList` (`comment_list.dfy`): the delete filter `Without` as a pure
  function, with lemmas. They show that it removes every equal entry and
  keeps the others with their counts and their order, that deleting an
  absent text changes nothing, and that deleting twice equals deleting once.
- `PostModel` (`post_model.dfy`): the post's state as a value. Each handler
  is a function on it. The user's actions (type, click "Publicar", a
  submission attempt of the form, delete) form one event-driven state machine, with lemmas about runs of events.
- `PostComponent` (`post.dfy`): class `Post`, whose fields the handlers
  update in place. Each method is proved against its `PostModel` function.
- `CommentComponent` (`comment.dfy`): class `Comment` with its like counter
  and its delete request, plus a pure replay of reactions for the counting
  lemmas.
- `Scenarios` (`scenarios.dfy`): the worked examples, driven through the two
  classes as assertions.

Every handler is one synchronous transition. Emptiness is exactly "length
0", as `isNewCommentEmpty` computes it. A draft made only of blanks is not
empty and is published, because nothing trims the draft. The handler that
appends a comment does no emptiness check itself: the disabled button and
the `required` attribute guard it. `Post.HandleCreateNewComment` therefore
requires a non-empty draft. A click on "Publicar" (`Post.PressPublish`)
does nothing while the draft is empty, because the button is disabled. A
submission attempt of the form (`Post.SubmitForm`) covers both paths of
the `required` textarea: with an empty draft the browser raises the invalid
event, and the comments stay as they were. The button never reaches that
path; only a submission that does not come from the button does.

## Model

| member | source | states |
|---|---|---|
| CommentList.Without | src/components/Post.tsx:68-73 | deleting text x leaves no entry equal to x, never lengthens the list, and keeps only entries that were there |
| CommentList.WithoutCounts | src/components/Post.tsx:69-71 | every text other than x keeps exactly its number of occurrences; x has none left |
| CommentList.WithoutIsSubsequence | src/components/Post.tsx:69-71 | the surviving comments keep their relative order (the result is a subsequence of the old list) |
| CommentList.WithoutConcat | src/components/Post.tsx:69-71 | deleting from a + b is deleting from a followed by deleting from b, so order is kept across any cut |
| CommentList.WithoutLength | src/components/Post.tsx:69-72 | the list shrinks by exactly the number of entries equal to x |
| CommentList.WithoutAbsent | src/components/Post.tsx:68-72 | the delete leaves the list unchanged if and only if no entry equals x |
| CommentList.WithoutIdempotent | src/components/Post.tsx:68-72 | deleting the same text twice equals deleting it once |
| CommentList.WithoutRemovesAllMatches | src/components/Post.tsx:69-71 | ["a","b","a"] with "a" deleted is ["b"]: every match goes, not only the first |
| PostModel.Mounted | src/components/Post.tsx:34-38 | a mounted post has exactly the welcome comment, an empty draft and no validity message |
| PostModel.IsNewCommentEmpty | src/components/Post.tsx:49 | the draft counts as empty exactly when it is the empty string (no trimming) |
| PostModel.Created | src/components/Post.tsx:52-56 | submitting grows the list by one, keeps every earlier comment in place, puts the draft last and clears the draft |
| PostModel.Changed | src/components/Post.tsx:58-62 | typing sets the draft to exactly the new text, clears the validity message and leaves the comments alone |
| PostModel.Invalidated | src/components/Post.tsx:64-66 | the invalid event sets the fixed message and changes neither comments nor draft |
| PostModel.Deleted | src/components/Post.tsx:68-73 | after a delete no comment equals the text, the list is no longer, an absent text is a no-op, and draft and message are kept |
| PostModel.SubmitAttempted | src/components/Post.tsx:103-112 | a submission attempt of the form changes the comments if and only if the draft is non-empty; then it appends the draft, clears it and keeps the message; an empty draft only raises the validity message |
| PostModel.Pressed | src/components/Post.tsx:114-117 | a click on "Publicar" with an empty draft changes nothing, because the button is disabled; otherwise it appends the draft and clears it; it never changes the validity message |
| PostModel.PublishedInOrder | src/components/Post.tsx:52-62 | typing and clicking publish for non-empty texts s1..sN appends exactly s1..sN in order and leaves an empty draft with no message |
| PostModel.PublishedAfterMount | src/components/Post.tsx:34-56 | from mount, publishing s1..sN gives exactly [welcome, s1, ..., sN] |
| PostModel.EmptySubmitsAreRejected | src/components/Post.tsx:103-112 | any number of submission attempts with an empty draft leave the comments unchanged and show the validity message |
| PostModel.MessageOnlyWhenEmptyAlways | src/components/Post.tsx:58-66 | in every state reached by any events, a validity message is shown only while the draft is empty |
| PostComponent.Post.constructor | src/components/Post.tsx:34-38 | a new post holds the welcome comment, an empty draft and no message |
| PostComponent.Post.IsSubmitDisabled | src/components/Post.tsx:114-117 | the publish button is disabled exactly when the draft is the empty string |
| PostComponent.Post.HandleCreateNewComment | src/components/Post.tsx:52-56 | with a non-empty draft, the fields become the old comments plus the draft, an empty draft, and the same message |
| PostComponent.Post.HandleNewCommentChange | src/components/Post.tsx:58-62 | the draft becomes the typed text, the message is cleared, the comments are kept |
| PostComponent.Post.HandleNewCommentInvalid | src/components/Post.tsx:64-66 | the message becomes the fixed text; comments and draft are kept |
| PostComponent.Post.DeleteComment | src/components/Post.tsx:68-73 | the comments become the old ones without every entry equal to the text; draft and message are kept |
| PostComponent.Post.SubmitForm | src/components/Post.tsx:103-112 | a submission attempt reports a submission exactly when the draft was non-empty, and the new state is the model's submission-attempt transition |
| PostComponent.Post.PressPublish | src/components/Post.tsx:114-117 | a click submits exactly when the draft was non-empty; a click on the disabled button changes no field |
| CommentComponent.LikesAfter | src/components/Comment.tsx:15-19 | replaying reactions never lowers the like count, and an applaud raises it |
| CommentComponent.LikesCountApplauds | src/components/Comment.tsx:15-23 | the like count after any reactions is the start plus the number of applauds; delete requests add nothing |
| CommentComponent.ApplaudedTimes | src/components/Comment.tsx:13-19 | k applauds on a new comment give a count of exactly k |
| CommentComponent.LikesNeverDecrease | src/components/Comment.tsx:13-23 | further reactions never lower the count already reached |
| CommentComponent.Comment.constructor | src/components/Comment.tsx:13 | a new comment keeps its text and starts with 0 likes |
| CommentComponent.Comment.HandleLikeComment | src/components/Comment.tsx:15-19 | the count grows by exactly 1, and only this comment is modified |
| CommentComponent.Comment.HandleDeleteComment | src/components/Comment.tsx:21-23 | the owner's comments lose every entry equal to this comment's own text; the draft, the message and this comment's count are unchanged |

## Left out

- Date formatting (`format`, `formatDistanceToNow`, `toISOString`) depends on a foreign library, the clock and the locale, so it is not modelled.
- Rendering is not modelled: the JSX, CSS modules, the avatar, the icons, the content-line markup (paragraph or link) and the fixed author and times shown on each comment.
- The sidebar is static markup with no state.
- `preventDefault` and `setCustomValidity` are browser calls. The validity message is a plain field instead.
- React schedules `setState` asynchronously. Here each handler is one synchronous transition.
- React reconciles comment instances by their key, which is the comment text. So which counter survives a delete, and duplicate keys, are not modelled. The post and its comment objects are modelled separately. A comment's delete request is the post's delete applied to the comment's text.
- CommentComponent.Comment.HandleLikeComment: the count is an unbounded natural number. A JavaScript number stops growing by one beyond 2^53, which is not modelled because it is floating point.
- PostComponent.Post.SubmitForm: the browser's constraint validation is reduced to the `required` test on an empty draft. This is enough because a custom message is only ever set while the draft is empty (`PostModel.MessageOnlyWhenEmptyAlways`).
