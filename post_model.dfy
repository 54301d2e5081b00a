/**
 The state of one post's comment section as a value, the handlers of the
 post component as functions on it, and the user-level events (typing,
 clicking "Publicar", a submission attempt of the form, deleting a
 comment) as one state machine.
 */
module PostModel {
  import opened CommentList

  /** The one comment every post starts with. */
  const Welcome: string := "Post muito bacana, hein?!"

  /** The custom validity message set when the form is submitted empty. */
  const EmptyDraftMessage: string := "Idiota, escreva antes de enviar"

  /** The ordered comments, the textarea's draft and its custom validity
      message ("" when the field has no custom error). */
  datatype PostState = PostState(comments: seq<string>, draft: string, validity: string)

  /** The state right after the post mounts. */
  function Mounted(): (s: PostState)
    ensures s.comments == [Welcome] && s.draft == [] && s.validity == []
  {
    PostState([Welcome], "", "")
  }

  /** The publish button is disabled exactly when the draft has length 0;
      a draft of blanks is not empty. */
  predicate IsNewCommentEmpty(draft: string)
    ensures IsNewCommentEmpty(draft) <==> draft == []
  {
    |draft| == 0
  }

  /** Submitting the form: the draft becomes the last comment and the
      draft is cleared. The form only submits a non-empty draft. */
  function Created(s: PostState): (r: PostState)
    requires !IsNewCommentEmpty(s.draft)
    ensures |r.comments| == |s.comments| + 1
    ensures r.comments[..|s.comments|] == s.comments
    ensures r.comments[|s.comments|] == s.draft
    ensures r.draft == [] && r.validity == s.validity
  {
    s.(comments := s.comments + [s.draft], draft := "")
  }

  /** Typing: the draft becomes exactly `text`, and any custom validity
      message is cleared; the comments are untouched. */
  function Changed(s: PostState, text: string): (r: PostState)
    ensures r.draft == text && r.validity == [] && r.comments == s.comments
  {
    s.(draft := text, validity := "")
  }

  /** The browser's invalid event: only the validity message changes. */
  function Invalidated(s: PostState): (r: PostState)
    ensures r.validity == EmptyDraftMessage
    ensures r.comments == s.comments && r.draft == s.draft
  {
    s.(validity := EmptyDraftMessage)
  }

  /** A comment's delete request: every comment equal to `text` goes. */
  function Deleted(s: PostState, text: string): (r: PostState)
    ensures text !in r.comments && |r.comments| <= |s.comments|
    ensures text !in s.comments ==> r == s
    ensures r.draft == s.draft && r.validity == s.validity
  {
    WithoutAbsent(s.comments, text);
    s.(comments := Without(s.comments, text))
  }

  /** A submission attempt of the form. The required textarea lets a
      non-empty draft through to the submit handler; with an empty draft
      the browser fires the invalid event instead. */
  function SubmitAttempted(s: PostState): (r: PostState)
    ensures r.comments != s.comments <==> !IsNewCommentEmpty(s.draft)
    ensures IsNewCommentEmpty(s.draft) ==>
      r.comments == s.comments && r.draft == s.draft && r.validity == EmptyDraftMessage
    ensures !IsNewCommentEmpty(s.draft) ==>
      r.comments == s.comments + [s.draft] && r.draft == [] && r.validity == s.validity
  {
    if IsNewCommentEmpty(s.draft) then Invalidated(s)
    else
      var r := Created(s);
      assert |r.comments| != |s.comments|;
      r
  }

  /** A click on "Publicar". The button is disabled while the draft is
      empty, so such a click does nothing at all; otherwise it submits. */
  function Pressed(s: PostState): (r: PostState)
    ensures IsNewCommentEmpty(s.draft) ==> r == s
    ensures !IsNewCommentEmpty(s.draft) ==>
      r.comments == s.comments + [s.draft] && r.draft == [] && r.validity == s.validity
    ensures r.validity == s.validity
  {
    if IsNewCommentEmpty(s.draft) then s else SubmitAttempted(s)
  }

  /** What a user can do to a post's comment section: type, click the
      publish button, make the form attempt a submission, delete. */
  datatype Event = Type(text: string) | Press | Submit | Remove(text: string)

  function Step(s: PostState, e: Event): PostState
  {
    match e
    case Type(text) => Changed(s, text)
    case Press => Pressed(s)
    case Submit => SubmitAttempted(s)
    case Remove(text) => Deleted(s, text)
  }

  /** The state after the events, in order, one handler run at a time. */
  function Run(s: PostState, events: seq<Event>): PostState
    decreases |events|
  {
    if events == [] then s else Run(Step(s, events[0]), events[1..])
  }

  /** Typing each text and clicking "Publicar", one text after the other. */
  function TypeAndPublish(texts: seq<string>): (events: seq<Event>)
    ensures |events| == 2 * |texts|
  {
    if texts == [] then [] else [Type(texts[0]), Press] + TypeAndPublish(texts[1..])
  }

  /** Publishing non-empty texts one by one appends them to the comments
      in that order, and leaves the draft empty and without an error. */
  lemma {:induction false} PublishedInOrder(s: PostState, texts: seq<string>)
    requires forall i :: 0 <= i < |texts| ==> texts[i] != []
    ensures Run(s, TypeAndPublish(texts)).comments == s.comments + texts
    ensures texts != [] ==>
      Run(s, TypeAndPublish(texts)).draft == [] && Run(s, TypeAndPublish(texts)).validity == []
    decreases |texts|
  {
    if texts == [] {
      assert s.comments + texts == s.comments;
    } else {
      var events := TypeAndPublish(texts);
      var s1 := Changed(s, texts[0]);
      var s2 := Pressed(s1);
      assert events[0] == Type(texts[0]);
      assert events[1..][0] == Press;
      assert events[1..][1..] == TypeAndPublish(texts[1..]);
      assert Run(s, events) == Run(s2, TypeAndPublish(texts[1..]));
      PublishedInOrder(s2, texts[1..]);
      assert s2.comments == s.comments + [texts[0]];
      assert texts == [texts[0]] + texts[1..];
    }
  }

  /** From a freshly mounted post, publishing texts gives the welcome
      comment followed by those texts. */
  lemma PublishedAfterMount(texts: seq<string>)
    requires forall i :: 0 <= i < |texts| ==> texts[i] != []
    ensures Run(Mounted(), TypeAndPublish(texts)).comments == [Welcome] + texts
  {
    PublishedInOrder(Mounted(), texts);
  }

  /** `n` submission attempts of the form. */
  function Submits(n: nat): (events: seq<Event>)
    ensures |events| == n && forall i :: 0 <= i < n ==> events[i] == Submit
  {
    if n == 0 then [] else [Submit] + Submits(n - 1)
  }

  /** Any number of submission attempts with an empty draft never add a
      comment: the required field only shows the validity message. */
  lemma {:induction false} EmptySubmitsAreRejected(s: PostState, n: nat)
    requires IsNewCommentEmpty(s.draft)
    ensures Run(s, Submits(n)).comments == s.comments
    ensures Run(s, Submits(n)).draft == []
    ensures n > 0 ==> Run(s, Submits(n)).validity == EmptyDraftMessage
    decreases n
  {
    if n > 0 {
      var s1 := SubmitAttempted(s);
      assert Submits(n)[1..] == Submits(n - 1);
      EmptySubmitsAreRejected(s1, n - 1);
      if n > 1 {
        assert Run(s, Submits(n)).validity == Run(s1, Submits(n - 1)).validity;
      }
    }
  }

  /** A validity message is only ever shown while the draft is empty:
      typing clears it, and only an empty submission sets it. */
  predicate MessageOnlyWhenEmpty(s: PostState)
  {
    s.validity != [] ==> IsNewCommentEmpty(s.draft)
  }

  /** Every state reached from a mounted post keeps the message only on an
      empty draft, so the `required` test is the only validation needed. */
  lemma {:induction false} MessageOnlyWhenEmptyAlways(s: PostState, events: seq<Event>)
    requires MessageOnlyWhenEmpty(s)
    ensures MessageOnlyWhenEmpty(Run(s, events))
    ensures MessageOnlyWhenEmpty(Run(Mounted(), events))
    decreases |events|
  {
    if events != [] {
      MessageOnlyWhenEmptyAlways(Step(s, events[0]), events[1..]);
      MessageOnlyWhenEmptyAlways(Step(Mounted(), events[0]), events[1..]);
    }
  }
}
