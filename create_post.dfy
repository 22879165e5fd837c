/** The post composer (src/components/CreatePostModal.tsx): the user types a
    post, the word filter marks it, and "Post" submits it to the current
    support group. The submission itself (`createPost`) is outside the model:
    the payload handed to it is returned, its success callback is a method of
    its own, and the error toast is returned as a result. */
module CreatePost {
  import opened Wrappers
  import opened Text
  import opened Moderation

  datatype PostType = General | Support | Achievement | Question

  /** What is sent when posting: the text and the anonymity choice only. */
  datatype PostPayload = PostPayload(content: string, isAnonymous: bool)

  const MissingBubbleToast := "Please join a bubble first to create posts"

  /** `!bubbleId` is false only for a present, non-empty id. */
  predicate HasBubble(bubbleId: Option<string>) {
    bubbleId.Some? && bubbleId.value != ""
  }

  /** The topic badges shown under the text. */
  function DetectedTags(content: string): (r: seq<string>)
    ensures r != [] <==> |content| > 50
    ensures r != [] ==> r == ["#support", "#community"]
  {
    if |content| > 50 then ["#support", "#community"] else []
  }

  /** The "safe" indicator: long enough and not flagged. A text long
      enough to get badges is shown as safe exactly when it is not flagged,
      and a text shown as safe passes the posting guard once a group is
      chosen. */
  predicate IsSafe(content: string, hasViolation: bool)
    ensures DetectedTags(content) != [] ==> (IsSafe(content, hasViolation) <==> !hasViolation)
    ensures IsSafe(content, hasViolation) ==>
      forall bubbleId :: HasBubble(bubbleId) ==> CanPost(content, hasViolation, bubbleId)
  {
    |content| > 20 && !hasViolation
  }

  /** The guard at the top of `handlePost`: it lets a post through only when
      there is text, it is not flagged and there is a group to post to. */
  predicate CanPost(content: string, hasViolation: bool, bubbleId: Option<string>) {
    content != "" && !hasViolation && HasBubble(bubbleId)
  }

  /** The Post button is greyed out when the guard would refuse or a post
      is on its way: an enabled button always leads to a submission, and the
      only state in which the guard would pass but the button is greyed out
      is while a post is on its way. */
  predicate PostDisabled(content: string, hasViolation: bool, isCreating: bool, bubbleId: Option<string>)
    ensures !PostDisabled(content, hasViolation, isCreating, bubbleId) ==> CanPost(content, hasViolation, bubbleId)
    ensures CanPost(content, hasViolation, bubbleId) && PostDisabled(content, hasViolation, isCreating, bubbleId) ==> isCreating
  {
    content == "" || hasViolation || isCreating || !HasBubble(bubbleId)
  }

  class Composer {
    var content: string
    var postType: PostType
    var hasViolation: bool
    var isAnonymous: bool
    /** Set once the composer has asked its parent to close it. */
    var closeRequested: bool
    /** The group the composer posts to; it does not change while open. */
    const bubbleId: Option<string>

    /** The flag describes any non-empty text. An emptied text may keep a
        stale flag: the reset after a successful post clears the text but
        not the flag, and the text can be edited while the post is on its
        way. */
    ghost predicate Valid()
      reads this
    {
      content != "" ==> hasViolation == HasViolation(content)
    }

    /** A fresh composer: empty text, type "general", anonymous on. */
    constructor(bubbleId: Option<string>)
      ensures Valid()
      ensures content == "" && postType == General && !hasViolation && isAnonymous && !closeRequested
      ensures this.bubbleId == bubbleId
    {
      content := "";
      postType := General;
      hasViolation := false;
      isAnonymous := true;
      closeRequested := false;
      this.bubbleId := bubbleId;
      EmptyIsClean();
    }

    /** An edit replaces the text and recomputes the flag from the new text
        alone. */
    method HandleContentChange(value: string)
      modifies this
      ensures Valid()
      ensures content == value && hasViolation == HasViolation(value)
      ensures postType == old(postType) && isAnonymous == old(isAnonymous) && closeRequested == old(closeRequested)
    {
      content := value;
      hasViolation := HasViolation(value);
    }

    method SetPostType(t: PostType)
      modifies this
      ensures postType == t
      ensures content == old(content) && hasViolation == old(hasViolation) && isAnonymous == old(isAnonymous)
      ensures closeRequested == old(closeRequested)
    {
      postType := t;
    }

    method SetAnonymous(checked: bool)
      modifies this
      ensures isAnonymous == checked
      ensures content == old(content) && hasViolation == old(hasViolation) && postType == old(postType)
      ensures closeRequested == old(closeRequested)
    {
      isAnonymous := checked;
    }

    /** `handlePost`. When the guard refuses, nothing is sent and nothing
        changes; a missing group also yields the error toast. Otherwise the
        text and the anonymity choice are sent, and a text holding a flagged
        word never is. */
    method HandlePost() returns (sent: Option<PostPayload>, errorToast: Option<string>)
      requires Valid()
      ensures sent.Some? <==> CanPost(content, hasViolation, bubbleId)
      ensures sent.Some? ==> sent.value == PostPayload(content, isAnonymous) && !HasViolation(content)
      ensures errorToast == (if HasBubble(bubbleId) then None else Some(MissingBubbleToast))
    {
      errorToast := None;
      if content == "" || hasViolation || !HasBubble(bubbleId) {
        if !HasBubble(bubbleId) {
          errorToast := Some(MissingBubbleToast);
        }
        return None, errorToast;
      }
      sent := Some(PostPayload(content, isAnonymous));
    }

    /** The submission's success callback: clears the text, puts the type
        back to "general" and asks to close; the anonymity choice and the
        flag are kept. */
    method OnPostSuccess()
      requires Valid()
      modifies this
      ensures Valid()
      ensures content == "" && postType == General && closeRequested
      ensures isAnonymous == old(isAnonymous) && hasViolation == old(hasViolation)
    {
      content := "";
      postType := General;
      closeRequested := true;
    }
  }

  /** With the flag kept up to date, a text holding a flagged word anywhere
      (whatever surrounds it) never gets past the guard. */
  lemma FlaggedTextIsNeverSent(before: string, word: string, after: string, bubbleId: Option<string>)
    requires HasViolation(word)
    ensures var content := before + word + after; !CanPost(content, HasViolation(content), bubbleId)
  {
    ViolationSurvivesEdits(before, word, after);
  }
}
