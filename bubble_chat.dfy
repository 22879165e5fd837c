/** The message box of a support group's chat (src/pages/BubbleChat.tsx):
    every edit runs the word filter, and Enter clears a clean, non-empty
    message (the page does not send it anywhere yet). */
module BubbleChat {
  import opened Text
  import opened Moderation

  /** The send button is greyed out for a flagged or empty message: while
      the warning describes the box, an enabled button means a non-empty
      message in which no flagged word occurs. */
  predicate SendDisabled(message: string, moderationWarning: bool)
    ensures moderationWarning == HasViolation(message) && !SendDisabled(message, moderationWarning) ==>
      message != "" && forall k, i :: 0 <= k < |BadWords| ==> !OccursAt(ToLower(message), BadWords[k], i)
  {
    moderationWarning || message == ""
  }

  class MessageBox {
    var message: string
    var moderationWarning: bool

    /** The warning always describes the current message. */
    ghost predicate Valid()
      reads this
    {
      moderationWarning == HasViolation(message)
    }

    /** The page opens with an empty box and no warning. */
    constructor()
      ensures Valid()
      ensures message == "" && !moderationWarning
    {
      message := "";
      moderationWarning := false;
      EmptyIsClean();
    }

    /** An edit replaces the message and recomputes the warning from the new
        value alone. */
    method HandleMessageChange(value: string)
      modifies this
      ensures Valid()
      ensures message == value && moderationWarning == HasViolation(value)
    {
      message := value;
      moderationWarning := HasViolation(value);
    }

    /** A key press in the box: Enter without Shift clears a non-empty
        message that carries no warning; every other case leaves the box as
        it is. Returns whether the message was cleared, which happens exactly
        when the send button is enabled. */
    method HandleKeyDown(key: string, shiftKey: bool) returns (cleared: bool)
      requires Valid()
      modifies this
      ensures Valid()
      ensures cleared <==> key == "Enter" && !shiftKey && old(message) != "" && !old(moderationWarning)
      ensures cleared <==> key == "Enter" && !shiftKey && !SendDisabled(old(message), old(moderationWarning))
      ensures cleared ==> message == "" && !moderationWarning
      ensures !cleared ==> message == old(message) && moderationWarning == old(moderationWarning)
    {
      cleared := false;
      if key == "Enter" && !shiftKey {
        if message != "" && !moderationWarning {
          message := "";
          EmptyIsClean();
          cleared := true;
        }
      }
    }
  }
}
