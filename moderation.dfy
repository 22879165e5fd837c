/** The word filter shared by the post composer
    (src/components/CreatePostModal.tsx) and the group chat box
    (src/pages/BubbleChat.tsx): a text is flagged when its lower-cased form
    contains one of three words anywhere, inside other words included. */
module Moderation {
  import opened Text

  /** The flagged words, in the order they are tried. */
  const BadWords: seq<string> := ["hate", "kill", "hurt"]

  /** `badWords.some(word => value.toLowerCase().includes(word))`: a text
      is flagged exactly when some flagged word occurs, letter case aside,
      at some position of it. */
  predicate HasViolation(value: string): (r: bool)
    ensures r <==>
      exists k, i :: 0 <= k < |BadWords| && OccursAt(ToLower(value), BadWords[k], i)
  {
    var lower := ToLower(value);
    ContainsAnyIsOccurrence(lower, BadWords);
    assert lower == ToLower(value);
    ContainsAny(lower, BadWords)
  }

  /** The filter does not see letter case. */
  lemma ViolationIgnoresCase(value: string)
    ensures HasViolation(ToLower(value)) == HasViolation(value)
  {
    ToLowerIdempotent(value);
  }

  /** Text cannot be unflagged by typing around it: whatever is added before
      or after a flagged text, the result is flagged too. */
  lemma ViolationSurvivesEdits(before: string, value: string, after: string)
    requires HasViolation(value)
    ensures HasViolation(before + value + after)
  {
    var lower := ToLower(value);
    var k :| 0 <= k < |BadWords| && Contains(lower, BadWords[k]);
    ToLowerAppend(before, value);
    ToLowerAppend(before + value, after);
    assert ToLower(before + value + after) == ToLower(before) + lower + ToLower(after);
    ContainsInMiddle(ToLower(before), lower, ToLower(after));
    ContainsTransitive(ToLower(before + value + after), lower, BadWords[k]);
  }

  /** The empty text is never flagged. */
  lemma EmptyIsClean()
    ensures !HasViolation("")
  {
    assert ToLower("") == "";
    assert !Contains("", BadWords[0]) && !Contains("", BadWords[1]) && !Contains("", BadWords[2]);
  }
}
