/** Concrete messages classified by the problem heuristic. */
module ProblemHeuristicExamples {
  import opened Text
  import opened ProblemHeuristic

  /** Lower-casing the example only changes its capital "I". */
  lemma SadAtWorkLower(message: string)
    requires message == "I am sad at work"
    ensures ToLower(message) == "i am sad at work"
  {
  }

  /** The lower-cased example has none of the letters of `NoPositiveByLetters`. */
  lemma SadAtWorkLetters(lower: string)
    requires lower == "i am sad at work"
    ensures forall i :: 0 <= i < |lower| ==> lower[i] !in "cefghjlnyz"
  {
  }

  /** The example has four spaces, so `split(' ')` gives five pieces. */
  lemma SadAtWorkSpaces(lower: string)
    requires lower == "i am sad at work"
    ensures CountChar(lower, ' ') >= 4
  {
    CountCharAtLeast(lower, ' ', [1, 4, 8, 11]);
  }

  /** The example contains the problem indicator "sad". */
  lemma SadAtWorkIndicator(lower: string)
    requires lower == "i am sad at work"
    ensures Contains(lower, "sad")
  {
    ContainsInMiddle("i am ", "sad", " at work");
    assert "i am " + "sad" + " at work" == lower;
  }

  /** The example starts with the whole word "i". */
  lemma SadAtWorkFirstPerson(lower: string)
    requires lower == "i am sad at work"
    ensures PatternFinds(lower)
  {
    assert MatchAt(lower, FirstPersonForms[0], 0);
  }

  /** "I am sad at work" is a problem description: five words, the
      indicator "sad", the first-person "I", and no positive indicator. */
  lemma SadAtWorkIsAProblem(message: string)
    requires message == "I am sad at work"
    ensures IsProblemDescription(message)
  {
    var lower := ToLower(message);
    SadAtWorkLower(message);
    SadAtWorkLetters(lower);
    NoPositiveByLetters(lower);
    SadAtWorkSpaces(lower);
    SadAtWorkIndicator(lower);
    assert ProblemIndicators[10] == "sad";
    SadAtWorkFirstPerson(lower);
    ProblemFromParts(message, lower, 10);
  }
}
