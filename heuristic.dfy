/** The client-side test `isProblemDescription` (src/utils/categorizeProblem.ts):
    does a chat message look like someone describing a problem? It uses no
    network and no state. */
module ProblemHeuristic {
  import opened Text

  /** Substrings that suggest a problem. */
  const ProblemIndicators: seq<string> := [
    "feel", "feeling", "depressed", "anxious", "anxiety", "worried", "stress",
    "scared", "afraid", "lonely", "sad", "overwhelm", "panic", "can't sleep",
    "struggling", "hard time", "difficult", "help", "support", "need",
    "don't know what to do", "lost", "confused", "hurt", "pain", "suffer",
    "relationship", "breakup", "anger", "angry", "frustrated", "tired",
    "exhausted", "burnout", "work", "school", "family", "friend", "cope",
    "crying", "upset", "hopeless", "worthless", "numb", "empty"
  ]

  /** Substrings that suggest small talk rather than a problem. */
  const PositiveIndicators: seq<string> := [
    "great", "amazing", "wonderful", "awesome", "happy", "excited",
    "good day", "doing well", "fine", "okay", "hi", "hello", "hey",
    "weather", "joke", "story", "chat", "talk about"
  ]

  /** The strings the pattern `\b(i'?m?|my|me)\b` can match. */
  const FirstPersonForms: seq<string> := ["i", "i'", "im", "i'm", "my", "me"]

  /** The whole words that count as first person. */
  const FirstPersonWords: seq<string> := ["i", "im", "my", "me"]

  // ---------------------------------------------------------------------
  // The first-person pattern
  // ---------------------------------------------------------------------

  predicate WordCharAt(s: string, q: int) {
    0 <= q < |s| && IsWordChar(s[q])
  }

  /** `\b` holds between positions `q - 1` and `q`. */
  predicate BoundaryAt(s: string, q: int) {
    WordCharAt(s, q - 1) != WordCharAt(s, q)
  }

  /** The pattern matches `w` at position `p` of `s`. */
  predicate MatchAt(s: string, w: string, p: int) {
    OccursAt(s, w, p) && BoundaryAt(s, p) && BoundaryAt(s, p + |w|)
  }

  /** `/\b(i'?m?|my|me)\b/i.test(message)`: matching ignores ASCII letter case,
      so it is matching on the lower-cased message. */
  ghost predicate FirstPersonMatch(message: string) {
    PatternFinds(ToLower(message))
  }

  /** The pattern matches somewhere in `s`. */
  ghost predicate PatternFinds(s: string) {
    exists p, k :: 0 <= k < |FirstPersonForms| && MatchAt(s, FirstPersonForms[k], p)
  }

  /** `w` stands in `s` at `p` as a whole word. */
  predicate WholeWordAt(s: string, w: string, p: int) {
    OccursAt(s, w, p) && !WordCharAt(s, p - 1) && !WordCharAt(s, p + |w|)
  }

  /** `MatchAt`, tested character by character. */
  function MatchesAt(s: string, w: string, p: nat): bool {
    p <= |s| && StartsWith(s[p..], w) && BoundaryAt(s, p) && BoundaryAt(s, p + |w|)
  }

  /** Some of `forms` matches at position `p`. */
  function AnyFormAt(s: string, forms: seq<string>, p: nat): bool {
    forms != [] && (MatchesAt(s, forms[0], p) || AnyFormAt(s, forms[1..], p))
  }

  /** The regular expression's search from position `p` on. */
  function MatchFrom(s: string, p: nat): bool
    decreases |s| - p
  {
    p < |s| && (AnyFormAt(s, FirstPersonForms, p) || MatchFrom(s, p + 1))
  }

  lemma MatchesAtIsMatchAt(s: string, w: string, p: nat)
    ensures MatchesAt(s, w, p) <==> MatchAt(s, w, p)
  {
    if p <= |s| {
      StartsWithIsPrefix(s[p..], w);
      assert p + |w| <= |s| ==> s[p..][..|w|] == s[p..p + |w|];
    }
  }

  lemma {:induction false} AnyFormAtFacts(s: string, forms: seq<string>, p: nat)
    ensures AnyFormAt(s, forms, p) <==> exists k :: 0 <= k < |forms| && MatchAt(s, forms[k], p)
  {
    if forms != [] {
      AnyFormAtFacts(s, forms[1..], p);
      MatchesAtIsMatchAt(s, forms[0], p);
      assert forall k :: 1 <= k < |forms| ==> forms[k] == forms[1..][k - 1];
    }
  }

  /** The search finds a match at or after `p` exactly when there is one. */
  lemma {:induction false} MatchFromFacts(s: string, p: nat)
    ensures MatchFrom(s, p) <==> exists q, k :: p <= q && 0 <= k < |FirstPersonForms| && MatchAt(s, FirstPersonForms[k], q)
    decreases |s| - p
  {
    if p >= |s| {
      assert forall q, k :: p <= q && 0 <= k < |FirstPersonForms| ==> !OccursAt(s, FirstPersonForms[k], q);
    } else {
      AnyFormAtFacts(s, FirstPersonForms, p);
      MatchFromFacts(s, p + 1);
      if exists q, k :: p <= q && 0 <= k < |FirstPersonForms| && MatchAt(s, FirstPersonForms[k], q) {
        var q, k :| p <= q && 0 <= k < |FirstPersonForms| && MatchAt(s, FirstPersonForms[k], q);
        if q == p {
          assert AnyFormAt(s, FirstPersonForms, p);
        }
      }
    }
  }

  /** The first-person test of the source. */
  function HasFirstPerson(message: string): (r: bool)
    ensures r <==> FirstPersonMatch(message)
  {
    MatchFromFacts(ToLower(message), 0);
    MatchFrom(ToLower(message), 0)
  }

  /** Each form the pattern matches starts with a first-person whole word. */
  lemma FormStartsWholeWord(s: string, k: int, p: int)
    requires 0 <= k < |FirstPersonForms| && MatchAt(s, FirstPersonForms[k], p)
    ensures WholeWordAt(s, FirstPersonWords[[0, 0, 1, 0, 2, 3][k]], p)
  {
    var w := FirstPersonForms[k];
    var v := FirstPersonWords[[0, 0, 1, 0, 2, 3][k]];
    assert s[p..p + |w|] == w;
    assert v == w[..|v|] && 0 < |v| <= |w|;
    assert s[p..p + |v|] == v by {
      assert s[p..p + |v|] == s[p..p + |w|][..|v|];
    }
    assert s[p] == w[0] && IsWordChar(w[0]);
    if |v| < |w| {
      assert s[p + |v|] == w[|v|] == '\'';
    } else {
      assert s[p + |w| - 1] == w[|w| - 1] && IsWordChar(w[|w| - 1]);
    }
  }

  /** Each first-person whole word is matched by the pattern. */
  lemma WholeWordIsForm(s: string, j: int, p: int)
    requires 0 <= j < |FirstPersonWords| && WholeWordAt(s, FirstPersonWords[j], p)
    ensures MatchAt(s, FirstPersonForms[[0, 2, 4, 5][j]], p)
  {
    var v := FirstPersonWords[j];
    assert FirstPersonForms[[0, 2, 4, 5][j]] == v;
    assert forall m :: 0 <= m < |v| ==> s[p + m] == v[m];
  }

  /** The pattern finds a first-person form exactly when one of "i", "im",
      "my", "me" stands in the (lower-cased) text as a whole word: a match of
      "i'" or "i'm" always starts with the whole word "i". */
  lemma FirstPersonIsWholeWord(s: string)
    ensures PatternFinds(s) <==>
      exists p, j :: 0 <= j < |FirstPersonWords| && WholeWordAt(s, FirstPersonWords[j], p)
  {
    if p, k :| 0 <= k < |FirstPersonForms| && MatchAt(s, FirstPersonForms[k], p) {
      FormStartsWholeWord(s, k, p);
    }
    if p, j :| 0 <= j < |FirstPersonWords| && WholeWordAt(s, FirstPersonWords[j], p) {
      WholeWordIsForm(s, j, p);
    }
  }

  // ---------------------------------------------------------------------
  // The classifier
  // ---------------------------------------------------------------------

  /** `isProblemDescription(message)`: at least five space-separated pieces,
      no positive indicator, some problem indicator (both as substrings of the
      lower-cased message), and first-person language. */
  function IsProblemDescription(message: string): (r: bool)
    ensures r <==>
      |Split(message, ' ')| >= 5 &&
      (forall k :: 0 <= k < |PositiveIndicators| ==> !Contains(ToLower(message), PositiveIndicators[k])) &&
      (exists k :: 0 <= k < |ProblemIndicators| && Contains(ToLower(message), ProblemIndicators[k])) &&
      FirstPersonMatch(message)
  {
    var lowerMessage := ToLower(message);
    if |Split(message, ' ')| < 5 then false
    else if ContainsAny(lowerMessage, PositiveIndicators) then false
    else ContainsAny(lowerMessage, ProblemIndicators) && HasFirstPerson(message)
  }

  /** A message with fewer than four spaces is never a problem description. */
  lemma ShortMessageRejected(message: string)
    requires CountChar(message, ' ') < 4
    ensures !IsProblemDescription(message)
  {
  }

  /** A lower-case word placed in a message is in its lower-cased form. */
  lemma LoweredContains(pre: string, w: string, post: string)
    requires forall c :: c in w ==> !('A' <= c <= 'Z')
    ensures Contains(ToLower(pre + w + post), w)
  {
    ToLowerWithoutCapitals(w);
    ToLowerAppend(pre + w, post);
    ToLowerAppend(pre, w);
    ContainsInMiddle(ToLower(pre), w, ToLower(post));
  }

  /** A positive indicator anywhere in the message, whatever the letter case
      around it, vetoes the message, whatever else it says. */
  lemma PositiveVetoes(pre: string, k: int, post: string)
    requires 0 <= k < |PositiveIndicators|
    ensures !IsProblemDescription(pre + PositiveIndicators[k] + post)
  {
    LoweredContains(pre, PositiveIndicators[k], post);
  }

  /** Because indicators are matched as substrings, a message containing the
      word "this" or "which" is rejected: both contain "hi". */
  lemma HiInsideWordVetoes(pre: string, w: string, post: string)
    requires w == "this" || w == "which"
    ensures !IsProblemDescription(pre + w + post)
  {
    LoweredContains(pre, w, post);
    if w == "this" {
      assert Contains("this", "hi");
    } else {
      assert Contains("which", "hi");
    }
    assert PositiveIndicators[10] == "hi";
    ContainsTransitive(ToLower(pre + w + post), w, PositiveIndicators[10]);
  }

  /** The answer depends only on the lower-cased message. */
  lemma CaseInsensitive(m1: string, m2: string)
    requires ToLower(m1) == ToLower(m2)
    ensures IsProblemDescription(m1) == IsProblemDescription(m2)
  {
    CountSpaceToLower(m1);
    CountSpaceToLower(m2);
  }

  // ---------------------------------------------------------------------
  // Examples
  // ---------------------------------------------------------------------

  /** "it", "mine" and "meet" are not first person. */
  lemma NotFirstPersonIt()
    ensures !FirstPersonMatch("it")
  {
    assert !MatchFrom(ToLower("it"), 0);
    MatchFromFacts(ToLower("it"), 0);
  }

  lemma NotFirstPersonMine()
    ensures !FirstPersonMatch("mine")
  {
    assert !MatchFrom(ToLower("mine"), 0);
    MatchFromFacts(ToLower("mine"), 0);
  }

  lemma NotFirstPersonMeet()
    ensures !FirstPersonMatch("meet")
  {
    assert !MatchFrom(ToLower("meet"), 0);
    MatchFromFacts(ToLower("meet"), 0);
  }

  /** A capital "I" standing alone is first person. */
  lemma FirstPersonCapitalI()
    ensures FirstPersonMatch("so I")
  {
    assert MatchFrom(ToLower("so I"), 0);
    MatchFromFacts(ToLower("so I"), 0);
  }

  /** A one-word message is too short. */
  lemma HelpIsNotAProblem()
    ensures !IsProblemDescription("help")
  {
  }

  /** Small talk about the weather is rejected. */
  lemma WeatherIsNotAProblem()
    ensures !IsProblemDescription("Hello! What's the weather like today?")
  {
    assert "Hello! What's the weather like today?" == "Hello! What's the " + PositiveIndicators[13] + " like today?";
    PositiveVetoes("Hello! What's the ", 13, " like today?");
  }

  /** The eighteen positive indicators, one by one. */
  lemma NoPositiveListed(s: string)
    requires !Contains(s, "great") && !Contains(s, "amazing") && !Contains(s, "wonderful") && !Contains(s, "awesome") && !Contains(s, "happy") && !Contains(s, "excited") && !Contains(s, "good day") && !Contains(s, "doing well") && !Contains(s, "fine")
    requires !Contains(s, "okay") && !Contains(s, "hi") && !Contains(s, "hello") && !Contains(s, "hey") && !Contains(s, "weather") && !Contains(s, "joke") && !Contains(s, "story") && !Contains(s, "chat") && !Contains(s, "talk about")
    ensures forall k :: 0 <= k < |PositiveIndicators| ==> !Contains(s, PositiveIndicators[k])
  {
  }

  /** A string without the letters c, e, f, g, h, j, l, n, y and z contains
      none of the positive indicators: each has one of those letters. */
  lemma NoPositiveByLetters(s: string)
    requires forall i :: 0 <= i < |s| ==> s[i] !in "cefghjlnyz"
    ensures forall k :: 0 <= k < |PositiveIndicators| ==> !Contains(s, PositiveIndicators[k])
  {
    NoPositiveByLetters1(s);
    NoPositiveByLetters2(s);
    NoPositiveByLetters3(s);
    NoPositiveByLetters4(s);
    NoPositiveByLetters5(s);
    NoPositiveByLetters6(s);
    NoPositiveListed(s);
  }

  lemma NoPositiveByLetters1(s: string)
    requires forall i :: 0 <= i < |s| ==> s[i] !in "cefghjlnyz"
    ensures !Contains(s, "great") && !Contains(s, "amazing") && !Contains(s, "wonderful")
  {
    MissingLetter(s, "great", "cefghjlnyz", 'g');
    MissingLetter(s, "amazing", "cefghjlnyz", 'z');
    MissingLetter(s, "wonderful", "cefghjlnyz", 'n');
  }

  lemma NoPositiveByLetters2(s: string)
    requires forall i :: 0 <= i < |s| ==> s[i] !in "cefghjlnyz"
    ensures !Contains(s, "awesome") && !Contains(s, "happy") && !Contains(s, "excited")
  {
    MissingLetter(s, "awesome", "cefghjlnyz", 'e');
    MissingLetter(s, "happy", "cefghjlnyz", 'h');
    MissingLetter(s, "excited", "cefghjlnyz", 'e');
  }

  lemma NoPositiveByLetters3(s: string)
    requires forall i :: 0 <= i < |s| ==> s[i] !in "cefghjlnyz"
    ensures !Contains(s, "good day") && !Contains(s, "doing well") && !Contains(s, "fine")
  {
    MissingLetter(s, "good day", "cefghjlnyz", 'g');
    MissingLetter(s, "doing well", "cefghjlnyz", 'n');
    MissingLetter(s, "fine", "cefghjlnyz", 'f');
  }

  lemma NoPositiveByLetters4(s: string)
    requires forall i :: 0 <= i < |s| ==> s[i] !in "cefghjlnyz"
    ensures !Contains(s, "okay") && !Contains(s, "hi") && !Contains(s, "hello")
  {
    MissingLetter(s, "okay", "cefghjlnyz", 'y');
    MissingLetter(s, "hi", "cefghjlnyz", 'h');
    MissingLetter(s, "hello", "cefghjlnyz", 'h');
  }

  lemma NoPositiveByLetters5(s: string)
    requires forall i :: 0 <= i < |s| ==> s[i] !in "cefghjlnyz"
    ensures !Contains(s, "hey") && !Contains(s, "weather") && !Contains(s, "joke")
  {
    MissingLetter(s, "hey", "cefghjlnyz", 'h');
    MissingLetter(s, "weather", "cefghjlnyz", 'e');
    MissingLetter(s, "joke", "cefghjlnyz", 'j');
  }

  lemma NoPositiveByLetters6(s: string)
    requires forall i :: 0 <= i < |s| ==> s[i] !in "cefghjlnyz"
    ensures !Contains(s, "story") && !Contains(s, "chat") && !Contains(s, "talk about")
  {
    MissingLetter(s, "story", "cefghjlnyz", 'y');
    MissingLetter(s, "chat", "cefghjlnyz", 'c');
    MissingLetter(s, "talk about", "cefghjlnyz", 'l');
  }

  /** What the classifier asks of a message, stated on its lower-cased form. */
  lemma ProblemFromParts(message: string, lower: string, k: int)
    requires ToLower(message) == lower
    requires CountChar(lower, ' ') >= 4
    requires forall k :: 0 <= k < |PositiveIndicators| ==> !Contains(lower, PositiveIndicators[k])
    requires 0 <= k < |ProblemIndicators| && Contains(lower, ProblemIndicators[k])
    requires PatternFinds(lower)
    ensures IsProblemDescription(message)
  {
    CountSpaceToLower(message);
  }
}
