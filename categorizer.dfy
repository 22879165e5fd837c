/** The problem-categorization endpoint (supabase/functions/categorize-problem):
    it turns a user's free-text problem into at most a handful of suggested
    support groups ("bubbles"). The database query, the language-model call and
    `JSON.parse` are not modelled as code: their results are inputs (`fetched`,
    `gateway`) and a parser function (`parse`). */
module Categorizer {
  import opened Wrappers
  import opened Text

  // ---------------------------------------------------------------------
  // Data
  // ---------------------------------------------------------------------

  /** An active bubble as fetched from the database; `description` and
      `topic` may be null (`createBubble` makes both optional). */
  datatype Bubble = Bubble(id: string, name: string, description: Option<string>, topic: Option<string>)

  /** One suggested bubble of a categorization. */
  datatype Suggestion = Suggestion(id: string, name: string, reason: string)

  /** The categorization object: the model's parsed answer, possibly with its
      `suggestedBubbles` replaced. Absent fields are `None`. */
  datatype Categorization = Categorization(
    categories: Option<seq<string>>,
    suggestedBubbles: Option<seq<Suggestion>>,
    encouragement: Option<string>)

  /** The keyword index: lower-case keyword to the ids listed under it. */
  type Index = map<string, seq<string>>

  const FallbackReason: string := "This bubble might be helpful for you"
  const GenericCategory: string := "general"
  const GenericEncouragement: string := "We have several supportive communities that might help you."
  const MissingEnvMessage: string := "Missing required environment variables"
  const GatewayFailedMessage: string := "AI categorization failed"

  function Min(a: int, b: int): int { if a <= b then a else b }

  /** The ids of the fetched bubbles. */
  function BubbleIds(bubbles: seq<Bubble>): set<string> {
    set b | b in bubbles :: b.id
  }

  // ---------------------------------------------------------------------
  // Keyword index
  // ---------------------------------------------------------------------

  /** `xs.filter(Boolean)` on strings: drops the empty ones, keeps order. */
  function NonEmptyStrings(xs: seq<string>): (r: seq<string>)
    ensures forall x :: x in r <==> x in xs && x != ""
    ensures |r| <= |xs|
  {
    if xs == [] then [] else (if xs[0] == "" then [] else [xs[0]]) + NonEmptyStrings(xs[1..])
  }

  /** The pieces of a bubble's lower-cased description split on single
      spaces; a null description has none (the endpoint itself throws on it,
      see `IndexAsWritten`). */
  function DescriptionWords(b: Bubble): seq<string> {
    if b.description.Some? then Split(ToLower(b.description.value), ' ') else []
  }

  /** The keywords a bubble is indexed under, in order: its lower-cased topic
      (when present), its lower-cased name and every piece of its lower-cased
      description split on single spaces, the empty ones dropped. */
  function Keywords(b: Bubble): (r: seq<string>)
    ensures forall k :: k in r <==>
      k != "" &&
      ((b.topic.Some? && k == ToLower(b.topic.value)) ||
       k == ToLower(b.name) ||
       (b.description.Some? && k in Split(ToLower(b.description.value), ' ')))
  {
    NonEmptyStrings(
      (if b.topic.Some? then [ToLower(b.topic.value)] else []) +
      [ToLower(b.name)] +
      DescriptionWords(b))
  }

  /** The number of times `k` occurs in `xs`. */
  function Occurrences(xs: seq<string>, k: string): nat {
    if xs == [] then 0
    else Occurrences(xs[..|xs| - 1], k) + (if xs[|xs| - 1] == k then 1 else 0)
  }

  /** `n` copies of `x`. */
  function Repeat(x: string, n: nat): (r: seq<string>)
    ensures |r| == n
    ensures forall y :: y in r <==> n > 0 && y == x
  {
    if n == 0 then [] else Repeat(x, n - 1) + [x]
  }

  /** Reference definition of an index entry: for every bubble in fetch order,
      its id once per occurrence of `k` among its keywords. */
  function IdsUnder(bubbles: seq<Bubble>, k: string): seq<string> {
    if bubbles == [] then []
    else
      var last := bubbles[|bubbles| - 1];
      IdsUnder(bubbles[..|bubbles| - 1], k) + Repeat(last.id, Occurrences(Keywords(last), k))
  }

  /** Every keyword of every bubble. */
  function KeywordSet(bubbles: seq<Bubble>): set<string> {
    set b, k | b in bubbles && k in Keywords(b) :: k
  }

  /** The keyword index the endpoint builds (`topicMap`). */
  function TopicMap(bubbles: seq<Bubble>): Index {
    map k | k in KeywordSet(bubbles) :: IdsUnder(bubbles, k)
  }

  /** `m[k]`, or the empty list when `k` is not a key. */
  function Lookup(m: Index, k: string): seq<string> {
    if k in m then m[k] else []
  }

  /** Keys are present exactly when they list something. */
  ghost predicate NoEmptyEntries(m: Index) {
    forall k :: k in m ==> m[k] != []
  }

  lemma {:induction false} OccurrencesSnoc(xs: seq<string>, x: string, k: string)
    ensures Occurrences(xs + [x], k) == Occurrences(xs, k) + (if x == k then 1 else 0)
  {
    assert (xs + [x])[..|xs|] == xs;
  }

  lemma {:induction false} OccurrencesPositive(xs: seq<string>, k: string)
    ensures Occurrences(xs, k) > 0 <==> k in xs
  {
    if xs != [] {
      var init := xs[..|xs| - 1];
      assert xs == init + [xs[|xs| - 1]];
      OccurrencesPositive(init, k);
    }
  }

  lemma {:induction false} RepeatSnoc(x: string, n: nat)
    ensures Repeat(x, n + 1) == Repeat(x, n) + [x]
  {
  }

  lemma {:induction false} IdsUnderSnoc(bubbles: seq<Bubble>, b: Bubble, k: string)
    ensures IdsUnder(bubbles + [b], k) == IdsUnder(bubbles, k) + Repeat(b.id, Occurrences(Keywords(b), k))
  {
    assert (bubbles + [b])[..|bubbles|] == bubbles;
  }

  /** An id is listed under `k` exactly when some fetched bubble with that id
      has `k` among its keywords. */
  lemma {:induction false} IdsUnderMembers(bubbles: seq<Bubble>, k: string, id: string)
    ensures id in IdsUnder(bubbles, k) <==> exists b :: b in bubbles && b.id == id && k in Keywords(b)
  {
    if bubbles != [] {
      var init, last := bubbles[..|bubbles| - 1], bubbles[|bubbles| - 1];
      assert bubbles == init + [last];
      IdsUnderMembers(init, k, id);
      OccurrencesPositive(Keywords(last), k);
      forall b | b in bubbles ensures b in init || b == last { }
    }
  }

  lemma IdsUnderNonEmpty(bubbles: seq<Bubble>, k: string)
    ensures IdsUnder(bubbles, k) != [] <==> k in KeywordSet(bubbles)
  {
    var ids := IdsUnder(bubbles, k);
    if ids != [] {
      IdsUnderMembers(bubbles, k, ids[0]);
    }
    if k in KeywordSet(bubbles) {
      var b :| b in bubbles && k in Keywords(b);
      IdsUnderMembers(bubbles, k, b.id);
    }
  }

  /** A map without empty entries that lists the same ids as the reference
      definition under every word has its keys. */
  lemma AgreeingMapKeys(m: Index, bubbles: seq<Bubble>)
    requires NoEmptyEntries(m)
    requires forall k :: Lookup(m, k) == IdsUnder(bubbles, k)
    ensures m.Keys == KeywordSet(bubbles)
  {
    forall k ensures k in m <==> k in KeywordSet(bubbles) {
      IdsUnderNonEmpty(bubbles, k);
      assert Lookup(m, k) == IdsUnder(bubbles, k);
    }
  }

  /** A map that agrees entry by entry with the reference definition is the
      keyword index. */
  lemma IsTopicMap(m: Index, bubbles: seq<Bubble>)
    requires NoEmptyEntries(m)
    requires forall k :: Lookup(m, k) == IdsUnder(bubbles, k)
    ensures m == TopicMap(bubbles)
  {
    var t := TopicMap(bubbles);
    AgreeingMapKeys(m, bubbles);
    forall k ensures k in m <==> k in t {
      assert k in t <==> k in KeywordSet(bubbles);
    }
    forall k | k in m ensures m[k] == t[k] {
      assert Lookup(m, k) == IdsUnder(bubbles, k);
    }
  }

  /** Pushing `id` under `keyword` (creating the entry when missing) changes
      that entry only, by appending `id`. */
  lemma PushEntry(m: Index, keyword: string, id: string)
    ensures var m' := m[keyword := Lookup(m, keyword) + [id]];
      Lookup(m', keyword) == Lookup(m, keyword) + [id] &&
      (forall k :: k != keyword ==> Lookup(m', k) == Lookup(m, k)) &&
      (NoEmptyEntries(m) ==> NoEmptyEntries(m'))
  {
  }

  /** One step of the inner loop keeps its invariant: the entries are those
      of `base` followed by `id` once per keyword pushed so far. */
  lemma {:induction false} PushStep(m: Index, base: Index, id: string, done: seq<string>, keyword: string)
    requires forall k :: Lookup(m, k) == Lookup(base, k) + Repeat(id, Occurrences(done, k))
    ensures var m' := m[keyword := Lookup(m, keyword) + [id]];
      forall k :: Lookup(m', k) == Lookup(base, k) + Repeat(id, Occurrences(done + [keyword], k))
  {
    var m' := m[keyword := Lookup(m, keyword) + [id]];
    PushEntry(m, keyword, id);
    forall k ensures Lookup(m', k) == Lookup(base, k) + Repeat(id, Occurrences(done + [keyword], k)) {
      OccurrencesSnoc(done, keyword, k);
      assert Lookup(m, k) == Lookup(base, k) + Repeat(id, Occurrences(done, k));
      if k == keyword {
        RepeatSnoc(id, Occurrences(done, k));
      }
    }
  }

  /** `topicMap[keyword].push(id)` after creating the entry when missing. */
  method Push(topicMap: Index, keyword: string, id: string) returns (updated: Index)
    ensures updated == topicMap[keyword := Lookup(topicMap, keyword) + [id]]
  {
    updated := topicMap;
    if keyword !in updated {
      updated := updated[keyword := []];
    }
    updated := updated[keyword := updated[keyword] + [id]];
  }

  /** The inner loop of the index construction: pushes the bubble's id under
      each of its keywords, in order, creating missing entries. */
  method IndexBubble(topicMap: Index, b: Bubble) returns (updated: Index)
    requires NoEmptyEntries(topicMap)
    ensures NoEmptyEntries(updated)
    ensures forall k :: Lookup(updated, k) == Lookup(topicMap, k) + Repeat(b.id, Occurrences(Keywords(b), k))
  {
    updated := PushAll(topicMap, Keywords(b), b.id);
  }

  /** Pushes `id` under each of `keywords`, in order. */
  method PushAll(topicMap: Index, keywords: seq<string>, id: string) returns (updated: Index)
    requires NoEmptyEntries(topicMap)
    ensures NoEmptyEntries(updated)
    ensures forall k :: Lookup(updated, k) == Lookup(topicMap, k) + Repeat(id, Occurrences(keywords, k))
  {
    updated := topicMap;
    for j := 0 to |keywords|
      invariant NoEmptyEntries(updated)
      invariant forall k :: Lookup(updated, k) == Lookup(topicMap, k) + Repeat(id, Occurrences(keywords[..j], k))
    {
      assert keywords[..j + 1] == keywords[..j] + [keywords[j]];
      PushStep(updated, topicMap, id, keywords[..j], keywords[j]);
      PushEntry(updated, keywords[j], id);
      updated := Push(updated, keywords[j], id);
    }
    assert keywords[..|keywords|] == keywords;
  }

  /** Builds the keyword index with the endpoint's nested loops: for every
      bubble, for every keyword, create the entry if missing and push the id. */
  method BuildTopicMap(bubbles: seq<Bubble>) returns (topicMap: Index)
    ensures topicMap == TopicMap(bubbles)
  {
    topicMap := map[];
    for i := 0 to |bubbles|
      invariant NoEmptyEntries(topicMap)
      invariant forall k :: Lookup(topicMap, k) == IdsUnder(bubbles[..i], k)
    {
      ghost var previous := topicMap;
      topicMap := IndexBubble(topicMap, bubbles[i]);
      assert bubbles[..i + 1] == bubbles[..i] + [bubbles[i]];
      forall k ensures Lookup(topicMap, k) == IdsUnder(bubbles[..i + 1], k) {
        IdsUnderSnoc(bubbles[..i], bubbles[i], k);
        assert Lookup(previous, k) == IdsUnder(bubbles[..i], k);
      }
    }
    assert bubbles[..|bubbles|] == bubbles;
    IsTopicMap(topicMap, bubbles);
  }

  /** Index coverage: every fetched bubble's id is listed under each of its
      keywords, and every listed id belongs to a fetched bubble having that
      keyword. */
  lemma TopicMapEntries(bubbles: seq<Bubble>, k: string, id: string)
    ensures (k in TopicMap(bubbles) && id in TopicMap(bubbles)[k]) <==>
            exists b :: b in bubbles && b.id == id && k in Keywords(b)
  {
    IdsUnderMembers(bubbles, k, id);
    IdsUnderNonEmpty(bubbles, k);
  }

  /** Each keyword of a bubble lists that bubble. */
  lemma TopicMapListsBubble(bubbles: seq<Bubble>, b: Bubble, k: string)
    requires b in bubbles && k in Keywords(b)
    ensures k in TopicMap(bubbles) && b.id in TopicMap(bubbles)[k]
  {
    TopicMapEntries(bubbles, k, b.id);
  }

  /** The empty string is never a key, and the keys are exactly the keywords. */
  lemma TopicMapKeys(bubbles: seq<Bubble>)
    ensures "" !in TopicMap(bubbles)
    ensures TopicMap(bubbles).Keys == KeywordSet(bubbles)
  {
  }

  /** Ids are pushed without de-duplication: a bubble is listed under a keyword
      once per occurrence of that keyword among its keywords. */
  lemma {:induction false} TopicMapOneBubble(b: Bubble, k: string)
    requires k in Keywords(b)
    ensures TopicMap([b])[k] == Repeat(b.id, Occurrences(Keywords(b), k))
  {
    assert [b][..0] == [];
    assert b in [b];
    assert k in KeywordSet([b]);
    assert IdsUnder([b], k) == IdsUnder([], k) + Repeat(b.id, Occurrences(Keywords(b), k));
  }

  // ---------------------------------------------------------------------
  // Reply source
  // ---------------------------------------------------------------------

  /** One tool call of the model's message, with its raw `arguments` text. */
  datatype ToolCall = ToolCall(arguments: string)

  /** `choices[i].message`: its tool calls and its text content ("" when
      absent or null). */
  datatype ModelMessage = ModelMessage(toolCalls: seq<ToolCall>, content: string)

  /** The gateway's decoded JSON answer. */
  datatype Completion = Completion(choices: seq<ModelMessage>)

  /** Which text of the message is parsed as the categorization. */
  datatype Reply = ToolArguments(text: string) | MessageContent(text: string) | NoReply

  /** The first tool call's arguments when there are tool calls, otherwise the
      message content when it is non-empty, otherwise nothing. */
  function ReplySource(m: ModelMessage): (r: Reply)
    ensures r.ToolArguments? <==> |m.toolCalls| > 0
    ensures r.ToolArguments? ==> r.text == m.toolCalls[0].arguments
    ensures r.MessageContent? <==> |m.toolCalls| == 0 && m.content != ""
    ensures r.MessageContent? ==> r.text == m.content
  {
    if |m.toolCalls| > 0 then ToolArguments(m.toolCalls[0].arguments)
    else if m.content != "" then MessageContent(m.content)
    else NoReply
  }

  /** Only the first tool call matters, and the content is ignored whenever
      there is a tool call. */
  lemma ReplySourceIgnoresRest(m: ModelMessage, rest: seq<ToolCall>, content: string)
    requires |m.toolCalls| > 0
    ensures ReplySource(ModelMessage([m.toolCalls[0]] + rest, content)) == ReplySource(m)
  {
  }

  // ---------------------------------------------------------------------
  // Validation and the fallback cascade
  // ---------------------------------------------------------------------

  /** `suggestions.filter(s => ids.has(s.id))`. */
  function KeepValid(ids: set<string>, suggestions: seq<Suggestion>): (r: seq<Suggestion>)
    ensures forall s :: s in r <==> s in suggestions && s.id in ids
    ensures |r| <= |suggestions|
  {
    if suggestions == [] then []
    else (if suggestions[0].id in ids then [suggestions[0]] else []) + KeepValid(ids, suggestions[1..])
  }

  /** Filtering works piece by piece, so order is kept and nothing is added. */
  lemma {:induction false} KeepValidAppend(ids: set<string>, xs: seq<Suggestion>, ys: seq<Suggestion>)
    ensures KeepValid(ids, xs + ys) == KeepValid(ids, xs) + KeepValid(ids, ys)
  {
    if xs == [] {
      assert xs + ys == ys;
    } else {
      assert (xs + ys)[0] == xs[0];
      assert (xs + ys)[1..] == xs[1..] + ys;
      KeepValidAppend(ids, xs[1..], ys);
    }
  }

  /** A list whose ids are all valid is kept whole. */
  lemma {:induction false} KeepValidAll(ids: set<string>, xs: seq<Suggestion>)
    requires forall s :: s in xs ==> s.id in ids
    ensures KeepValid(ids, xs) == xs
  {
    if xs != [] {
      KeepValidAll(ids, xs[1..]);
    }
  }

  /** The fallback suggestion for a fetched bubble. */
  function Suggest(b: Bubble): Suggestion {
    Suggestion(b.id, b.name, FallbackReason)
  }

  /** `bubbles.find(b => b.id === id)`: the first fetched bubble with that id. */
  function FindById(bubbles: seq<Bubble>, id: string): (r: Option<Bubble>)
    ensures r.None? <==> id !in BubbleIds(bubbles)
    ensures r.Some? ==> exists j :: 0 <= j < |bubbles| && bubbles[j] == r.value && r.value.id == id &&
                                    forall i :: 0 <= i < j ==> bubbles[i].id != id
  {
    if bubbles == [] then None
    else if bubbles[0].id == id then
      assert bubbles[0] in bubbles;
      Some(bubbles[0])
    else
      var r := FindById(bubbles[1..], id);
      assert BubbleIds(bubbles) == {bubbles[0].id} + BubbleIds(bubbles[1..]) by {
        assert forall b :: b in bubbles <==> b == bubbles[0] || b in bubbles[1..];
      }
      if r.Some? then
        var j :| 0 <= j < |bubbles[1..]| && bubbles[1..][j] == r.value && r.value.id == id &&
                 forall i :: 0 <= i < j ==> bubbles[1..][i].id != id;
        assert bubbles[j + 1] == r.value;
        r
      else r
  }

  /** `ids.map(id => find(id) as a suggestion or null).filter(Boolean)`. */
  function SuggestIds(bubbles: seq<Bubble>, ids: seq<string>): (r: seq<Suggestion>)
    ensures |r| <= |ids|
    ensures forall s :: s in r ==> s.reason == FallbackReason && s.id in ids &&
                                   FindById(bubbles, s.id).Some? && FindById(bubbles, s.id).value.name == s.name
  {
    if ids == [] then []
    else
      var head := FindById(bubbles, ids[0]);
      (if head.Some? then [Suggest(head.value)] else []) + SuggestIds(bubbles, ids[1..])
  }

  /** When every id is a fetched id, no entry is dropped and the ids are kept
      in order. */
  lemma {:induction false} SuggestIdsAllFound(bubbles: seq<Bubble>, ids: seq<string>)
    requires forall id :: id in ids ==> id in BubbleIds(bubbles)
    ensures |SuggestIds(bubbles, ids)| == |ids|
    ensures forall i :: 0 <= i < |ids| ==> SuggestIds(bubbles, ids)[i].id == ids[i]
  {
    if ids != [] {
      assert forall id :: id in ids[1..] ==> id in ids;
      SuggestIdsAllFound(bubbles, ids[1..]);
      var rest := SuggestIds(bubbles, ids[1..]);
      assert ids[0] in ids;
      var head := FindById(bubbles, ids[0]);
      assert SuggestIds(bubbles, ids) == [Suggest(head.value)] + rest;
      forall i | 0 <= i < |ids| ensures SuggestIds(bubbles, ids)[i].id == ids[i] {
        if i > 0 {
          assert SuggestIds(bubbles, ids)[i] == rest[i - 1] && ids[1..][i - 1] == ids[i];
        }
      }
    }
  }

  /** Adds each id of `ids` to the insertion-ordered set `acc` (`Set.add`). */
  function AddAll(acc: seq<string>, ids: seq<string>): seq<string> {
    if ids == [] then acc
    else
      var a := AddAll(acc, ids[..|ids| - 1]);
      if ids[|ids| - 1] in a then a else a + [ids[|ids| - 1]]
  }

  /** No id appears twice. */
  ghost predicate Distinct(xs: seq<string>) {
    forall i, j :: 0 <= i < j < |xs| ==> xs[i] != xs[j]
  }

  lemma {:induction false} AddAllFacts(acc: seq<string>, ids: seq<string>)
    requires Distinct(acc)
    ensures Distinct(AddAll(acc, ids))
    ensures forall x :: x in AddAll(acc, ids) <==> x in acc || x in ids
  {
    if ids != [] {
      var init := ids[..|ids| - 1];
      AddAllFacts(acc, init);
      assert ids == init + [ids[|ids| - 1]];
    }
  }

  /** Reference definition of the ids the keyword fallback collects: for each
      problem word in order that is a key of the index, every id listed under
      it, each id kept at its first appearance only. */
  function MatchedIds(words: seq<string>, topicMap: Index): seq<string> {
    if words == [] then []
    else
      var a := MatchedIds(words[..|words| - 1], topicMap);
      var w := words[|words| - 1];
      if w in topicMap then AddAll(a, topicMap[w]) else a
  }

  /** The matched ids are distinct, and an id is matched exactly when it is
      listed under some problem word. */
  lemma {:induction false} MatchedIdsFacts(words: seq<string>, topicMap: Index)
    ensures Distinct(MatchedIds(words, topicMap))
    ensures forall id :: id in MatchedIds(words, topicMap) <==>
              exists w :: w in words && w in topicMap && id in topicMap[w]
  {
    if words != [] {
      var init, w := words[..|words| - 1], words[|words| - 1];
      MatchedIdsFacts(init, topicMap);
      assert words == init + [w];
      if w in topicMap {
        AddAllFacts(MatchedIds(init, topicMap), topicMap[w]);
      }
    }
  }

  /** Adding ids to the set never moves or removes the ids already there. */
  lemma {:induction false} AddAllExtends(acc: seq<string>, ids: seq<string>)
    ensures acc <= AddAll(acc, ids)
  {
    if ids != [] {
      AddAllExtends(acc, ids[..|ids| - 1]);
    }
  }

  /** Matching is incremental: the ids matched by the first `n` problem words
      are a prefix of the ids matched by all of them. */
  lemma {:induction false} MatchedIdsPrefix(words: seq<string>, topicMap: Index, n: nat)
    requires n <= |words|
    ensures MatchedIds(words[..n], topicMap) <= MatchedIds(words, topicMap)
  {
    if n < |words| {
      var init := words[..|words| - 1];
      assert init[..n] == words[..n];
      MatchedIdsPrefix(init, topicMap, n);
      if words[|words| - 1] in topicMap {
        AddAllExtends(MatchedIds(init, topicMap), topicMap[words[|words| - 1]]);
      }
    } else {
      assert words[..n] == words;
    }
  }

  /** First-match order: an id listed under one of the first `n` problem words
      comes before every id that none of those words lists. */
  lemma MatchedIdsOrder(words: seq<string>, topicMap: Index, n: nat)
    requires n <= |words|
    ensures var matched := MatchedIds(words, topicMap);
      forall i, j ::
        (0 <= i < |matched| && 0 <= j < |matched| &&
         (exists w :: w in words[..n] && w in topicMap && matched[i] in topicMap[w]) &&
         !(exists w :: w in words[..n] && w in topicMap && matched[j] in topicMap[w]))
        ==> i < j
  {
    var matched, early := MatchedIds(words, topicMap), MatchedIds(words[..n], topicMap);
    MatchedIdsPrefix(words, topicMap, n);
    MatchedIdsFacts(words, topicMap);
    MatchedIdsFacts(words[..n], topicMap);
    forall i, j | 0 <= i < |matched| && 0 <= j < |matched| && matched[i] in early && matched[j] !in early
      ensures i < j
    {
      var k :| 0 <= k < |early| && early[k] == matched[i];
      assert matched[k] == matched[i];
    }
  }

  /** Collects the matched ids with the endpoint's loops: for every problem
      word with an index entry, add each of its ids to the set. */
  method MatchKeywords(problemWords: seq<string>, topicMap: Index) returns (matched: seq<string>)
    ensures matched == MatchedIds(problemWords, topicMap)
  {
    matched := [];
    for i := 0 to |problemWords|
      invariant matched == MatchedIds(problemWords[..i], topicMap)
    {
      var word := problemWords[i];
      assert problemWords[..i + 1][..i] == problemWords[..i];
      if word in topicMap {
        var ids := topicMap[word];
        ghost var start := matched;
        for j := 0 to |ids|
          invariant matched == AddAll(start, ids[..j])
        {
          assert ids[..j + 1][..j] == ids[..j];
          if ids[j] !in matched {
            matched := matched + [ids[j]];
          }
        }
        assert ids[..|ids|] == ids;
      }
    }
    assert problemWords[..|problemWords|] == problemWords;
  }

  /** The problem's words: `problem.toLowerCase().split(/\s+/)`, that is the
      lower-cased problem cut at each run of whitespace. */
  function ProblemWords(problem: string): (r: seq<string>)
    ensures |r| >= 1
    ensures WsSplitting(ToLower(problem), r, WsGaps(ToLower(problem)))
  {
    SplitWsSplitting(ToLower(problem));
    SplitWs(ToLower(problem))
  }

  /** At most the first three of a list. */
  function FirstThree(xs: seq<string>): (r: seq<string>)
    ensures |r| == Min(3, |xs|) && r == xs[..|r|]
  {
    xs[..Min(3, |xs|)]
  }

  /** Suggestions for distinct fetched ids: one per id, in order, each named
      after a fetched bubble with that id. */
  lemma SuggestIdsFacts(bubbles: seq<Bubble>, ids: seq<string>)
    requires forall id :: id in ids ==> id in BubbleIds(bubbles)
    requires Distinct(ids)
    ensures |SuggestIds(bubbles, ids)| == |ids|
    ensures forall i :: 0 <= i < |ids| ==> SuggestIds(bubbles, ids)[i].id == ids[i]
    ensures forall s :: s in SuggestIds(bubbles, ids) ==> exists b :: b in bubbles && b.id == s.id && b.name == s.name
  {
    SuggestIdsAllFound(bubbles, ids);
    forall s | s in SuggestIds(bubbles, ids) ensures exists b :: b in bubbles && b.id == s.id && b.name == s.name {
      var b := FindById(bubbles, s.id).value;
      var j :| 0 <= j < |bubbles| && bubbles[j] == b && b.id == s.id;
      assert b in bubbles;
    }
  }

  /** The fallback's suggestions are well-formed: as many as the first three
      matched ids, one per id and in that order, each the first fetched bubble
      with that id. */
  lemma KeywordFallbackFacts(bubbles: seq<Bubble>, words: seq<string>, topicMap: Index)
    requires ListsFetched(topicMap, bubbles)
    ensures var matched := MatchedIds(words, topicMap);
      var r := SuggestIds(bubbles, FirstThree(matched));
      |r| == Min(3, |matched|) &&
      (forall i :: 0 <= i < |r| ==> r[i].id == matched[i]) &&
      (forall i, j :: 0 <= i < j < |r| ==> r[i].id != r[j].id) &&
      (forall s :: s in r ==>
        s.reason == FallbackReason &&
        (exists w :: w in words && w in topicMap && s.id in topicMap[w]) &&
        (exists b :: b in bubbles && b.id == s.id && b.name == s.name))
  {
    var firstThree := FirstThree(MatchedIds(words, topicMap));
    FirstThreeMatched(bubbles, words, topicMap);
    SuggestIdsFacts(bubbles, firstThree);
    var r := SuggestIds(bubbles, firstThree);
    forall s | s in r ensures exists w :: w in words && w in topicMap && s.id in topicMap[w] {
      var i :| 0 <= i < |r| && r[i] == s;
      assert s.id == firstThree[i];
    }
  }

  /** Every id an index lists is a fetched id. */
  ghost predicate ListsFetched(topicMap: Index, bubbles: seq<Bubble>) {
    forall w :: w in topicMap ==> forall id :: id in topicMap[w] ==> id in BubbleIds(bubbles)
  }

  lemma TopicMapListsFetched(bubbles: seq<Bubble>)
    ensures ListsFetched(TopicMap(bubbles), bubbles)
  {
    forall w, id | w in TopicMap(bubbles) && id in TopicMap(bubbles)[w]
      ensures id in BubbleIds(bubbles)
    {
      TopicMapEntries(bubbles, w, id);
    }
  }

  /** The first three matched ids are distinct fetched ids, each indexed
      under one of the words. */
  lemma FirstThreeMatched(bubbles: seq<Bubble>, words: seq<string>, topicMap: Index)
    requires ListsFetched(topicMap, bubbles)
    ensures var firstThree := FirstThree(MatchedIds(words, topicMap));
      Distinct(firstThree) &&
      forall id :: id in firstThree ==>
        id in BubbleIds(bubbles) && exists w :: w in words && w in topicMap && id in topicMap[w]
  {
    var matched := MatchedIds(words, topicMap);
    var firstThree := FirstThree(matched);
    MatchedIdsFacts(words, topicMap);
    forall id | id in firstThree
      ensures id in BubbleIds(bubbles) && exists w :: w in words && w in topicMap && id in topicMap[w]
    {
      var i :| 0 <= i < |firstThree| && firstThree[i] == id;
      assert matched[i] == id && id in matched;
      var w :| w in words && w in topicMap && id in topicMap[w];
    }
  }

  /** The keyword fallback: the first three matched ids, in first-match order
      (see `MatchedIdsOrder`), each as a suggestion carrying its bubble's name
      and the fixed reason. */
  function KeywordFallback(bubbles: seq<Bubble>, problem: string): (r: seq<Suggestion>)
    ensures |r| <= 3
    ensures forall i, j :: 0 <= i < j < |r| ==> r[i].id != r[j].id
    ensures forall s :: s in r ==>
      s.reason == FallbackReason &&
      (exists w :: w in ProblemWords(problem) && w in TopicMap(bubbles) && s.id in TopicMap(bubbles)[w]) &&
      (exists b :: b in bubbles && b.id == s.id && b.name == s.name)
    ensures |r| == Min(3, |MatchedIds(ProblemWords(problem), TopicMap(bubbles))|)
    ensures forall i :: 0 <= i < |r| ==> r[i].id == MatchedIds(ProblemWords(problem), TopicMap(bubbles))[i]
  {
    TopicMapListsFetched(bubbles);
    KeywordFallbackFacts(bubbles, ProblemWords(problem), TopicMap(bubbles));
    SuggestIds(bubbles, FirstThree(MatchedIds(ProblemWords(problem), TopicMap(bubbles))))
  }

  /** The default fallback: the first three fetched bubbles, in fetch order,
      with the fixed reason. */
  function DefaultSuggestions(bubbles: seq<Bubble>): (r: seq<Suggestion>)
    ensures |r| == Min(3, |bubbles|)
    ensures forall i :: 0 <= i < |r| ==> r[i] == Suggest(bubbles[i])
  {
    seq(Min(3, |bubbles|), i requires 0 <= i < Min(3, |bubbles|) => Suggest(bubbles[i]))
  }

  /** The fully generic answer used when the model's reply cannot be used:
      the single general category, the fixed encouragement, and the first
      three fetched bubbles, in fetch order, as suggestions. */
  function Generic(bubbles: seq<Bubble>): (r: Categorization)
    ensures r.categories == Some([GenericCategory]) && r.encouragement == Some(GenericEncouragement)
    ensures r.suggestedBubbles.Some? && |r.suggestedBubbles.value| == Min(3, |bubbles|)
    ensures forall i :: 0 <= i < |r.suggestedBubbles.value| ==>
      r.suggestedBubbles.value[i].id == bubbles[i].id && r.suggestedBubbles.value[i].name == bubbles[i].name
    ensures forall s :: s in r.suggestedBubbles.value ==>
      s.reason == FallbackReason && exists b :: b in bubbles && b.id == s.id && b.name == s.name
  {
    Categorization(Some([GenericCategory]), Some(DefaultSuggestions(bubbles)), Some(GenericEncouragement))
  }


  // ---------------------------------------------------------------------
  // The keyword index as a plain JavaScript object
  // ---------------------------------------------------------------------

  /** Keys a plain JavaScript object inherits from `Object.prototype` that a
      lower-cased word can be equal to. Reading such a key from the index gives
      an inherited member, not an array. Every other inherited member's name
      holds an upper-case letter, and Deno deletes the `__proto__` accessor,
      so "constructor" is the only one. */
  const InheritedKeys: set<string> := {"constructor"}

  const PushNotAFunction: string := "topicMap[keyword].push is not a function"
  const ForEachNotAFunction: string := "topicMap[word].forEach is not a function"
  const NullDescriptionMessage: string := "Cannot read properties of null (reading 'toLowerCase')"

  /** One push into the index object as the endpoint writes it: an inherited
      key is truthy, so no array is created, and pushing into it throws. */
  function PushAsWritten(index: Outcome<Index>, keyword: string, id: string): (r: Outcome<Index>)
    ensures index.Threw? ==> r == index
    ensures r.Threw? ==> r == index || r == Threw(PushNotAFunction)
    ensures index.Ok? && NoInheritedKeys(index.value) && r.Ok? ==> NoInheritedKeys(r.value)
  {
    match index
    case Threw(_) => index
    case Ok(m) =>
      if keyword in m then Ok(m[keyword := m[keyword] + [id]])
      else if keyword in InheritedKeys then Threw(PushNotAFunction)
      else Ok(m[keyword := [id]])
  }

  function PushAllAsWritten(index: Outcome<Index>, keywords: seq<string>, id: string): (r: Outcome<Index>)
    ensures index.Threw? ==> r == index
    ensures r.Threw? ==> r == index || r == Threw(PushNotAFunction)
    ensures index.Ok? && NoInheritedKeys(index.value) && r.Ok? ==> NoInheritedKeys(r.value)
  {
    if keywords == [] then index
    else PushAsWritten(PushAllAsWritten(index, keywords[..|keywords| - 1], id), keywords[|keywords| - 1], id)
  }

  /** One bubble indexed as written: its keyword list is built before any
      push, so a null description throws first. */
  function IndexBubbleAsWritten(index: Outcome<Index>, b: Bubble): (r: Outcome<Index>)
    ensures index.Threw? ==> r == index
    ensures r.Threw? ==> r == index || r == Threw(NullDescriptionMessage) || r == Threw(PushNotAFunction)
    ensures r.Ok? ==> b.description.Some?
    ensures index.Ok? && NoInheritedKeys(index.value) && r.Ok? ==> NoInheritedKeys(r.value)
  {
    if index.Threw? then index
    else if b.description.None? then Threw(NullDescriptionMessage)
    else PushAllAsWritten(index, Keywords(b), b.id)
  }

  /** The index construction as written, over a plain object. A failed
      build reports either the push error or the null-description error; a
      built index has no inherited key as an own key, and every fetched
      bubble it was built from had a description. */
  function IndexAsWritten(bubbles: seq<Bubble>): (r: Outcome<Index>)
    ensures r.Threw? ==> r == Threw(PushNotAFunction) || r == Threw(NullDescriptionMessage)
    ensures r.Ok? ==> NoInheritedKeys(r.value)
    ensures r.Ok? ==> forall b :: b in bubbles ==> b.description.Some?
  {
    if bubbles == [] then Ok(map[])
    else
      var init, last := bubbles[..|bubbles| - 1], bubbles[|bubbles| - 1];
      assert bubbles == init + [last];
      IndexBubbleAsWritten(IndexAsWritten(init), last)
  }

  /** A bubble the index construction as written cannot get past. */
  ghost predicate BreaksIndex(b: Bubble) {
    b.description.None? || exists k :: k in Keywords(b) && k in InheritedKeys
  }

  ghost predicate NoInheritedKeys(m: Index) {
    forall k :: k in InheritedKeys ==> k !in m
  }

  /** Without inherited keywords, the pushes as written append exactly as the
      dictionary does; an inherited keyword never becomes an own key. */
  lemma {:induction false} PushAllAsWrittenOk(m: Index, keywords: seq<string>, id: string)
    requires NoEmptyEntries(m) && NoInheritedKeys(m)
    ensures PushAllAsWritten(Ok(m), keywords, id).Ok? ==> NoInheritedKeys(PushAllAsWritten(Ok(m), keywords, id).value)
    ensures (forall k :: k in keywords ==> k !in InheritedKeys) ==>
      var r := PushAllAsWritten(Ok(m), keywords, id);
      r.Ok? && NoEmptyEntries(r.value) &&
      forall k :: Lookup(r.value, k) == Lookup(m, k) + Repeat(id, Occurrences(keywords, k))
    ensures (exists k :: k in keywords && k in InheritedKeys) ==> PushAllAsWritten(Ok(m), keywords, id) == Threw(PushNotAFunction)
  {
    if keywords != [] {
      var init, last := keywords[..|keywords| - 1], keywords[|keywords| - 1];
      assert keywords == init + [last];
      PushAllAsWrittenOk(m, init, id);
      var before := PushAllAsWritten(Ok(m), init, id);
      if before.Ok? {
        PushEntry(before.value, last, id);
        if forall k :: k in keywords ==> k !in InheritedKeys {
          assert last in keywords;
          var v := before.value;
          if last !in v {
            assert Lookup(v, last) + [id] == [id];
          }
          assert PushAllAsWritten(Ok(m), keywords, id) == Ok(before.value[last := Lookup(before.value, last) + [id]]);
          forall k ensures Lookup(PushAllAsWritten(Ok(m), keywords, id).value, k) == Lookup(m, k) + Repeat(id, Occurrences(keywords, k)) {
            OccurrencesSnoc(init, last, k);
            RepeatSnoc(id, Occurrences(init, k));
          }
        }
      }
    }
  }

  /** Pushing into a failed index keeps the failure. */
  lemma {:induction false} PushAllAsWrittenThrown(message: string, keywords: seq<string>, id: string)
    ensures PushAllAsWritten(Threw(message), keywords, id) == Threw(message)
  {
    if keywords != [] {
      PushAllAsWrittenThrown(message, keywords[..|keywords| - 1], id);
    }
  }

  /** The index as written fails exactly when some bubble has a null
      description or an inherited keyword; with only one of the two causes
      present the message is that cause's; otherwise the index lists the
      reference entries. */
  lemma {:induction false} IndexAsWrittenFacts(bubbles: seq<Bubble>)
    ensures IndexAsWritten(bubbles).Ok? ==> NoEmptyEntries(IndexAsWritten(bubbles).value) && NoInheritedKeys(IndexAsWritten(bubbles).value)
    ensures IndexAsWritten(bubbles).Threw? <==> exists b :: b in bubbles && BreaksIndex(b)
    ensures (forall b :: b in bubbles ==> b.description.Some?) && IndexAsWritten(bubbles).Threw? ==>
              IndexAsWritten(bubbles) == Threw(PushNotAFunction)
    ensures (forall b, k :: b in bubbles && k in Keywords(b) ==> k !in InheritedKeys) && IndexAsWritten(bubbles).Threw? ==>
              IndexAsWritten(bubbles) == Threw(NullDescriptionMessage)
    ensures IndexAsWritten(bubbles).Ok? ==> forall k :: Lookup(IndexAsWritten(bubbles).value, k) == IdsUnder(bubbles, k)
  {
    if bubbles != [] {
      var init, last := bubbles[..|bubbles| - 1], bubbles[|bubbles| - 1];
      assert bubbles == init + [last];
      assert forall b :: b in bubbles <==> b in init || b == last;
      IndexAsWrittenFacts(init);
      var before := IndexAsWritten(init);
      if before.Ok? && last.description.Some? {
        PushAllAsWrittenOk(before.value, Keywords(last), last.id);
        if !BreaksIndex(last) {
          forall k ensures Lookup(IndexAsWritten(bubbles).value, k) == IdsUnder(bubbles, k) {
            IdsUnderSnoc(init, last, k);
          }
        }
      } else if before.Threw? {
        PushAllAsWrittenThrown(before.message, Keywords(last), last.id);
      }
    }
  }

  /** The index as written, when it is built, is the keyword index, and no
      fetched bubble breaks it. */
  lemma IndexAsWrittenOk(bubbles: seq<Bubble>, m: Index)
    requires IndexAsWritten(bubbles) == Ok(m)
    ensures m == TopicMap(bubbles) && NoInheritedKeys(m)
    ensures forall b :: b in bubbles ==> !BreaksIndex(b)
  {
    IndexAsWrittenFacts(bubbles);
    IsTopicMap(m, bubbles);
  }

  /** One bubble with a null description or an inherited keyword makes the
      index as written throw. */
  lemma IndexAsWrittenThrows(bubbles: seq<Bubble>, b: Bubble)
    requires b in bubbles && BreaksIndex(b)
    ensures IndexAsWritten(bubbles).Threw?
  {
    IndexAsWrittenFacts(bubbles);
  }

  /** Agreement of the two index constructions where no bubble breaks the
      one as written. */
  lemma IndexAsWrittenAgrees(bubbles: seq<Bubble>)
    requires forall b :: b in bubbles ==> !BreaksIndex(b)
    ensures IndexAsWritten(bubbles) == Ok(TopicMap(bubbles))
  {
    IndexAsWrittenFacts(bubbles);
    IsTopicMap(IndexAsWritten(bubbles).value, bubbles);
  }

  /** A single bubble with a description and an inherited keyword: the index
      as written fails on the push, while the dictionary lists the bubble
      under that keyword. */
  lemma InheritedKeywordBreaksIndex(b: Bubble, k: string)
    requires b.description.Some? && k in Keywords(b) && k in InheritedKeys
    ensures IndexAsWritten([b]) == Threw(PushNotAFunction)
    ensures k in TopicMap([b]) && b.id in TopicMap([b])[k]
  {
    var bubbles := [b];
    assert b in bubbles && BreaksIndex(b);
    assert forall c :: c in bubbles ==> c.description.Some?;
    IndexAsWrittenFacts(bubbles);
    TopicMapListsBubble(bubbles, b, k);
  }

  /** The bubble of the example: its description is the word "constructor". */
  function ConstructorBubble(): Bubble {
    Bubble("b1", "builders", Some("constructor"), None)
  }

  lemma ConstructorBubbleKeyword()
    ensures "constructor" in Keywords(ConstructorBubble())
  {
    PlainWord("constructor");
    assert DescriptionWords(ConstructorBubble()) == ["constructor"];
  }

  /** A bubble described as "constructor": the index as written throws, while
      the dictionary lists the bubble under that keyword. */
  lemma ConstructorKeywordBreaksIndex()
    ensures IndexAsWritten([ConstructorBubble()]) == Threw(PushNotAFunction)
    ensures "constructor" in TopicMap([ConstructorBubble()]) && "b1" in TopicMap([ConstructorBubble()])["constructor"]
  {
    ConstructorBubbleKeyword();
    InheritedKeywordBreaksIndex(ConstructorBubble(), "constructor");
  }

  /** The keyword lookup of the fallback as written: a word equal to an
      inherited key is truthy, and calling `forEach` on it throws. The lookup
      throws exactly when a problem word is an inherited key missing from the
      index, and otherwise collects the matched ids. */
  function MatchedIdsAsWritten(words: seq<string>, topicMap: Index): (r: Outcome<seq<string>>)
    ensures r.Threw? <==> exists w :: w in words && w in InheritedKeys && w !in topicMap
    ensures r.Threw? ==> r == Threw(ForEachNotAFunction)
    ensures r.Ok? ==> r.value == MatchedIds(words, topicMap)
  {
    if words == [] then Ok([])
    else
      var init, w := words[..|words| - 1], words[|words| - 1];
      assert words == init + [w];
      match MatchedIdsAsWritten(init, topicMap)
      case Threw(e) => Threw(e)
      case Ok(a) =>
        if w in topicMap then Ok(AddAll(a, topicMap[w]))
        else if w in InheritedKeys then Threw(ForEachNotAFunction)
        else Ok(a)
  }

  /** A problem mentioning "constructor": the lookup as written throws (the
      handler then answers with the generic result) where the dictionary
      lookup finds the bubble indexed under "job". */
  lemma ConstructorWordBreaksFallback()
    ensures MatchedIdsAsWritten(["constructor", "job"], map["job" := ["b1"]]) == Threw(ForEachNotAFunction)
    ensures MatchedIds(["constructor", "job"], map["job" := ["b1"]]) == ["b1"]
  {
    assert ["constructor", "job"][..1] == ["constructor"];
    assert ["constructor"][..0] == [];
  }

  /** The keyword fallback as the endpoint runs it, over the index it built:
      it throws exactly when a problem word is an inherited key, and otherwise
      is the keyword fallback. */
  function KeywordFallbackAsWritten(bubbles: seq<Bubble>, topicMap: Index, problem: string): (r: Outcome<seq<Suggestion>>)
    requires IndexAsWritten(bubbles) == Ok(topicMap)
    ensures r.Threw? <==> exists w :: w in ProblemWords(problem) && w in InheritedKeys
    ensures r.Ok? ==> r.value == KeywordFallback(bubbles, problem)
  {
    IndexAsWrittenOk(bubbles, topicMap);
    match MatchedIdsAsWritten(ProblemWords(problem), topicMap)
    case Threw(e) => Threw(e)
    case Ok(matched) => Ok(SuggestIds(bubbles, FirstThree(matched)))
  }

  // ---------------------------------------------------------------------
  // Validation and interpretation of the reply
  // ---------------------------------------------------------------------

  /** Validation of the parsed answer against the fetched bubbles, followed by
      the fallback cascade over the index `topicMap` built from them. `None`
      stands for an exception: a problem that is not a string cannot be
      lower-cased, and a problem word that is an inherited key breaks the
      lookup. */
  function Validate(result: Categorization, bubbles: seq<Bubble>, topicMap: Index, problem: Option<string>): (r: Option<Categorization>)
    requires IndexAsWritten(bubbles) == Ok(topicMap)
    ensures result.suggestedBubbles.None? ==> r == Some(result)
    ensures r.Some? ==> r.value.categories == result.categories && r.value.encouragement == result.encouragement
    ensures result.suggestedBubbles.Some? ==>
      var kept := KeepValid(BubbleIds(bubbles), result.suggestedBubbles.value);
      (kept != [] ==> r == Some(result.(suggestedBubbles := Some(kept)))) &&
      (kept == [] ==> (r.None? <==> problem.None? || exists w :: w in ProblemWords(problem.value) && w in InheritedKeys)) &&
      (kept == [] && problem.Some? && r.Some? ==>
         r.value.suggestedBubbles ==
           Some(if KeywordFallback(bubbles, problem.value) != [] then KeywordFallback(bubbles, problem.value)
                else DefaultSuggestions(bubbles)))
  {
    match result.suggestedBubbles
    case None => Some(result)
    case Some(suggested) =>
      var kept := KeepValid(BubbleIds(bubbles), suggested);
      if kept != [] then Some(result.(suggestedBubbles := Some(kept)))
      else if problem.None? then None
      else
        match KeywordFallbackAsWritten(bubbles, topicMap, problem.value)
        case Threw(_) => None
        case Ok(fallback) =>
          Some(result.(suggestedBubbles := Some(if fallback != [] then fallback else DefaultSuggestions(bubbles))))
  }

  /** The reply cannot be used: no choice, no tool call and no content, or
      text that does not parse as an object. */
  predicate Unusable(data: Completion, parse: string -> Option<Categorization>) {
    |data.choices| == 0 ||
    ReplySource(data.choices[0]).NoReply? ||
    parse(ReplySource(data.choices[0]).text).None?
  }

  /** The parsed reply, when there is one. */
  function Parsed(data: Completion, parse: string -> Option<Categorization>): Categorization
    requires !Unusable(data, parse)
  {
    parse(ReplySource(data.choices[0]).text).value
  }

  /** The `try` block after the gateway answered: pick the reply text, parse
      it, validate; any failure on the way gives the generic answer. A parsed
      answer is returned with its own categories and encouragement unless
      validation throws; one without a suggestion list is returned as is; one
      whose suggestions are all unknown falls to the generic answer when the
      problem is missing (it cannot be lower-cased) or one of its words is an
      inherited key. */
  function Interpret(data: Completion, parse: string -> Option<Categorization>, bubbles: seq<Bubble>, topicMap: Index, problem: Option<string>): (r: Categorization)
    requires IndexAsWritten(bubbles) == Ok(topicMap)
    ensures Unusable(data, parse) ==> r == Generic(bubbles)
    ensures !Unusable(data, parse) ==>
      var v := Validate(Parsed(data, parse), bubbles, topicMap, problem);
      (v.Some? ==> r == v.value) && (v.None? ==> r == Generic(bubbles))
    ensures !Unusable(data, parse) ==>
      var result := Parsed(data, parse);
      (result.suggestedBubbles.None? ==> r == result) &&
      (r == Generic(bubbles) || (r.categories == result.categories && r.encouragement == result.encouragement)) &&
      ((result.suggestedBubbles.Some? && KeepValid(BubbleIds(bubbles), result.suggestedBubbles.value) == [] &&
        (problem.None? || exists w :: w in ProblemWords(problem.value) && w in InheritedKeys)) ==> r == Generic(bubbles)) &&
      ((result.suggestedBubbles.Some? && KeepValid(BubbleIds(bubbles), result.suggestedBubbles.value) != []) ==>
         r == result.(suggestedBubbles := Some(KeepValid(BubbleIds(bubbles), result.suggestedBubbles.value))))
  {
    if Unusable(data, parse) then Generic(bubbles)
    else
      match Validate(Parsed(data, parse), bubbles, topicMap, problem)
      case None => Generic(bubbles)
      case Some(validated) => validated
  }

  /** Whatever the model answers, the suggestions returned name fetched
      bubbles only; there is at least one when some bubble was fetched and
      none when no bubble was. */
  lemma InterpretSuggestions(data: Completion, parse: string -> Option<Categorization>, bubbles: seq<Bubble>, topicMap: Index, problem: Option<string>)
    requires IndexAsWritten(bubbles) == Ok(topicMap)
    ensures var r := Interpret(data, parse, bubbles, topicMap, problem);
      r.suggestedBubbles.Some? ==>
        (forall s :: s in r.suggestedBubbles.value ==> s.id in BubbleIds(bubbles)) &&
        (r.suggestedBubbles.value != [] <==> bubbles != [])
  {
    var r := Interpret(data, parse, bubbles, topicMap, problem);
    var generic := DefaultSuggestions(bubbles);
    forall s | s in generic ensures s.id in BubbleIds(bubbles) {
      var i :| 0 <= i < |generic| && generic[i] == s;
      assert bubbles[i] in bubbles;
    }
    if !Unusable(data, parse) {
      var result := Parsed(data, parse);
      if result.suggestedBubbles.Some? && Validate(result, bubbles, topicMap, problem).Some? {
        var kept := KeepValid(BubbleIds(bubbles), result.suggestedBubbles.value);
        if kept != [] {
          var s := kept[0];
          assert s in kept;
          assert s.id in BubbleIds(bubbles);
        } else {
          var fallback := KeywordFallback(bubbles, problem.value);
          forall s | s in fallback ensures s.id in BubbleIds(bubbles) {
            var b :| b in bubbles && b.id == s.id && b.name == s.name;
          }
        }
      }
    }
  }

  // ---------------------------------------------------------------------
  // The handler
  // ---------------------------------------------------------------------

  datatype HttpMethod = Options | Post

  /** The gateway's HTTP answer: its status, the outcome of reading its body
      as text (done only on a failure status) and the outcome of reading it as
      JSON. */
  datatype GatewayResponse = GatewayResponse(status: int, text: Outcome<string>, body: Outcome<Completion>)

  datatype Body = NoBody | ErrorBody(error: string) | ResultBody(result: Categorization)

  datatype Response = Response(status: int, body: Body)

  predicate IsOk(status: int) { 200 <= status <= 299 }

  /** The whole request handler. `request` is the outcome of reading the JSON
      body and its `problem` field (`None` when it is not a string);
      `envConfigured` says whether all three secrets are set; `fetched` is the
      bubble query's outcome; `gateway` the model call's outcome. An error's
      message is the one the handler reports. The keyword index is built as
      written, before the model is called. */
  function Categorize(
    verb: HttpMethod,
    request: Outcome<Option<string>>,
    envConfigured: bool,
    fetched: Outcome<seq<Bubble>>,
    gateway: Outcome<GatewayResponse>,
    parse: string -> Option<Categorization>): (r: Response)
    ensures verb == Options ==> r == Response(200, NoBody)
    ensures verb == Post ==> (r.status == 500 <==>
      request.Threw? || !envConfigured || fetched.Threw? ||
      (exists b :: b in fetched.value && BreaksIndex(b)) ||
      gateway.Threw? || !IsOk(gateway.value.status) || gateway.value.body.Threw?)
    ensures r.status == 500 ==> r.body.ErrorBody?
    ensures verb == Post && r.status != 500 ==> r.status == 200 && r.body.ResultBody?
    ensures verb == Post && request.Ok? && !envConfigured ==> r == Response(500, ErrorBody(MissingEnvMessage))
    ensures verb == Post && request.Ok? && envConfigured && fetched.Ok? && IndexAsWritten(fetched.value).Threw? ==>
              r == Response(500, ErrorBody(IndexAsWritten(fetched.value).message))
    ensures verb == Post && request.Ok? && envConfigured && fetched.Ok? && IndexAsWritten(fetched.value).Ok? &&
            gateway.Ok? && !IsOk(gateway.value.status) ==>
              r == Response(500, ErrorBody(if gateway.value.text.Threw? then gateway.value.text.message
                                          else GatewayFailedMessage))
    ensures verb == Post && request.Threw? ==> r == Response(500, ErrorBody(request.message))
    ensures verb == Post && request.Ok? && envConfigured && fetched.Threw? ==> r == Response(500, ErrorBody(fetched.message))
    ensures verb == Post && request.Ok? && envConfigured && fetched.Ok? && IndexAsWritten(fetched.value).Ok? &&
            gateway.Threw? ==>
              r == Response(500, ErrorBody(gateway.message))
    ensures verb == Post && request.Ok? && envConfigured && fetched.Ok? && IndexAsWritten(fetched.value).Ok? &&
            gateway.Ok? && IsOk(gateway.value.status) && gateway.value.body.Threw? ==>
              r == Response(500, ErrorBody(gateway.value.body.message))
    ensures verb == Post && r.status == 200 ==>
      request.Ok? && envConfigured && fetched.Ok? && IndexAsWritten(fetched.value).Ok? &&
      gateway.Ok? && IsOk(gateway.value.status) && gateway.value.body.Ok? &&
      r.body == ResultBody(Interpret(gateway.value.body.value, parse, fetched.value, IndexAsWritten(fetched.value).value, request.value))
  {
    if verb == Options then Response(200, NoBody)
    else
      match request
      case Threw(e) => Response(500, ErrorBody(e))
      case Ok(problem) =>
        if !envConfigured then Response(500, ErrorBody(MissingEnvMessage))
        else
          match fetched
          case Threw(e) => Response(500, ErrorBody(e))
          case Ok(bubbles) =>
            IndexAsWrittenFacts(bubbles);
            match IndexAsWritten(bubbles)
            case Threw(e) => Response(500, ErrorBody(e))
            case Ok(topicMap) =>
              match gateway
              case Threw(e) => Response(500, ErrorBody(e))
              case Ok(answer) =>
                if !IsOk(answer.status) then
                  match answer.text
                  case Threw(e) => Response(500, ErrorBody(e))
                  case Ok(_) => Response(500, ErrorBody(GatewayFailedMessage))
                else
                  match answer.body
                  case Threw(e) => Response(500, ErrorBody(e))
                  case Ok(data) => Response(200, ResultBody(Interpret(data, parse, bubbles, topicMap, problem)))
  }

  /** The suggestions a successful answer carries name fetched bubbles only;
      there is at least one when some bubble was fetched and none when no
      bubble was. */
  lemma CategorizeSuggestions(
    verb: HttpMethod,
    request: Outcome<Option<string>>,
    envConfigured: bool,
    fetched: Outcome<seq<Bubble>>,
    gateway: Outcome<GatewayResponse>,
    parse: string -> Option<Categorization>)
    ensures var r := Categorize(verb, request, envConfigured, fetched, gateway, parse);
      r.body.ResultBody? && r.body.result.suggestedBubbles.Some? ==>
        fetched.Ok? &&
        (forall s :: s in r.body.result.suggestedBubbles.value ==> s.id in BubbleIds(fetched.value)) &&
        (r.body.result.suggestedBubbles.value != [] <==> fetched.value != [])
  {
    if verb == Post && request.Ok? && envConfigured && fetched.Ok? && IndexAsWritten(fetched.value).Ok? &&
       gateway.Ok? && IsOk(gateway.value.status) && gateway.value.body.Ok? {
      InterpretSuggestions(gateway.value.body.value, parse, fetched.value, IndexAsWritten(fetched.value).value, request.value);
    }
  }

  /** When the gateway answers but its reply cannot be used, the request
      succeeds exactly when the index could be built, and then with the
      generic answer: the category "general", the first min(3, n) fetched
      bubbles in order with the fixed reason, and the fixed encouragement. */
  lemma UnusableReplyAnswer(
    request: Outcome<Option<string>>,
    bubbles: seq<Bubble>,
    gateway: Outcome<GatewayResponse>,
    parse: string -> Option<Categorization>)
    requires request.Ok? && gateway.Ok? && IsOk(gateway.value.status) && gateway.value.body.Ok?
    requires Unusable(gateway.value.body.value, parse)
    ensures var r := Categorize(Post, request, true, Ok(bubbles), gateway, parse);
      (r.status == 200 <==> forall b :: b in bubbles ==> !BreaksIndex(b)) &&
      (r.status == 200 ==>
        r.body.ResultBody? &&
        r.body.result.categories == Some([GenericCategory]) &&
        r.body.result.encouragement == Some(GenericEncouragement) &&
        r.body.result.suggestedBubbles.Some? &&
        |r.body.result.suggestedBubbles.value| == Min(3, |bubbles|) &&
        forall i :: 0 <= i < |r.body.result.suggestedBubbles.value| ==>
          r.body.result.suggestedBubbles.value[i] == Suggestion(bubbles[i].id, bubbles[i].name, FallbackReason))
  {
    IndexAsWrittenFacts(bubbles);
  }

  /** The request of the first finding: with the "constructor" bubble fetched,
      every request fails with the push error, whatever the model would have
      answered. */
  lemma ConstructorKeywordFailsRequest(
    request: Outcome<Option<string>>,
    gateway: Outcome<GatewayResponse>,
    parse: string -> Option<Categorization>)
    requires request.Ok?
    ensures Categorize(Post, request, true, Ok([ConstructorBubble()]), gateway, parse) ==
              Response(500, ErrorBody(PushNotAFunction))
  {
    ConstructorKeywordBreaksIndex();
  }
}
