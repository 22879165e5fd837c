# Safe Space (incography): a Dafny model of its decision logic

This project models the parts of the Safe Space peer-support web application
that make decisions:

- **Problem categorization endpoint.** It builds a keyword index of the active
  support groups ("bubbles"). It asks a language model for suggestions. It
  keeps only suggestions that name real bubbles. When none survive, it falls
  back to keyword matching, then to the first three bubbles. Any reply it
  cannot use gives a generic answer. The handler is modelled as written: its
  keyword index is a plain JavaScript object, so a bubble without a
  description, or a word such as "constructor", makes it throw (see
  Findings).
- **Problem heuristic** (`isProblemDescription`). It decides whether a chat
  message describes a personal problem: a length gate, a veto list of
  positive words, a list of problem words, and a whole-word first-person
  regular expression.
- **Chat relay endpoint.** It puts the assistant persona in front of the
  client's conversation, forwards it to the AI gateway, and maps the
  gateway's status to its own response.
- **Client components with small state machines:**
  - the scripted landing-page chat;
  - the post composer and the group-chat box, both gated by one shared word
    filter;
  - the support/relate toggles of a post card.

Each file is one module:

- `wrappers.dfy` has `Option`, and `Outcome`, which is a value or a thrown
  error with its message.
- `text.dfy` has the JavaScript string operations the code relies on:
  ASCII `toLowerCase`, `includes`, `split(' ')`, `split(/\s+/)`, `trim` and
  the ECMAScript white-space set.
- `categorizer.dfy`, `heuristic.dfy` and `heuristic_examples.dfy`,
  `chat_relay.dfy`, `landing_chat.dfy`, `moderation.dfy`, `create_post.dfy`,
  `bubble_chat.dfy`, `post_card.dfy` cover the components above.

Mutating code is modelled as imperative Dafny; expression code as functions:

- **Categorizer:**
  - the keyword index is built by the same nested loops as the source
    over a dictionary (`BuildTopicMap`), proved equal to a reference
    definition (`TopicMap`);
  - the insertion-ordered `Set` of matched ids is a loop too
    (`MatchKeywords`), proved equal to `MatchedIds`;
  - the handler itself (`Categorize`) follows the code over a plain object:
    `IndexAsWritten` and `KeywordFallbackAsWritten` throw where the object's
    inherited members or a null description make the code throw, and are
    proved equal to the dictionary versions everywhere else;
  - the rest are functions.
- **React components:** they are classes whose fields are the component's
  `useState` variables and whose methods are its handlers. Each class keeps
  an invariant (`Valid`).

Inputs stand in for I/O:

- the database query result (`fetched`);
- the gateway's answers (`gateway`);
- `JSON.parse` (`parse`);
- environment variables (`envConfigured`, `apiKey`);
- the success of a post submission (a separate callback method).

## Model

| member | source | states |
|---|---|---|
| Text.ToLower | src/utils/categorizeProblem.ts:44 | lower-cases ASCII letters only, position by position, keeping the length |
| Text.ToLowerIdempotent | src/utils/categorizeProblem.ts:44 | lower-casing twice is lower-casing once |
| Text.ContainsIsOccurrence | src/utils/categorizeProblem.ts:50-52 | `includes` holds exactly when the word occurs at some index |
| Text.ContainsAny | src/utils/categorizeProblem.ts:50-52 | `some(includes)` holds exactly when one listed word is contained |
| Text.ContainsTransitive | src/components/CreatePostModal.tsx:34 | a word inside a contained text is contained |
| Text.MissingLetter | src/utils/categorizeProblem.ts:50-52 | a text lacking one of a word's letters does not contain the word |
| Text.CountCharAtLeast | src/utils/categorizeProblem.ts:47 | a text with spaces at n distinct positions has at least n spaces |
| Text.Split | supabase/functions/categorize-problem/index.ts:41 | `split(' ')` yields one more piece than there are spaces |
| Text.SplitJoin | supabase/functions/categorize-problem/index.ts:41 | joining the pieces with the separator gives back the text |
| Text.SplitPiecesHaveNoSeparator | supabase/functions/categorize-problem/index.ts:41 | no piece contains the separator |
| Text.SplitWs | supabase/functions/categorize-problem/index.ts:157 | `split(/\s+/)` always yields at least one piece, and at least two when the text starts with white space |
| Text.SplitWsSplitting | supabase/functions/categorize-problem/index.ts:157 | the pieces, with the cut-out runs between them, give back the text: every run is non-empty white space, no piece holds white space, and only the first and the last piece may be empty |
| Text.SplittingIsSplitWs | supabase/functions/categorize-problem/index.ts:157 | conversely, any such cutting of a text into white-space-free pieces and non-empty white-space runs is the one `split(/\s+/)` makes |
| Text.SplitWsPieces | supabase/functions/categorize-problem/index.ts:157 | pieces hold no white space and together are the text with its white space removed |
| Text.Trim | src/components/LandingChat.tsx:65 | `trim()` is a substring that neither starts nor ends with white space, everything before and after it is white space, and it is empty exactly when the text is all white space |
| Categorizer.NonEmptyStrings | supabase/functions/categorize-problem/index.ts:42 | `filter(Boolean)` keeps exactly the non-empty strings and never lengthens the list |
| Categorizer.Keywords | supabase/functions/categorize-problem/index.ts:38-42 | a bubble's keywords are the non-empty strings among its lowered topic (when present), its lowered name and the `split(' ')` pieces of its lowered description (when present) |
| Categorizer.IdsUnderMembers | supabase/functions/categorize-problem/index.ts:36-48 | an id is listed under a word exactly when a fetched bubble with that id has the word as a keyword |
| Categorizer.Push | supabase/functions/categorize-problem/index.ts:45-46 | pushing creates a missing entry and appends the id to that entry only |
| Categorizer.IndexBubble | supabase/functions/categorize-problem/index.ts:44-47 | the inner loop appends the bubble's id under each keyword, once per occurrence, and leaves other entries alone |
| Categorizer.PushAll | supabase/functions/categorize-problem/index.ts:44-47 | pushing an id under a list of keywords appends it under each, once per occurrence, and keeps every entry non-empty |
| Categorizer.BuildTopicMap | supabase/functions/categorize-problem/index.ts:36-48 | the nested loops build exactly the reference keyword index |
| Categorizer.TopicMapEntries | supabase/functions/categorize-problem/index.ts:36-48 | the index lists an id under a word exactly when some fetched bubble with that id has the word as a keyword |
| Categorizer.TopicMapListsBubble | supabase/functions/categorize-problem/index.ts:37-47 | every fetched bubble is listed under each of its keywords |
| Categorizer.TopicMapKeys | supabase/functions/categorize-problem/index.ts:42-45 | the empty string is never a key, and the keys are exactly the keywords of fetched bubbles |
| Categorizer.TopicMapOneBubble | supabase/functions/categorize-problem/index.ts:44-47 | ids are not de-duplicated: a word repeated in a description lists the id once per repetition |
| Categorizer.ReplySource | supabase/functions/categorize-problem/index.ts:126-137 | the first tool call's arguments when there are tool calls; else non-empty content; else no reply |
| Categorizer.ReplySourceIgnoresRest | supabase/functions/categorize-problem/index.ts:129-131 | tool calls after the first and the content are ignored once a tool call exists |
| Categorizer.KeepValid | supabase/functions/categorize-problem/index.ts:140-150 | the kept suggestions are exactly those naming a fetched id |
| Categorizer.KeepValidAppend | supabase/functions/categorize-problem/index.ts:144-150 | filtering keeps the original order: it distributes over concatenation |
| Categorizer.KeepValidAll | supabase/functions/categorize-problem/index.ts:144-150 | when every suggestion is valid nothing is removed |
| Categorizer.FindById | supabase/functions/categorize-problem/index.ts:169 | `find` returns the first bubble with the id, and nothing exactly when no bubble has it |
| Categorizer.SuggestIds | supabase/functions/categorize-problem/index.ts:168-176 | each produced entry names a found bubble with the fixed reason; ids that are not found are dropped |
| Categorizer.SuggestIdsAllFound | supabase/functions/categorize-problem/index.ts:166-176 | when every id is found, one entry per id in the same order |
| Categorizer.AddAllFacts | supabase/functions/categorize-problem/index.ts:162 | `Set.add` keeps ids distinct and adds exactly the given ids |
| Categorizer.MatchedIdsFacts | supabase/functions/categorize-problem/index.ts:158-164 | the matched ids are distinct, and are exactly the ids indexed under some problem word |
| Categorizer.MatchKeywords | supabase/functions/categorize-problem/index.ts:158-164 | the `forEach` loop computes the matched ids in first-match order |
| Categorizer.AddAllExtends | supabase/functions/categorize-problem/index.ts:162 | adding to the set never moves or removes the ids already in it |
| Categorizer.MatchedIdsPrefix | supabase/functions/categorize-problem/index.ts:158-164 | the ids matched by the first n problem words are a prefix of those matched by all |
| Categorizer.MatchedIdsOrder | supabase/functions/categorize-problem/index.ts:158-167 | first-match order: an id listed under one of the first n words comes before every id none of them lists |
| Categorizer.ProblemWords | supabase/functions/categorize-problem/index.ts:157 | the problem words are the lower-cased problem cut at its white-space runs (at least one word, none holding white space) |
| Categorizer.FirstThree | supabase/functions/categorize-problem/index.ts:167 | `slice(0, 3)` is the prefix of length min(3, n) |
| Categorizer.SuggestIdsFacts | supabase/functions/categorize-problem/index.ts:166-176 | distinct fetched ids give one entry per id, in order, each naming that bubble |
| Categorizer.KeywordFallbackFacts | supabase/functions/categorize-problem/index.ts:158-176 | for an index listing fetched ids only, the fallback's entries are the first min(3, matched) matched ids, in order, distinct, each indexed under one of the words and carrying its bubble's name and the fixed reason |
| Categorizer.TopicMapListsFetched | supabase/functions/categorize-problem/index.ts:36-48 | the keyword index lists fetched ids only |
| Categorizer.FirstThreeMatched | supabase/functions/categorize-problem/index.ts:158-167 | the first three matched ids are distinct fetched ids, each indexed under one of the words |
| Categorizer.KeywordFallback | supabase/functions/categorize-problem/index.ts:156-176 | the entries are the first min(3, matched) matched ids in first-match order, distinct, each indexed under a word of the problem, with the bubble's name and the fixed reason |
| Categorizer.KeywordFallbackAsWritten | supabase/functions/categorize-problem/index.ts:156-176 | over the index the endpoint built, the fallback throws exactly when a problem word is "constructor", and otherwise gives the keyword fallback |
| Categorizer.DefaultSuggestions | supabase/functions/categorize-problem/index.ts:180-184 | the first min(3, n) bubbles in order with the fixed reason |
| Categorizer.Validate | supabase/functions/categorize-problem/index.ts:139-186 | an absent list leaves the result untouched; a non-empty kept list is returned as is; an empty one fails exactly when the problem is undefined or one of its words is an inherited key, and is otherwise replaced by the keyword fallback or, failing that, the first bubbles; categories and encouragement are kept |
| Categorizer.Interpret | supabase/functions/categorize-problem/index.ts:123-199 | no choice, no reply or an unparsable reply gives the generic answer; otherwise the answer is what validation gives, and the generic answer where validation throws; a parsed reply without a suggestion list is returned as is; a reply naming some fetched bubble keeps its categories and encouragement with the unknown suggestions dropped; when every suggestion is unknown and the problem is missing or one of its words is an inherited key, the lookup throws and the generic answer is given |
| Categorizer.InterpretSuggestions | supabase/functions/categorize-problem/index.ts:123-199 | returned suggestions name fetched bubbles only, and there is one exactly when some bubble was fetched |
| Categorizer.Categorize | supabase/functions/categorize-problem/index.ts:9-212 | OPTIONS gets an empty 200; a POST fails with 500 exactly when reading the body, the secrets, the query, building the index (a null description or an inherited keyword), the call, the gateway status or its JSON fails; a missing secret and an index failure give their messages; a non-ok gateway gives the error of reading its body as text when that read throws, and the fixed failure message otherwise; a failed body read, query, gateway call or JSON read gives its own error message; a 200 answer is given only after every step succeeded, and holds exactly what `Interpret` makes of the gateway's JSON over the fetched bubbles, the index built from them and the problem |
| Categorizer.CategorizeSuggestions | supabase/functions/categorize-problem/index.ts:139-199 | a successful answer suggests fetched bubbles only, and suggests some exactly when some were fetched |
| Categorizer.UnusableReplyAnswer | supabase/functions/categorize-problem/index.ts:187-198 | an unusable reply yields 200 exactly when the index built earlier (lines 36-48) did not throw, and then category "general", the first min(3, n) bubbles with the fixed reason, and the fixed encouragement |
| Categorizer.IndexAsWrittenFacts | supabase/functions/categorize-problem/index.ts:36-48 | the index built on a plain object throws exactly when some bubble has a null description or a keyword that is an inherited key, with that cause's message when only one kind is present; otherwise it equals the reference entries |
| Categorizer.IndexAsWrittenOk | supabase/functions/categorize-problem/index.ts:36-48 | an index the plain object does build is the reference index, and no fetched bubble breaks it |
| Categorizer.IndexAsWrittenThrows | supabase/functions/categorize-problem/index.ts:41-46 | a bubble with a null description or the keyword "constructor" makes the index build throw |
| Categorizer.IndexAsWrittenAgrees | supabase/functions/categorize-problem/index.ts:36-48 | without such keywords the object-based index is the reference index |
| Categorizer.InheritedKeywordBreaksIndex | supabase/functions/categorize-problem/index.ts:44-46 | a bubble with a description and an inherited keyword makes the index build throw with the push error, although the reference index lists it under that keyword |
| Categorizer.ConstructorKeywordBreaksIndex | supabase/functions/categorize-problem/index.ts:45-46 | a bubble described as "constructor" makes the index build throw, although the reference index lists it |
| Categorizer.ConstructorKeywordFailsRequest | supabase/functions/categorize-problem/index.ts:204-211 | with that bubble fetched, every POST that reaches the query fails with 500 and the push error of the index build (lines 44-46) |
| Categorizer.MatchedIdsAsWritten | supabase/functions/categorize-problem/index.ts:160-164 | the lookup on a plain object throws, with the `forEach` error, exactly when a problem word is an inherited key missing from the index; otherwise it collects the reference matched ids |
| Categorizer.IndexAsWritten | supabase/functions/categorize-problem/index.ts:36-48 | a failed build reports the push error or the null-description error; a built index has no inherited key as an own key, and every bubble it was built from had a description |
| Categorizer.Generic | supabase/functions/categorize-problem/index.ts:190-198 | the general category, the fixed encouragement, and the first three fetched bubbles, in fetch order, suggested with the fixed reason |
| Categorizer.ConstructorWordBreaksFallback | supabase/functions/categorize-problem/index.ts:160-164 | the problem "constructor job" makes the lookup throw where the intended matching finds the "job" bubble |
| ProblemHeuristic.HasFirstPerson | src/utils/categorizeProblem.ts:62 | the scan finds a match exactly when the regular expression matches |
| ProblemHeuristic.MatchFromFacts | src/utils/categorizeProblem.ts:62 | the scan from a position finds a match exactly when some first-person form matches at or after it |
| ProblemHeuristic.FirstPersonIsWholeWord | src/utils/categorizeProblem.ts:62 | the regular expression matches exactly when "i", "im", "my" or "me" occurs as a whole word |
| ProblemHeuristic.IsProblemDescription | src/utils/categorizeProblem.ts:25-65 | true exactly when there are at least 5 space-separated pieces, no positive word, some problem word and a first-person word |
| ProblemHeuristic.ShortMessageRejected | src/utils/categorizeProblem.ts:47 | fewer than four spaces means false |
| ProblemHeuristic.PositiveVetoes | src/utils/categorizeProblem.ts:38-54 | any positive word anywhere in the message gives false |
| ProblemHeuristic.HiInsideWordVetoes | src/utils/categorizeProblem.ts:40 | "this" and "which" veto through their "hi" |
| ProblemHeuristic.CaseInsensitive | src/utils/categorizeProblem.ts:44-62 | messages equal up to ASCII letter case get the same answer |
| ProblemHeuristic.NotFirstPersonIt | src/utils/categorizeProblem.ts:62 | "it" is not first person |
| ProblemHeuristic.NotFirstPersonMine | src/utils/categorizeProblem.ts:62 | "mine" is not first person |
| ProblemHeuristic.NotFirstPersonMeet | src/utils/categorizeProblem.ts:62 | "meet" is not first person |
| ProblemHeuristic.FirstPersonCapitalI | src/utils/categorizeProblem.ts:62 | a capital "I" is first person |
| ProblemHeuristic.HelpIsNotAProblem | src/utils/categorizeProblem.ts:47 | the single word "help" fails the length gate |
| ProblemHeuristic.WeatherIsNotAProblem | src/utils/categorizeProblem.ts:38-54 | "Hello! What's the weather like today?" gives false |
| ProblemHeuristic.NoPositiveByLetters | src/utils/categorizeProblem.ts:38-42 | a text without the letters c, e, f, g, h, j, l, n, y, z contains no positive word |
| ProblemHeuristic.ProblemFromParts | src/utils/categorizeProblem.ts:47-64 | the four conditions together give true |
| ProblemHeuristicExamples.SadAtWorkIsAProblem | src/utils/categorizeProblem.ts:25-65 | "I am sad at work" is a problem description |
| ChatRelay.Forwarded | supabase/functions/chat/index.ts:31-59 | the persona as a system message, then each client message unchanged at the next position |
| ChatRelay.ForwardedSystemMessages | supabase/functions/chat/index.ts:31-59 | the first message is the persona, the rest are exactly the client's messages, and no other system message is added |
| ChatRelay.GatewayCall | supabase/functions/chat/index.ts:23-61 | the fixed model, bearer authorization with the key, persona first, the client's messages after it, streaming on |
| ChatRelay.Relay | supabase/functions/chat/index.ts:9-95 | OPTIONS gets an empty 200; a POST always answers with a body, and a 200 only with the event stream; a missing or empty key gives 500 'LOVABLE_API_KEY is not configured'; an ok gateway answer is relayed as its event stream; upstream 429 and 402 give themselves with their fixed messages; a request body that cannot be read, a gateway call that throws and any other upstream status give 500 with the thrown message, the upstream status's text-read error, or the fixed gateway message |
| ChatRelay.MissingKeyIgnoresGateway | supabase/functions/chat/index.ts:17-19 | without a key the answer does not depend on the gateway: no call is made |
| ChatRelay.GatewayErrorHidesDetails | supabase/functions/chat/index.ts:77-82 | any other non-ok status gives 500 'AI gateway error', whatever the upstream text |
| ChatRelay.RelayForwardsConversation | supabase/functions/chat/index.ts:31-87 | the gateway is sent the persona followed by the client's messages, and an ok answer comes back as a 200 event stream |
| LandingChat.GetResponse | src/components/LandingChat.tsx:31-41 | the answer is a topic the lowered message mentions (the default always qualifies), and no topic earlier in the order anonymity, bubble, help, privacy, default is mentioned; the reply shown (`Reply`) is that topic's canned text |
| LandingChat.GetResponsePriority | src/components/LandingChat.tsx:31-41 | that description determines the answer: any mentioned topic with no earlier mentioned topic is the answer |
| LandingChat.GetResponseIgnoresCase | src/components/LandingChat.tsx:32 | the choice does not depend on letter case |
| LandingChat.TextToSend | src/components/LandingChat.tsx:65 | a non-empty explicit text wins over the trimmed input, which is empty exactly when the input is all white space |
| LandingChat.QuestionPending | src/components/LandingChat.tsx:74-76 | appending a question keeps the transcript well formed, now waiting for an answer |
| LandingChat.AnswerCompletes | src/components/LandingChat.tsx:87-88 | appending the answer to the pending question completes the transcript |
| LandingChat.Chat.constructor | src/components/LandingChat.tsx:44-52 | the history is the single greeting, the input is empty, nothing is pending |
| LandingChat.Chat.BeginSend | src/components/LandingChat.tsx:65-76 | nothing changes for an empty text or while a reply is pending; otherwise the question is appended, the input cleared and typing shown |
| LandingChat.Chat.FinishSend | src/components/LandingChat.tsx:81-88 | the canned answer to the question is appended and typing is cleared |
| LandingChat.Chat.HandleSend | src/components/LandingChat.tsx:64-89 | either nothing changes, or exactly the question and then its answer are appended, the input is cleared, typing was on in between and is off after |
| LandingChat.Chat.Type | src/components/LandingChat.tsx:164-175 | editing the enabled box replaces the input and nothing else |
| LandingChat.Chat.HandleKeyDown | src/components/LandingChat.tsx:91-96 | Enter without Shift, when the button is enabled, appends the trimmed input and its answer, clears the input and ends with no reply pending; with the button disabled, or for any other key, nothing changes |
| LandingChat.SendDisabled | src/components/LandingChat.tsx:181 | the button is disabled exactly when a reply is pending or the box holds only white space, that is exactly when a click would send nothing; an enabled button sends the trimmed box |
| Moderation.HasViolation | src/components/CreatePostModal.tsx:33-34 | flagged exactly when "hate", "kill" or "hurt" occurs somewhere in the lowered text |
| BubbleChat.SendDisabled | src/pages/BubbleChat.tsx:189 | while the warning describes the box, an enabled send button means a non-empty message in which no flagged word occurs |
| Moderation.ViolationIgnoresCase | src/pages/BubbleChat.tsx:20 | the filter ignores letter case |
| Moderation.ViolationSurvivesEdits | src/pages/BubbleChat.tsx:19-20 | text added before or after a flagged text cannot unflag it |
| Moderation.EmptyIsClean | src/pages/BubbleChat.tsx:14-15 | the empty text is not flagged, matching the initial false flag |
| CreatePost.DetectedTags | src/components/CreatePostModal.tsx:27 | the two tags exactly when the text is longer than 50 characters, none otherwise |
| CreatePost.IsSafe | src/components/CreatePostModal.tsx:27-28 | a text long enough for tags is shown as safe exactly when it is not flagged, and a text shown as safe passes the posting guard once a group is chosen |
| CreatePost.PostDisabled | src/components/CreatePostModal.tsx:185 | an enabled Post button always passes the guard; the guard passes with the button disabled only while a post is on its way |
| CreatePost.Composer.constructor | src/components/CreatePostModal.tsx:21-24 | empty text, type "general", no flag, anonymous on |
| CreatePost.Composer.HandleContentChange | src/components/CreatePostModal.tsx:30-36 | the text is replaced and the flag recomputed from the new text alone |
| CreatePost.Composer.SetPostType | src/components/CreatePostModal.tsx:116-140 | only the post type changes |
| CreatePost.Composer.SetAnonymous | src/components/CreatePostModal.tsx:163 | only the anonymity choice changes |
| CreatePost.Composer.HandlePost | src/components/CreatePostModal.tsx:38-47 | sends exactly when the guard (`CanPost`) passes: the text is non-empty, unflagged and a group is present; the payload is exactly the text and the anonymity choice; a flagged text is never sent; a missing group gives the error toast |
| CreatePost.Composer.OnPostSuccess | src/components/CreatePostModal.tsx:49-54 | clears the text, resets the type to "general" and asks to close, keeping the anonymity choice |
| CreatePost.FlaggedTextIsNeverSent | src/components/CreatePostModal.tsx:34-39 | a text holding a flagged word anywhere never passes the guard |
| BubbleChat.MessageBox.constructor | src/pages/BubbleChat.tsx:14-15 | empty message, no warning |
| BubbleChat.MessageBox.HandleMessageChange | src/pages/BubbleChat.tsx:17-22 | the message is replaced and the warning recomputed from the new value alone |
| BubbleChat.MessageBox.HandleKeyDown | src/pages/BubbleChat.tsx:174-181 | Enter without Shift clears the message exactly when it is non-empty and unflagged, which is exactly when the send button is enabled; otherwise nothing changes |
| PostCard.Toggle | src/components/PostCard.tsx:32-42 | the flag flips, and the count moves down when withdrawing and up when giving |
| PostCard.ToggleTwice | src/components/PostCard.tsx:32-54 | pressing twice restores count and flag |
| PostCard.ToggleKeepsConsistent | src/components/PostCard.tsx:21-54 | from a consistent tally the count stays 1 exactly when given, so it stays in {0, 1} |
| PostCard.AuthorName | src/components/PostCard.tsx:26-28 | "Anonymous User" exactly for anonymous posts, "Community Member" exactly for the others |
| PostCard.Card.constructor | src/components/PostCard.tsx:21-24 | both counts 0, nothing given |
| PostCard.Card.HandleSupport | src/components/PostCard.tsx:32-42 | toggles the support tally, keeps the counts consistent, leaves the relate tally unchanged |
| PostCard.Card.HandleRelate | src/components/PostCard.tsx:44-54 | toggles the relate tally, keeps the counts consistent, leaves the support tally unchanged |

## Left out

- Network, database and runtime calls are inputs, not code:
  - `req.json()`, `Deno.env.get` and the bubble query;
  - the gateway `fetch`, `response.json()` and `response.text()`;
  - `JSON.parse`;
  - `createPost`.
- The language model's behaviour and the system prompts are not modelled. The chat persona is an opaque parameter.
- The event stream is relayed as an opaque string, with no chunking.
- Response headers are not modelled:
  - CORS headers are left out;
  - `ErrorBody` stands for a JSON error response;
  - `EventStream` stands for a `text/event-stream` response.
- `ChatRelay.Relay` and `Categorizer.Categorize` assume that a thrown value is an `Error` with a message. The 'Unknown error' branch for other thrown values is not modelled.
- `ChatRelay.Relay` does not model a `messages` field that is present but is not an array. Only a missing field is modelled, and it throws.
- Strings are sequences of characters. Differences from JavaScript:
  - `length` counts characters, not UTF-16 code units;
  - `toLowerCase` is modelled for ASCII letters only;
  - there is no Unicode case folding.
- The validation step assumes the model's suggestions are well-formed records with an `id`. Malformed JSON shapes are represented only by `parse` returning `None`.
- `ProblemHeuristicExamples.SadAtWorkIsAProblem`: the worked positive example is "I am sad at work". The sentence "I'm feeling really anxious about work lately" is not proved, because lower-casing that literal is beyond the verifier's resource limit. It has the same shape: a problem word, a first-person word, five pieces and no positive word.
- Timing is not modelled: LandingChat's 800 ms delay, timestamps, toasts, scrolling and textarea resizing.
- `LandingChat.Chat.HandleSend` treats a send as two steps, `BeginSend` and `FinishSend`. It does not model two clicks landing in the same render before `isTyping` is seen as true.
- The composer's "visibility" select is uncontrolled and never sent, so it is not modelled.
- `isCreating` comes from the submission hook. It is a parameter of `CreatePost.PostDisabled`.
- Outside the model:
  - the Supabase data hooks and the realtime chat channel;
  - the `categorizeProblem` fetch wrapper;
  - `clear-database`;
  - the presentation-only pages (pricing, features, settings, dashboard and the rest).
- No bearer token is verified by either endpoint, so there is no authentication to model.

Behaviour the model keeps as the code has it, although a reader of the endpoints might expect otherwise:

- **Categorization endpoint, non-ok gateway status.** It throws 'AI categorization failed' (or the error of reading the body as text, when that read throws), so the client gets a 500 rather than a fallback.
- **Categorization endpoint, inherited keys of the index object.** Only "constructor" is modelled as inherited. Every other member of `Object.prototype` has an upper-case letter in its name, so no lower-cased word equals it. Deno deletes the `__proto__` accessor, so "__proto__" is an ordinary key there.
- **Categorization endpoint, missing `suggestedBubbles`.** The parsed result is returned untouched, with no fallback.
- **Categorization endpoint, bubble without a description.** A bubble's name is always present, but its topic and description may be null. The endpoint lower-cases the description unguarded, so one such bubble makes the request fail with 500 (`IndexAsWritten`). The reference index `TopicMap` simply gives that bubble no description words.
- **Composer reset after a successful post.** It does not clear `hasViolation`, and the text can still be edited while the post is on its way. The composer invariant therefore only ties the flag to a non-empty text.

## Findings

| source | as written | input that shows it | evidently intended | confidence | as-written member | corrected member |
|---|---|---|---|---|---|---|
| supabase/functions/categorize-problem/index.ts:36-47 | the keyword index is a plain object, so `topicMap["constructor"]` finds an inherited member; `push` on it throws and the request fails with 500 | an active bubble whose description is "constructor" | a dictionary with no inherited keys, where each word lists its bubbles | not executed | Categorizer.ConstructorKeywordFailsRequest | Categorizer.BuildTopicMap |
| supabase/functions/categorize-problem/index.ts:160-164 | the fallback looks up each problem word on the same object; "constructor" finds an inherited function, whose `forEach` throws, so the caller gets the generic answer instead of keyword matches | the problem "constructor job" with a bubble indexed under "job" | matching that ignores words not in the index | not executed | Categorizer.ConstructorWordBreaksFallback | Categorizer.MatchKeywords |
