# DeepSeek visualizer and Tech Ireland gallery: a Dafny model

This project models the logic of two small browser front-ends from one
repository.

**The DeepSeek architecture demo.**
- **The Mixture-of-Experts router.**
  - A token's text is hashed (`simpleHash`).
  - The text is classified into a primary expert category by keyword tests (`getSemanticExperts`).
  - Up to three of those semantic experts are taken.
  - The remaining routing slots are filled from a hash-seeded Fisher-Yates shuffle of experts 1 .. EXPERT_COUNT-1 (`shuffleArray`, `selectExpertsForToken`).
- **The two visualizers' animation state machines.**
  - The MoE visualizer recomputes the routing whenever the current token changes.
  - The attention-comparison visualizer maps query heads to key/value heads for MHA, MQA and GQA.
- **The controller.** It covers the whitespace tokenizer, the guard on the Process button and the reset of the configuration.

**The Tech Ireland project gallery.**
- the like toggle;
- the search filter and its result count;
- the per-county and per-theme frequency charts, sorted by count;
- the theme colour and icon tables.

Pure code becomes Dafny functions, specified by lemmas. Code that updates objects in place becomes classes with `modifies` clauses:
- `MoEVisualizer` and `ComparisonVisualizer`;
- `DeepSeekDemo`;
- the gallery `Page` and `Project`.

Loops become methods proved against the functions:
- `SimpleHash`, `ShuffleArray` (in place on an `array<int>`);
- `GetSemanticExperts`, `SelectExpertsForToken`;
- `DrawQkvConnections`, `FilterTeams`, `CountBy`.

Modules:
- `Base`, `Text`: option type, min/max, distinctness, ASCII lower-casing, the JavaScript whitespace class, substring search.
- `MoeHash`, `MoeSemantic`, `MoeShuffle`, `MoeRouter`, `MoeAnimation`: `deepseek/js/moe.js`.
- `Frames`: the frame → current token rule both visualizers share.
- `Comparison`: `js/comparison.js`.
- `Tokens`, `Demo`: `main.js`.
- `GalleryLikes`, `GallerySearch`, `GalleryCharts`: `tech_ireland_v2/js/main.js`.

Behaviour of the code worth knowing:
- `setExpertCount` only caps the expert count at 32. With one expert or fewer, a token is routed to its semantic experts alone (`MoeRouter.NoFillWithoutExperts`).
- The semantic experts are not range-checked against the expert count. With four experts, `"xyz123"` gets six: 8, 16 and 24, then 1, 2 and 3 (`MoeRouter.DigitTokenWithFourExperts`).
- Keyword tests are unanchored substring tests: any text containing the letter `a` has a category (`MoeSemantic.LetterAGivesCategory`).
- Only the first three semantic experts reach the router (`MoeRouter.RouteFacts`).
- The first token of an animation is never routed. The current index starts at 0, and routing happens only when the index changes (`MoEVisualizer.Valid`, kept by every method).
- The shuffle computes each swap partner in JavaScript numbers. `seed * (i + 1) * 1103515245` passes 2^53 for most tokens, so it is rounded to a double before `>>> 0`. For `"hello"` (hash 99162322) the partner of position 30 is 19, where exact integer arithmetic would give 3 (`MoeShuffle.HelloPartnerIsRounded`).

## Model

| member | source | states |
|---|---|---|
| MoeHash.ToInt32 | deepseek/js/moe.js:573 | the result is a signed 32-bit integer congruent to the input modulo 2^32 |
| MoeHash.HashState | deepseek/js/moe.js:571-574 | the state after any prefix stays a signed 32-bit integer |
| MoeHash.Hash | deepseek/js/moe.js:575 | `Math.abs` of the state lies in [0, 2^31] |
| MoeHash.HashStateIsTruncatedPoly | deepseek/js/moe.js:571-574 | truncating at every step equals truncating the exact polynomial sum c_i 31^(n-1-i) once (Java `hashCode`) |
| MoeHash.ShiftStepIsHashStep | deepseek/js/moe.js:573 | `((h << 5) - h + c) & 0xffffffff` is the step h := 31h + c modulo 2^32 |
| MoeHash.SimpleHash | deepseek/js/moe.js:570-576 | the loop returns Hash(str), at most 2^31, and 0 for the empty string |
| MoeShuffle.Partner | deepseek/js/moe.js:145 | the swap partner of position i, computed with each product and the sum rounded to a double, is at most i |
| MoeShuffle.UlpKeeps53Bits | deepseek/js/moe.js:145 | the gap between doubles is 1 below 2^53, and above it x divided by the gap keeps exactly 53 bits |
| MoeShuffle.UlpInBinade | deepseek/js/moe.js:145 | between 2^(52+k) and 2^(53+k) doubles are 2^k apart |
| MoeShuffle.RoundOnGrid | deepseek/js/moe.js:145 | a rounded value is a double: a multiple of the gap around the value |
| MoeShuffle.RoundIsClose | deepseek/js/moe.js:145 | a rounded value is within half a gap of the exact value, strictly so when bits below the half are set |
| MoeShuffle.RoundTiesToEven | deepseek/js/moe.js:145 | a value exactly halfway between two doubles rounds to the one with an even multiple of the gap |
| MoeShuffle.RoundToDoubleIsNearest | deepseek/js/moe.js:145 | conversion of an integer to a JavaScript number is round-to-nearest, ties-to-even, and exact below 2^53 |
| MoeShuffle.RoundBetween61And62 | deepseek/js/moe.js:145 | between 2^61 and 2^62 an integer rounds to the nearer multiple of 512 |
| MoeShuffle.HelloPartnerIsRounded | deepseek/js/moe.js:145 | for the seed of "hello" at position 30 the partner is 19, while exact arithmetic gives 3 |
| MoeShuffle.NextSeed | deepseek/js/moe.js:147 | the next seed is below 2^32 |
| MoeShuffle.Swap | deepseek/js/moe.js:146 | the two positions exchange their entries and every other position is unchanged |
| MoeShuffle.SwapPermutes | deepseek/js/moe.js:146 | a swap keeps the multiset of entries |
| MoeShuffle.ShuffleFromPermutes | deepseek/js/moe.js:143-148 | the rounds from i down to 1 only reorder |
| MoeShuffle.ShuffledPermutes | deepseek/js/moe.js:141-149 | the shuffle is a permutation of its input |
| MoeShuffle.ShuffledSameElements | deepseek/js/moe.js:141-149 | an entry is in the output exactly when it is in the input |
| MoeShuffle.ShortListsUnchanged | deepseek/js/moe.js:143 | lists of length 0 or 1 come back unchanged for every seed |
| MoeShuffle.TwoEntries | deepseek/js/moe.js:143-148 | a two-entry list is reversed exactly when the partner of position 1 is 0 |
| MoeShuffle.ShuffleStep | deepseek/js/moe.js:145-147 | one swap with the partner, followed by the rounds from i-1 with the next seed, is the rounds from i |
| MoeShuffle.ShuffleArray | deepseek/js/moe.js:141-149 | the array afterwards holds Shuffled(old contents, seed) |
| MoeSemantic.Slot | deepseek/js/moe.js:36-49 | a category's slot is below 8 |
| MoeSemantic.ExpertsOf | deepseek/js/moe.js:36-45 | every category lists three or four experts |
| MoeSemantic.ExpertsTable | deepseek/js/moe.js:36-45 | the eight expert lists are exactly those of the table |
| MoeSemantic.ExpertsOfFacts | deepseek/js/moe.js:36-45 | a category's experts are distinct, lie in [1, 31] and are congruent to its slot modulo 8 |
| MoeSemantic.PrimaryCategory | deepseek/js/moe.js:157-168 | logic, memory and audio are never primary; a text with a digit is always math |
| MoeSemantic.MatchesWord | deepseek/js/moe.js:158-166 | a text containing any keyword of an alternative matches it |
| MoeSemantic.LetterAGivesCategory | deepseek/js/moe.js:166 | any text with an `a` or `A` gets some primary category |
| MoeSemantic.Without | deepseek/js/moe.js:184 | filtering never lengthens the list |
| MoeSemantic.WithoutFacts | deepseek/js/moe.js:184 | the filter keeps only other categories, keeps distinctness and removes exactly one entry when the primary is present |
| MoeSemantic.WithoutAbsent | deepseek/js/moe.js:184 | filtering out an absent category changes nothing |
| MoeSemantic.WithoutAt | deepseek/js/moe.js:184 | filtering a present category removes exactly its position |
| MoeSemantic.OthersIsFilter | deepseek/js/moe.js:183-184 | the secondary list is `Object.keys` filtered by the primary |
| MoeSemantic.OthersShape | deepseek/js/moe.js:183-184 | there are 7 distinct secondary categories with a primary and 8 without |
| MoeSemantic.OthersExclude | deepseek/js/moe.js:184 | the primary is never a secondary category |
| MoeSemantic.PrimaryPicksFacts | deepseek/js/moe.js:171-180 | the primary part is three distinct experts of the primary category |
| MoeSemantic.PickPairFacts | deepseek/js/moe.js:186-190 | the two secondary rounds pick different categories and different experts |
| MoeSemantic.SecondaryCategoriesDiffer | deepseek/js/moe.js:186-189 | the two secondary categories differ from each other and from the primary |
| MoeSemantic.SecondaryPicksFacts | deepseek/js/moe.js:186-190 | both secondary experts lie in [1, 31], belong to their categories and differ |
| MoeSemantic.PickFromFacts | deepseek/js/moe.js:187-190 | a secondary pick lies in [1, 31] and belongs to its category |
| MoeSemantic.SecondaryPicksFresh | deepseek/js/moe.js:192 | the inclusion test of the secondary loop always passes: secondary picks are new, distinct and never expert 0 |
| MoeSemantic.PicksDistinct | deepseek/js/moe.js:151-198 | the semantic list has 5 entries with a category and 2 without, all distinct |
| MoeSemantic.PrimaryThenSecondaryDistinct | deepseek/js/moe.js:170-195 | the five experts picked with a primary category are distinct |
| MoeSemantic.PicksInRange | deepseek/js/moe.js:151-198 | every semantic expert is in [1, 31], so none is the shared expert 0 |
| MoeSemantic.PicksCategories | deepseek/js/moe.js:170-195 | three primary experts come first, then one expert each of two further, different categories |
| MoeSemantic.PicksWithoutCategory | deepseek/js/moe.js:182-195 | without a category the two picks come from different categories |
| MoeSemantic.SemanticExpertsShape | deepseek/js/moe.js:151-198 | for a token text: length 5 or 2, distinct, in [1, 31], the primary experts first |
| MoeSemantic.MathPicksAreMathExperts | deepseek/js/moe.js:171-179 | the math primary part is 8, 16 and 24 in some rotation |
| MoeSemantic.MathTokenStartsWithMathExperts | deepseek/js/moe.js:158-179 | a math text's first three semantic experts are 8, 16 and 24 |
| MoeSemantic.PushPrimary | deepseek/js/moe.js:171-180 | the primary loop produces the primary part |
| MoeSemantic.PushSecondary | deepseek/js/moe.js:186-195 | the secondary loop completes the semantic list |
| MoeSemantic.GetSemanticExperts | deepseek/js/moe.js:151-198 | the method returns SemanticExperts(text) |
| MoeRouter.Add | deepseek/js/moe.js:115 | `Set.add` contains the new element and exactly the old ones besides |
| MoeRouter.Available | deepseek/js/moe.js:121-124 | the candidate list has max(0, EXPERT_COUNT - 1) entries |
| MoeRouter.AddFacts | deepseek/js/moe.js:107-117 | adding keeps distinctness and insertion order, and grows the set by one exactly for a new element |
| MoeRouter.AddSemanticFresh | deepseek/js/moe.js:113-117 | distinct non-zero semantic experts are all added, in order |
| MoeRouter.FillFacts | deepseek/js/moe.js:130-136 | the fill loop keeps the prefix, stays distinct, stops at 8 and takes every candidate when it ends below 8 |
| MoeRouter.AvailableFacts | deepseek/js/moe.js:121-124 | the candidates are exactly 1 .. EXPERT_COUNT-1, each once |
| MoeRouter.StartIsSemanticPrefix | deepseek/js/moe.js:112-117 | the set after step 1 is the first min(3, n) semantic experts |
| MoeRouter.RouteFromFacts | deepseek/js/moe.js:106-139 | at most 8 distinct experts, never 0, the semantic prefix first, fill-ins in [1, EXPERT_COUNT-1], and every candidate present when fewer than 8 |
| MoeRouter.RouteFromSize | deepseek/js/moe.js:106-139 | the size is min(8, size of semantic prefix ∪ candidates) |
| MoeRouter.FullRoute | deepseek/js/moe.js:130-138 | with at least 9 experts exactly 8 are routed |
| MoeRouter.RouteFacts | deepseek/js/moe.js:106-139 | the routing facts for a token text, whose prefix is its first three semantic experts |
| MoeRouter.NoFillWithoutExperts | deepseek/js/moe.js:121-124 | with EXPERT_COUNT ≤ 1 only the semantic prefix is routed |
| MoeRouter.DigitTokenKeepsMathExperts | deepseek/js/moe.js:111-117 | a token with a digit is routed to 8, 16 and 24 first |
| MoeRouter.MathPrefixRouteSize | deepseek/js/moe.js:106-139 | with the math prefix the size is min(8, 3 + max(0, EXPERT_COUNT - 1)) |
| MoeRouter.DigitTokenRouteSize | deepseek/js/moe.js:106-139 | the same size for any token with a digit |
| MoeRouter.DigitTokenWithFourExperts | deepseek/js/moe.js:106-139 | "xyz123" with 4 experts gets 6 experts |
| MoeRouter.SelectExpertsForToken | deepseek/js/moe.js:106-139 | the method returns Route(text, EXPERT_COUNT) |
| MoeRouter.SelectFrom | deepseek/js/moe.js:119-138 | the set-building loops return RouteFrom |
| Frames.TokenIndexAt | deepseek/js/moe.js:88-91 | the current token index lies in [0, n) |
| Frames.DivWindow | deepseek/js/moe.js:89 | frame / d == k exactly when frame lies in [k d, (k+1) d) |
| Frames.TokenIndexMonotone | deepseek/js/moe.js:88-91 | later frames never show an earlier token |
| Frames.TokenIndexWindow | deepseek/js/moe.js:88-91 | token k < n-1 is current exactly on frames [k f, (k+1) f); the last token from (n-1) f on |
| Frames.EveryTokenShown | deepseek/js/moe.js:80-91 | every token has a frame before the stop frame on which it is current |
| MoeAnimation.MoEVisualizer.constructor | deepseek/js/moe.js:8-19 | 32 experts, no tokens, frame 0, not animating |
| MoeAnimation.MoEVisualizer.SetExpertCount | deepseek/js/moe.js:52-55 | the count becomes min(count, 32) and nothing else changes |
| MoeAnimation.MoEVisualizer.ResetAnimation | deepseek/js/moe.js:63-68 | frame 0, index 0, no experts, stopped; tokens and count kept |
| MoeAnimation.MoEVisualizer.Animate | deepseek/js/moe.js:77-104 | stopped: no change. Past the last frame: stops. Otherwise the frame advances, the index follows TokenIndexAt, and the experts are recomputed as Route exactly when the index changes. The index never decreases and the remaining frame count strictly drops |
| MoeAnimation.MoEVisualizer.ShowFrame | deepseek/js/moe.js:87-99 | one drawn frame: index update, routing on change, frame + 1 |
| MoeAnimation.MoEVisualizer.RouteToken | deepseek/js/moe.js:93-96 | token k becomes current with Route(tokens[k].text, EXPERT_COUNT) |
| MoeAnimation.MoEVisualizer.StartAnimation | deepseek/js/moe.js:70-75 | nothing without tokens; otherwise animating at frame 1 with token 0 current and unrouted |
| MoeAnimation.MoEVisualizer.ProcessTokens | deepseek/js/moe.js:57-61 | keeps the first 21 tokens, then resets and starts |
| Comparison.HexValue | js/comparison.js:455-457 | a hex digit's value is below 16 |
| Comparison.ParseByte | js/comparison.js:455-457 | two hex digits give a value in [0, 255] |
| Comparison.HexToRgb | js/comparison.js:452-459 | every component lies in [0, 255] |
| Comparison.CodeDigits | js/comparison.js:453 | a colour code yields six hex digits |
| Comparison.HexToRgbMatches | js/comparison.js:452-459 | a string matching `^#?` plus six hex digits is parsed pair by pair; any other string gives (255, 107, 107) |
| Comparison.WrongLengthFallsBack | js/comparison.js:453-458 | strings of length other than 6 and 7 give the fallback colour |
| Comparison.HexChar | js/comparison.js:455-457 | the digit written for v reads back as v |
| Comparison.ByteHex | js/comparison.js:455-457 | two hex digits written for a byte parse back to it |
| Comparison.HexRoundTrip | js/comparison.js:452-459 | writing a colour as hex, with or without `#`, and parsing it gives the colour back |
| Comparison.LowerHexDigit | js/comparison.js:453 | lower-casing keeps hex digits, their values and `#` |
| Comparison.HexToRgbIgnoresCase | js/comparison.js:453 | the `i` flag: upper and lower case parse alike |
| Comparison.ArchitectureOf | js/comparison.js:17-42 | exactly "mha", "mqa" and "gqa" are known, each with 32 query heads and 1 to 32 KV heads |
| Comparison.KvIndexIsGrouping | js/comparison.js:237-245 | all three branches are the single rule floor(qIdx · kvHeads / numHeads) |
| Comparison.MulDivBound | js/comparison.js:244 | floor(q k / n) lies in [0, k) for q < n |
| Comparison.KvIndexInRange | js/comparison.js:237-245 | each query head connects to an existing KV head |
| Comparison.KvIndexMonotone | js/comparison.js:237-245 | later query heads never connect to earlier KV heads |
| Comparison.GqaGroupsOfFour | js/comparison.js:242-245 | under GQA query head q connects to KV head q / 4 |
| Comparison.GqaHeadShare | js/comparison.js:237-245 | under GQA each KV head serves exactly the four query heads 4k .. 4k+3 |
| Comparison.ConnectionsUpToFacts | js/comparison.js:235-262 | a line (q, kv) is drawn exactly when q is below the bound, kv is its KV head and kv is shown; lines come in query order |
| Comparison.ConnectionsFacts | js/comparison.js:229-262 | the same for the first min(16, numHeads) query heads |
| Comparison.KnownArchitecturesDrawSixteen | js/comparison.js:229-262 | MHA, MQA and GQA each draw 16 lines |
| Comparison.AllConnected | js/comparison.js:235-247 | for those architectures every shown query head gets its line |
| Comparison.DrawQkvConnections | js/comparison.js:226-262 | the loop draws Connections(arch) while animating and nothing otherwise |
| Comparison.Tradeoffs | js/comparison.js:428-450 | four notes for a known architecture, none for any other key |
| Comparison.ComparisonVisualizer.constructor | js/comparison.js:2-14 | architecture "gqa", no tokens, frame 0, not animating |
| Comparison.ComparisonVisualizer.SetArchitecture | js/comparison.js:57-63 | only the architecture changes |
| Comparison.ComparisonVisualizer.ResetAnimation | js/comparison.js:72-76 | frame 0, index 0, stopped; tokens and architecture kept |
| Comparison.ComparisonVisualizer.Animate | js/comparison.js:85-109 | stop past n·10 + 20; otherwise frame + 1, with the index at TokenIndexAt, always a valid token and never decreasing |
| Comparison.ComparisonVisualizer.StartAnimation | js/comparison.js:78-83 | nothing without tokens, otherwise animating at frame 1 on token 0 |
| Comparison.ComparisonVisualizer.ProcessTokens | js/comparison.js:65-70 | takes all tokens, resets and starts |
| Tokens.DropSpace | main.js:162 | dropping leading whitespace never lengthens and shortens any text that starts with whitespace |
| Tokens.DropSpaceFacts | main.js:162 | the result is a suffix after whitespace only and starts with a non-space |
| Tokens.DropTrailingSpaceFacts | main.js:162 | the result is a prefix followed by whitespace only and ends with a non-space |
| Tokens.TrimFacts | main.js:162 | `trim` returns the middle of the text between whitespace flanks, with non-space ends, and is empty exactly for all-space text |
| Tokens.SplitFrom | main.js:246 | `split(/\s+/)` yields at least one piece |
| Tokens.NonEmpty | main.js:246 | the filter never lengthens and keeps only non-empty pieces of the split |
| Tokens.NonEmptyConcat | main.js:246 | dropping empty pieces does not change their concatenation |
| Tokens.SplitFromNoSpace | main.js:246 | no piece of the split contains whitespace |
| Tokens.SplitFromConcat | main.js:246 | the pieces concatenated are the text with its whitespace removed |
| Tokens.TextsAreWords | main.js:245-252 | the token texts are the non-empty pieces of the split, in order |
| Tokens.Tokenize | main.js:245-252 | token k has id k and position k |
| Tokens.TokensAreWords | main.js:245-252 | every token text is non-empty and whitespace-free |
| Tokens.TokensSpellInput | main.js:245-252 | the token texts concatenated are the input with its whitespace removed |
| Tokens.NoTokensIff | main.js:245-252 | there are no tokens exactly when the text is all whitespace |
| Tokens.JoinRoundTrip | main.js:245-252 | tokenizing words joined by single spaces gives the words back |
| Tokens.RemoveSpace | main.js:246 | removing whitespace leaves none |
| Tokens.TrimKeepsTokens | main.js:162-178 | trimming before tokenizing changes no token |
| Demo.DeepSeekDemo.constructor | main.js:12-34 | the default configuration, then the default text tokenized |
| Demo.DeepSeekDemo.SetProcessingState | main.js:345-346 | only the processing flag changes |
| Demo.DeepSeekDemo.ProcessInput | main.js:173-178 | processing starts and the tokens are those of the input text |
| Demo.DeepSeekDemo.HandleProcessClick | main.js:158-171 | ignored while processing or for blank text; otherwise the trimmed text becomes the input and the tokens are those of the typed text |
| Demo.DeepSeekDemo.ResetDemo | main.js:411-425 | ratio 4, 32 experts, speed 1.0, "gqa"; input and tokens unchanged |
| GalleryLikes.Toggled | tech_ireland_v2/js/main.js:113-127 | the team's membership flips and every other team's stays |
| GalleryLikes.LikesAfter | tech_ireland_v2/js/main.js:123-128 | an unlike takes one off a positive count and leaves a count of 0 or less (or none) at 0; a like adds one to the count, reading none as 0 |
| GalleryLikes.ToggledTwice | tech_ireland_v2/js/main.js:113-127 | two toggles restore the liked set |
| GalleryLikes.LikeThenUnlike | tech_ireland_v2/js/main.js:123-128 | a like then an unlike restores a non-negative count |
| GalleryLikes.UnlikeThenLike | tech_ireland_v2/js/main.js:123-128 | an unlike then a like restores a positive count |
| GalleryLikes.UnlikeAtZero | tech_ireland_v2/js/main.js:125 | unliking at zero or undefined gives 0, not -1 |
| GalleryLikes.Page.constructor | tech_ireland_v2/js/main.js:2-3 | no current project and nothing liked |
| GalleryLikes.Page.ShowProjectPopup | tech_ireland_v2/js/main.js:58-59 | the project becomes current |
| GalleryLikes.Page.HideProjectPopup | tech_ireland_v2/js/main.js:106 | no project is current |
| GalleryLikes.Page.ToggleLike | tech_ireland_v2/js/main.js:110-149 | no effect without a current project; otherwise the liked set is toggled and the count follows LikesAfter |
| GallerySearch.VisibleCount | tech_ireland_v2/js/main.js:273-287 | the count never exceeds the number of items |
| GallerySearch.NatToString | tech_ireland_v2/js/main.js:290 | a count is written as a non-empty run of decimal digits |
| GallerySearch.FirstWord | tech_ireland_v2/js/main.js:297 | `split(' ')[0]` is a space-free prefix ended by a space or the end of the text |
| GallerySearch.FirstWordOf | tech_ireland_v2/js/main.js:297 | a space-free word followed by a space is what `split(' ')[0]` returns |
| GallerySearch.HeadingShowsCount | tech_ireland_v2/js/main.js:290-297 | the heading shows just the count, whatever the query |
| GallerySearch.EmptyQueryShowsAll | tech_ireland_v2/js/main.js:277 | an empty query shows every item |
| GallerySearch.VisibleCountCounts | tech_ireland_v2/js/main.js:273-287 | the count is the number of visible items |
| GallerySearch.VisibleCountPrefix | tech_ireland_v2/js/main.js:273-287 | the running count never decreases |
| GallerySearch.RanksIncrease | tech_ireland_v2/js/main.js:279-283 | visible items get strictly increasing delay ranks, all below the total |
| GallerySearch.FilterTeams | tech_ireland_v2/js/main.js:271-292 | each item is shown exactly when visible, shown items get their rank among the visible ones, and the heading shows the visible count |
| GalleryCharts.FirstOccurrencesFacts | tech_ireland_v2/js/main.js:309-311 | the object's keys are the distinct values, each once |
| GalleryCharts.EntriesCount | tech_ireland_v2/js/main.js:309-311 | every entry holds its key's number of occurrences |
| GalleryCharts.EntriesHaveKey | tech_ireland_v2/js/main.js:309-311 | every key has its entry |
| GalleryCharts.TallySum | tech_ireland_v2/js/main.js:308-311 | the counts add up to the number of projects |
| GalleryCharts.InsertPermutes | tech_ireland_v2/js/main.js:317 | an insertion step adds exactly the one row |
| GalleryCharts.InsertStable | tech_ireland_v2/js/main.js:317 | the inserted row goes first among rows with its count and the other counts' rows keep their order |
| GalleryCharts.InsertSorted | tech_ireland_v2/js/main.js:317 | insertion keeps the rows sorted by count, largest first |
| GalleryCharts.SortDescOrdered | tech_ireland_v2/js/main.js:317 | the sorted rows are ordered by count, largest first, and are a permutation of the input |
| GalleryCharts.SortDescKeys | tech_ireland_v2/js/main.js:317 | sorting keeps the set of keys and their distinctness |
| GalleryCharts.SortDescSum | tech_ireland_v2/js/main.js:317 | sorting keeps the total |
| GalleryCharts.SortDescStable | tech_ireland_v2/js/main.js:317 | rows with equal counts keep their relative order |
| GalleryCharts.ChartFacts | tech_ireland_v2/js/main.js:307-317 | each distinct value has exactly one row carrying its count. The counts sum to the number of projects. The first row holds the largest count. Ties stay in first-occurrence order |
| GalleryCharts.CountBy | tech_ireland_v2/js/main.js:308-311 | the counting loop yields the entries Tally(values) |
| GalleryCharts.CreateCountyChart | tech_ireland_v2/js/main.js:307-345 | the county rows are the sorted county tally |
| GalleryCharts.CreateThemeChart | tech_ireland_v2/js/main.js:347-383 | the theme rows are the sorted theme tally |
| GalleryCharts.ThemeColor | tech_ireland_v2/js/main.js:429-439 | the colour is the grey default exactly for themes outside the six known ones |
| GalleryCharts.ThemeIcon | tech_ireland_v2/js/main.js:441-451 | the icon is the robot default exactly for themes outside the six known ones |

## Left out

- Drawing: `render`, the canvas, `requestAnimationFrame`, all DOM and CSS updates, notifications and the row HTML of the charts. The bar widths `(count / maxCount) * 60` are floating point.
- The timed hand-off in `processInput`: the `setTimeout` that passes the tokens to the visualizers and later clears the processing flag. Also the `try`/`catch` error path, which nothing in the modelled code can reach.
- Random data:
  - the token embeddings of `tokenize`, which are not part of a modelled token;
  - `generateAttentionPattern` in `ComparisonVisualizer.ProcessTokens` and `SetArchitecture`;
  - the connection alpha of `drawQKVConnections`.
- Browser storage of the liked set (`saveLikedProjects`, `loadLikedProjects`), and the search box debounce.
- The MLA visualizer, the analytics module, the map and the data loaders. They are not part of this model.
- MoeShuffle.Partner: rounds to doubles with no largest value. Beyond about 2^1024 JavaScript gives Infinity, which `>>> 0` turns into 0. Seeds are below 2^32 and positions below 32, so the products stay far below that.
- MoeHash.Code: `charCodeAt` reads UTF-16 code units, but a Dafny `char` is a Unicode scalar value. Characters outside the Basic Multilingual Plane hash differently.
- Text.LowerChar: `toLowerCase` is modelled for the ASCII letters only.
- Lookups in JavaScript objects (`expertTypes[...]`, `architectures[...]`, the tradeoff and theme tables) are modelled for their own keys. Inherited keys such as "constructor" are not modelled.
- GalleryCharts.CountBy, GalleryCharts.Tally: count each county or theme from zero, but `createCountyChart` and `createThemeChart` (tech_ireland_v2/js/main.js:308-311) count in plain objects. For a county or theme named "constructor", `counties[p.county] || 0` reads the inherited function, so the page shows a string, not a count.
- The counting object's key order: `Object.entries` lists integer-like keys first, in numeric order. The model keeps plain insertion order, which is what county and theme names get.
- `Math.max` over an empty chart (no projects) is not modelled.
- Comparison.KvIndex: requires numHeads > 0. The source divides by it, and every architecture has 32.
- MoeAnimation.MoEVisualizer.Valid: does not carry the equality between the routed experts and Route of the current token. The methods' postconditions state that equality on every frame where the routing is computed.
- MoeAnimation.MoEVisualizer.ResetAnimation: requires the token cap of 21 and the expert cap of 32 that every other method keeps, so that the object stays valid.
- MoeSemantic.PushSecondary: requires the list it is given to be the filtered category list and the primary part. The source builds both on the lines just before.
- Demo.DeepSeekDemo.ResetDemo: does not model the visualizer calls of `resetDemo`. Through `updateComparisonArchitecture` (main.js:210-224) it sets the comparison visualizer's architecture to "gqa" and, when there are tokens, hands them to it again. The `reset` methods it calls at main.js:432-434 do not exist on the visualizers, so those lines do nothing. `resetDemo` never calls `setExpertCount(32)`, so the MoE visualizer keeps its old expert count while the demo's own field says 32.
