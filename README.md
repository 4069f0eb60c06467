# MFC shop search: term scraping and query translation

This project models the core of a browser extension for MyFigureCollection (MFC) item and entry pages. The extension has two parts.

- **Term scraping** (`src/scrape.ts`) reads the page's labelled data rows into a `Terms` map, which sends a category name to a non-empty list of terms. A term is a plain string or an English/Japanese pair. Rules then add terms implied by the item's category: "Figure", "Keychain"/"Strap" and a "Product Type" category.
- **Query translation** (`src/ui.ts`) builds a Japanese-to-English dictionary from those terms. It segments the shop search query into dictionary matches and unmatched runs, longest match first, and shows them under the input. Clicking a shown segment removes it from the query. Clicking a term appends it to the query.

Modules:

- `Wrappers`: `Option`.
- `Records`: JavaScript objects with string keys, as insertion-ordered association lists.
- `Text`: `trim` and `join`.
- `Scrape`: rows, leaf text, name lists, `setCategory`, `hasTerms`, `addContextualTerms` and `scrapeTerms`. The `terms` object `scrapeTerms` fills in place is the class `TermMap`.
- `Dictionary`: the dictionary build.
- `Tokenizer`: the segmentation loop of `updateTranslation`.
- `QueryEditor`: the input, the segments shown and the three handlers that overwrite the query. This is the class `Editor`.

The loops of the dictionary build, the segmentation, the click handler, `scanRows`, `scrapeNameList` and `scrapeTerms` are methods with loop invariants, each proved equal to a specification function. The search loop of `hasTerms` is written directly as the recursive function `Scrape.AnyMentions`. The promised properties are proved about the specification functions.

Points where the code's behaviour differs from a quick reading of it:

- `trim` strips every ECMAScript whitespace and line-terminator character, not only spaces (`Text.Whitespace`).
- Every handler that writes the query assigns the `value` of a text input. The browser's value sanitization for such an input removes every line feed and carriage return (`Text.StripNewlines`). A term containing a line break is therefore stored with the text on both sides of it joined (`QueryEditor.AddedTermLosesLineBreak`).
- The click handler joins the remaining sources with single spaces and does not trim. An unmatched run keeps any whitespace it swallowed.
- A click does not always leave "the other segments". Removing one segment can change how the rest is segmented (`QueryEditor.RemovalCanChangeOthers`). Example: with the one key "ab", the query "xabab" shows "x", "ab", "ab". Removing the last segment writes "x ab", which segments as "x " and "ab". The model proves the restricted positive result: the other segments survive when all shown segments are matches and no key holds whitespace (`QueryEditor.RemovalKeepsOthers`).
- In `addContextualTerms`, each rule tests Category after the previous rule has appended to it. The pairs a rule appends never match a later rule, so every rule in effect tests the original Category (`Scrape.ContextualRules`).

## Model

| member | source | states |
|---|---|---|
| Records.Put | src/scrape.ts:86 | Assigning a key makes it map to the new value; every other key keeps its value |
| Records.PutKeys | src/ui.ts:120 | Assignment keeps the enumeration order: a present key keeps its place and a new key comes last |
| Records.PutKeyed | src/ui.ts:120 | Assignment never duplicates a key |
| Text.Trim | src/ui.ts:153 | `trim` gives a result no longer than its input that neither starts nor ends with whitespace |
| Text.TrimSplit | src/ui.ts:211 | `trim` removes whitespace and nothing else: the input is whitespace, the trimmed text, whitespace |
| Text.TrimUnique | src/ui.ts:211 | Any trimmed text wrapped in whitespace trims back to itself |
| Text.JoinTrimmed | src/ui.ts:177 | Joining non-empty trimmed parts gives a trimmed, non-empty text |
| Text.StripNewlinesLineFree | src/ui.ts:211 | The value a text input stores after an assignment holds no line feed or carriage return |
| Text.StripNewlinesKeeps | src/ui.ts:211 | A value without line breaks is stored unchanged |
| Text.StripNewlinesAppend | src/ui.ts:211 | Line breaks are removed character by character, independently of the surrounding text |
| Text.StripNewlinesTrimmed | src/ui.ts:211 | Storing a trimmed value keeps it trimmed |
| Text.JoinLineFree | src/ui.ts:177 | Joining parts without line breaks by a separator without them gives a text without them |
| Dictionary.AddCategory | src/ui.ts:118-121 | The inner loop writes `dict[jp] = en` for each pair of one category in order and skips plain terms |
| Dictionary.BuildDictionary | src/ui.ts:115-122 | The dictionary loops compute the dictionary of all categories in key order |
| Dictionary.AddTermsAppend | src/ui.ts:117-121 | Adding two runs of terms equals adding the first, then the second |
| Dictionary.LastTranslationNone | src/ui.ts:119-120 | No translation exists for a Japanese text exactly when no pair has it as its Japanese side |
| Dictionary.LastTranslationIsLast | src/ui.ts:119-120 | A translation comes from a pair with that Japanese side, and no later pair has that side |
| Dictionary.AddTermsLookup | src/ui.ts:117-121 | After adding terms, an entry holds the last pair's English for its Japanese side, otherwise the old entry |
| Dictionary.AddTermsKeyed | src/ui.ts:120 | Adding terms keeps dictionary keys distinct |
| Dictionary.FlattenHolds | src/ui.ts:117-118 | A term is visited exactly when some category holds it |
| Dictionary.DictionaryLookup | src/ui.ts:115-122 | The dictionary maps each Japanese side to the English of its last pair in category-then-position order; its keys are distinct; plain terms add nothing |
| Tokenizer.Longest | src/ui.ts:134-139 | The scan returns the running best, or an entry whose key starts the query and is strictly longer |
| Tokenizer.LongestMatch | src/ui.ts:131-139 | The inner loop computes the best match of the query |
| Tokenizer.LongestIsLongest | src/ui.ts:134-139 | No key that starts the query is longer than the one picked |
| Tokenizer.LongestIsFirst | src/ui.ts:134-139 | Among keys of the picked length, the scan picks the first in iteration order |
| Tokenizer.BestMatchIsLongest | src/ui.ts:131-139 | The match is the longest key starting the query, the first such key in order; it is empty exactly when no non-empty key starts the query |
| Tokenizer.LongestSameCandidates | src/ui.ts:134-139 | The scan depends only on which keys start the query |
| Tokenizer.MatchIsOwnMatch | src/ui.ts:134-139 | A match is also the match of its own text |
| Tokenizer.Advance | src/ui.ts:130-154 | Each iteration of the `while` loop shortens the query, so the loop ends |
| Tokenizer.Step | src/ui.ts:130-154 | The loop body pushes what one iteration emits and leaves the rest of the query and the pending run it defines |
| Tokenizer.Tokenize | src/ui.ts:126-159 | The loop and the final flush compute the segmentation of the input |
| Tokenizer.TokensOk | src/ui.ts:141-158 | Every pushed segment is well formed: runs are non-empty and a match is a non-empty entry of the dictionary that is its own match |
| Tokenizer.TokensLiteralsApart | src/ui.ts:147-158 | Two unmatched runs are never adjacent |
| Tokenizer.SegmentationShape | src/ui.ts:124-159 | Every segment of any query is well formed, and no two runs are adjacent |
| Tokenizer.TokensLayout | src/ui.ts:141-158 | The segments' sources, each followed by whitespace, and a trailing whitespace tail rebuild the query |
| Tokenizer.SegmentationLayout | src/ui.ts:124-159 | The query is the sources of its segments in order, with only whitespace between and after them; whitespace is dropped only after a match |
| Tokenizer.TokensNoMatch | src/ui.ts:141-145 | Where no key starts anywhere, the pending run absorbs the whole query |
| Tokenizer.SegmentationNoMatch | src/ui.ts:128-159 | With no key found anywhere in the query, it is one unmatched run, or nothing when it is empty |
| Tokenizer.MatchBeforeSpace | src/ui.ts:134-139 | With whitespace-free keys, text after whitespace does not change the match of a preceding match |
| Tokenizer.RejoinStep | src/ui.ts:147-153 | A well-formed match, a space and a trimmed tail segment as that match and then the tail |
| Tokenizer.RejoinMatched | src/ui.ts:172-178 | Joining well-formed matches' sources with spaces and segmenting again gives the same matches back, when no key holds whitespace |
| Tokenizer.Sources | src/ui.ts:172-174 | The sources are the first element of each segment, in order |
| QueryEditor.Editor.constructor | src/ui.ts:186-191 | The query section starts with an empty input, no segments and the dictionary of the page's terms |
| QueryEditor.Editor.UpdateTranslation | src/ui.ts:124-159 | `updateTranslation` leaves the query alone and shows its segmentation |
| QueryEditor.Editor.Input | src/ui.ts:191 | Typing sets the query and shows its segments |
| QueryEditor.Editor.RemoveSegment | src/ui.ts:168-179 | A click on segment i stores the other segments' sources joined by single spaces (with line breaks removed by the input), then shows the new segmentation |
| QueryEditor.Editor.AddTerm | src/ui.ts:208-213 | `addTerm` stores `trim(query + " " + term)` with line breaks removed by the input, then shows the new segmentation |
| QueryEditor.RemovalKeepsOthers | src/ui.ts:168-179 | With whitespace-free keys and only matches shown, a click leaves exactly the other segments in order |
| QueryEditor.RemovalCanChangeOthers | src/ui.ts:168-179 | Otherwise a click can change untouched segments: the joining space merges into an unmatched run |
| QueryEditor.RemovalMergesSpace | src/ui.ts:168-179 | The same merge for any unmatched character before two copies of any two-character key |
| QueryEditor.AddedQueryParts | src/ui.ts:209-211 | `trim(query + " " + term)` is the trimmed query and the trimmed term in order, with at least one whitespace between them when both are non-empty; a blank side gives the other trimmed |
| QueryEditor.AddedQueryShape | src/ui.ts:209-211 | The query `addTerm` stores is trimmed and holds no line break |
| QueryEditor.AddedQueryLineFree | src/ui.ts:209-211 | Without line breaks in the query and the term, `addTerm` stores `trim(query + " " + term)` itself |
| QueryEditor.AddedTermLosesLineBreak | src/ui.ts:209-211 | A term with a line feed between two characters is stored with the two characters joined |
| Scrape.ScanRows | src/scrape.ts:40-54 | `scanRows` skips fields missing a label or value, and a later label overwrites an earlier one |
| Scrape.RowsOfLastWins | src/scrape.ts:44-51 | The row under a label is the value of the last field supplying it; none exactly when no field supplies it |
| Scrape.RowsOfKeyed | src/scrape.ts:50 | No label occurs twice among the rows |
| Scrape.ScrapeText | src/scrape.ts:30-36 | A leaf is plain exactly when it has no `switch` text; otherwise a pair with the displayed text on the page's language side and the `switch` text on the other |
| Scrape.LeafPairIndependentOfLanguage | src/scrape.ts:33-36 | A bilingual leaf gives the same pair whichever language the page shows |
| Scrape.DefinedOfSomes | src/scrape.ts:84 | Filtering out undefined values keeps all the defined values in order |
| Scrape.WithCategory | src/scrape.ts:83-87 | `setCategory` stores the defined values under the key unless there are none, and changes no other key |
| Scrape.WithCategoryWellFormed | src/scrape.ts:83-87 | `setCategory` never stores an empty list and never duplicates a category |
| Scrape.TrimmedTextsBound | src/scrape.ts:56-76 | A name list has at most one entry per child node |
| Scrape.ScrapeNameList | src/scrape.ts:56-76 | `scrapeNameList` returns exactly the trimmed text nodes in order: breaks, notes after a text node and other elements give nothing |
| Scrape.AnyMentionsExists | src/scrape.ts:140-148 | The search finds a mention exactly when some index holds a mentioned term |
| Scrape.HasTermsMeans | src/scrape.ts:137-149 | `hasTerms` is false for a missing category, else true exactly when some plain term, or either side of some pair, is a match term |
| Scrape.TermMap.constructor | src/scrape.ts:81 | `scrapeTerms` starts from an empty map |
| Scrape.TermMap.SetCategory | src/scrape.ts:83-87 | The in-place `setCategory` updates the map as `WithCategory` says |
| Scrape.TermMap.AddContextualTerms | src/scrape.ts:151-172 | The in-place rules update the map as the three rules in order say |
| Scrape.ScrapeHeader | src/scrape.ts:91-104 | The "Category" and name steps update the map in that order |
| Scrape.ScrapeGroup | src/scrape.ts:117-121 | Each present label of a group overwrites the group's category with its leaf terms |
| Scrape.ScrapeGroups | src/scrape.ts:116-122 | The alias loop applies every group in order |
| Scrape.ScrapeNameLists | src/scrape.ts:125-130 | The name-list loop stores each present list of more than one entry |
| Scrape.ScrapeTerms | src/scrape.ts:78-135 | `scrapeTerms` returns a fresh map holding the terms of the scanned rows under the page's language |
| Scrape.LastContributionNone | src/scrape.ts:116-122 | No label contributes to a group exactly when the group has no last contribution |
| Scrape.LastContributionIsLast | src/scrape.ts:116-122 | The last contribution comes from a contributing label with no contributing label after it |
| Scrape.WithLabelsFrame | src/scrape.ts:117-121 | A group writes only its canonical category |
| Scrape.WithLabelsLastWins | src/scrape.ts:117-121 | A group's category holds its last contributing label's terms, or stays as it was |
| Scrape.WithGroupsFrame | src/scrape.ts:116-122 | A key that heads no group is untouched by the groups |
| Scrape.WithGroupsLookup | src/scrape.ts:116-122 | With distinct heads, each group's category is decided by its own labels alone |
| Scrape.WithNameListsFrame | src/scrape.ts:125-130 | Only the name-list keys are written by the name-list step |
| Scrape.WithNameListsLookup | src/scrape.ts:125-130 | Each name-list category holds its row's list when it has more than one entry, or is left as it was |
| Scrape.AnyMentionsAppend | src/scrape.ts:140-148 | A concatenation mentions a match term exactly when one of its parts does |
| Scrape.AppendIfMentionedCategory | src/scrape.ts:153-163 | An appending rule extends Category at its end exactly when Category mentions one of its match terms |
| Scrape.AppendIfMentionedFrame | src/scrape.ts:153-163 | An appending rule changes no other category and keeps the key order |
| Scrape.AppendedMatchNothing | src/scrape.ts:153-172 | The pairs a rule appends never match a later rule |
| Scrape.CategoryRulesCategory | src/scrape.ts:153-163 | After the first two rules, Category is the original, then Figure and Keychain/Strap when their rules fire on the original |
| Scrape.CategoryRulesCharacters | src/scrape.ts:166 | The last rule's test sees what the original Category mentions |
| Scrape.CategoryRulesFrame | src/scrape.ts:153-163 | The first two rules change only Category and keep the key order |
| Scrape.CategoryRulesKeys | src/scrape.ts:153-163 | The first two rules keep the key order and leave "Product Type" alone |
| Scrape.SetProductTypeFrame | src/scrape.ts:166-172 | The last rule sets only "Product Type", adding the key last when it was missing |
| Scrape.SetProductTypeKeys | src/scrape.ts:166-172 | The last rule adds "Product Type" to the key order, at its end, only when it fires and the key was missing |
| Scrape.ContextualRules | src/scrape.ts:151-163 | Category keeps its terms in order, then gains Figure, then Keychain and Strap, each exactly when the original Category mentions its match terms |
| Scrape.ContextualProductType | src/scrape.ts:166-172 | "Product Type" becomes the three fixed pairs exactly when the original Category mentions "Characters", else it is unchanged |
| Scrape.ContextualFrame | src/scrape.ts:151-172 | No other category changes |
| Scrape.ContextualKeys | src/scrape.ts:151-172 | Only "Product Type" can join the key order, and at its end |
| Scrape.WithCategorySingle | src/scrape.ts:92 | `setCategory` of one defined term stores it alone and changes nothing else |
| Scrape.HeaderLookup | src/scrape.ts:91-104 | Before the groups, only "Category" (the row's text) and "Name" (the merged name) are set |
| Scrape.KeysDistinct | src/scrape.ts:106-125 | The group heads and name-list keys are distinct from each other and from the other categories |
| Scrape.ScrapeName | src/scrape.ts:96-104 | "Name" is the English/Japanese pair when both rows exist, the plain text of whichever exists alone, else absent |
| Scrape.ScrapeGroupCategory | src/scrape.ts:106-122 | An aliased category holds the terms of its last present label with non-empty terms; absent when there is none |
| Scrape.ScrapeNameListCategory | src/scrape.ts:124-130 | "Aliases" and "Adaptations/Translations" hold their parsed list exactly when it has more than one entry |
| Scrape.ListedCategory | src/scrape.ts:91-130 | Before the rules, Category is the row's text and "Product Type" is absent |
| Scrape.ScrapeCategory | src/scrape.ts:151-172 | Category is the row's text, then Figure for a figure kind, then Keychain and Strap for "Hanged up"; "Product Type" is the three fixed pairs exactly when the text is "Characters" |
| Scrape.WithLabelsWellFormed | src/scrape.ts:116-122 | The alias step keeps every category non-empty and unique |
| Scrape.WithGroupsWellFormed | src/scrape.ts:116-122 | All groups keep every category non-empty and unique |
| Scrape.WithNameListsWellFormed | src/scrape.ts:125-130 | The name-list step keeps every category non-empty and unique |
| Scrape.AppendIfMentionedWellFormed | src/scrape.ts:153-163 | An appending rule keeps every category non-empty and unique |
| Scrape.ContextualWellFormed | src/scrape.ts:151-172 | The rules keep every category non-empty and unique |
| Scrape.ScrapeWellFormed | src/scrape.ts:78-135 | Every category of a scraped page is unique and holds at least one term |

## Left out

- The DOM is given as values. Each row's value node is its displayed text (`innerText`), the leaf elements the `a:not(:has(span)), span` selector finds in it (text and `switch` attribute), and its child nodes by node name. The selector, the `span` lookup in the leaf rule and the CSS class queries are not modelled.
- The language switch (src/scrape.ts:20-22) is a parameter: the text of the switch, if there is one.
- Rendering: the `span` elements, `replaceChildren` and the listener wiring are not modelled. The click handler and the `input` event are the methods `RemoveSegment` and `Input`.
- `Editor.Input` takes the value the input holds after the user's edit; the browser has already applied its sanitization to it.
- `getQuery` (src/ui.ts:204-206) only reads the input's value, which is the `query` field.
- Strings are sequences of Unicode characters, not UTF-16 code units. `slice(0, 1)` on a character outside the Basic Multilingual Plane splits it in the source but not in the model.
- JavaScript enumerates integer-like keys (such as "12") before other keys, in numeric order. The records here keep plain insertion order for every key. This only matters for a dictionary key or category name made of ASCII digits.
- src/main.ts, src/merchants.ts, src/assets.ts and vite.config.ts (the shop links, search URLs, styling and build) are not part of this model.
