# Documentation-site logic, modelled in Dafny

This project models the deterministic logic of the interactive documentation
site's React components:

- the client-side **search index**: a replaceable document list, a two-tier
  fuzzy scorer and ranked queries;
- the **text-safety utilities**: HTML escaping, regular-expression escaping,
  the class-name joiner and the JSON-LD guard against `</`;
- **result highlighting** and the empty-state and count label of the results
  view;
- the schema.org **structured-data** builders and the OpenGraph and Twitter
  **SEO** records;
- the run-time **type guards**, over a small model of JavaScript values;
- the **tutorial widgets** as state machines: the quiz, the step-by-step
  tutorial, the slash-command simulator and the code playground;
- the shared **hooks**: controlled or uncontrolled state, and the key and
  modifier rule of keyboard shortcuts.

One module per source file: `SearchIndex` (search_index.dfy), `TextSafety`
(text_safety.dfy), `SearchResults` (search_results.dfy), `StructuredData`
(structured_data.dfy), `SeoHead` (seo_head.dfy), `TypeGuards`
(type_guards.dfy), `Quiz` (quiz.dfy), `StepByStep` (step_by_step.dfy),
`CommandSimulator` (command_simulator.dfy), `CodePlayground`
(code_playground.dfy) and `Hooks` (hooks.dfy). `JsStrings` (js_strings.dfy)
holds the JavaScript string primitives they share: `toLowerCase` (ASCII
letters), `trim` (the full JavaScript whitespace and line-terminator set),
`startsWith`, `includes`, `split`, `join` and string truthiness.
`Wrappers` holds `Option`.

Component state that React keeps in `useState` is a class whose fields the
handler methods update. The callbacks `onStepChange`, `onCommandExecute` and
`onChange` are modelled as a log field that records their arguments. `onAnswer`
is modelled as the value `HandleSubmit` returns: an `AnswerReport` when an
answer is submitted, `None` otherwise. Scores are exact rationals (`real`), so
the threshold 0.3 is exactly 3/10; "## Left out" says where this differs from
the source's floating-point arithmetic.

Where the code and its design notes disagree, the model follows the code:

- `highlightText` does not sanitise its input.
- The structured-data builders copy free text without `sanitizeForJsonLd`.
- `getAllDocuments` returns the index itself, not a copy.
- A snippet of absent content is `"undefined..."`, because `+` binds tighter
  than `||`.
- The fuzzy score can reach 1 without a substring match. For example, "ba"
  against "ab" scores 1, because text characters are not consumed.

## Model

| member | source | states |
|---|---|---|
| `SearchIndex.FuzzyMatch` | ecc-docs/src/components/search/searchIndex.ts:62-82 | The counting loop returns the score of the specification: 1 for a case-insensitive substring, otherwise the found query characters over the query length |
| `SearchIndex.FuzzyScore` | ecc-docs/src/components/search/searchIndex.ts:62-82 | Every fuzzy score lies in [0, 1] |
| `SearchIndex.FuzzySubstring` | ecc-docs/src/components/search/searchIndex.ts:66-69 | A case-insensitive substring scores exactly 1 |
| `SearchIndex.FuzzyEmptyQuery` | ecc-docs/src/components/search/searchIndex.ts:63-69 | The empty query scores 1, before any division |
| `SearchIndex.FuzzyRatio` | ecc-docs/src/components/search/searchIndex.ts:71-81 | Without a substring match, the query is non-empty and the score is the share of query positions whose lower-cased character occurs in the text |
| `SearchIndex.PresentCountPositions` | ecc-docs/src/components/search/searchIndex.ts:75-79 | The loop's count equals the number of query positions whose character occurs in the text, counted with repetition and without consuming text |
| `SearchIndex.FuzzyFullWithoutSubstring` | ecc-docs/src/components/search/searchIndex.ts:71-81 | "ba" is no substring of "ab" yet scores 1, because characters are not consumed |
| `SearchIndex.ScoreDocument` | ecc-docs/src/components/search/searchIndex.ts:111-113 | A document's combined score is (2·title score + content score)/3, with absent content scored as "" |
| `SearchIndex.CombinedScore` | ecc-docs/src/components/search/searchIndex.ts:111-113 | The combined score lies in [0, 1] |
| `SearchIndex.ExactMatchScore` | ecc-docs/src/components/search/searchIndex.ts:111-113 | A full title match alone gives a combined score of at least 2/3, a full content match alone at least 1/3 |
| `SearchIndex.Snippet` | ecc-docs/src/components/search/searchIndex.ts:119 | The snippet is at most 150 content characters followed by "...", always; absent content gives "undefined..." |
| `SearchIndex.Candidates` | ecc-docs/src/components/search/searchIndex.ts:110-123 | The loop pushes at most one result per document, and each pushed result scores above 0.3 |
| `SearchIndex.InsertByScore` | ecc-docs/src/components/search/searchIndex.ts:126 | Insertion lengthens the ranking by one and the new result is in it |
| `SearchIndex.InsertByScoreStable` | ecc-docs/src/components/search/searchIndex.ts:126 | Insertion is stable: among results with the same score, the inserted one comes last and the others keep their order |
| `SearchIndex.InsertByScorePermutes` | ecc-docs/src/components/search/searchIndex.ts:126 | Inserting a result into a ranking adds exactly that result |
| `SearchIndex.InsertByScoreSorted` | ecc-docs/src/components/search/searchIndex.ts:126 | Inserting a result keeps a ranking ordered by non-increasing score |
| `SearchIndex.SortByScore` | ecc-docs/src/components/search/searchIndex.ts:126 | The sort returns a permutation of its input ordered by non-increasing score. It is stable: for every score, the results with that score appear in input order |
| `SearchIndex.Index.constructor` | ecc-docs/src/components/search/searchIndex.ts:23-57 | Before any rebuild the index holds the five built-in documents in declaration order |
| `SearchIndex.Index.BuildSearchIndex` | ecc-docs/src/components/search/searchIndex.ts:92-98 | A given list replaces the whole index; none leaves it unchanged; either way the returned list equals the index |
| `SearchIndex.Index.GetAllDocuments` | ecc-docs/src/components/search/searchIndex.ts:134-136 | Returns the current index and changes nothing |
| `SearchIndex.Index.SearchDocuments` | ecc-docs/src/components/search/searchIndex.ts:103-129 | A blank query gives no results. Otherwise the results are the above-threshold candidates, permuted into non-increasing score order, with equal scores kept in index order |
| `SearchIndex.CandidateOrigin` | ecc-docs/src/components/search/searchIndex.ts:110-123 | Every candidate is the result of an indexed document whose combined score exceeds 0.3 |
| `SearchIndex.CandidateComplete` | ecc-docs/src/components/search/searchIndex.ts:110-123 | Every indexed document whose combined score exceeds 0.3 has its result among the candidates |
| `SearchIndex.ResultsSound` | ecc-docs/src/components/search/searchIndex.ts:110-126 | There are no more results than documents. Each result copies an indexed document's title, url and snippet, and carries that document's combined score, which is above 0.3 |
| `SearchIndex.SubstringScoresAboveThreshold` | ecc-docs/src/components/search/searchIndex.ts:111-115 | A document whose title or content contains the query ignoring case scores at least 1/3, which exceeds 0.3 |
| `SearchIndex.SubstringIsFound` | ecc-docs/src/components/search/searchIndex.ts:104-126 | Every indexed document containing the query ignoring case is among the results |
| `TextSafety.SanitizeHTML` | ecc-docs/src/components/shared/utils.ts:12-19 | Escaping never shortens the text |
| `TextSafety.SanitizeIsCharMap` | ecc-docs/src/components/shared/utils.ts:12-19 | The five chained replacements equal the one-pass per-character entity map, because `&` goes first and later passes meet no character they replace |
| `TextSafety.SanitizeHasNoMarkup` | ecc-docs/src/components/shared/utils.ts:12-19 | The output contains no `<`, `>`, `"` or `'` |
| `TextSafety.SanitizeIdentity` | ecc-docs/src/components/shared/utils.ts:12-19 | Text without the five special characters is unchanged |
| `TextSafety.SanitizeRoundTrip` | ecc-docs/src/components/shared/utils.ts:12-19 | Decoding the five entities recovers the input exactly |
| `TextSafety.SanitizeAppend` | ecc-docs/src/components/shared/utils.ts:12-19 | Sanitising a concatenation concatenates the sanitised parts |
| `TextSafety.SanitizeExample` | ecc-docs/src/components/__tests__/refactor.test.tsx:46-48 | 'Hello <b>world</b>' becomes 'Hello &lt;b&gt;world&lt;/b&gt;' |
| `TextSafety.EscapeRegex` | ecc-docs/src/components/shared/utils.ts:25-27 | The output length is the input length plus the number of metacharacters |
| `TextSafety.EscapeRegexRoundTrip` | ecc-docs/src/components/shared/utils.ts:25-27 | Removing the backslash before each escaped metacharacter recovers the input exactly |
| `TextSafety.EscapeRegexPairs` | ecc-docs/src/components/shared/utils.ts:25-27 | Every metacharacter of the input appears in the output right after a backslash |
| `TextSafety.EscapeRegexExample` | ecc-docs/src/components/__tests__/acceptance.test.tsx:680 | 'test.+?' becomes `test\.\+\?` |
| `TextSafety.KeptClasses` | ecc-docs/src/components/shared/utils.ts:59-63 | The filter keeps exactly the non-empty string arguments: each kept name is one of them, and each of them is kept |
| `TextSafety.KeptClassesAppend` | ecc-docs/src/components/shared/utils.ts:62 | The filter distributes over concatenation, so it keeps the arguments' order |
| `TextSafety.ClassNames` | ecc-docs/src/components/shared/utils.ts:59-63 | The joined result is empty exactly when the filter keeps nothing |
| `TextSafety.ClassNamesSplit` | ecc-docs/src/components/shared/utils.ts:59-63 | Splitting the joined names on single spaces gives back exactly the kept names in order |
| `TextSafety.ClassNamesEmpty` | ecc-docs/src/components/shared/utils.ts:59-63 | The result is empty exactly when no argument is a non-empty string |
| `TextSafety.ClassNamesExample` | ecc-docs/src/components/shared/utils.ts:55-57 | ('a', false, undefined, null, 'b', '') gives "a b" |
| `TextSafety.SanitizeForJsonLd` | ecc-docs/src/components/shared/utils.ts:69-71 | The output grows by one character per replaced `</` and keeps the first character |
| `TextSafety.JsonLdHasNoCloseTag` | ecc-docs/src/components/shared/utils.ts:69-71 | The output never contains `</` |
| `TextSafety.JsonLdIdentity` | ecc-docs/src/components/shared/utils.ts:69-71 | Input without `</` is unchanged |
| `TextSafety.JsonLdIsInsertion` | ecc-docs/src/components/shared/utils.ts:69-71 | The left-to-right replacement equals inserting a backslash after every `<` that a `/` follows |
| `TextSafety.JsonLdExample` | ecc-docs/src/components/__tests__/acceptance.test.tsx:676-678 | '</script>' becomes `<\/script>` |
| `SearchResults.SplitFrom` | ecc-docs/src/components/search/SearchResults.tsx:34 | A split with a capturing group has an odd number of pieces |
| `SearchResults.HighlightText` | ecc-docs/src/components/search/SearchResults.tsx:31-43 | One segment per split piece, an odd number of them, and a segment is marked only for a non-empty query and only when it equals the query ignoring case |
| `SearchResults.HighlightEmptyQuery` | ecc-docs/src/components/search/SearchResults.tsx:32 | An empty query returns the text unchanged as one segment |
| `SearchResults.SplitFromConcat` | ecc-docs/src/components/search/SearchResults.tsx:34 | The pieces of the case-insensitive split concatenate to the text |
| `SearchResults.SplitFromShape` | ecc-docs/src/components/search/SearchResults.tsx:34 | The split has an odd number of pieces. Odd pieces equal the query ignoring case, and even pieces hold no occurrence of it |
| `SearchResults.HighlightPreservesText` | ecc-docs/src/components/search/SearchResults.tsx:31-43 | For a literal query, the segments' texts concatenate to the original text |
| `SearchResults.HighlightAlternates` | ecc-docs/src/components/search/SearchResults.tsx:34-42 | Segments alternate plain, marked, plain, and so on. A segment is marked exactly at odd positions, marked ones equal the query ignoring case, and plain ones hold no occurrence |
| `SearchResults.HighlightExample` | ecc-docs/src/components/__tests__/advanced-features.test.tsx:190-205 | 'TDD' inside 'Learn TDD with examples' is the one marked segment |
| `SearchResults.CountLabel` | ecc-docs/src/components/search/SearchResults.tsx:64 | One result reads "1 result found"; any other count n reads "n results found" |
| `SearchResults.RenderItem` | ecc-docs/src/components/search/SearchResults.tsx:68-91 | The item links to the result's url, shows the category exactly when it is truthy, and has a title and a snippet |
| `SearchResults.RenderResults` | ecc-docs/src/components/search/SearchResults.tsx:51-65 | The empty state appears exactly for no results; otherwise the list has the count label and one item per result |
| `SearchResults.RenderResultsShape` | ecc-docs/src/components/search/SearchResults.tsx:51-91 | No results gives the empty state naming the query. Otherwise item k renders result k, and the label says "result" for one and "results" for more |
| `SearchResults.RenderItemFields` | ecc-docs/src/components/search/SearchResults.tsx:80-88 | Without highlighting, title and snippet pass through verbatim; with it, their text is kept |
| `StructuredData.GenerateArticleSchema` | ecc-docs/src/components/seo/StructuredData.tsx:44-62 | The record is an Article whose headline and description are the input's, by a Person named by the author |
| `StructuredData.ArticleDates` | ecc-docs/src/components/seo/StructuredData.tsx:50-51 | dateModified is the given one when non-empty, otherwise datePublished |
| `StructuredData.ArticleOptionalFields` | ecc-docs/src/components/seo/StructuredData.tsx:56-60 | Image and page id are present exactly when given non-empty, and then verbatim |
| `StructuredData.GenerateHowToSchema` | ecc-docs/src/components/seo/StructuredData.tsx:67-83 | A HowTo record copying name, description, totalTime and image, with one step per input step |
| `StructuredData.HowToStepsNumbered` | ecc-docs/src/components/seo/StructuredData.tsx:75-81 | Step i copies input step i's name, text and image, the positions increase, and they are exactly 1..n |
| `StructuredData.GenerateWebsiteSchema` | ecc-docs/src/components/seo/StructuredData.tsx:88-104 | A WebSite record copying name, url and description, with a SearchAction whose query-input is the fixed constant |
| `StructuredData.WebsiteUrlTemplate` | ecc-docs/src/components/seo/StructuredData.tsx:99 | The template is the search URL if given, else url + "/search", followed by "?q={search_term_string}" |
| `SeoHead.GenerateOGTags` | ecc-docs/src/components/seo/SEOHead.tsx:40-50 | ogTitle and ogDescription are the input's title and description |
| `SeoHead.OGDefaults` | ecc-docs/src/components/seo/SEOHead.tsx:46-48 | Image and type are the given ones when non-empty, else '/img/og-default.png' and 'website' |
| `SeoHead.OGUrlIsConcatenation` | ecc-docs/src/components/seo/SEOHead.tsx:41-47 | ogUrl is the origin followed by the url, an absent url counting as empty |
| `SeoHead.OGUrlWithoutWindow` | ecc-docs/src/components/seo/SEOHead.tsx:41 | Without a window the URL is just the path |
| `SeoHead.GenerateTwitterMeta` | ecc-docs/src/components/seo/SEOHead.tsx:55-62 | The card is always 'summary_large_image', and the title and description are copied |
| `SeoHead.TwitterImage` | ecc-docs/src/components/seo/SEOHead.tsx:60 | The image is the given one when non-empty, else '/img/twitter-default.png' |
| `TypeGuards.IsSearchResultIff` | ecc-docs/src/components/shared/types.ts:22-30 | True exactly for objects whose title, url and snippet are strings |
| `TypeGuards.NonObjectsAreNotSearchResults` | ecc-docs/src/components/shared/types.ts:23 | Null, primitives, functions and arrays without those fields are rejected |
| `TypeGuards.OtherFieldsIgnored` | ecc-docs/src/components/shared/types.ts:25-29 | Setting or removing any other field never changes the verdict |
| `TypeGuards.SearchResultExamples` | ecc-docs/src/components/__tests__/refactor.test.tsx:34-38 | {title:'Missing URL'} and null are rejected; a full result with a category is accepted |
| `TypeGuards.IsInteractivePropsIff` | ecc-docs/src/components/shared/types.ts:42-45 | True exactly for objects whose onAction is a function |
| `Quiz.StatusOf` | ecc-docs/src/components/interactive/Quiz.tsx:68-80 | No option is marked both correct and incorrect |
| `Quiz.QuizState.constructor` | ecc-docs/src/components/interactive/Quiz.tsx:31-33 | Starts with no selection, not submitted, not correct |
| `Quiz.QuizState.HandleSelect` | ecc-docs/src/components/interactive/Quiz.tsx:35-39 | Before submission the selection becomes the option; after submission nothing changes |
| `Quiz.QuizState.HandleSubmit` | ecc-docs/src/components/interactive/Quiz.tsx:41-49 | With no selection nothing changes and nothing is reported. Otherwise it is submitted, graded against the correct answer and reported as {correct, selectedIndex}. isCorrect implies isSubmitted is kept |
| `Quiz.QuizState.HandleReset` | ecc-docs/src/components/interactive/Quiz.tsx:51-55 | Restores no selection, not submitted, not correct |
| `Quiz.StatusMarks` | ecc-docs/src/components/interactive/Quiz.tsx:67-80 | After submission the correct option is marked correct and a selected wrong one incorrect. Only a selected option is marked incorrect, and nothing is graded before submission |
| `Quiz.FeedbackOf` | ecc-docs/src/components/interactive/Quiz.tsx:133-147 | Feedback shows exactly after submission, and it reads "Correct!" exactly for a correct answer |
| `Quiz.FeedbackAgreesWithStatus` | ecc-docs/src/components/interactive/Quiz.tsx:133-140 | In a consistent state "Correct!" shows exactly when the selected option is marked correct |
| `Quiz.QuizScenario` | ecc-docs/src/components/interactive/Quiz.tsx:35-55 | A wrong answer is reported, selection is locked after submission, and a reset allows a right answer |
| `StepByStep.IndicatorOf` | ecc-docs/src/components/interactive/StepByStep.tsx:86-88 | An active indicator is never completed |
| `StepByStep.Tutorial.constructor` | ecc-docs/src/components/interactive/StepByStep.tsx:35 | The internal step starts at 0 and nothing is reported |
| `StepByStep.Tutorial.SetControlledStep` | ecc-docs/src/components/interactive/StepByStep.tsx:31-39 | A new controlled step from the parent leaves the internal step and the report log alone |
| `StepByStep.Tutorial.HandleStepChange` | ecc-docs/src/components/interactive/StepByStep.tsx:41-46 | Only an uncontrolled tutorial moves its internal step; the requested step is reported in both modes |
| `StepByStep.Tutorial.GoToNext` | ecc-docs/src/components/interactive/StepByStep.tsx:48-52 | Advances by one only below the last step; otherwise no change and no report; the step stays in range |
| `StepByStep.Tutorial.GoToPrev` | ecc-docs/src/components/interactive/StepByStep.tsx:54-58 | Moves back by one only above step 0; otherwise no change and no report |
| `StepByStep.Tutorial.ClickIndicator` | ecc-docs/src/components/interactive/StepByStep.tsx:89 | Clicking indicator i requests and reports step i |
| `StepByStep.IndicatorsAgree` | ecc-docs/src/components/interactive/StepByStep.tsx:86-92 | Exactly the current indicator is active, completed exactly below the current step, numbered i+1 unless checked |
| `StepByStep.ButtonsMatchNavigation` | ecc-docs/src/components/interactive/StepByStep.tsx:124-137 | Prev is disabled exactly when going back is a no-op, Next exactly when going forward is |
| `StepByStep.NavigationScenario` | ecc-docs/src/components/__tests__/acceptance.test.tsx:643-665 | An uncontrolled three-step tutorial clamps at both ends, and a controlled one reports index 2 for indicator 3 without moving |
| `CommandSimulator.MatchingCommands` | ecc-docs/src/components/interactive/CommandSimulator.tsx:40-42 | Keeps exactly the commands whose lower-case form starts with the lower-cased input |
| `CommandSimulator.Suggestions` | ecc-docs/src/components/interactive/CommandSimulator.tsx:38-43 | Empty unless the input starts with '/', otherwise the matching commands |
| `CommandSimulator.MatchingCommandsAppend` | ecc-docs/src/components/interactive/CommandSimulator.tsx:40-42 | The filter keeps the commands' order |
| `CommandSimulator.CommandOutput` | ecc-docs/src/components/interactive/CommandSimulator.tsx:47 | A non-empty canned output is used, otherwise "❓ Unknown command: " + the command; the output is never empty |
| `CommandSimulator.Simulator.constructor` | ecc-docs/src/components/interactive/CommandSimulator.tsx:33-35 | Starts with empty input, no output and empty history |
| `CommandSimulator.Simulator.ExecuteCommand` | ecc-docs/src/components/interactive/CommandSimulator.tsx:45-54 | Appends exactly one {trimmed command, output} entry, sets the output and clears the input. The callback receives the trimmed command |
| `CommandSimulator.Simulator.SetInput` | ecc-docs/src/components/interactive/CommandSimulator.tsx:100 | Typing sets the input line only |
| `CommandSimulator.Simulator.HandleKeyDown` | ecc-docs/src/components/interactive/CommandSimulator.tsx:56-60 | Enter executes a non-blank input; anything else changes nothing |
| `CommandSimulator.Simulator.HandleSuggestionClick` | ecc-docs/src/components/interactive/CommandSimulator.tsx:62-64 | The input becomes the command, which is not executed |
| `CommandSimulator.StandaloneOutputNeverShown` | ecc-docs/src/components/interactive/CommandSimulator.tsx:90-92 | When output and history start together, the stand-alone output block never appears |
| `CommandSimulator.SlashTExample` | ecc-docs/src/components/interactive/CommandSimulator.tsx:23 | With the default commands, "/t" suggests only "/tdd" |
| `CommandSimulator.TerminalScenario` | ecc-docs/src/components/interactive/CommandSimulator.tsx:56-60 | A padded "/plan" runs trimmed, gets its canned output and is reported trimmed |
| `CommandSimulator.UnknownCommandScenario` | ecc-docs/src/components/interactive/CommandSimulator.tsx:127-136 | An unknown command is named in the reply; a blank Enter and other keys execute nothing |
| `CodePlayground.InnerEnd` | ecc-docs/src/components/interactive/CodePlayground.tsx:50 | The lazy group stops at the first index where the same quote, optional whitespace and ')' follow |
| `CodePlayground.MatchHere` | ecc-docs/src/components/interactive/CodePlayground.tsx:50 | A match is at least 15 characters long and lies within the text |
| `CodePlayground.Matches` | ecc-docs/src/components/interactive/CodePlayground.tsx:50 | Each global match is at least 15 characters long, so there are at most a fifteenth as many matches as characters |
| `CodePlayground.FirstMatch` | ecc-docs/src/components/interactive/CodePlayground.tsx:54 | A first match's inner text holds no line terminator |
| `CodePlayground.MatchHerePrefix` | ecc-docs/src/components/interactive/CodePlayground.tsx:50-54 | A match is also the match of its own matched text |
| `CodePlayground.FirstMatchOfMatch` | ecc-docs/src/components/interactive/CodePlayground.tsx:54-55 | Re-matching a matched call recovers its inner text |
| `CodePlayground.ContributionsOfMatches` | ecc-docs/src/components/interactive/CodePlayground.tsx:52-57 | Each matched call contributes "> " + its inner text, so the '' fallback is dead |
| `CodePlayground.SimulatedOutput` | ecc-docs/src/components/interactive/CodePlayground.tsx:50-60 | Without calls the output is the no-output message. Otherwise it is the "> "-prefixed inner texts, joined by "\n" in source order |
| `CodePlayground.InnerIsOneLine` | ecc-docs/src/components/interactive/CodePlayground.tsx:50 | The lazy search never crosses a line terminator |
| `CodePlayground.MatchIsOneLine` | ecc-docs/src/components/interactive/CodePlayground.tsx:50 | A matched call's inner text holds no line terminator |
| `CodePlayground.TestOutputMatch` | ecc-docs/src/components/__tests__/interactive.test.tsx:245 | console.log('test output') is one call with inner text "test output" |
| `CodePlayground.TestOutputExample` | ecc-docs/src/components/__tests__/interactive.test.tsx:245 | Running console.log('test output') prints "> test output" |
| `CodePlayground.NoCallExample` | ecc-docs/src/components/interactive/CodePlayground.tsx:58-60 | Code without "console.log" prints the no-output message |
| `CodePlayground.LineNumberCount` | ecc-docs/src/components/interactive/CodePlayground.tsx:132 | The number of line-number rows is the number of '\n' plus one |
| `CodePlayground.Playground.constructor` | ecc-docs/src/components/interactive/CodePlayground.tsx:31-34 | Starts with the initial code, no output, no error, not running |
| `CodePlayground.Playground.HandleRun` | ecc-docs/src/components/interactive/CodePlayground.tsx:36-69 | The error is cleared first and running always ends. A runner's result or 'Code executed successfully!' becomes the output, or the simulated output without a runner. A throwing runner sets the error message |
| `CodePlayground.Playground.HandleReset` | ecc-docs/src/components/interactive/CodePlayground.tsx:71-75 | Restores the initial code and clears output and error |
| `CodePlayground.Playground.Edit` | ecc-docs/src/components/interactive/CodePlayground.tsx:126 | Edits change the code only when editable |
| `Hooks.ControlledState.constructor` | ecc-docs/src/components/shared/hooks.ts:27-28 | The internal value starts at the default |
| `Hooks.ControlledState.Current` | ecc-docs/src/components/shared/hooks.ts:28-30 | The current value is the controlled one when given, else the internal one |
| `Hooks.ControlledState.SetControlledValue` | ecc-docs/src/components/shared/hooks.ts:22-28 | A new controlled value from the parent leaves the internal value and the callback log alone |
| `Hooks.ControlledState.SetValue` | ecc-docs/src/components/shared/hooks.ts:32-40 | Uncontrolled: the current value becomes the new one. Controlled: internal and current values are unchanged. onChange, when given, receives the value in both modes |
| `Hooks.ControlledStateScenario` | ecc-docs/src/components/__tests__/refactor.test.tsx:89-112 | Uncontrolled starts at the default and follows setValue; controlled stays put while onChange is called |
| `Hooks.FiresIff` | ecc-docs/src/components/shared/hooks.ts:68-77 | The shortcut fires exactly when the key matches and every requested modifier is pressed |
| `Hooks.ExtraModifiersDoNotBlock` | ecc-docs/src/components/shared/hooks.ts:72-75 | Pressing further modifiers never stops a shortcut from firing |
| `Hooks.NoModifiersFiresOnKey` | ecc-docs/src/components/shared/hooks.ts:62-77 | With no modifiers requested, the key alone decides |
| `Hooks.CmdKExample` | ecc-docs/src/components/__tests__/refactor.test.tsx:115-141 | Cmd+K fires a metaKey shortcut on 'k'; a plain 'k' does not |

## Left out

- `debounce` and `useDebounce`: timer scheduling and cancellation are about time, not sequential logic.
- Event-listener registration and removal in `useKeyboardShortcut`, and the search box's DOM wiring: only the matching rule is modelled.
- The service-worker registration, the cache-strategy and precache tables, and the web-app manifest: browser APIs and constant tables.
- All JSX rendering, `StructuredDataScript`, the clipboard copy of the code playground, and the purely presentational components.
- The step tutorial's progress percentage: it is floating-point.
- `searchDocuments` is `async`. The model computes its result synchronously.
- SearchIndex.Index.GetAllDocuments: sequences are values, so the model cannot show that the source hands out its live array, which a caller could mutate. Likewise `buildSearchIndex`'s defensive copies are implicit.
- `toLowerCase` and case-insensitive regular-expression matching are modelled for ASCII letters only. `trim` uses JavaScript's full whitespace and line-terminator set. Lengths and `slice(0, 150)` count characters, not UTF-16 code units.
- SearchIndex.Index.SearchDocuments: scores are exact rationals, while the source computes them in IEEE doubles, so the 0.3 threshold can decide differently. For a 50-character query with 14 characters present in the title and 17 in the content, JavaScript computes (0.28·2 + 0.34)/3 as 0.30000000000000004 and keeps the document. The model computes exactly 3/10 and drops it. There are 25 such (length, title, content) combinations for queries shorter than 300 characters. Scores that differ only by rounding can also be ordered differently. The same holds for SearchIndex.CombinedScore and SearchIndex.FuzzyMatch.
- SearchResults.HighlightText: it is modelled only for queries without regular-expression metacharacters. The source builds a pattern from the raw query, and other queries follow full `RegExp` semantics, which are not modelled.
- CodePlayground: the pattern `console\.log\s*\(\s*(['"`])(.*?)\1\s*\)` is modelled by a hand-written matcher for this one pattern, not by a general regular-expression engine. The `onRun` callback is a total function that returns, returns nothing or throws.
- CommandSimulator: the lookup `commandOutputs[trimmed]` is modelled as a map lookup. Inherited object properties such as `constructor` are not modelled.
- StepByStep and Hooks: a `null` controlled value is not modelled. In the source, `null` counts as controlled for `isControlled` but falls back to the internal step under `??`.
- The unit-test expectations that the code does not implement are not modelled: sanitising inside the results view, `sanitizeForJsonLd` inside the structured-data builders, and a debounced `onSearch`.
