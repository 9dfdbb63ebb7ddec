# The learning-site front end, modelled in Dafny

This project models the client-side core of a small "learn anything" site. It has two pages.

The **main page** is `static/script.js`. One `DOMContentLoaded` closure keeps four pieces of state:
- the selected language;
- the selected interest category;
- the current topic;
- a search history of at most seven topics, kept in `localStorage` under `searchHistory`.

Around that state, the script:
- opens and closes a search overlay with autosuggest;
- runs searches against `/api/search`;
- pushes every search into the browser's session history as `/?search=<topic>`;
- replays searches on back/forward and on a deep link;
- renders "Recommended for you" cards filtered by category;
- routes every click on the page through one body listener;
- saves videos and articles through `/api/save/<type>`.

The **all-topics page** is `static/recommendations.js`. It groups its own catalog into one section per category, and sends a click on a card to the main page as a search deep link.

The modules follow the program's structure:

| module | file | what it holds |
|---|---|---|
| `JsText` | js_text.dfy | the JavaScript string operations the script uses: `trim` with ECMAScript's white-space set, `toLowerCase`, `includes`, `slice(0, n)`, decimal rendering of a number |
| `Uri` | uri.dfy | UTF-8, `encodeURIComponent`, and `URLSearchParams.get` on `location.search`. Parsing follows the WHATWG URL Standard's application/x-www-form-urlencoded parser, with UTF-8 decoding in replacement mode |
| `Paragraphs` | paragraphs.dfy | `split(/\n\s*\n/)` as ECMAScript's leftmost, greedy-then-backtracking matcher runs it |
| `SearchHistory` | history.dfy | the history update of `handleSearch`, `saveHistory` and `loadHistory` |
| `PageData` | page_data.dfy | the main page's fixed lists: languages, categories, catalog, trending topics |
| `Views` | views.dfy | every region the script renders, as data instead of markup, and the functions that compute them |
| `PageModel` | page_state.dfy | the page's whole state as one value, and every event as a function from state to state |
| `Controller` | controller.dfy | the same state as the fields of a class, `PageController`, whose methods change it step by step as the script does |
| `AllTopics` | all_topics.dfy | the grouping loop and the card click of the all-topics page |

Each `PageController` method is proved to leave the object in the state the matching `PageModel` function gives. Each also keeps the class invariant `Valid()`:
- the page is consistent (`PageModel.Consistent`);
- the history is well-formed: at most seven entries, no two equal when case is ignored.

`PageModel`'s lemmas therefore hold of the controller.

A page's list of recommendations (`allRecommendations`) is a constant of the closure. In the model it is a state field: `PageState.catalog` and the `const` field `PageController.recommendations`. The page starts with `PageData.Catalog` in it and no operation changes it.

Where the code and the project's written description of it differ, the model follows the code:
- A stored history that `JSON.parse` rejects throws out of `loadHistory`. The rest of start-up never runs: no language menu, no initial content, no trending buttons. It is not silently ignored (`PageModel.Boot`, `Controller.PageController.Start`).
- "Read more" replaces the short explanation with the full text. The two are not shown together (`Views.ReadMore`).
- A failed save shows "Error" and leaves the button's `disabled` flag as it was. It does not re-enable it (`Views.AfterSave`).
- Topics are stored and searched untrimmed. Only the search form trims its input (`PageModel.Submitted`). A history item, suggestion, card, deep link or popstate entry is passed as it is. Only a blank topic is refused.
- The quiz link is built from `currentTopic` at the moment the response is rendered (`Views.LearningViewOf`).

Some behaviours of the code the proofs make explicit:
- `Views.PoolRepeats`, `Views.RepeatedMatches`: "Quantum Computing Explained" is both a catalog title and a trending topic, so the suggestion list can hold it twice.
- `SearchHistory.OverlongHistoryStaysOverlong`: a stored history longer than seven entries stays longer, because `pop` removes one entry only.
- `PageModel.BackResearches`, `PageModel.ForwardResearches`: the popstate listener calls `handleSearch`, which pushes a new entry. Going back or forward to a search therefore drops every later entry, and the forward button has nothing left to reach.

## Model

| member | source | states |
|---|---|---|
| JsText.TrimStart | static/script.js:446 | the result is a suffix of the input that starts with a non-space, and everything removed is white space |
| JsText.TrimEnd | static/script.js:446 | the result is a prefix of the input that ends with a non-space, and everything removed is white space |
| JsText.BlankIffAllSpace | static/script.js:338 | a string is blank exactly when every character is ECMAScript white space |
| JsText.BlankIffTrimEmpty | static/script.js:338 | the guard `!topic \|\| !topic.trim()` holds exactly of the blank strings: trimming leaves nothing precisely when there is only white space |
| JsText.TrimmedNotBlank | static/script.js:446-447 | a non-empty trimmed query is never blank, so the form's search is never refused by `handleSearch` |
| JsText.TrimIsInner | static/script.js:446 | the trimmed string occurs in the original, with no white space at either end |
| JsText.Lower | static/script.js:341 | lowering keeps the length and lowers character by character |
| JsText.ContainsIff | static/script.js:460 | `includes` holds exactly when the query occurs at some position |
| JsText.Take | static/script.js:214 | `slice(0, n)` gives the first `min(n, length)` elements, as a prefix |
| JsText.Decimal | static/script.js:365 | the numeral is non-empty, all digits, and has no leading zero |
| JsText.DecimalValue | static/script.js:365 | the numeral denotes the number it was made from |
| Uri.IndexOf | static/script.js:431 | the position of the first occurrence, or the length when there is none |
| Uri.Utf8Char | static/script.js:354 | one to four bytes; one byte exactly for ASCII; only bytes at or above 0x80 otherwise |
| Uri.DecodeOneOfChar | static/script.js:431-432 | the decoder reads back exactly the code point whose encoding starts the input, and consumes exactly its bytes |
| Uri.Utf8RoundTrip | static/script.js:431-432 | UTF-8 decoding undoes UTF-8 encoding for every string |
| Uri.Utf8Ascii | static/script.js:314 | an ASCII string is encoded one byte per character, each byte the character's code |
| Uri.EncodeURIComponent | static/script.js:354 | the output holds only unreserved characters and `%`, so it holds no `&`, `=`, `+`, `#` or `?` |
| Uri.PercentRoundTrip | static/script.js:431-432 | percent-decoding undoes `encodeURIComponent`'s escaping, byte for byte |
| Uri.EscapedByteDecodes | static/script.js:431-432 | one escaped byte decodes back to that byte, whatever follows it |
| Uri.PercentDecodePlain | static/script.js:431-432 | bytes with no `%` pass through percent-decoding unchanged |
| Uri.PlusToSpace | static/script.js:431-432 | every `+` byte becomes a space and every other byte is kept |
| Uri.FormDecodePlain | static/script.js:432 | a name with no `%` and no `+` is read back as written |
| Uri.ComponentRoundTrip | static/script.js:351-355 | decoding an encoded component as a query value gives the original string back, whatever it holds |
| Uri.PairRoundTrip | static/script.js:351-355 | `name=` followed by an encoded value parses back to exactly that pair |
| Uri.SinglePair | static/script.js:351-355 | a query of one such pair parses to a one-element list |
| Uri.FormPairsSplit | static/script.js:314 | the parser cuts at the first `&` |
| Uri.TwoPairs | static/script.js:314 | two encoded pairs joined by `&` parse back to those two pairs, in order |
| Uri.Lookup | static/script.js:432 | `get` gives nothing exactly when no pair has the name; otherwise the value of the first pair with that name |
| Uri.PathSearch | static/script.js:431 | the `search` of `prefix?query` is `?query` when the prefix has no `?` and the query no `#` |
| Uri.LinkParam | static/script.js:351-355 | a link `prefix?name=<encoded t>` gives `t` back as its `name` parameter |
| Uri.LinkParams | static/script.js:313-314 | a link with two encoded parameters gives both values back |
| Paragraphs.SpaceRunEnd | static/script.js:259 | the end of the white-space run that starts at a position |
| Paragraphs.LastNewline | static/script.js:259 | the last line break in a range, or none; nothing after it in the range is a line break |
| Paragraphs.MatchAt | static/script.js:259 | a match tried at a position is a separator (line breaks at both ends, white space between) and the longest one there; when it fails, no separator starts there |
| Paragraphs.MatchesBlankLine | static/script.js:259 | wherever two line breaks have only white space between them, the pattern matches at the first |
| Paragraphs.NoBlankLineBeforeMatch | static/script.js:259 | the stretch the scan passes over without a match holds no blank line |
| Paragraphs.SplitFrom | static/script.js:258-259 | the pieces and separators join back to the text; every separator matches the pattern, starts at the first place a match is possible, and is the longest match there; no piece holds a blank line |
| Paragraphs.Split | static/script.js:258-259 | the split always yields at least one piece, even for empty text |
| Paragraphs.SplitSound | static/script.js:258-259 | the split of the whole text rejoins to the text and cuts only at separators, each the leftmost and longest match, with no blank line left inside a piece |
| Paragraphs.SplitWithoutBlankLine | static/script.js:258-259 | a text without a blank line is one paragraph |
| Paragraphs.BlankRunSplitsOnce | static/script.js:258-259 | a run of several blank lines between two texts is one separator: `"a\n\n\n\nb"` splits into `["a", "b"]`, with no empty paragraph |
| Paragraphs.ParagraphsOf | static/script.js:258-263 | one trimmed paragraph per piece of the split, in order |
| SearchHistory.RemoveMatches | static/script.js:340-342 | keeps, in order, exactly the entries not equal to the topic when case is ignored |
| SearchHistory.RemoveMatchesCounts | static/script.js:340-342 | each kept entry is kept as many times as it occurs |
| SearchHistory.UpdateHistory | static/script.js:340-344 | the topic is first; no later entry matches it; the rest is the filtered history, cut by one when that makes more than seven |
| SearchHistory.UpdatePreservesWellFormed | static/script.js:340-344 | a history of at most seven entries with no case-insensitive repeats stays so after a search |
| SearchHistory.UpdateIdempotent | static/script.js:340-344 | searching again for the topic at the head of a well-formed history changes nothing |
| SearchHistory.FullHistoryDropsOldest | static/script.js:343-344 | a new topic on a full history drops exactly the oldest entry |
| SearchHistory.OverlongHistoryStaysOverlong | static/script.js:344 | a stored history longer than seven stays longer: `pop` drops one entry only |
| SearchHistory.SaveHistory | static/script.js:138-140 | the history's JSON is stored under `searchHistory` and no other key changes |
| SearchHistory.LoadHistory | static/script.js:142-147 | no entry or the empty string keeps the history; malformed JSON throws; a JSON list replaces the history unchecked |
| SearchHistory.LoadAfterSave | static/script.js:138-147 | a saved history loads back as it was saved |
| PageData.OfCategory | static/script.js:213 | keeps, in order, exactly the items of the category |
| PageData.OfCategoryCounts | static/script.js:213 | each item of the category is kept as many times as it occurs, and no other item |
| PageData.Titles | static/script.js:458 | one title per item, in order |
| PageData.Pool | static/script.js:458 | the suggestion pool is the catalog titles followed by the trending topics |
| PageData.FindLanguage | static/script.js:539-541 | the position of the first language with the code, or the length when none has it |
| Views.ForYouCards | static/script.js:210-214 | at most ten cards, in catalog order; all items for "all", else only items of the selected category |
| Views.TechFirstBound | static/script.js:38-129 | in fifteen items of which exactly the first five are "tech", no category has more than ten |
| Views.CatalogCategoryBound | static/script.js:210-214 | no category of the page's catalog has more than ten items |
| Views.ForYouShowsWholeCategory | static/script.js:210-214 | a chosen category is shown in full: the cap of ten never cuts it |
| Views.WholeCategoryShown | static/script.js:210-214 | a category of at most ten items is shown whole |
| Views.ForYouAll | static/script.js:210-214 | with no filter, the first ten catalog items are shown |
| Views.FilterAppend | static/script.js:213 | filtering distributes over concatenation |
| Views.CategoryHighlights | static/script.js:215-224 | a button is highlighted exactly when its id is the selected category |
| Views.OnlySelectedHighlighted | static/script.js:218-222 | at most one button is highlighted, and only the selected one |
| Views.LanguageMarks | static/script.js:191-204 | a language is check-marked exactly when its code is the selected one |
| Views.MarkAtSelected | static/script.js:199-201 | the selected language is marked, at the position `languages.find` gives, and no other |
| Views.Matching | static/script.js:459-460 | keeps, in pool order, exactly the pool entries that contain the query when case is ignored |
| Views.MatchingCounts | static/script.js:459-460 | each matching entry is kept as many times as it occurs in the pool |
| Views.Suggestions | static/script.js:451-466 | nothing for a query whose trimmed length is under two; otherwise the first five matches, in pool order |
| Views.PoolRepeats | static/script.js:458 | the pool holds "Quantum Computing Explained" twice |
| Views.RepeatedMatches | static/script.js:458-461 | a query that matches that title matches it twice before the cap at five |
| Views.ErrorText | static/script.js:362-367 | the server's `error` string when there is a non-empty one, else `HTTP error! status: <status>` |
| Views.DefaultErrorNamesStatus | static/script.js:364-366 | the default message's digits denote the status |
| Views.ExplanationOf | static/script.js:257-267 | the explanation card exists exactly when both texts are non-empty; it shows the short text and keeps the trimmed paragraphs |
| Views.ReadMore | static/script.js:513-518 | the full paragraphs replace what is shown and the button hides |
| Views.QuizLinkParams | static/script.js:313-314 | the quiz page reads back the topic exactly, whatever characters it holds, and fifteen questions |
| Views.LearningViewOf | static/script.js:247-323 | the content area shows the explanation card, the videos, the articles and the quiz link for the topic |
| Views.ConceptsSidebar | static/script.js:324-334 | the sidebar shows the key concepts when there are any, else is emptied |
| Views.SaveRequestOf | static/script.js:377-395 | posts to `/api/save/<type>`; the article's fields when the type is "article", the video's fields for any other type |
| Views.SaveSendsItem | static/script.js:282-306 | saving a rendered video or article sends exactly that item's fields to its endpoint |
| Views.AfterSave | static/script.js:403-412 | success shows "Saved!", disables and highlights; failure shows "Error" and changes nothing else |
| Views.SaveOutcomeExclusive | static/script.js:403-412 | exactly one outcome shows; after a failure the button is as clickable as it was |
| PageModel.Push | static/script.js:351-355 | entries after the current one are dropped and the new entry becomes current |
| PageModel.Searched | static/script.js:337-361 | a blank topic changes nothing; otherwise the history is updated and saved, the bar shows the topic, the loader shows, the sidebar empties, the deep link is pushed and one request with the topic and language is sent, and nothing else changes |
| PageModel.BlankSearchChangesNothing | static/script.js:338 | a blank topic leaves the whole page as it was |
| PageModel.Completed | static/script.js:362-374 | success renders the result and concepts and closes the overlay; an HTTP error shows the error text; an exception shows its message; nothing else changes |
| PageModel.ForYouShown | static/script.js:208-245 | the cards of the selected category, the highlighted button, no topic, the placeholder in the bar, the history in the sidebar, and nothing else changes |
| PageModel.ReadMoreShown | static/script.js:513-519 | with an explanation on the page, it shows the full text; otherwise nothing changes |
| PageModel.OverlayOpened | static/script.js:415-422 | the overlay opens with the current topic in the input |
| PageModel.OverlayClosed | static/script.js:423-429 | the overlay closes, the input is cleared and the suggestions hidden, and nothing else changes |
| PageModel.InputChanged | static/script.js:451-478 | the input holds the value, the suggestions are those for it, and the box is visible exactly when there are some |
| PageModel.KeyPressed | static/script.js:479-481 | Escape closes the overlay; any other key changes nothing |
| PageModel.Submitted | static/script.js:443-448 | the trimmed input is searched when it is non-empty, else nothing changes |
| PageModel.LanguageMenuHidden | static/script.js:534-536 | the language items are hidden and nothing else changes |
| PageModel.LanguageMenuToggled | static/script.js:532-533 | the language items' visibility flips and nothing else changes |
| PageModel.LanguageChosen | static/script.js:537-545 | the chosen language is selected and marked; without a topic nothing is sent; with one, it is searched again in the new language |
| PageModel.OutsideClosed | static/script.js:485-491 | a click outside the open overlay's panel and the search bar closes it; any other click leaves it |
| PageModel.SaveStarted | static/script.js:493-497 | a save request is started exactly when the click is on a save button, for that button's data |
| PageModel.Popped | static/script.js:548-554 | an entry pushed by a search with a non-empty topic searches it again; any other entry shows the recommendations |
| PageModel.WentBack | static/script.js:548-554 | without a previous entry the back button changes nothing |
| PageModel.WentForward | static/script.js:548-554 | without a next entry the forward button changes nothing |
| PageModel.Boot | static/script.js:572-582 | when the stored history is malformed JSON, start-up stops and nothing changes |
| PageModel.StartedFromStore | static/script.js:572-582 | with a readable store, start-up installs the stored history first; a search link then searches in English from it (topic first, store rewritten, loader, one request), a plain address shows all recommendations over it and sends nothing; the menu and trending buttons are rendered |
| PageModel.StartedConsistent | static/script.js:572-582 | the page after start-up is consistent: a current session entry, the bar showing the topic, no blank topic, a loader only with a topic, recommendations only without one, the menu marking the selected language |
| PageModel.BootConsistent | static/script.js:572-582 | start-up keeps a consistent page consistent |
| PageModel.RenderedConsistent | static/script.js:573-582 | rendering the menu, the initial content and the trending buttons keeps the page consistent |
| PageModel.InitialLoadConsistent | static/script.js:430-438 | the initial load keeps the page consistent |
| PageModel.SearchedConsistent | static/script.js:337-355 | a search keeps the page consistent |
| PageModel.OverlayConsistent | static/script.js:415-429 | the overlay plays no part in consistency |
| PageModel.ClickedConsistent | static/script.js:484-546 | every click keeps the page consistent |
| PageModel.RoutedConsistent | static/script.js:493-545 | every clause of the click router keeps the page consistent |
| PageModel.SearchRouteConsistent | static/script.js:499-524 | the history, suggestion and card clauses keep the page consistent |
| PageModel.ViewRouteConsistent | static/script.js:513-536 | the read-more, category and language-menu clauses keep the page consistent |
| PageModel.LanguageConsistent | static/script.js:537-545 | choosing a language keeps the page consistent, the new language marked |
| PageModel.ReadMoreConsistent | static/script.js:513-519 | "read more" keeps the page consistent |
| PageModel.MenuConsistent | static/script.js:530-536 | hiding or toggling the language items keeps the page consistent |
| PageModel.PoppedConsistent | static/script.js:548-554 | popstate keeps the page consistent |
| PageModel.ForYouConsistent | static/script.js:208-245 | rendering the recommendations keeps the page consistent |
| PageModel.TriggerConsistent | static/script.js:440-441 | a click on the search bar keeps the page consistent |
| PageModel.InputConsistent | static/script.js:475-478 | typing keeps the page consistent |
| PageModel.KeyConsistent | static/script.js:479-481 | a key press keeps the page consistent |
| PageModel.SubmitConsistent | static/script.js:443-448 | submitting keeps the page consistent |
| PageModel.BackConsistent | static/script.js:548-554 | the back button keeps the page consistent |
| PageModel.ForwardConsistent | static/script.js:548-554 | the forward button keeps the page consistent |
| PageModel.CompletedConsistent | static/script.js:356-374 | the end of a search keeps the page consistent |
| PageModel.StepConsistent | static/script.js:440-554 | every event keeps the page consistent |
| PageModel.SearchedHistory | static/script.js:338-344 | a blank topic leaves the history; otherwise the topic heads it |
| PageModel.SearchedHistoryWellFormed | static/script.js:338-344 | a search keeps the history well-formed |
| PageModel.ClickedHistory | static/script.js:484-546 | a click changes the history only as one search of its topic does |
| PageModel.RoutedHistory | static/script.js:493-545 | each clause of the click router changes the history only as one search of its topic does |
| PageModel.MenuKeepsHistory | static/script.js:530-536 | the language-menu clauses leave the history alone |
| PageModel.StepHistory | static/script.js:440-554 | every event changes the history only as one search of its topic does: no other path writes it |
| PageModel.StepWellFormed | static/script.js:440-554 | every event keeps the history at most seven entries with no case-insensitive repeats |
| PageModel.BootWellFormed | static/script.js:572-574 | start-up leaves a well-formed history when the stored one is well-formed |
| PageModel.SearchLinkRoundTrip | static/script.js:351-355 | the pushed link's `search` parameter gives the topic back exactly, whatever characters it holds |
| PageModel.DeepLinkStartsSearch | static/script.js:430-438 | loading the page at a search link runs the same search `handleSearch` ran |
| PageModel.PlainLoadShowsForYou | static/script.js:430-438 | a page opened without a `search` parameter shows the recommendations |
| PageModel.PushTwice | static/script.js:351-355 | after two pushes, the first pushed entry sits just before the current one |
| PageModel.BackReplaysPreviousSearch | static/script.js:548-554 | after searching `a` then `b`, the back button moves to `a`'s entry and runs `a`'s search again from there |
| PageModel.BackResearches | static/script.js:548-554 | back to an entry a search pushed runs that search again, else shows the recommendations; the search pushes a fresh entry, so the entries after the previous one are dropped and forward then changes nothing |
| PageModel.ForwardResearches | static/script.js:548-554 | forward to an entry a search pushed runs that search again, else shows the recommendations; the fresh entry replaces all later ones, so forward again changes nothing |
| PageModel.LanguageSwitchResearches | static/script.js:537-545 | switching language without a topic only re-marks the menu; with one, it searches the same topic in the new language |
| Controller.PageController.constructor | static/script.js:1-5 | the page as served: English, all categories, no topic, empty history, one session entry; the invariant holds |
| Controller.PageController.PersistHistory | static/script.js:138-140 | the history's JSON is stored under `searchHistory` and nothing else changes |
| Controller.PageController.RestoreHistory | static/script.js:142-147 | reports whether `JSON.parse` succeeded; a stored list replaces the history; otherwise nothing changes |
| Controller.PageController.RenderSearchHistory | static/script.js:149-170 | the sidebar lists the history and nothing else changes |
| Controller.PageController.RenderLanguageMenu | static/script.js:189-206 | the menu is rendered hidden, marking the selected language, and the invariant is restored |
| Controller.PageController.RenderForYou | static/script.js:208-245 | the state becomes `ForYouShown` of the old one |
| Controller.PageController.ShowRecommendations | static/script.js:225-244 | the cards show, the topic and bar are cleared, the history is in the sidebar, and nothing else changes |
| Controller.PageController.RenderLearningSection | static/script.js:247-335 | the result and the concepts sidebar are rendered and nothing else changes |
| Controller.PageController.RecordTopic | static/script.js:340-345 | the filter, `unshift` and `pop` steps leave `UpdateHistory` of the old history, and it is saved |
| Controller.PageController.ShowLoading | static/script.js:347-350 | the bar shows the topic, the loader shows, the sidebar empties |
| Controller.PageController.SendSearch | static/script.js:351-361 | the deep link is pushed and the request with the topic and selected language is sent |
| Controller.PageController.HandleSearch | static/script.js:337-361 | the state becomes `Searched` of the old one; a request is sent exactly when the topic is not blank |
| Controller.PageController.CompleteSearch | static/script.js:362-374 | the state becomes `Completed` of the old one for the response |
| Controller.PageController.OpenSearchOverlay | static/script.js:415-422 | the state becomes `OverlayOpened` of the old one |
| Controller.PageController.CloseSearchOverlay | static/script.js:423-429 | the state becomes `OverlayClosed` of the old one |
| Controller.PageController.ShowSuggestions | static/script.js:451-474 | the box holds the suggestions for the query and is visible exactly when there are some |
| Controller.PageController.FillSuggestions | static/script.js:462-473 | the box holds the given list, hidden exactly when it is empty |
| Controller.PageController.Input | static/script.js:475-478 | the state becomes `InputChanged` of the old one |
| Controller.PageController.KeyDown | static/script.js:479-481 | the state becomes `KeyPressed` of the old one |
| Controller.PageController.Submit | static/script.js:443-448 | the state becomes `Submitted` of the old one; a request is sent exactly when the trimmed input is non-empty |
| Controller.PageController.HideLanguageItems | static/script.js:534-536 | the state becomes `LanguageMenuHidden` of the old one |
| Controller.PageController.ToggleLanguageItems | static/script.js:532-533 | the state becomes `LanguageMenuToggled` of the old one |
| Controller.PageController.ShowFullExplanation | static/script.js:513-519 | the state becomes `ReadMoreShown` of the old one |
| Controller.PageController.SelectCategory | static/script.js:525-529 | the category is selected and the recommendations rendered for it |
| Controller.PageController.SelectLanguage | static/script.js:537-545 | the state becomes `LanguageChosen` of the old one |
| Controller.PageController.Click | static/script.js:484-546 | the state becomes `Clicked` of the old one, and the save request is the one `SaveStarted` names |
| Controller.PageController.Route | static/script.js:493-546 | the state becomes `Routed` of the old one; a save request only for a save button |
| Controller.PageController.RouteSearch | static/script.js:499-545 | the search-starting clauses leave `Routed` of the old state |
| Controller.PageController.RouteView | static/script.js:513-536 | the display-only clauses leave `Routed` of the old state |
| Controller.PageController.HistoryItemClicked | static/script.js:499-504 | a non-empty history topic is searched; an empty one changes nothing |
| Controller.PageController.SuggestionClicked | static/script.js:506-512 | the suggestion fills the input, the box hides, it is searched, and the language items hide |
| Controller.PageController.PickSuggestion | static/script.js:508-510 | the input holds the suggestion and the box hides |
| Controller.PageController.ReadMoreClicked | static/script.js:513-519 | the full text shows and the language items hide |
| Controller.PageController.CardClicked | static/script.js:520-524 | the card's topic is searched and the language items hide |
| Controller.PageController.CategoryClicked | static/script.js:525-529 | the category's recommendations show and the language items hide |
| Controller.PageController.TriggerClick | static/script.js:440-441 | the state becomes `TriggerClicked` of the old one |
| Controller.PageController.PopState | static/script.js:548-554 | the state becomes `Popped` of the old one for the entry's state |
| Controller.PageController.Traverse | static/script.js:548 | the session moves by the offset and nothing else changes |
| Controller.PageController.Back | static/script.js:548-554 | the state becomes `WentBack` of the old one |
| Controller.PageController.Forward | static/script.js:548-554 | the state becomes `WentForward` of the old one |
| Controller.PageController.HandleInitialPageLoad | static/script.js:430-438 | the state becomes `InitialLoad` of the old one for the URL |
| Controller.PageController.Start | static/script.js:572-582 | the state becomes `Boot` of the old one; the invariant holds after it |
| Controller.SaveControl.constructor | static/script.js:282-286 | a rendered save button reads "Save", enabled, not highlighted |
| Controller.SaveControl.Request | static/script.js:377-395 | the request goes to `/api/save/<type>`; its payload is the article's title, link and snippet exactly when the type is "article", and otherwise the video's id, title and thumbnail |
| Controller.SaveControl.Finish | static/script.js:397-412 | the button shows what `AfterSave` gives for the outcome |
| AllTopics.SectionsOf | static/recommendations.js:108-112 | at most one section per category; every section's category is listed; its cards are exactly the catalog items of that category, and there is at least one |
| AllTopics.RenderSections | static/recommendations.js:106-143 | the loop builds exactly `SectionsOf` of the category list and the catalog |
| AllTopics.ContentLoaded | static/recommendations.js:103-145 | without the container nothing is rendered; with it, the sections of the page's categories and catalog |
| AllTopics.CardsOf | static/recommendations.js:114-131 | one card per item, in order; its `data-title` and heading are the item's title; its delay is 50 ms per position |
| AllTopics.CardClick | static/recommendations.js:150-158 | navigates exactly when the click is in a card with a non-empty title; the link is the search link, and its `search` parameter is the title |
| AllTopics.CardOpensSearch | static/recommendations.js:150-158 | clicking a card opens the main page on the same search `handleSearch` runs for the card's title |
| AllTopics.SectionsInOrder | static/recommendations.js:108 | the sections' categories are a subsequence of the category list: list order, each at most once |
| AllTopics.SectionIdsDistinct | static/recommendations.js:2-8 | with distinct category ids, no two sections share an id |
| AllTopics.SectionsPartition | static/recommendations.js:108-143 | with distinct category ids, the cards of all sections hold each item of a listed category as often as the catalog does, and nothing else |
| AllTopics.AllListedShown | static/recommendations.js:108-143 | when every item's category is listed, the page's cards are the catalog as a multiset |
| AllTopics.ItemShown | static/recommendations.js:108-143 | every catalog item of a listed category is in some section |
| AllTopics.ItemInOneSection | static/recommendations.js:109-111 | with distinct category ids, no item is in two sections |
| AllTopics.NoneSkipped | static/recommendations.js:112 | when every category has items, the headings are exactly the category list |
| AllTopics.TopicsAllListed | static/recommendations.js:2-101 | the page's category ids are distinct and every catalog item's category is one of them |
| AllTopics.AllTopicsShown | static/recommendations.js:10-143 | the page's cards are exactly the catalog, counted with repetition: fifteen cards |
| AllTopics.TopicsEachHaveSection | static/recommendations.js:2-112 | each of the five categories gets its section, in list order |

## Left out

- The server (`app.py`), the profile page (`static/profile.js`) and the profile dropdown (static/script.js:556-570) are not part of this model.
- Markup, CSS classes, animations other than the all-topics card delay, and input focus and selection (static/script.js:420-421) are not modelled. Each region is modelled as data.
- The network is a parameter. A search or save response is given to `CompleteSearch`/`Finish` as a value. `console.log`/`console.error` output is not modelled.
- Concurrency is not modelled. Two searches in flight may complete in either order. The model applies each completion to the state at that moment, and does not model which request it answers.
- Missing DOM elements are not modelled. Every element is assumed present: the `if (!contentArea) return` style guards, the `?.` on elements, and `searchInput` used unguarded. The exception is the all-topics container, whose absence is modelled.
- Two `JSON.parse` cases are not modelled: stored JSON that is not a list of strings, such as a number or an object, and a `setItem` quota error. The stored value is either a list of strings, the empty string, or text `JSON.parse` rejects.
- HTML escaping is not modelled. Topics and titles are put into attributes and markup without escaping, and the model treats every `data-*` attribute as holding the raw string. A title containing `"` would break its attribute in the browser.
- The full explanation travels to "read more" through `encodeURIComponent`/`decodeURIComponent` of its markup in a data attribute. `Views.ReadMore` keeps the paragraphs themselves.
- A click lands on one target at a time. Nested matches, such as a card inside a history item, do not occur in the page's markup and are not modelled.
- Session history moves one entry at a time (back and forward). `history.go(n)` for other `n` is not modelled.
- JsText.LowerChar: lowers A–Z only. `toLowerCase`'s full Unicode case mapping is not modelled, so `SameIgnoringCase` and suggestion matching are exact only for ASCII letters.
- Uri.LocationSearch: models paths on the same origin only (`/…?…#…`). Absolute URLs are not modelled.
- PageModel.WentBack and PageModel.WentForward: their own contracts state only the no-entry case. The other case is stated by `PageModel.BackResearches`, `PageModel.ForwardResearches` and `PageModel.BackReplaysPreviousSearch`.
- Controller.PageController.Start: requires that a stored history which parses is a well-formed list (at most seven entries, no case-insensitive repeats). The code accepts any stored list; the requirement keeps the class invariant.
- Controller.PageController.RestoreHistory: carries the same requirement as `Start`, for the same reason.
- Views.Suggestions: measures the trimmed query in Unicode scalar values. JavaScript's `length` counts UTF-16 code units, so a query of one character outside the Basic Multilingual Plane, such as an emoji, has length 2 in the browser and 1 in the model.
- PageModel.Searched: always pushes the entry and sends the request. Dafny strings hold Unicode scalar values, so a topic holding a lone surrogate cannot be written. In the browser, `encodeURIComponent` throws `URIError` on such a topic, after the history is saved and the loader shown but before `pushState` and `fetch`, and the page stays on the loader.
