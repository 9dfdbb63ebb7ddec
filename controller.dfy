/**
 * The controller of the main page (static/script.js) as an object: the variables of the
 * `DOMContentLoaded` closure, the localStorage entry, the overlay, the regions the script
 * writes and the tab's session history are fields, and every handler is a method that changes
 * them step by step, as the script does. Each method is proved to leave the object in the state
 * that the matching function of PageModel gives, so what is proved there of those functions holds
 * of the controller; and each keeps the class invariant: a consistent page and a history of at
 * most seven entries with no case-insensitive repeats.
 */
module Controller {
  import opened Wrappers
  import opened JsText
  import opened Uri
  import opened PageData
  import opened SearchHistory
  import opened Views
  import opened PageModel

  class PageController {
    // The closure's constant list of recommendations and its variables.
    const recommendations: seq<Recommendation>
    var selectedLanguage: Language
    var selectedCategory: string
    var currentTopic: string
    var searchHistory: seq<string>
    // localStorage.
    var storage: Storage
    // The search overlay: its visibility, the input's value, the suggestion box and its visibility.
    var overlayOpen: bool
    var inputValue: string
    var suggestions: seq<string>
    var suggestionsVisible: bool
    // The regions the script renders.
    var barText: Option<string>
    var content: Content
    var sidebar: Sidebar
    var languageMenu: Option<LanguageMenu>
    var trendingButtons: seq<string>
    // The browser: the tab's session history and the search requests sent so far.
    var session: Session
    var requests: seq<SearchRequest>

    /** The whole state, as PageModel describes it. */
    function Snapshot(): PageState
      reads this
    {
      PageState(selectedLanguage, selectedCategory, currentTopic, searchHistory, storage,
                Overlay(overlayOpen, inputValue, suggestions, suggestionsVisible),
                barText, content, sidebar, languageMenu, trendingButtons, recommendations, session, requests)
    }

    ghost predicate Valid()
      reads this
    {
      Consistent(Snapshot()) && WellFormed(searchHistory)
    }

    /** The page as served at `url`, with `st` in localStorage, before the script's last statements. */
    constructor (st: Storage, url: string)
      ensures Snapshot() == Fresh(st, url) && Valid()
    {
      recommendations := Catalog;
      selectedLanguage, selectedCategory, currentTopic, searchHistory := English, AllCategories, "", [];
      storage := st;
      overlayOpen, inputValue, suggestions, suggestionsVisible := false, "", [], false;
      barText, content, sidebar, languageMenu, trendingButtons := None, Initial, SidebarInitial, None, [];
      session, requests := Session([Entry(NoState, url)], 0), [];
    }

    // ------------------------------------------------------------ persistence

    /** `saveHistory`. */
    method PersistHistory()
      modifies this
      ensures Snapshot() == old(Snapshot()).(storage := SaveHistory(old(storage), searchHistory))
      ensures storage[StorageKey] == JsonStrings(searchHistory)
    {
      storage := storage[StorageKey := JsonStrings(searchHistory)];
    }

    /** `loadHistory`: `parsed` is false when `JSON.parse` throws, and then nothing changes. */
    method RestoreHistory() returns (parsed: bool)
      requires Valid() && LoadsWellFormed(storage)
      modifies this
      ensures Valid()
      ensures parsed <==> !LoadHistory(old(storage)).Throws?
      ensures LoadHistory(old(storage)).Replace? ==> Snapshot() == old(Snapshot()).(history := LoadHistory(old(storage)).items)
      ensures !LoadHistory(old(storage)).Replace? ==> Snapshot() == old(Snapshot())
    {
      match LoadHistory(storage)
      case Keep => parsed := true;
      case Replace(items) =>
        searchHistory := items;
        parsed := true;
      case Throws => parsed := false;
    }

    // ------------------------------------------------------------ rendering

    /** `renderSearchHistory`. */
    method RenderSearchHistory()
      modifies this
      ensures Snapshot() == old(Snapshot()).(sidebar := HistoryList(searchHistory))
    {
      sidebar := HistoryList(searchHistory);
    }

    /** `renderLanguageMenu`: the items are rendered hidden, with the mark on the selected language. */
    method RenderLanguageMenu()
      requires Consistent(Snapshot().(languageMenu := None)) && WellFormed(searchHistory)
      modifies this
      ensures Valid()
      ensures Snapshot() == old(Snapshot()).(languageMenu := Some(LanguageMenu(LanguageMarks(selectedLanguage.code), true)))
    {
      languageMenu := Some(LanguageMenu(LanguageMarks(selectedLanguage.code), true));
    }

    /** `renderForYou`: the first ten recommendations of the selected category (or of all of
        them) as cards, the selected category highlighted, the placeholder in the search bar. */
    method RenderForYou()
      requires Valid()
      modifies this
      ensures Valid()
      ensures Snapshot() == ForYouShown(old(Snapshot()))
    {
      ghost var s0 := Snapshot();
      var cards := ForYouCards(recommendations, selectedCategory);
      ShowRecommendations(cards, CategoryHighlights(selectedCategory));
      ForYouConsistent(s0);
    }

    method ShowRecommendations(cards: seq<Recommendation>, highlighted: seq<bool>)
      modifies this
      ensures Snapshot() == old(Snapshot()).(content := ForYou(cards, highlighted), topic := "", barText := None,
                                             sidebar := HistoryList(searchHistory))
    {
      content := ForYou(cards, highlighted);
      currentTopic := "";
      barText := None;
      RenderSearchHistory();
    }

    /** `renderLearningSection`: the result in the content area, the key concepts in the sidebar. */
    method RenderLearningSection(data: SearchData)
      modifies this
      ensures Snapshot() == old(Snapshot()).(content := Result(LearningViewOf(data, currentTopic)),
                                             sidebar := ConceptsSidebar(data.keyConcepts))
    {
      content := Result(LearningViewOf(data, currentTopic));
      if |data.keyConcepts| > 0 {
        sidebar := KeyConcepts(data.keyConcepts);
      } else {
        sidebar := SidebarEmpty;
      }
    }

    // ------------------------------------------------------------ handleSearch

    /** The history steps of `handleSearch`: drop the case-insensitive matches of `t`, put `t`
        in front, drop the oldest entry when there are more than seven, and save. */
    method RecordTopic(t: string)
      modifies this
      ensures Snapshot() == old(Snapshot()).(history := UpdateHistory(old(searchHistory), t),
                                             storage := SaveHistory(old(storage), UpdateHistory(old(searchHistory), t)))
    {
      var h := RemoveMatches(searchHistory, t);
      h := [t] + h;
      if |h| > MaxEntries {
        h := h[..|h| - 1];
      }
      assert h == UpdateHistory(searchHistory, t);
      searchHistory := h;
      PersistHistory();
    }

    /** The search bar shows `t`, the loader replaces the content and the sidebar is emptied. */
    method ShowLoading(t: string)
      modifies this
      ensures Snapshot() == old(Snapshot()).(topic := t, barText := Some(t), content := Loading, sidebar := SidebarEmpty)
    {
      currentTopic, barText, content, sidebar := t, Some(t), Loading, SidebarEmpty;
    }

    /** `history.pushState` for `t`, then the POST to `/api/search`. */
    method SendSearch(t: string) returns (request: SearchRequest)
      modifies this
      ensures request == SearchRequest(t, selectedLanguage.code)
      ensures Snapshot() == old(Snapshot()).(session := Push(old(session), Entry(SearchState(t), SearchLink(t))),
                                             requests := old(requests) + [request])
    {
      session := Push(session, Entry(SearchState(t), SearchLink(t)));
      request := SearchRequest(t, selectedLanguage.code);
      requests := requests + [request];
    }

    /** `handleSearch(t)` up to the `await` of the fetch; `request` is the body it posts. */
    method HandleSearch(t: string) returns (request: Option<SearchRequest>)
      requires Valid()
      modifies this
      ensures Valid()
      ensures Snapshot() == Searched(old(Snapshot()), t)
      ensures request == if IsBlank(t) then None else Some(SearchRequest(t, selectedLanguage.code))
    {
      ghost var s0 := Snapshot();
      if IsBlank(t) {
        return None;
      }
      RecordTopic(t);
      ShowLoading(t);
      var sent := SendSearch(t);
      request := Some(sent);
      SearchedConsistent(s0, t);
      UpdatePreservesWellFormed(s0.history, t);
    }

    /** The rest of `handleSearch`, run when the request has ended with `resp`. */
    method CompleteSearch(resp: SearchResponse)
      requires Valid()
      modifies this
      ensures Valid()
      ensures Snapshot() == Completed(old(Snapshot()), resp)
    {
      ghost var s0 := Snapshot();
      match resp
      case Ok(data) =>
        RenderLearningSection(data);
        CloseSearchOverlay();
      case HttpErr(status, error) =>
        content := Error(ErrorText(status, error));
      case NetErr(message) =>
        content := Error(message);
    }

    // ------------------------------------------------------------ the search overlay

    /** `openSearchOverlay`. */
    method OpenSearchOverlay()
      requires Valid()
      modifies this
      ensures Valid()
      ensures Snapshot() == OverlayOpened(old(Snapshot()))
    {
      inputValue := currentTopic;
      overlayOpen := true;
    }

    /** `closeSearchOverlay`. */
    method CloseSearchOverlay()
      requires Valid()
      modifies this
      ensures Valid()
      ensures Snapshot() == OverlayClosed(old(Snapshot()))
    {
      overlayOpen := false;
      inputValue := "";
      suggestionsVisible := false;
    }

    /** `showSuggestions(query)`. */
    method ShowSuggestions(query: string)
      requires Valid()
      modifies this
      ensures Valid()
      ensures Snapshot() == old(Snapshot()).(overlay := old(Snapshot()).overlay.(
        suggestions := Suggestions(Pool(recommendations), query), suggestionsVisible := Suggestions(Pool(recommendations), query) != []))
    {
      var filtered := Suggestions(Pool(recommendations), query);
      FillSuggestions(filtered);
    }

    /** The suggestion box holds `shown`, and is emptied and hidden when there is nothing to show. */
    method FillSuggestions(shown: seq<string>)
      requires Valid()
      modifies this
      ensures Valid()
      ensures Snapshot() == old(Snapshot()).(overlay := old(Snapshot()).overlay.(suggestions := shown, suggestionsVisible := shown != []))
    {
      ghost var s0 := Snapshot();
      if shown == [] {
        suggestions, suggestionsVisible := [], false;
      } else {
        suggestions, suggestionsVisible := shown, true;
      }
      OverlayConsistent(s0, s0.overlay.(suggestions := shown, suggestionsVisible := shown != []));
    }

    /** The input's `input` listener, after the user has changed its value to `value`. */
    method Input(value: string)
      requires Valid()
      modifies this
      ensures Valid()
      ensures Snapshot() == InputChanged(old(Snapshot()), value)
    {
      inputValue := value;
      ShowSuggestions(value);
    }

    /** The input's `keydown` listener. */
    method KeyDown(key: string)
      requires Valid()
      modifies this
      ensures Valid()
      ensures Snapshot() == KeyPressed(old(Snapshot()), key)
    {
      if key == "Escape" {
        CloseSearchOverlay();
      }
    }

    /** The form's `submit` listener. */
    method Submit() returns (request: Option<SearchRequest>)
      requires Valid()
      modifies this
      ensures Valid()
      ensures Snapshot() == Submitted(old(Snapshot()))
      ensures request.Some? <==> Trim(old(inputValue)) != []
    {
      var query := Trim(inputValue);
      request := None;
      if query != [] {
        TrimmedNotBlank(old(inputValue));
        request := HandleSearch(query);
      }
    }

    // ------------------------------------------------------------ the click router

    method HideLanguageItems()
      requires Valid()
      modifies this
      ensures Valid()
      ensures Snapshot() == LanguageMenuHidden(old(Snapshot()))
    {
      ghost var s0 := Snapshot();
      if languageMenu.Some? {
        languageMenu := Some(languageMenu.value.(itemsHidden := true));
      }
      MenuConsistent(s0);
    }

    method ToggleLanguageItems()
      requires Valid()
      modifies this
      ensures Valid()
      ensures Snapshot() == LanguageMenuToggled(old(Snapshot()))
    {
      ghost var s0 := Snapshot();
      if languageMenu.Some? {
        languageMenu := Some(languageMenu.value.(itemsHidden := !languageMenu.value.itemsHidden));
      }
      MenuConsistent(s0);
    }

    /** The "read more" clause: the stored full text replaces the short one and the button hides. */
    method ShowFullExplanation()
      requires Valid()
      modifies this
      ensures Valid()
      ensures Snapshot() == ReadMoreShown(old(Snapshot()))
    {
      if content.Result? && content.view.explanation.Some? {
        var e := content.view.explanation.value;
        content := Result(content.view.(explanation := Some(ReadMore(e))));
      }
    }

    /** The category clause: `selectedCategory` is set and the recommendations rendered again. */
    method SelectCategory(id: string)
      requires Valid()
      modifies this
      ensures Valid()
      ensures Snapshot() == ForYouShown(old(Snapshot()).(category := id))
    {
      selectedCategory := id;
      RenderForYou();
    }

    /** The language-item clause. */
    method SelectLanguage(code: string)
      requires Valid() && IsLanguageCode(code)
      modifies this
      ensures Valid()
      ensures Snapshot() == LanguageChosen(old(Snapshot()), code)
    {
      selectedLanguage := Languages[FindLanguage(Languages, code)];
      RenderLanguageMenu();
      if currentTopic != [] {
        var _ := HandleSearch(currentTopic);
      }
    }

    /** The body's click listener: the outside-click clause, then the clause for what was hit.
        A click on a save button returns the request `handleSave` sends. */
    method Click(c: ClickEvent) returns (save: Option<SaveRequest>)
      requires Valid() && PossibleClick(c)
      modifies this
      ensures Valid()
      ensures Snapshot() == Clicked(old(Snapshot()), c)
      ensures save == SaveStarted(c)
    {
      if overlayOpen && !c.inPanel && !c.onTrigger {
        CloseSearchOverlay();
      }
      save := Route(c.target);
    }

    /** The clauses after the first, by the element the click landed on. */
    method Route(target: Target) returns (save: Option<SaveRequest>)
      requires Valid() && (target.LanguageItem? ==> IsLanguageCode(target.code))
      modifies this
      ensures Valid()
      ensures Snapshot() == Routed(old(Snapshot()), target)
      ensures save == if target.SaveButton? then Some(SaveRequestOf(target.data)) else None
    {
      save := None;
      if target.SaveButton? {
        save := Some(SaveRequestOf(target.data));
      } else if target.HistoryItem? || target.SuggestionItem? || target.ForYouCard? || target.LanguageItem? {
        RouteSearch(target);
      } else {
        RouteView(target);
      }
    }

    /** The clauses that start a search. */
    method RouteSearch(target: Target)
      requires Valid() && (target.HistoryItem? || target.SuggestionItem? || target.ForYouCard? || target.LanguageItem?)
      requires target.LanguageItem? ==> IsLanguageCode(target.code)
      modifies this
      ensures Valid()
      ensures Snapshot() == Routed(old(Snapshot()), target)
    {
      match target
      case HistoryItem(t) => HistoryItemClicked(t);
      case SuggestionItem(t) => SuggestionClicked(t);
      case ForYouCard(t) => CardClicked(t);
      case LanguageItem(code) => SelectLanguage(code);
    }

    /** The clauses that change only what is shown. */
    method RouteView(target: Target)
      requires Valid() && !(target.SaveButton? || target.HistoryItem? || target.SuggestionItem? || target.ForYouCard? || target.LanguageItem?)
      modifies this
      ensures Valid()
      ensures Snapshot() == Routed(old(Snapshot()), target)
    {
      match target
      case ReadMoreButton => ReadMoreClicked();
      case CategoryButton(id) => CategoryClicked(id);
      case LanguageMenuButton => ToggleLanguageItems();
      case InLanguageMenu =>
      case Elsewhere => HideLanguageItems();
    }

    /** The history-item clause: a non-empty topic is searched again. */
    method HistoryItemClicked(t: string)
      requires Valid()
      modifies this
      ensures Valid()
      ensures Snapshot() == if t != [] then Searched(old(Snapshot()), t) else old(Snapshot())
    {
      if t != [] {
        var _ := HandleSearch(t);
      }
    }

    /** The suggestion clause: the suggestion goes into the input, the box hides and the
        suggestion is searched; the click, outside the language menu, then hides its items. */
    method SuggestionClicked(t: string)
      requires Valid()
      modifies this
      ensures Valid()
      ensures Snapshot() == LanguageMenuHidden(Searched(old(Snapshot()).(overlay := old(Snapshot()).overlay.(input := t, suggestionsVisible := false)), t))
    {
      PickSuggestion(t);
      var _ := HandleSearch(t);
      HideLanguageItems();
    }

    method PickSuggestion(t: string)
      requires Valid()
      modifies this
      ensures Valid()
      ensures Snapshot() == old(Snapshot()).(overlay := old(Snapshot()).overlay.(input := t, suggestionsVisible := false))
    {
      ghost var s0 := Snapshot();
      inputValue, suggestionsVisible := t, false;
      OverlayConsistent(s0, s0.overlay.(input := t, suggestionsVisible := false));
    }

    /** The "read more" clause, then the language-menu clause. */
    method ReadMoreClicked()
      requires Valid()
      modifies this
      ensures Valid()
      ensures Snapshot() == LanguageMenuHidden(ReadMoreShown(old(Snapshot())))
    {
      ShowFullExplanation();
      HideLanguageItems();
    }

    /** The card clause, then the language-menu clause. */
    method CardClicked(t: string)
      requires Valid()
      modifies this
      ensures Valid()
      ensures Snapshot() == LanguageMenuHidden(Searched(old(Snapshot()), t))
    {
      var _ := HandleSearch(t);
      HideLanguageItems();
    }

    /** The category clause, then the language-menu clause. */
    method CategoryClicked(id: string)
      requires Valid()
      modifies this
      ensures Valid()
      ensures Snapshot() == LanguageMenuHidden(ForYouShown(old(Snapshot()).(category := id)))
    {
      SelectCategory(id);
      HideLanguageItems();
    }

    /** A click on the search bar: its own listener opens the overlay, then the body's listener
        sees the click. */
    method TriggerClick()
      requires Valid()
      modifies this
      ensures Valid()
      ensures Snapshot() == TriggerClicked(old(Snapshot()))
    {
      OpenSearchOverlay();
      var _ := Click(ClickEvent(Elsewhere, false, true));
    }

    // ------------------------------------------------------------ session history and start-up

    /** The `popstate` listener, given the state of the entry that became current. */
    method PopState(st: EntryState)
      requires Valid()
      modifies this
      ensures Valid()
      ensures Snapshot() == Popped(old(Snapshot()), st)
    {
      if st.SearchState? && st.topic != [] {
        var _ := HandleSearch(st.topic);
      } else {
        RenderForYou();
      }
    }

    /** The session history moves `offset` entries; nothing else changes. */
    method Traverse(offset: int)
      requires Valid() && 0 <= session.position + offset < |session.entries|
      modifies this
      ensures Valid()
      ensures Snapshot() == old(Snapshot()).(session := old(session).(position := old(session).position + offset))
    {
      session := session.(position := session.position + offset);
    }

    /** The browser's back button. */
    method Back()
      requires Valid()
      modifies this
      ensures Valid()
      ensures Snapshot() == WentBack(old(Snapshot()))
    {
      ghost var s0 := Snapshot();
      var n := session;
      if 0 < n.position < |n.entries| {
        Traverse(-1);
        ghost var s1 := Snapshot();
        PopState(n.entries[n.position - 1].state);
        BackPops(s0, s1);
      }
    }

    /** The browser's forward button. */
    method Forward()
      requires Valid()
      modifies this
      ensures Valid()
      ensures Snapshot() == WentForward(old(Snapshot()))
    {
      ghost var s0 := Snapshot();
      var n := session;
      if n.position + 1 < |n.entries| {
        Traverse(1);
        ghost var s1 := Snapshot();
        PopState(n.entries[n.position + 1].state);
        ForwardPops(s0, s1);
      }
    }

    /** `handleInitialPageLoad` at location `url`. */
    method HandleInitialPageLoad(url: string)
      requires Valid()
      modifies this
      ensures Valid()
      ensures Snapshot() == InitialLoad(old(Snapshot()), url)
    {
      var searchTopic := SearchParam(LocationSearch(url), "search");
      if searchTopic.Some? && searchTopic.value != [] {
        var _ := HandleSearch(searchTopic.value);
      } else {
        RenderForYou();
      }
    }

    /** The script's last statements. A stored history that `JSON.parse` rejects stops them after
        `loadHistory`; one the page did not write itself must be well-formed for the invariant. */
    method Start(url: string)
      requires Valid() && LoadsWellFormed(storage)
      modifies this
      ensures Valid()
      ensures Snapshot() == Boot(old(Snapshot()), url)
    {
      var parsed := RestoreHistory();
      if !parsed {
        return;
      }
      RenderLanguageMenu();
      HandleInitialPageLoad(url);
      trendingButtons := Trending;
    }
  }

  /** The back button, once the session has moved, is the popstate listener. */
  lemma BackPops(s0: PageState, s1: PageState)
    requires 0 < s0.session.position < |s0.session.entries|
    requires s1 == s0.(session := s0.session.(position := s0.session.position - 1))
    ensures WentBack(s0) == Popped(s1, s0.session.entries[s0.session.position - 1].state)
  {
  }

  lemma ForwardPops(s0: PageState, s1: PageState)
    requires s0.session.position + 1 < |s0.session.entries|
    requires s1 == s0.(session := s0.session.(position := s0.session.position + 1))
    ensures WentForward(s0) == Popped(s1, s0.session.entries[s0.session.position + 1].state)
  {
  }

  // ---------------------------------------------------------------- save buttons

  /** A save button of a rendered result: its `data-*` attributes and what it shows. */
  class SaveControl {
    const data: SaveData
    var text: string
    var disabled: bool
    var highlighted: bool

    function Shown(): ButtonState
      reads this
    {
      ButtonState(text, disabled, highlighted)
    }

    constructor (d: SaveData)
      ensures data == d && Shown() == FreshButton
    {
      data := d;
      text, disabled, highlighted := "Save", false, false;
    }

    /** The request `handleSave` sends for this button. */
    function Request(): (r: SaveRequest)
      ensures r.url == "/api/save/" + data.kind
      ensures r.payload.ArticlePayload? <==> data.kind == "article"
      ensures r.payload.ArticlePayload? ==> r.payload == ArticlePayload(data.title, data.link, data.snippet)
      ensures r.payload.VideoPayload? ==> r.payload == VideoPayload(data.id, data.title, data.thumbnail)
    {
      SaveRequestOf(data)
    }

    /** The end of `handleSave`: the label and flags after the response. */
    method Finish(resp: SaveResponse)
      modifies this
      ensures Shown() == AfterSave(old(Shown()), resp.SaveOk?)
    {
      if resp.SaveOk? {
        text := "Saved!";
        disabled := true;
        highlighted := true;
      } else {
        text := "Error";
      }
    }
  }
}
