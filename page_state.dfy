/**
 * The state the main page's script keeps in its closure and in the page, and what each event
 * does to it (static/script.js). Every handler is a function from the state before to the
 * state after; the class in module Controller performs the same steps on fields.
 */
module PageModel {
  import opened Wrappers
  import opened JsText
  import opened Uri
  import opened PageData
  import opened SearchHistory
  import opened Views

  /** The search overlay: whether it is open, the input's value, the suggestion list and
      whether that list is shown. */
  datatype Overlay = Overlay(open: bool, input: string, suggestions: seq<string>, suggestionsVisible: bool)

  const ClosedOverlay: Overlay := Overlay(false, "", [], false)

  /** The rendered language menu: one check mark per language, and whether its items are hidden. */
  datatype LanguageMenu = LanguageMenu(marks: seq<bool>, itemsHidden: bool)

  /** The state object of a session-history entry: none, or `{type: "search", topic}`. */
  datatype EntryState = NoState | SearchState(topic: string)

  datatype Entry = Entry(state: EntryState, url: string)

  /** The tab's session history: its entries and the position of the current one. */
  datatype Session = Session(entries: seq<Entry>, position: nat)

  /** The body of a POST to `/api/search`. */
  datatype SearchRequest = SearchRequest(topic: string, language: string)

  datatype PageState = PageState(
    language: Language,
    category: string,
    topic: string,
    history: seq<string>,
    storage: Storage,
    overlay: Overlay,
    barText: Option<string>,   // the search bar's text: the topic, or None for the placeholder
    content: Content,
    sidebar: Sidebar,
    languageMenu: Option<LanguageMenu>,
    trending: seq<string>,     // the trending-topic buttons
    catalog: seq<Recommendation>,  // `allRecommendations`
    session: Session,
    requests: seq<SearchRequest>)  // every search request sent so far, in order

  /** Where a search is pushed in the session history. */
  function SearchLink(t: string): string {
    "/?search=" + EncodeURIComponent(t)
  }

  predicate ValidSession(n: Session) {
    n.position < |n.entries|
  }

  /** `history.pushState`: the entries after the current one are dropped and the new one
      becomes current. */
  function Push(n: Session, e: Entry): (r: Session)
    ensures ValidSession(n) ==> r.entries == n.entries[..n.position + 1] + [e]
    ensures ValidSession(r) && r.position == |r.entries| - 1 && r.entries[r.position] == e
  {
    var keep := if n.position < |n.entries| then n.position + 1 else |n.entries|;
    Session(n.entries[..keep] + [e], keep)
  }

  // ---------------------------------------------------------------- handleSearch

  /** The synchronous part of `handleSearch(t)`, up to the `await` of the fetch. */
  function Searched(s: PageState, t: string): (r: PageState)
    ensures IsBlank(t) ==> r == s
    ensures !IsBlank(t) ==>
      && r.history == UpdateHistory(s.history, t)
      && r.storage == SaveHistory(s.storage, r.history)
      && r.topic == t && r.barText == Some(t)
      && r.content == Loading && r.sidebar == SidebarEmpty
      && r.session == Push(s.session, Entry(SearchState(t), SearchLink(t)))
      && r.requests == s.requests + [SearchRequest(t, s.language.code)]
      && r.language == s.language && r.category == s.category && r.overlay == s.overlay
      && r.languageMenu == s.languageMenu && r.trending == s.trending
  {
    if IsBlank(t) then s
    else
      var h := UpdateHistory(s.history, t);
      s.(history := h, storage := SaveHistory(s.storage, h), topic := t, barText := Some(t),
         content := Loading, sidebar := SidebarEmpty,
         session := Push(s.session, Entry(SearchState(t), SearchLink(t))),
         requests := s.requests + [SearchRequest(t, s.language.code)])
  }

  /** A blank or white-space-only topic is ignored: history, storage, topic, content, sidebar,
      session and requests are all as they were. */
  lemma BlankSearchChangesNothing(s: PageState, t: string)
    requires IsBlank(t)
    ensures Searched(s, t) == s
  {
  }

  /** The rest of `handleSearch`, once the request has ended. */
  function Completed(s: PageState, resp: SearchResponse): (r: PageState)
    ensures resp.Ok? ==>
      && r.content == Result(LearningViewOf(resp.data, s.topic))
      && r.sidebar == ConceptsSidebar(resp.data.keyConcepts)
      && r.overlay == s.overlay.(open := false, input := "", suggestionsVisible := false)
      && r.(content := s.content, sidebar := s.sidebar, overlay := s.overlay) == s
    ensures resp.HttpErr? ==> r == s.(content := Error(ErrorText(resp.status, resp.error)))
    ensures resp.NetErr? ==> r == s.(content := Error(resp.message))
  {
    match resp
    case Ok(data) =>
      OverlayClosed(s.(content := Result(LearningViewOf(data, s.topic)),
                       sidebar := ConceptsSidebar(data.keyConcepts)))
    case HttpErr(status, error) => s.(content := Error(ErrorText(status, error)))
    case NetErr(message) => s.(content := Error(message))
  }

  // ---------------------------------------------------------------- views

  /** `renderForYou`. */
  function ForYouShown(s: PageState): (r: PageState)
    ensures r.content.ForYou? && r.content.cards == ForYouCards(s.catalog, s.category)
    ensures r.content.highlighted == CategoryHighlights(s.category)
    ensures r.topic == "" && r.barText == None && r.sidebar == HistoryList(s.history)
    ensures r.(content := s.content, topic := s.topic, barText := s.barText, sidebar := s.sidebar) == s
  {
    s.(content := ForYou(ForYouCards(s.catalog, s.category), CategoryHighlights(s.category)),
       topic := "", barText := None, sidebar := HistoryList(s.history))
  }

  /** The "read more" button: the explanation's full text replaces what is shown; no request
      is sent and nothing outside the explanation changes. */
  function ReadMoreShown(s: PageState): (r: PageState)
    ensures (s.content.Result? && s.content.view.explanation.Some?) ==>
      var e := s.content.view.explanation.value;
      r == s.(content := Result(s.content.view.(explanation := Some(ReadMore(e)))))
    ensures !(s.content.Result? && s.content.view.explanation.Some?) ==> r == s
  {
    match s.content
    case Result(v) =>
      if v.explanation.Some? then s.(content := Result(v.(explanation := Some(ReadMore(v.explanation.value)))))
      else s
    case _ => s
  }

  // ---------------------------------------------------------------- the search overlay

  /** `openSearchOverlay`: the input starts from the current topic. */
  function OverlayOpened(s: PageState): (r: PageState)
    ensures r == s.(overlay := s.overlay.(open := true, input := s.topic))
  {
    s.(overlay := s.overlay.(open := true, input := s.topic))
  }

  /** `closeSearchOverlay`: the input is cleared and the suggestions hidden (their list stays). */
  function OverlayClosed(s: PageState): (r: PageState)
    ensures !r.overlay.open && r.overlay.input == "" && !r.overlay.suggestionsVisible
    ensures r.overlay.suggestions == s.overlay.suggestions && r.(overlay := s.overlay) == s
  {
    s.(overlay := s.overlay.(open := false, input := "", suggestionsVisible := false))
  }

  /** The input event: the typed value and `showSuggestions` for it. */
  function InputChanged(s: PageState, value: string): (r: PageState)
    ensures r.overlay.input == value && r.overlay.suggestions == Suggestions(Pool(s.catalog), value)
    ensures r.overlay.suggestionsVisible <==> r.overlay.suggestions != []
    ensures r.overlay.open == s.overlay.open && r.(overlay := s.overlay) == s
  {
    var shown := Suggestions(Pool(s.catalog), value);
    s.(overlay := s.overlay.(input := value, suggestions := shown, suggestionsVisible := shown != []))
  }

  /** The keydown event: Escape closes the overlay; any other key changes nothing. */
  function KeyPressed(s: PageState, key: string): (r: PageState)
    ensures key == "Escape" ==> r == OverlayClosed(s)
    ensures key != "Escape" ==> r == s
  {
    if key == "Escape" then OverlayClosed(s) else s
  }

  /** The form's submit event: the trimmed input is searched when it is not empty. */
  function Submitted(s: PageState): (r: PageState)
    ensures Trim(s.overlay.input) != [] ==> r == Searched(s, Trim(s.overlay.input))
    ensures Trim(s.overlay.input) == [] ==> r == s
  {
    var query := Trim(s.overlay.input);
    if query != [] then Searched(s, query) else s
  }

  // ---------------------------------------------------------------- the click router

  /** What a click lands on, as `closest` finds it. */
  datatype Target =
    | SaveButton(data: SaveData)
    | HistoryItem(topic: string)
    | SuggestionItem(suggestion: string)
    | ReadMoreButton
    | ForYouCard(cardTopic: string)
    | CategoryButton(id: string)
    | LanguageMenuButton
    | LanguageItem(code: string)
    | InLanguageMenu       // elsewhere inside the language-menu container
    | Elsewhere

  /** A click: its target, and whether it lies inside the overlay panel or the search bar. */
  datatype ClickEvent = ClickEvent(target: Target, inPanel: bool, onTrigger: bool)

  /** Language items are rendered from the language list only. */
  predicate PossibleClick(c: ClickEvent) {
    c.target.LanguageItem? ==> IsLanguageCode(c.target.code)
  }

  function LanguageMenuHidden(s: PageState): (r: PageState)
    ensures r.languageMenu == if s.languageMenu.Some? then Some(s.languageMenu.value.(itemsHidden := true)) else None
    ensures r.(languageMenu := s.languageMenu) == s
  {
    if s.languageMenu.Some? then s.(languageMenu := Some(s.languageMenu.value.(itemsHidden := true))) else s
  }

  function LanguageMenuToggled(s: PageState): (r: PageState)
    ensures r.languageMenu == if s.languageMenu.Some? then Some(s.languageMenu.value.(itemsHidden := !s.languageMenu.value.itemsHidden)) else None
    ensures r.(languageMenu := s.languageMenu) == s
  {
    if s.languageMenu.Some? then s.(languageMenu := Some(s.languageMenu.value.(itemsHidden := !s.languageMenu.value.itemsHidden))) else s
  }

  /** A language item: the language is selected, the menu re-rendered (hidden) with its mark,
      and the current topic, if any, searched again in the new language. */
  function LanguageChosen(s: PageState, code: string): (r: PageState)
    requires IsLanguageCode(code)
    ensures r.language == Languages[FindLanguage(Languages, code)] && r.language.code == code
    ensures r.languageMenu == Some(LanguageMenu(LanguageMarks(code), true))
    ensures s.topic == [] ==> r.requests == s.requests && r.content == s.content && r.topic == s.topic
    ensures !IsBlank(s.topic) ==> r.requests == s.requests + [SearchRequest(s.topic, code)] && r.content == Loading
  {
    var lang := Languages[FindLanguage(Languages, code)];
    var s1 := s.(language := lang, languageMenu := Some(LanguageMenu(LanguageMarks(lang.code), true)));
    if s1.topic != [] then Searched(s1, s1.topic) else s1
  }

  /** The body's click listener, clause by clause: close the overlay on a click outside it,
      then the save button and history item (each returns), the suggestion, "read more", the
      card, the category button, the language menu button (any click elsewhere outside the
      menu hides it) and the language item. */
  function Clicked(s: PageState, c: ClickEvent): (r: PageState)
    requires PossibleClick(c)
  {
    Routed(OutsideClosed(s, c), c.target)
  }

  /** The first clause: a click outside the open overlay's panel and the search bar closes it. */
  function OutsideClosed(s: PageState, c: ClickEvent): (r: PageState)
    ensures s.overlay.open && !c.inPanel && !c.onTrigger ==> r == OverlayClosed(s)
    ensures !(s.overlay.open && !c.inPanel && !c.onTrigger) ==> r == s
  {
    if s.overlay.open && !c.inPanel && !c.onTrigger then OverlayClosed(s) else s
  }

  /** The remaining clauses, by what the click landed on. */
  function Routed(s: PageState, target: Target): (r: PageState)
    requires target.LanguageItem? ==> IsLanguageCode(target.code)
  {
    match target
    case SaveButton(_) => s
    case HistoryItem(t) => if t != [] then Searched(s, t) else s
    case SuggestionItem(t) =>
      LanguageMenuHidden(Searched(s.(overlay := s.overlay.(input := t, suggestionsVisible := false)), t))
    case ReadMoreButton => LanguageMenuHidden(ReadMoreShown(s))
    case ForYouCard(t) => LanguageMenuHidden(Searched(s, t))
    case CategoryButton(id) => LanguageMenuHidden(ForYouShown(s.(category := id)))
    case LanguageMenuButton => LanguageMenuToggled(s)
    case LanguageItem(code) => LanguageChosen(s, code)
    case InLanguageMenu => s
    case Elsewhere => LanguageMenuHidden(s)
  }

  /** The save request a click starts, if it lands on a save button. */
  function SaveStarted(c: ClickEvent): (r: Option<SaveRequest>)
    ensures r.Some? <==> c.target.SaveButton?
    ensures r.Some? ==> r.value == SaveRequestOf(c.target.data)
  {
    if c.target.SaveButton? then Some(SaveRequestOf(c.target.data)) else None
  }

  /** The search bar: its own listener opens the overlay, then the body's listener sees a click
      on the bar. */
  function TriggerClicked(s: PageState): PageState {
    Clicked(OverlayOpened(s), ClickEvent(Elsewhere, false, true))
  }

  // ---------------------------------------------------------------- session history

  /** The popstate listener: a search entry with a topic is searched again; any other entry
      shows the recommendations. */
  function Popped(s: PageState, st: EntryState): (r: PageState)
    ensures st.SearchState? && st.topic != [] ==> r == Searched(s, st.topic)
    ensures !(st.SearchState? && st.topic != []) ==> r == ForYouShown(s)
  {
    if st.SearchState? && st.topic != [] then Searched(s, st.topic) else ForYouShown(s)
  }

  /** The browser's back button: the previous entry becomes current and popstate fires with its
      state; without a previous entry nothing happens. */
  function WentBack(s: PageState): (r: PageState)
    ensures !(0 < s.session.position < |s.session.entries|) ==> r == s
  {
    var n := s.session;
    if 0 < n.position < |n.entries| then
      Popped(s.(session := n.(position := n.position - 1)), n.entries[n.position - 1].state)
    else s
  }

  /** The browser's forward button. */
  function WentForward(s: PageState): (r: PageState)
    ensures !(s.session.position + 1 < |s.session.entries|) ==> r == s
  {
    var n := s.session;
    if n.position + 1 < |n.entries| then
      Popped(s.(session := n.(position := n.position + 1)), n.entries[n.position + 1].state)
    else s
  }

  // ---------------------------------------------------------------- start-up

  /** The page as served, before its script's last statements run, at location `url`. */
  function Fresh(st: Storage, url: string): PageState {
    PageState(English, AllCategories, "", [], st, ClosedOverlay, None, Initial, SidebarInitial,
              None, [], Catalog, Session([Entry(NoState, url)], 0), [])
  }

  /** `handleInitialPageLoad`: a non-empty `search` parameter is searched; without one the
      recommendations are shown. */
  function InitialLoad(s: PageState, url: string): (r: PageState) {
    var p := SearchParam(LocationSearch(url), "search");
    if p.Some? && p.value != [] then Searched(s, p.value) else ForYouShown(s)
  }

  /** The last statements of the script: `loadHistory`, `renderLanguageMenu`,
      `handleInitialPageLoad` and the trending buttons, run on the page as served. */
  function Started(st: Storage, url: string): (r: PageState) {
    Boot(Fresh(st, url), url)
  }

  /** When `JSON.parse` throws in `loadHistory`, the rest never runs (the listeners, registered
      before, stay). */
  function Boot(s: PageState, url: string): (r: PageState)
    ensures LoadHistory(s.storage).Throws? ==> r == s
  {
    match LoadHistory(s.storage)
    case Throws => s
    case Keep => Rendered(s, url)
    case Replace(items) => Rendered(s.(history := items), url)
  }

  function Rendered(s: PageState, url: string): PageState {
    var s1 := s.(languageMenu := Some(LanguageMenu(LanguageMarks(s.language.code), true)));
    InitialLoad(s1, url).(trending := Trending)
  }

  // ---------------------------------------------------------------- events

  datatype Event =
    | TriggerClick
    | Input(value: string)
    | KeyDown(key: string)
    | Submit
    | Click(click: ClickEvent)
    | Back
    | Forward
    | Response(response: SearchResponse)

  predicate PossibleEvent(e: Event) {
    e.Click? ==> PossibleClick(e.click)
  }

  function Step(s: PageState, e: Event): PageState
    requires PossibleEvent(e)
  {
    match e
    case TriggerClick => TriggerClicked(s)
    case Input(v) => InputChanged(s, v)
    case KeyDown(k) => KeyPressed(s, k)
    case Submit => Submitted(s)
    case Click(c) => Clicked(s, c)
    case Back => WentBack(s)
    case Forward => WentForward(s)
    case Response(resp) => Completed(s, resp)
  }

  // ---------------------------------------------------------------- what every state satisfies

  /** What holds of every state the page reaches: the session has a current entry, the bar
      shows the topic, a topic is never blank, the loader is shown only for a topic, the
      recommendations only without one, and the menu marks the selected language. */
  predicate Consistent(s: PageState) {
    && ValidSession(s.session)
    && s.barText == (if s.topic == [] then None else Some(s.topic))
    && (s.topic == [] || !IsBlank(s.topic))
    && (s.content.Loading? ==> s.topic != [])
    && (s.content.ForYou? ==> s.topic == [])
    && (s.languageMenu.Some? ==> s.languageMenu.value.marks == LanguageMarks(s.language.code))
  }

  lemma StartedConsistent(st: Storage, url: string)
    ensures Consistent(Started(st, url))
  {
    var s0 := Fresh(st, url);
    assert Consistent(s0);
    BootConsistent(s0, url);
  }

  lemma BootConsistent(s: PageState, url: string)
    requires Consistent(s)
    ensures Consistent(Boot(s, url))
  {
    match LoadHistory(s.storage)
    case Throws =>
    case Keep => RenderedConsistent(s, url);
    case Replace(items) =>
      assert Consistent(s.(history := items));
      RenderedConsistent(s.(history := items), url);
  }

  lemma RenderedConsistent(s: PageState, url: string)
    requires Consistent(s)
    ensures Consistent(Rendered(s, url))
  {
    var s1 := s.(languageMenu := Some(LanguageMenu(LanguageMarks(s.language.code), true)));
    InitialLoadConsistent(s1, url);
  }

  lemma InitialLoadConsistent(s: PageState, url: string)
    requires Consistent(s)
    ensures Consistent(InitialLoad(s, url))
  {
    var p := SearchParam(LocationSearch(url), "search");
    if p.Some? && p.value != [] {
      SearchedConsistent(s, p.value);
    } else {
      ForYouConsistent(s);
    }
  }

  lemma SearchedConsistent(s: PageState, t: string)
    requires Consistent(s)
    ensures Consistent(Searched(s, t))
  {
  }

  /** The overlay, the storage and the trending buttons play no part in consistency. */
  lemma OverlayConsistent(s: PageState, o: Overlay)
    requires Consistent(s)
    ensures Consistent(s.(overlay := o))
  {
  }

  lemma ClickedConsistent(s: PageState, c: ClickEvent)
    requires Consistent(s) && PossibleClick(c)
    ensures Consistent(Clicked(s, c))
  {
    OverlayConsistent(s, OutsideClosed(s, c).overlay);
    RoutedConsistent(OutsideClosed(s, c), c.target);
  }

  lemma RoutedConsistent(s: PageState, target: Target)
    requires Consistent(s) && (target.LanguageItem? ==> IsLanguageCode(target.code))
    ensures Consistent(Routed(s, target))
  {
    if target.SuggestionItem? || target.HistoryItem? || target.ForYouCard? {
      SearchRouteConsistent(s, target);
    } else if target.LanguageItem? {
      LanguageConsistent(s, target.code);
    } else {
      ViewRouteConsistent(s, target);
    }
  }

  lemma SearchRouteConsistent(s: PageState, target: Target)
    requires Consistent(s) && (target.SuggestionItem? || target.HistoryItem? || target.ForYouCard?)
    ensures Consistent(Routed(s, target))
  {
    match target
    case SuggestionItem(t) =>
      var s2 := s.(overlay := s.overlay.(input := t, suggestionsVisible := false));
      OverlayConsistent(s, s2.overlay);
      SearchedConsistent(s2, t);
      MenuConsistent(Searched(s2, t));
    case HistoryItem(t) => SearchedConsistent(s, t);
    case ForYouCard(t) =>
      SearchedConsistent(s, t);
      MenuConsistent(Searched(s, t));
  }

  lemma ViewRouteConsistent(s: PageState, target: Target)
    requires Consistent(s) && !(target.SuggestionItem? || target.HistoryItem? || target.ForYouCard? || target.LanguageItem?)
    ensures Consistent(Routed(s, target))
  {
    match target
    case ReadMoreButton =>
      ReadMoreConsistent(s);
      MenuConsistent(ReadMoreShown(s));
    case CategoryButton(id) =>
      ForYouConsistent(s.(category := id));
      MenuConsistent(ForYouShown(s.(category := id)));
    case LanguageMenuButton => MenuConsistent(s);
    case Elsewhere => MenuConsistent(s);
    case SaveButton(_) =>
    case InLanguageMenu =>
  }

  lemma LanguageConsistent(s: PageState, code: string)
    requires Consistent(s) && IsLanguageCode(code)
    ensures Consistent(LanguageChosen(s, code))
  {
    var lang := Languages[FindLanguage(Languages, code)];
    var s2 := s.(language := lang, languageMenu := Some(LanguageMenu(LanguageMarks(lang.code), true)));
    assert Consistent(s2);
    SearchedConsistent(s2, s2.topic);
  }

  lemma ReadMoreConsistent(s: PageState)
    requires Consistent(s)
    ensures Consistent(ReadMoreShown(s))
  {
  }

  /** Hiding or showing the language items keeps their marks. */
  lemma MenuConsistent(s: PageState)
    requires Consistent(s)
    ensures Consistent(LanguageMenuHidden(s)) && Consistent(LanguageMenuToggled(s))
  {
  }

  lemma PoppedConsistent(s: PageState, n: Session, st: EntryState)
    requires Consistent(s) && ValidSession(n)
    ensures Consistent(Popped(s.(session := n), st))
  {
    var s1 := s.(session := n);
    assert Consistent(s1);
    if st.SearchState? && st.topic != [] {
      SearchedConsistent(s1, st.topic);
    } else {
      ForYouConsistent(s1);
    }
  }

  lemma ForYouConsistent(s: PageState)
    requires Consistent(s)
    ensures Consistent(ForYouShown(s))
  {
  }

  lemma TriggerConsistent(s: PageState)
    requires Consistent(s)
    ensures Consistent(TriggerClicked(s))
  {
    OverlayConsistent(s, OverlayOpened(s).overlay);
    ClickedConsistent(OverlayOpened(s), ClickEvent(Elsewhere, false, true));
  }

  lemma InputConsistent(s: PageState, v: string)
    requires Consistent(s)
    ensures Consistent(InputChanged(s, v))
  {
    OverlayConsistent(s, InputChanged(s, v).overlay);
  }

  lemma KeyConsistent(s: PageState, k: string)
    requires Consistent(s)
    ensures Consistent(KeyPressed(s, k))
  {
    OverlayConsistent(s, OverlayClosed(s).overlay);
  }

  lemma SubmitConsistent(s: PageState)
    requires Consistent(s)
    ensures Consistent(Submitted(s))
  {
    SearchedConsistent(s, Trim(s.overlay.input));
  }

  lemma BackConsistent(s: PageState)
    requires Consistent(s)
    ensures Consistent(WentBack(s))
  {
    var n := s.session;
    if 0 < n.position < |n.entries| {
      PoppedConsistent(s, n.(position := n.position - 1), n.entries[n.position - 1].state);
    }
  }

  lemma ForwardConsistent(s: PageState)
    requires Consistent(s)
    ensures Consistent(WentForward(s))
  {
    var n := s.session;
    if n.position + 1 < |n.entries| {
      PoppedConsistent(s, n.(position := n.position + 1), n.entries[n.position + 1].state);
    }
  }

  lemma CompletedConsistent(s: PageState, resp: SearchResponse)
    requires Consistent(s)
    ensures Consistent(Completed(s, resp))
  {
  }

  /** Every event keeps the page consistent. */
  lemma StepConsistent(s: PageState, e: Event)
    requires Consistent(s) && PossibleEvent(e)
    ensures Consistent(Step(s, e))
  {
    match e
    case TriggerClick => TriggerConsistent(s);
    case Input(v) => InputConsistent(s, v);
    case KeyDown(k) => KeyConsistent(s, k);
    case Submit => SubmitConsistent(s);
    case Click(c) => ClickedConsistent(s, c);
    case Back => BackConsistent(s);
    case Forward => ForwardConsistent(s);
    case Response(resp) => CompletedConsistent(s, resp);
  }

  // ---------------------------------------------------------------- the history's shape

  /** The stored history could have been written by the page: absent, empty, or a list with at
      most seven entries and no two equal ignoring case. `loadHistory` does not check this. */
  predicate LoadsWellFormed(st: Storage) {
    match LoadHistory(st)
    case Replace(items) => WellFormed(items)
    case _ => true
  }

  /** The history after a search of `t`: unchanged for a blank topic. */
  function SearchedHistory(h: seq<string>, t: string): (r: seq<string>)
    ensures IsBlank(t) ==> r == h
    ensures !IsBlank(t) ==> r != [] && r[0] == t
  {
    if IsBlank(t) then h else UpdateHistory(h, t)
  }

  lemma SearchedHistoryWellFormed(h: seq<string>, t: string)
    requires WellFormed(h)
    ensures WellFormed(SearchedHistory(h, t))
  {
    if !IsBlank(t) {
      UpdatePreservesWellFormed(h, t);
    }
  }

  /** The topic a click searches, or the empty string when it searches nothing. */
  function ClickTopic(s: PageState, c: ClickEvent): string {
    match c.target
    case HistoryItem(t) => t
    case SuggestionItem(t) => t
    case ForYouCard(t) => t
    case LanguageItem(_) => s.topic
    case _ => ""
  }

  /** A click changes the history only as a search of its topic does. */
  lemma ClickedHistory(s: PageState, c: ClickEvent)
    requires PossibleClick(c)
    ensures Clicked(s, c).history == SearchedHistory(s.history, ClickTopic(s, c))
  {
    var s1 := OutsideClosed(s, c);
    assert s1.history == s.history && s1.topic == s.topic;
    RoutedHistory(s1, c.target);
  }

  lemma RoutedHistory(s: PageState, target: Target)
    requires target.LanguageItem? ==> IsLanguageCode(target.code)
    ensures Routed(s, target).history == SearchedHistory(s.history, ClickTopic(s, ClickEvent(target, false, false)))
  {
    match target
    case HistoryItem(t) =>
    case SuggestionItem(t) =>
      var s2 := s.(overlay := s.overlay.(input := t, suggestionsVisible := false));
      MenuKeepsHistory(Searched(s2, t));
    case ForYouCard(t) => MenuKeepsHistory(Searched(s, t));
    case LanguageItem(code) =>
    case SaveButton(_) =>
    case ReadMoreButton => MenuKeepsHistory(ReadMoreShown(s));
    case CategoryButton(id) => MenuKeepsHistory(ForYouShown(s.(category := id)));
    case LanguageMenuButton => MenuKeepsHistory(s);
    case InLanguageMenu =>
    case Elsewhere => MenuKeepsHistory(s);
  }

  lemma MenuKeepsHistory(s: PageState)
    ensures LanguageMenuHidden(s).history == s.history && LanguageMenuToggled(s).history == s.history
  {
  }

  /** The topic an event searches, or the empty string when it searches nothing. */
  function StepTopic(s: PageState, e: Event): string {
    var n := s.session;
    match e
    case Submit => Trim(s.overlay.input)
    case Click(c) => ClickTopic(s, c)
    case Back =>
      if 0 < n.position < |n.entries| && n.entries[n.position - 1].state.SearchState?
      then n.entries[n.position - 1].state.topic else ""
    case Forward =>
      if n.position + 1 < |n.entries| && n.entries[n.position + 1].state.SearchState?
      then n.entries[n.position + 1].state.topic else ""
    case _ => ""
  }

  /** Every event changes the history only as one search of its topic does: no other path
      writes it. */
  lemma StepHistory(s: PageState, e: Event)
    requires PossibleEvent(e)
    ensures Step(s, e).history == SearchedHistory(s.history, StepTopic(s, e))
  {
    match e
    case TriggerClick => ClickedHistory(OverlayOpened(s), ClickEvent(Elsewhere, false, true));
    case Click(c) => ClickedHistory(s, c);
    case Submit =>
    case Back =>
    case Forward =>
    case Input(_) =>
    case KeyDown(_) =>
    case Response(_) =>
  }

  /** Every event keeps a well-formed history well-formed: at most seven entries, no
      case-insensitive repeats. */
  lemma StepWellFormed(s: PageState, e: Event)
    requires WellFormed(s.history) && PossibleEvent(e)
    ensures WellFormed(Step(s, e).history)
  {
    StepHistory(s, e);
    SearchedHistoryWellFormed(s.history, StepTopic(s, e));
  }

  /** Start-up leaves a well-formed history when the stored one is well-formed. */
  lemma BootWellFormed(s: PageState, url: string)
    requires WellFormed(s.history) && LoadsWellFormed(s.storage)
    ensures WellFormed(Boot(s, url).history)
  {
    var s1 := match LoadHistory(s.storage) case Replace(items) => s.(history := items) case _ => s;
    var p := SearchParam(LocationSearch(url), "search");
    var t := if !LoadHistory(s.storage).Throws? && p.Some? && p.value != [] then p.value else "";
    assert Boot(s, url).history == SearchedHistory(s1.history, t);
    SearchedHistoryWellFormed(s1.history, t);
  }

  // ---------------------------------------------------------------- deep links and replay

  /** The link a search pushes carries its topic: parsing the `search` parameter of the link
      gives the topic back exactly, whatever characters it holds. */
  lemma SearchLinkRoundTrip(t: string)
    ensures SearchParam(LocationSearch(SearchLink(t)), "search") == Some(t)
  {
    assert SearchLink(t) == "/" + "?" + "search" + "=" + EncodeURIComponent(t);
    LinkParam("/", "search", t);
  }

  /** Loading the page at a search link runs the same search `handleSearch` ran. */
  lemma DeepLinkStartsSearch(s: PageState, t: string)
    requires t != []
    ensures InitialLoad(s, SearchLink(t)) == Searched(s, t)
  {
    SearchLinkRoundTrip(t);
  }

  /** A page opened without a `search` parameter shows the recommendations. */
  lemma PlainLoadShowsForYou(s: PageState, url: string)
    requires SearchParam(LocationSearch(url), "search").None?
    ensures InitialLoad(s, url) == ForYouShown(s)
  {
  }

  /** The history start-up leaves in place: the stored list, or none when nothing is stored. */
  function StoredHistory(st: Storage): (h: seq<string>)
    requires !LoadHistory(st).Throws?
    ensures LoadHistory(st).Replace? ==> h == LoadHistory(st).items
    ensures LoadHistory(st).Keep? ==> h == []
  {
    if LoadHistory(st).Replace? then LoadHistory(st).items else []
  }

  /** Start-up with a readable store installs the stored history before anything else runs. A
      search link then searches in English from that history: the topic heads it, the store is
      rewritten, the loader shows and exactly one request is sent. A plain address shows the
      recommendations over the stored history and sends nothing. The menu is rendered hidden
      with English marked, and the trending buttons are filled. */
  lemma StartedFromStore(st: Storage, t: string, url: string)
    requires !LoadHistory(st).Throws?
    ensures !IsBlank(t) ==>
      var r := Started(st, SearchLink(t));
      && r.history == UpdateHistory(StoredHistory(st), t)
      && r.storage == SaveHistory(st, r.history)
      && r.topic == t && r.content == Loading
      && r.requests == [SearchRequest(t, "en")]
      && r.languageMenu == Some(LanguageMenu(LanguageMarks("en"), true))
      && r.trending == Trending
    ensures SearchParam(LocationSearch(url), "search").None? ==>
      var r := Started(st, url);
      && r.history == StoredHistory(st)
      && r.storage == st
      && r.topic == [] && r.content == ForYou(ForYouCards(Catalog, AllCategories), CategoryHighlights(AllCategories))
      && r.requests == []
      && r.languageMenu == Some(LanguageMenu(LanguageMarks("en"), true))
      && r.trending == Trending
  {
    var s0 := Fresh(st, SearchLink(t));
    var h := StoredHistory(st);
    var s1 := s0.(history := h);
    assert Boot(s0, SearchLink(t)) == Rendered(s1, SearchLink(t));
    if !IsBlank(t) {
      var m := s1.(languageMenu := Some(LanguageMenu(LanguageMarks("en"), true)));
      DeepLinkStartsSearch(m, t);
    }
    var u0 := Fresh(st, url);
    var u1 := u0.(history := h);
    assert Boot(u0, url) == Rendered(u1, url);
    if SearchParam(LocationSearch(url), "search").None? {
      var m := u1.(languageMenu := Some(LanguageMenu(LanguageMarks("en"), true)));
      PlainLoadShowsForYou(m, url);
    }
  }

  /** Two pushes leave the first pushed entry just before the current one. */
  lemma PushTwice(n: Session, e1: Entry, e2: Entry)
    ensures var m := Push(Push(n, e1), e2);
      m.position > 0 && m.entries[m.position - 1] == e1 && m.entries[m.position] == e2
  {
  }

  /** The back button on an entry a search pushed runs that search again; any other entry shows
      the recommendations. Because the search pushes a fresh entry, the one left behind and all
      after it are dropped, so the forward button has nowhere to go afterwards. */
  lemma BackResearches(s: PageState)
    requires 0 < s.session.position < |s.session.entries|
    ensures var n := s.session;
      var st := n.entries[n.position - 1].state;
      var s1 := s.(session := n.(position := n.position - 1));
      && (st.SearchState? && st.topic != [] ==> WentBack(s) == Searched(s1, st.topic))
      && (!(st.SearchState? && st.topic != []) ==> WentBack(s) == ForYouShown(s1))
      && (st.SearchState? && !IsBlank(st.topic) ==>
            && WentBack(s).session == Session(n.entries[..n.position] + [Entry(st, SearchLink(st.topic))], n.position)
            && WentForward(WentBack(s)) == WentBack(s))
  {
    var n := s.session;
    var s1 := s.(session := n.(position := n.position - 1));
    assert WentBack(s) == Popped(s1, n.entries[n.position - 1].state);
  }

  /** The forward button on an entry a search pushed runs that search again; any other entry
      shows the recommendations. The search's fresh entry replaces every entry after the one
      reached, so forward again has nowhere to go. */
  lemma ForwardResearches(s: PageState)
    requires s.session.position + 1 < |s.session.entries|
    ensures var n := s.session;
      var st := n.entries[n.position + 1].state;
      var s1 := s.(session := n.(position := n.position + 1));
      && (st.SearchState? && st.topic != [] ==> WentForward(s) == Searched(s1, st.topic))
      && (!(st.SearchState? && st.topic != []) ==> WentForward(s) == ForYouShown(s1))
      && (st.SearchState? && !IsBlank(st.topic) ==>
            && WentForward(s).session == Session(n.entries[..n.position + 2] + [Entry(st, SearchLink(st.topic))], n.position + 2)
            && WentForward(WentForward(s)) == WentForward(s))
  {
    var n := s.session;
    var s1 := s.(session := n.(position := n.position + 1));
    assert WentForward(s) == Popped(s1, n.entries[n.position + 1].state);
  }

  /** After searching `a` and then `b`, the back button searches `a` again, afresh: history,
      storage, loader and a new request, with the session pointing at `a`'s entry. */
  lemma BackReplaysPreviousSearch(s: PageState, a: string, b: string)
    requires !IsBlank(a) && !IsBlank(b)
    ensures var s2 := Searched(Searched(s, a), b);
      && s2.session.position > 0
      && WentBack(s2) == Searched(s2.(session := s2.session.(position := s2.session.position - 1)), a)
  {
    var s1 := Searched(s, a);
    var s2 := Searched(s1, b);
    PushTwice(s.session, Entry(SearchState(a), SearchLink(a)), Entry(SearchState(b), SearchLink(b)));
    assert s2.session == Push(Push(s.session, Entry(SearchState(a), SearchLink(a))), Entry(SearchState(b), SearchLink(b)));
  }

  /** Switching language with no topic only re-marks the menu; with a topic, the same topic is
      searched again in the new language. */
  lemma LanguageSwitchResearches(s: PageState, code: string)
    requires IsLanguageCode(code)
    ensures s.topic == [] ==> LanguageChosen(s, code) == s.(language := Languages[FindLanguage(Languages, code)],
                                                           languageMenu := Some(LanguageMenu(LanguageMarks(code), true)))
    ensures s.topic != [] ==> LanguageChosen(s, code) == Searched(s.(language := Languages[FindLanguage(Languages, code)],
                                                           languageMenu := Some(LanguageMenu(LanguageMarks(code), true))), s.topic)
  {
  }
}
