/**
 * What the main page shows, as structured data rather than markup: the content area, the
 * sidebar, the category buttons, the autosuggest list, the language check mark, a search
 * result with its explanation, videos, articles and quiz link, and the save buttons.
 * Each region is computed from the page's state by a function of this module.
 */
module Views {
  import opened Wrappers
  import opened JsText
  import opened Uri
  import opened Subsequences
  import opened PageData
  import opened Paragraphs

  datatype Video = Video(id: string, title: string, thumbnail: string)

  datatype Article = Article(title: string, link: string, snippet: string)

  datatype Concept = Concept(term: string, definition: string)

  /** The parsed body of a successful `/api/search` response; a missing list is an empty one. */
  datatype SearchData = SearchData(
    aiExplanationShort: string,
    aiExplanationLong: string,
    youtubeVideos: seq<Video>,
    articles: seq<Article>,
    keyConcepts: seq<Concept>)

  /** How the `/api/search` request ends: a 2xx response with its parsed body, a non-2xx response
      whose parsed body may carry an `error` string, or an exception (the fetch rejected, or a
      body was not JSON) with its message. */
  datatype SearchResponse =
    | Ok(data: SearchData)
    | HttpErr(status: nat, error: Option<string>)
    | NetErr(message: string)

  /** The "AI Explanation" card: the paragraphs kept for "read more", the paragraphs shown, and
      whether the "read more" button is still shown. */
  datatype Explanation = Explanation(fullText: seq<string>, shown: seq<string>, readMoreVisible: bool)

  datatype LearningView = LearningView(
    explanation: Option<Explanation>,
    videos: seq<Video>,
    articles: seq<Article>,
    quizUrl: string)

  /** The content area. `Initial` is the markup the page is served with. */
  datatype Content =
    | Initial
    | ForYou(cards: seq<Recommendation>, highlighted: seq<bool>)
    | Loading
    | Result(view: LearningView)
    | Error(message: string)

  /** The sidebar. `HistoryList([])` is the "your recent searches will appear here" note. */
  datatype Sidebar = SidebarInitial | HistoryList(topics: seq<string>) | KeyConcepts(concepts: seq<Concept>) | SidebarEmpty

  const ForYouLimit: nat := 10
  const SuggestionLimit: nat := 5
  const MinQueryLength: nat := 2

  // ---------------------------------------------------------------- "Recommended for you"

  /** The cards `renderForYou` shows from a catalog: all of it, or the items of the selected
      category, in catalog order, at most ten of them. */
  function ForYouCards(recs: seq<Recommendation>, category: string): (r: seq<Recommendation>)
    ensures |r| <= ForYouLimit
    ensures IsSubsequence(r, recs)
    ensures category != AllCategories ==> forall i :: 0 <= i < |r| ==> r[i].category == category
    ensures category == AllCategories ==> r == Take(recs, ForYouLimit)
    ensures category != AllCategories ==> r == Take(OfCategory(recs, category), ForYouLimit)
  {
    var filtered := if category == AllCategories then recs else OfCategory(recs, category);
    var r := Take(filtered, ForYouLimit);
    PrefixIsSubsequence(filtered, |r|);
    SubsequenceReflexive(recs);
    SubsequenceTransitive(r, filtered, recs);
    r
  }

  lemma {:induction false} FilterAppend(a: seq<Recommendation>, b: seq<Recommendation>, id: string)
    ensures OfCategory(a + b, id) == OfCategory(a, id) + OfCategory(b, id)
    decreases |a|
  {
    if a != [] {
      assert (a + b)[1..] == a[1..] + b;
      FilterAppend(a[1..], b, id);
    } else {
      assert a + b == b;
    }
  }

  lemma {:induction false} NoneOfCategory(recs: seq<Recommendation>, id: string)
    requires forall i :: 0 <= i < |recs| ==> recs[i].category != id
    ensures OfCategory(recs, id) == []
    decreases |recs|
  {
    if recs != [] {
      NoneOfCategory(recs[1..], id);
    }
  }

  lemma {:induction false} AllOfCategory(recs: seq<Recommendation>, id: string)
    requires forall i :: 0 <= i < |recs| ==> recs[i].category == id
    ensures OfCategory(recs, id) == recs
    decreases |recs|
  {
    if recs != [] {
      AllOfCategory(recs[1..], id);
    }
  }

  /** In fifteen items of which exactly the first five are "tech", no category has more than ten. */
  lemma {:induction false} TechFirstBound(recs: seq<Recommendation>, category: string)
    requires |recs| == 15
    requires forall i :: 0 <= i < 5 ==> recs[i].category == "tech"
    requires forall i :: 5 <= i < 15 ==> recs[i].category != "tech"
    ensures |OfCategory(recs, category)| <= ForYouLimit
  {
    var front, back := recs[..5], recs[5..];
    assert recs == front + back;
    FilterAppend(front, back, category);
    var f, b := OfCategory(front, category), OfCategory(back, category);
    assert |OfCategory(recs, category)| == |f| + |b|;
    if category == "tech" {
      forall i | 0 <= i < |back| ensures back[i].category != category {
        assert back[i] == recs[i + 5];
      }
      NoneOfCategory(back, category);
      assert |f| <= 5;
    } else {
      forall i | 0 <= i < |front| ensures front[i].category != category {
        assert front[i] == recs[i];
      }
      NoneOfCategory(front, category);
      assert |b| <= 10;
    }
  }

  /** No category of the page's catalog has more than ten items. */
  lemma CatalogCategoryBound(category: string)
    ensures |OfCategory(Catalog, category)| <= ForYouLimit
  {
    TechFirstBound(Catalog, category);
  }

  /** A chosen category is always shown in full: the cap of ten never cuts it. */
  lemma ForYouShowsWholeCategory(category: string)
    requires category != AllCategories
    ensures ForYouCards(Catalog, category) == OfCategory(Catalog, category)
  {
    CatalogCategoryBound(category);
    WholeCategoryShown(Catalog, category);
  }

  lemma WholeCategoryShown(recs: seq<Recommendation>, category: string)
    requires category != AllCategories && |OfCategory(recs, category)| <= ForYouLimit
    ensures ForYouCards(recs, category) == OfCategory(recs, category)
  {
  }

  /** With no filter, the first ten catalog items are shown. */
  lemma ForYouAll()
    ensures ForYouCards(Catalog, AllCategories) == Catalog[..ForYouLimit]
  {
  }

  /** `selectedCategory === cat.id` for each category button, in button order. */
  function CategoryHighlights(selected: string): (r: seq<bool>)
    ensures |r| == |Categories|
    ensures forall i :: 0 <= i < |r| ==> (r[i] <==> Categories[i].id == selected)
  {
    seq(|Categories|, i requires 0 <= i < |Categories| => Categories[i].id == selected)
  }

  /** One button is highlighted, the selected one, when it is a listed category; none otherwise. */
  lemma OnlySelectedHighlighted(selected: string)
    ensures forall i :: 0 <= i < |Categories| && CategoryHighlights(selected)[i] ==> Categories[i].id == selected
    ensures forall i, j :: 0 <= i < j < |Categories| ==> !(CategoryHighlights(selected)[i] && CategoryHighlights(selected)[j])
  {
  }

  // ---------------------------------------------------------------- language menu

  /** The check mark `renderLanguageMenu` puts next to each language, in menu order. */
  function LanguageMarks(code: string): (r: seq<bool>)
    ensures |r| == |Languages|
    ensures forall i :: 0 <= i < |r| ==> (r[i] <==> Languages[i].code == code)
  {
    seq(|Languages|, i requires 0 <= i < |Languages| => Languages[i].code == code)
  }

  /** The selected language is the only one marked, at the position `languages.find` gives. */
  lemma MarkAtSelected(code: string)
    requires IsLanguageCode(code)
    ensures LanguageMarks(code)[FindLanguage(Languages, code)]
    ensures forall i :: 0 <= i < |Languages| && LanguageMarks(code)[i] ==> i == FindLanguage(Languages, code)
  {
  }

  // ---------------------------------------------------------------- autosuggest

  /** `pool.filter(title => title.toLowerCase().includes(query.toLowerCase()))`. */
  function Matching(pool: seq<string>, query: string): (r: seq<string>)
    ensures IsSubsequence(r, pool)
    ensures forall x :: x in r <==> x in pool && Contains(Lower(x), Lower(query))
  {
    if pool == [] then []
    else
      var rest := Matching(pool[1..], query);
      assert pool == [pool[0]] + pool[1..];
      if Contains(Lower(pool[0]), Lower(query)) then [pool[0]] + rest else rest
  }

  /** The filter keeps every matching entry as many times as it occurs in the pool. */
  lemma {:induction false} MatchingCounts(pool: seq<string>, query: string)
    ensures forall x :: multiset(Matching(pool, query))[x] == if Contains(Lower(x), Lower(query)) then multiset(pool)[x] else 0
    decreases |pool|
  {
    if pool != [] {
      MatchingCounts(pool[1..], query);
      assert pool == [pool[0]] + pool[1..];
    }
  }

  /** `showSuggestions`: nothing for a query whose trimmed length is under two; otherwise the
      first five pool entries that contain the (untrimmed) query, ignoring case, in pool order. */
  function Suggestions(pool: seq<string>, query: string): (r: seq<string>)
    ensures |Trim(query)| < MinQueryLength ==> r == []
    ensures |r| <= SuggestionLimit
    ensures forall i :: 0 <= i < |r| ==> r[i] in pool && Contains(Lower(r[i]), Lower(query))
    ensures |Trim(query)| >= MinQueryLength ==>
      |r| == if |Matching(pool, query)| < SuggestionLimit then |Matching(pool, query)| else SuggestionLimit
    ensures |Trim(query)| >= MinQueryLength ==> r == Matching(pool, query)[..|r|]
  {
    // `!query` needs no case of its own: the empty query trims to the empty string.
    if |Trim(query)| < MinQueryLength then []
    else
      var m := Matching(pool, query);
      var r := Take(m, SuggestionLimit);
      SuggestedFromPool(pool, query, m, r);
      r
  }

  lemma SuggestedFromPool(pool: seq<string>, query: string, m: seq<string>, r: seq<string>)
    requires m == Matching(pool, query)
    requires |r| <= |m| && r == m[..|r|]
    ensures forall i :: 0 <= i < |r| ==> r[i] in pool && Contains(Lower(r[i]), Lower(query))
  {
    forall i | 0 <= i < |r| ensures r[i] in pool && Contains(Lower(r[i]), Lower(query)) {
      assert r[i] == m[i];
      assert m[i] in m;
    }
  }

  /** The same title occurs among the catalog titles and the trending topics, so the pool and
      hence the suggestions can hold it twice. */
  lemma PoolRepeats()
    ensures Pool(Catalog)[6] == Pool(Catalog)[|Catalog| + 1] == "Quantum Computing Explained"
    ensures multiset(Pool(Catalog))["Quantum Computing Explained"] >= 2
  {
    var p := Pool(Catalog);
    assert p == p[..7] + p[7..16] + p[16..17] + p[17..];
    assert p[6] in multiset(p[..7]);
    assert p[16..17] == ["Quantum Computing Explained"];
  }

  /** A title that matches a query is suggested once for every time it occurs in the pool,
      before the cap at five. */
  lemma RepeatedMatches(query: string)
    requires Contains(Lower("Quantum Computing Explained"), Lower(query))
    ensures multiset(Matching(Pool(Catalog), query))["Quantum Computing Explained"] >= 2
  {
    PoolRepeats();
    MatchingCounts(Pool(Catalog), query);
  }

  // ---------------------------------------------------------------- a search result

  /** The message of the error `handleSearch` throws for a non-2xx response:
      `errorData.error || \`HTTP error! status: ${response.status}\``. */
  function ErrorText(status: nat, error: Option<string>): (r: string)
    ensures error.Some? && error.value != [] ==> r == error.value
    ensures !(error.Some? && error.value != []) ==> r == "HTTP error! status: " + Decimal(status)
  {
    if error.Some? && error.value != [] then error.value else "HTTP error! status: " + Decimal(status)
  }

  /** The default message names the status: the numeral after the fixed prefix denotes it. */
  lemma DefaultErrorNamesStatus(status: nat, error: Option<string>)
    requires error.None? || error.value == []
    ensures |ErrorText(status, error)| > 20
    ensures ErrorText(status, error)[..20] == "HTTP error! status: "
    ensures var digits := ErrorText(status, error)[20..];
      (forall i :: 0 <= i < |digits| ==> '0' <= digits[i] <= '9') && DigitsValue(digits) == status
  {
    var r := ErrorText(status, error);
    assert r[20..] == Decimal(status);
    DecimalValue(status);
  }

  /** The explanation card is rendered only when both texts are non-empty; it starts with the
      short text shown and keeps the trimmed paragraphs of the long text for "read more". */
  function ExplanationOf(short: string, long: string): (r: Option<Explanation>)
    ensures r.Some? <==> short != [] && long != []
    ensures r.Some? ==> r.value.shown == [short] && r.value.readMoreVisible
    ensures r.Some? ==> r.value.fullText == ParagraphsOf(long)
  {
    if short != [] && long != [] then Some(Explanation(ParagraphsOf(long), [short], true)) else None
  }

  /** "Read more": the shown paragraphs become the full text, replacing the short one, and the
      button is hidden. */
  function ReadMore(e: Explanation): (r: Explanation)
    ensures r.shown == e.fullText && r.fullText == e.fullText && !r.readMoreVisible
  {
    e.(shown := e.fullText, readMoreVisible := false)
  }

  /** The link of the quiz button, built from the topic the page is on when the result arrives. */
  function QuizLink(topic: string): string {
    "/quiz?topic=" + EncodeURIComponent(topic) + "&num_questions=15"
  }

  lemma EncodeFifteen()
    ensures EncodeURIComponent("15") == "15"
  {
    Utf8Ascii("15");
    var bs := Utf8Encode("15");
    assert bs == [0x31, 0x35];
    assert EscapeBytes(bs) == EscapeByte(0x31) + EscapeBytes([0x35]);
    assert EscapeBytes([0x35]) == EscapeByte(0x35) + EscapeBytes([]);
  }

  lemma QuizLinkShape(topic: string)
    ensures QuizLink(topic)
      == "/quiz" + "?" + "topic" + "=" + EncodeURIComponent(topic) + "&" + "num_questions" + "=" + EncodeURIComponent("15")
  {
    EncodeFifteen();
    var e := EncodeURIComponent(topic);
    assert "/quiz?topic=" == "/quiz" + "?" + "topic" + "=";
    assert "&num_questions=15" == "&" + "num_questions" + "=" + "15";
  }

  lemma QuizParamNames()
    ensures IndexOf("/quiz", '?') == |"/quiz"|
    ensures forall i :: 0 <= i < |"topic"| ==> Unreserved("topic"[i])
    ensures forall i :: 0 <= i < |"num_questions"| ==> Unreserved("num_questions"[i])
  {
  }

  /** The quiz page reads back the topic exactly, whatever characters it holds, and fifteen
      questions. */
  lemma QuizLinkParams(topic: string)
    ensures SearchParam(LocationSearch(QuizLink(topic)), "topic") == Some(topic)
    ensures SearchParam(LocationSearch(QuizLink(topic)), "num_questions") == Some("15")
  {
    QuizLinkShape(topic);
    QuizParamNames();
    LinkParams("/quiz", "topic", topic, "num_questions", "15");
  }

  /** What `renderLearningSection` puts in the content area. */
  function LearningViewOf(data: SearchData, topic: string): (r: LearningView)
    ensures r.explanation == ExplanationOf(data.aiExplanationShort, data.aiExplanationLong)
    ensures r.videos == data.youtubeVideos && r.articles == data.articles
    ensures r.quizUrl == QuizLink(topic)
  {
    LearningView(ExplanationOf(data.aiExplanationShort, data.aiExplanationLong), data.youtubeVideos, data.articles, QuizLink(topic))
  }

  /** What `renderLearningSection` puts in the sidebar: the key concepts, or nothing. */
  function ConceptsSidebar(concepts: seq<Concept>): (r: Sidebar)
    ensures r.KeyConcepts? <==> concepts != []
    ensures r.KeyConcepts? ==> r.concepts == concepts
    ensures !r.KeyConcepts? ==> r == SidebarEmpty
  {
    if |concepts| > 0 then KeyConcepts(concepts) else SidebarEmpty
  }

  // ---------------------------------------------------------------- save buttons

  /** The `data-*` attributes of a save button. */
  datatype SaveData = SaveData(kind: string, id: string, title: string, thumbnail: string, link: string, snippet: string)

  datatype SavePayload =
    | ArticlePayload(title: string, link: string, snippet: string)
    | VideoPayload(id: string, title: string, thumbnail: string)

  datatype SaveRequest = SaveRequest(url: string, payload: SavePayload)

  /** The save button rendered for a video. */
  function VideoButton(v: Video): SaveData {
    SaveData("video", v.id, v.title, v.thumbnail, "", "")
  }

  /** The save button rendered for an article. */
  function ArticleButton(a: Article): SaveData {
    SaveData("article", "", a.title, "", a.link, a.snippet)
  }

  /** The request `handleSave` sends for a button: to `/api/save/<type>`, with the article's
      fields when the type is "article" and the video's fields for any other type. */
  function SaveRequestOf(b: SaveData): (r: SaveRequest)
    ensures r.url == "/api/save/" + b.kind
    ensures r.payload.ArticlePayload? <==> b.kind == "article"
    ensures r.payload.ArticlePayload? ==> r.payload == ArticlePayload(b.title, b.link, b.snippet)
    ensures r.payload.VideoPayload? ==> r.payload == VideoPayload(b.id, b.title, b.thumbnail)
  {
    var payload := if b.kind == "article" then ArticlePayload(b.title, b.link, b.snippet)
                   else VideoPayload(b.id, b.title, b.thumbnail);
    SaveRequest("/api/save/" + b.kind, payload)
  }

  /** Saving a rendered video or article sends exactly that item's fields. */
  lemma SaveSendsItem(v: Video, a: Article)
    ensures SaveRequestOf(VideoButton(v)) == SaveRequest("/api/save/video", VideoPayload(v.id, v.title, v.thumbnail))
    ensures SaveRequestOf(ArticleButton(a)) == SaveRequest("/api/save/article", ArticlePayload(a.title, a.link, a.snippet))
  {
  }

  /** What a save button shows: its text, whether it is disabled, whether it carries the
      highlight class. */
  datatype ButtonState = ButtonState(text: string, disabled: bool, highlighted: bool)

  const FreshButton: ButtonState := ButtonState("Save", false, false)

  /** How the `/api/save/<type>` request ends: a 2xx response whose body parses (its message is
      only logged), a non-2xx response, or an exception (the fetch rejected, or the body was not
      JSON) with its message. */
  datatype SaveResponse =
    | SaveOk(message: string)
    | SaveHttpErr(status: nat)
    | SaveFailed(message: string)

  /** The button after the save request ends; `saved` is a 2xx response whose body parses. */
  function AfterSave(b: ButtonState, saved: bool): (r: ButtonState)
    ensures saved ==> r == ButtonState("Saved!", true, true)
    ensures !saved ==> r == b.(text := "Error")
  {
    if saved then ButtonState("Saved!", true, true) else b.(text := "Error")
  }

  /** Exactly one of the two outcomes shows; a failure leaves the button as clickable as it was. */
  lemma SaveOutcomeExclusive(b: ButtonState, saved: bool)
    ensures AfterSave(b, saved).text == "Saved!" <==> saved
    ensures AfterSave(b, saved).text == "Error" <==> !saved
    ensures !saved ==> AfterSave(b, saved).disabled == b.disabled && AfterSave(b, saved).highlighted == b.highlighted
    ensures AfterSave(b, saved).disabled <==> saved || b.disabled
  {
  }
}
