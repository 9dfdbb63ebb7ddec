/**
 * The "all topics" page (static/recommendations.js): the catalog grouped into one section per
 * category, in the order of the page's category list, and the click on a card that opens the
 * main page at a search for the card's title.
 */
module AllTopics {
  import opened Wrappers
  import opened Subsequences
  import opened PageData
  import opened Uri
  import opened PageModel

  /** The categories of this page, in the order their sections appear. */
  const TopicCategories: seq<Category> := [
    Category("tech", "Technology & Programming"),
    Category("science", "Science & Nature"),
    Category("arts", "Arts & Humanities"),
    Category("history", "History & Civilization"),
    Category("skills", "Life Skills & Hobbies")
  ]

  /** This page's own copy of the catalog (its order differs from the main page's). */
  const TopicCatalog: seq<Recommendation> := [
    Recommendation("Introduction to Python", "Start your programming journey.", "code", "tech"),
    Recommendation("How Do Neural Networks Work?", "Explore the core concepts behind AI.", "hub", "tech"),
    Recommendation("Fundamentals of UI/UX", "Principles of user-friendly design.", "design_services", "tech"),
    Recommendation("What is Blockchain?", "Understand the tech behind crypto.", "link", "tech"),
    Recommendation("JavaScript ES6 Features", "Unlock modern JavaScript capabilities.", "javascript", "tech"),
    Recommendation("The Theory of Relativity", "Grasp Einstein's ideas on space and time.", "rocket_launch", "science"),
    Recommendation("Quantum Computing Explained", "Dive into the world of quantum bits.", "memory", "science"),
    Recommendation("CRISPR Gene Editing", "Learn how scientists can edit DNA.", "biotech", "science"),
    Recommendation("The Human Brain", "A journey into the complexities of our mind.", "psychology", "science"),
    Recommendation("The Art of Storytelling", "Craft compelling and memorable narratives.", "auto_stories", "arts"),
    Recommendation("Introduction to Philosophy", "Think about life's biggest questions.", "self_improvement", "arts"),
    Recommendation("The Roman Empire", "Explore the rise and fall of a great civilization.", "castle", "history"),
    Recommendation("Ancient Egypt Mythology", "Discover the gods and myths of the pharaohs.", "account_balance", "history"),
    Recommendation("Basics of Personal Finance", "Master budgeting, saving, and investing.", "attach_money", "skills"),
    Recommendation("Public Speaking Mastery", "Build confidence and deliver powerful speeches.", "campaign", "skills")
  ]

  /** One `<section>`: a category heading over the cards of that category. */
  datatype Section = Section(category: Category, items: seq<Recommendation>)

  /** One rendered card: the `data-title` a click reads, what it shows, and its animation delay. */
  datatype Card = Card(dataTitle: string, icon: string, title: string, description: string, delayMs: nat)

  function Ids(cats: seq<Category>): (r: seq<string>)
    ensures |r| == |cats|
    ensures forall i :: 0 <= i < |cats| ==> r[i] == cats[i].id
  {
    seq(|cats|, i requires 0 <= i < |cats| => cats[i].id)
  }

  /** No two categories of the list share an id. */
  predicate DistinctIds(cats: seq<Category>) {
    forall i, j :: 0 <= i < j < |cats| ==> cats[i].id != cats[j].id
  }

  /** The sections the `categories.forEach` loop builds: for each category in turn, the catalog
      items of that category, skipped when there are none. */
  function SectionsOf(cats: seq<Category>, recs: seq<Recommendation>): (r: seq<Section>)
    ensures |r| <= |cats|
    ensures forall i :: 0 <= i < |r| ==> r[i].category in cats
    ensures forall i :: 0 <= i < |r| ==> r[i].items == OfCategory(recs, r[i].category.id) && r[i].items != []
  {
    if cats == [] then []
    else
      var init := SectionsOf(cats[..|cats| - 1], recs);
      var c := cats[|cats| - 1];
      var items := OfCategory(recs, c.id);
      if items == [] then init else init + [Section(c, items)]
  }

  /** The categories of the sections, in page order. */
  function Headings(sections: seq<Section>): (r: seq<Category>)
    ensures |r| == |sections|
    ensures forall i :: 0 <= i < |sections| ==> r[i] == sections[i].category
  {
    seq(|sections|, i requires 0 <= i < |sections| => sections[i].category)
  }

  /** All cards of the page, section after section. */
  function Flatten(sections: seq<Section>): seq<Recommendation> {
    if sections == [] then [] else Flatten(sections[..|sections| - 1]) + sections[|sections| - 1].items
  }

  /** The grouping loop of the page: `fullHtml` grows by one section per category that has items. */
  method RenderSections(cats: seq<Category>, recs: seq<Recommendation>) returns (sections: seq<Section>)
    ensures sections == SectionsOf(cats, recs)
  {
    sections := [];
    for i := 0 to |cats|
      invariant sections == SectionsOf(cats[..i], recs)
    {
      assert cats[..i + 1][..i] == cats[..i];
      var items := OfCategory(recs, cats[i].id);
      if items != [] {
        sections := sections + [Section(cats[i], items)];
      }
    }
    assert cats[..|cats|] == cats;
  }

  /** The `DOMContentLoaded` handler: without the container element it stops before rendering
      and before installing the click handler, which `None` stands for. */
  method ContentLoaded(hasContainer: bool) returns (page: Option<seq<Section>>)
    ensures page.Some? <==> hasContainer
    ensures page.Some? ==> page.value == SectionsOf(TopicCategories, TopicCatalog)
  {
    if !hasContainer {
      return None;
    }
    var sections := RenderSections(TopicCategories, TopicCatalog);
    page := Some(sections);
  }

  /** The cards of one section, with the staggered `index * 50` ms entry animation. */
  function CardsOf(items: seq<Recommendation>): (r: seq<Card>)
    ensures |r| == |items|
    ensures forall i :: 0 <= i < |items| ==> r[i].dataTitle == r[i].title == items[i].title
    ensures forall i :: 0 <= i < |items| ==> r[i].delayMs == 50 * i
  {
    seq(|items|, i requires 0 <= i < |items| =>
      Card(items[i].title, items[i].icon, items[i].title, items[i].description, 50 * i))
  }

  /** The document click handler: `card` is the `data-title` of the card the click landed in, if
      any. A card with a title sends the browser to the search link for that title. */
  function CardClick(page: Option<seq<Section>>, card: Option<string>): (r: Option<string>)
    ensures r.Some? <==> page.Some? && card.Some? && card.value != []
    ensures r.Some? ==> r.value == SearchLink(card.value)
    ensures r.Some? ==> SearchParam(LocationSearch(r.value), "search") == card
  {
    if page.Some? && card.Some? && card.value != [] then
      SearchLinkRoundTrip(card.value);
      Some(SearchLink(card.value))
    else None
  }

  /** Clicking a card of a section opens the main page on the same search `handleSearch` would
      run for that item's title. */
  lemma CardOpensSearch(s: PageState, sections: seq<Section>, i: nat, j: nat)
    requires i < |sections| && j < |sections[i].items| && sections[i].items[j].title != []
    ensures var title := sections[i].items[j].title;
      var nav := CardClick(Some(sections), Some(CardsOf(sections[i].items)[j].dataTitle));
      nav.Some? && InitialLoad(s, nav.value) == Searched(s, title)
  {
    DeepLinkStartsSearch(s, sections[i].items[j].title);
  }

  lemma {:induction false} SubsequenceSnoc<T>(a: seq<T>, b: seq<T>, x: T)
    requires IsSubsequence(a, b)
    ensures IsSubsequence(a + [x], b + [x])
    decreases |b|
  {
    if a == [] {
      SingletonSubsequence(b, x);
      assert a + [x] == [x];
    } else {
      assert (a + [x])[1..] == a[1..] + [x];
      assert (b + [x])[1..] == b[1..] + [x];
      if a[0] == b[0] && IsSubsequence(a[1..], b[1..]) {
        SubsequenceSnoc(a[1..], b[1..], x);
      } else {
        SubsequenceSnoc(a, b[1..], x);
      }
    }
  }

  lemma {:induction false} SingletonSubsequence<T>(b: seq<T>, x: T)
    ensures IsSubsequence([x], b + [x])
    decreases |b|
  {
    if b != [] {
      assert (b + [x])[1..] == b[1..] + [x];
      SingletonSubsequence(b[1..], x);
    } else {
      assert IsSubsequence([x][1..], [x][1..]);
    }
  }

  /** Sections appear in the order of the category list, at most one for each entry. */
  lemma {:induction false} SectionsInOrder(cats: seq<Category>, recs: seq<Recommendation>)
    ensures IsSubsequence(Headings(SectionsOf(cats, recs)), cats)
    decreases |cats|
  {
    if cats != [] {
      var front := cats[..|cats| - 1];
      var c := cats[|cats| - 1];
      var init := SectionsOf(front, recs);
      SectionsInOrder(front, recs);
      assert cats == front + [c];
      if OfCategory(recs, c.id) == [] {
        SubsequenceOfInit(Headings(init), cats);
      } else {
        assert Headings(init + [Section(c, OfCategory(recs, c.id))]) == Headings(init) + [c];
        SubsequenceSnoc(Headings(init), front, c);
      }
    }
  }

  /** With distinct category ids, no two sections share an id. */
  lemma {:induction false} SectionIdsDistinct(cats: seq<Category>, recs: seq<Recommendation>)
    requires DistinctIds(cats)
    ensures DistinctIds(Headings(SectionsOf(cats, recs)))
    decreases |cats|
  {
    if cats != [] {
      var front := cats[..|cats| - 1];
      var c := cats[|cats| - 1];
      var init := SectionsOf(front, recs);
      SectionIdsDistinct(front, recs);
      forall k | 0 <= k < |init| ensures init[k].category.id != c.id {
        var m :| 0 <= m < |front| && front[m] == init[k].category;
        assert cats[m] == front[m];
      }
    }
  }

  /** Adding a category to the list adds its items, if any, at the end of the page. */
  lemma FlattenStep(cats: seq<Category>, recs: seq<Recommendation>)
    requires cats != []
    ensures Flatten(SectionsOf(cats, recs))
      == Flatten(SectionsOf(cats[..|cats| - 1], recs)) + OfCategory(recs, cats[|cats| - 1].id)
  {
    var all := SectionsOf(cats, recs);
    var items := OfCategory(recs, cats[|cats| - 1].id);
    if items == [] {
      assert Flatten(all) + items == Flatten(all);
    } else {
      assert all[..|all| - 1] == SectionsOf(cats[..|cats| - 1], recs);
    }
  }

  /** How often an item is on the page when the categories in `ids` are shown. */
  function Expected(recs: seq<Recommendation>, ids: seq<string>, x: Recommendation): nat {
    if x.category in ids then multiset(recs)[x] else 0
  }

  /** The cards of all sections hold each catalog item whose category is listed, as many times
      as the catalog does, and no other item. */
  lemma {:induction false} SectionsPartition(cats: seq<Category>, recs: seq<Recommendation>)
    requires DistinctIds(cats)
    ensures forall x :: multiset(Flatten(SectionsOf(cats, recs)))[x] == Expected(recs, Ids(cats), x)
    decreases |cats|
  {
    if cats != [] {
      var front := cats[..|cats| - 1];
      var c := cats[|cats| - 1];
      var before := Flatten(SectionsOf(front, recs));
      var items := OfCategory(recs, c.id);
      SectionsPartition(front, recs);
      OfCategoryCounts(recs, c.id);
      FlattenStep(cats, recs);
      IdsLast(cats);
      forall x ensures multiset(before + items)[x] == Expected(recs, Ids(cats), x) {
        assert multiset(before + items)[x] == multiset(before)[x] + multiset(items)[x];
        assert multiset(before)[x] == Expected(recs, Ids(front), x);
      }
    }
  }

  /** The ids of a list are those of all but its last entry and the last one's, which with
      distinct ids is not among the others. */
  lemma IdsLast(cats: seq<Category>)
    requires cats != [] && DistinctIds(cats)
    ensures forall id :: id in Ids(cats) <==> id in Ids(cats[..|cats| - 1]) || id == cats[|cats| - 1].id
    ensures cats[|cats| - 1].id !in Ids(cats[..|cats| - 1])
  {
    assert Ids(cats) == Ids(cats[..|cats| - 1]) + [cats[|cats| - 1].id];
  }

  /** With every item's category listed, the page holds the catalog exactly: each item as many
      times as the catalog does. */
  lemma AllListedShown(cats: seq<Category>, recs: seq<Recommendation>)
    requires DistinctIds(cats)
    requires forall x :: x in recs ==> x.category in Ids(cats)
    ensures multiset(Flatten(SectionsOf(cats, recs))) == multiset(recs)
  {
    SectionsPartition(cats, recs);
    var shown := Flatten(SectionsOf(cats, recs));
    forall x ensures multiset(shown)[x] == multiset(recs)[x] {
      if x.category !in Ids(cats) {
        assert x !in recs;
      }
    }
  }

  lemma {:induction false} FlattenMember(sections: seq<Section>, x: Recommendation)
    requires x in Flatten(sections)
    ensures exists i :: 0 <= i < |sections| && x in sections[i].items
    decreases |sections|
  {
    var init := sections[..|sections| - 1];
    if x !in sections[|sections| - 1].items {
      FlattenMember(init, x);
      var i :| 0 <= i < |init| && x in init[i].items;
      assert sections[i] == init[i];
    }
  }

  /** Every catalog item of a listed category is in some section. */
  lemma ItemShown(cats: seq<Category>, recs: seq<Recommendation>, x: Recommendation)
    requires DistinctIds(cats) && x in recs && x.category in Ids(cats)
    ensures exists i :: 0 <= i < |SectionsOf(cats, recs)| && x in SectionsOf(cats, recs)[i].items
  {
    SectionsPartition(cats, recs);
    assert Expected(recs, Ids(cats), x) > 0;
    FlattenMember(SectionsOf(cats, recs), x);
  }

  /** No item is in two sections. */
  lemma ItemInOneSection(cats: seq<Category>, recs: seq<Recommendation>, x: Recommendation, i: nat, j: nat)
    requires DistinctIds(cats)
    requires i < |SectionsOf(cats, recs)| && j < |SectionsOf(cats, recs)|
    requires x in SectionsOf(cats, recs)[i].items && x in SectionsOf(cats, recs)[j].items
    ensures i == j
  {
    var sections := SectionsOf(cats, recs);
    SectionIdsDistinct(cats, recs);
    assert Headings(sections)[i].id == x.category == Headings(sections)[j].id;
  }

  /** Every item of this page's catalog belongs to one of its categories. */
  lemma TopicsAllListed()
    ensures DistinctIds(TopicCategories)
    ensures forall x :: x in TopicCatalog ==> x.category in Ids(TopicCategories)
  {
    var ids := Ids(TopicCategories);
    assert ids == ["tech", "science", "arts", "history", "skills"];
  }

  /** The page shows every catalog item exactly once: fifteen cards in all. */
  lemma AllTopicsShown()
    ensures multiset(Flatten(SectionsOf(TopicCategories, TopicCatalog))) == multiset(TopicCatalog)
    ensures |Flatten(SectionsOf(TopicCategories, TopicCatalog))| == 15
  {
    TopicsAllListed();
    AllListedShown(TopicCategories, TopicCatalog);
    var shown := Flatten(SectionsOf(TopicCategories, TopicCatalog));
    assert |shown| == |multiset(shown)|;
  }

  /** When every category has items, no section is skipped: the headings are the category list. */
  lemma {:induction false} NoneSkipped(cats: seq<Category>, recs: seq<Recommendation>)
    requires forall i :: 0 <= i < |cats| ==> OfCategory(recs, cats[i].id) != []
    ensures Headings(SectionsOf(cats, recs)) == cats
    decreases |cats|
  {
    if cats != [] {
      var front := cats[..|cats| - 1];
      var c := cats[|cats| - 1];
      forall i | 0 <= i < |front| ensures OfCategory(recs, front[i].id) != [] {
        assert front[i] == cats[i];
      }
      NoneSkipped(front, recs);
      var init := SectionsOf(front, recs);
      assert SectionsOf(cats, recs) == init + [Section(c, OfCategory(recs, c.id))];
      assert Headings(init + [Section(c, OfCategory(recs, c.id))]) == Headings(init) + [c];
      assert cats == front + [c];
    }
  }

  /** Each of the five categories of this page has items, so each gets its section. */
  lemma TopicsEachHaveSection()
    ensures Headings(SectionsOf(TopicCategories, TopicCatalog)) == TopicCategories
  {
    var firsts := [0, 5, 9, 11, 13];
    forall i | 0 <= i < |TopicCategories| ensures OfCategory(TopicCatalog, TopicCategories[i].id) != [] {
      assert TopicCatalog[firsts[i]].category == TopicCategories[i].id;
      assert TopicCatalog[firsts[i]] in OfCategory(TopicCatalog, TopicCategories[i].id);
    }
    NoneSkipped(TopicCategories, TopicCatalog);
  }
}
