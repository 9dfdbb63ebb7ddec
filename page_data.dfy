/**
 * The fixed data of the main page (static/script.js): the languages a search can be asked in,
 * the interest categories, the recommendation catalog and the trending topics.
 */
module PageData {
  import opened Subsequences

  datatype Language = Language(code: string, name: string)

  datatype Category = Category(id: string, name: string)

  datatype Recommendation = Recommendation(title: string, description: string, icon: string, category: string)

  /** The language a fresh page starts with. */
  const English: Language := Language("en", "English")

  const Languages: seq<Language> := [
    English,
    Language("es", "Español"),
    Language("hi", "हिन्दी"),
    Language("fr", "Français"),
    Language("de", "Deutsch")
  ]

  /** The category id that stands for "no filter". */
  const AllCategories: string := "all"

  const Categories: seq<Category> := [
    Category(AllCategories, "All"),
    Category("tech", "Technology"),
    Category("science", "Science"),
    Category("arts", "Arts"),
    Category("history", "History"),
    Category("skills", "Life Skills")
  ]

  const Catalog: seq<Recommendation> := [
    Recommendation("Introduction to Python", "Start your programming journey.", "code", "tech"),
    Recommendation("How Do Neural Networks Work?", "Explore the core concepts behind AI.", "hub", "tech"),
    Recommendation("Fundamentals of UI/UX", "Principles of user-friendly design.", "design_services", "tech"),
    Recommendation("What is Blockchain?", "Understand the tech behind crypto.", "link", "tech"),
    Recommendation("JavaScript ES6 Features", "Unlock modern JavaScript capabilities.", "javascript", "tech"),
    Recommendation("The Theory of Relativity", "Grasp Einstein's ideas on space and time.", "rocket_launch", "science"),
    Recommendation("Quantum Computing Explained", "Dive into the world of quantum bits.", "memory", "science"),
    Recommendation("CRISPR Gene Editing", "Learn how scientists can edit DNA.", "biotech", "science"),
    Recommendation("The Human Brain", "A journey into the complexities of our mind.", "psychology", "science"),
    Recommendation("The Roman Empire", "Explore the rise and fall of a great civilization.", "castle", "history"),
    Recommendation("Ancient Egypt Mythology", "Discover the gods and myths of the pharaohs.", "account_balance", "history"),
    Recommendation("Basics of Personal Finance", "Master budgeting, saving, and investing.", "attach_money", "skills"),
    Recommendation("The Art of Storytelling", "Craft compelling and memorable narratives.", "auto_stories", "arts"),
    Recommendation("Public Speaking Mastery", "Build confidence and deliver powerful speeches.", "campaign", "skills"),
    Recommendation("Introduction to Philosophy", "Think about life's biggest questions.", "self_improvement", "arts")
  ]

  const Trending: seq<string> := [
    "History of Ancient Rome",
    "Quantum Computing Explained",
    "Basics of Stoic Philosophy",
    "The Art of Japanese Woodblock Prints",
    "Neural Networks for Beginners"
  ]

  /** `recs.filter(rec => rec.category === id)`: the items of one category, in their order. */
  function OfCategory(recs: seq<Recommendation>, id: string): (r: seq<Recommendation>)
    ensures |r| <= |recs|
    ensures IsSubsequence(r, recs)
    ensures forall x :: x in r <==> x in recs && x.category == id
  {
    if recs == [] then []
    else
      var rest := OfCategory(recs[1..], id);
      assert recs == [recs[0]] + recs[1..];
      if recs[0].category == id then [recs[0]] + rest else rest
  }

  /** The filter keeps every item of the category as many times as it occurs. */
  lemma {:induction false} OfCategoryCounts(recs: seq<Recommendation>, id: string)
    ensures forall x :: multiset(OfCategory(recs, id))[x] == if x.category == id then multiset(recs)[x] else 0
    decreases |recs|
  {
    if recs != [] {
      OfCategoryCounts(recs[1..], id);
      assert recs == [recs[0]] + recs[1..];
    }
  }

  /** The titles of a list of recommendations, in order. */
  function Titles(recs: seq<Recommendation>): (r: seq<string>)
    ensures |r| == |recs|
    ensures forall i :: 0 <= i < |recs| ==> r[i] == recs[i].title
  {
    seq(|recs|, i requires 0 <= i < |recs| => recs[i].title)
  }

  /** The autosuggest pool: every catalog title, then every trending topic. */
  function Pool(recs: seq<Recommendation>): (r: seq<string>)
    ensures |r| == |recs| + |Trending|
    ensures r[..|recs|] == Titles(recs) && r[|recs|..] == Trending
  {
    Titles(recs) + Trending
  }

  /** `languages.find(l => l.code === code)`: the position of the first language with that code,
      or `|langs|` when there is none. */
  function FindLanguage(langs: seq<Language>, code: string): (r: nat)
    ensures r <= |langs|
    ensures r < |langs| ==> langs[r].code == code
    ensures forall i :: 0 <= i < r ==> langs[i].code != code
  {
    if langs == [] then 0 else if langs[0].code == code then 0 else 1 + FindLanguage(langs[1..], code)
  }

  /** A code that one of the rendered language items can carry. */
  predicate IsLanguageCode(code: string) {
    FindLanguage(Languages, code) < |Languages|
  }
}
