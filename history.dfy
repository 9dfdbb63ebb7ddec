/**
 * The search history of static/script.js: the update `handleSearch` makes to it and the
 * localStorage entry it is saved under and loaded from.
 */
module SearchHistory {
  import opened JsText
  import opened Subsequences

  /** The history keeps at most this many entries when it starts with at most this many. */
  const MaxEntries: nat := 7

  /** The localStorage key the history is kept under. */
  const StorageKey: string := "searchHistory"

  /** What localStorage holds under a key, as `JSON.parse` sees it: the JSON text of a list of
      strings, the empty string, or text `JSON.parse` rejects. */
  datatype Stored = JsonStrings(items: seq<string>) | EmptyText | Malformed

  type Storage = map<string, Stored>

  /** `searchHistory.filter(item => item.toLowerCase() !== topic.toLowerCase())`. */
  function RemoveMatches(h: seq<string>, t: string): (r: seq<string>)
    ensures |r| <= |h|
    ensures IsSubsequence(r, h)
    ensures forall x :: x in r <==> x in h && !SameIgnoringCase(x, t)
  {
    if h == [] then []
    else
      var rest := RemoveMatches(h[1..], t);
      assert h == [h[0]] + h[1..];
      if SameIgnoringCase(h[0], t) then rest else [h[0]] + rest
  }

  /** The filter keeps every other entry as many times as it occurs. */
  lemma {:induction false} RemoveMatchesCounts(h: seq<string>, t: string)
    ensures forall x :: multiset(RemoveMatches(h, t))[x] == if SameIgnoringCase(x, t) then 0 else multiset(h)[x]
    decreases |h|
  {
    if h != [] {
      RemoveMatchesCounts(h[1..], t);
      assert h == [h[0]] + h[1..];
    }
  }

  /** The history after `handleSearch(t)`: matches removed, `t` put in front (`unshift`), and
      one entry dropped from the end (`pop`) when that makes more than seven. */
  function UpdateHistory(h: seq<string>, t: string): (r: seq<string>)
    ensures r != [] && r[0] == t
    ensures forall i :: 1 <= i < |r| ==> !SameIgnoringCase(r[i], t)
    ensures IsSubsequence(r[1..], h)
    ensures |r| == if |RemoveMatches(h, t)| + 1 > MaxEntries then |RemoveMatches(h, t)| else |RemoveMatches(h, t)| + 1
    ensures r[1..] == RemoveMatches(h, t)[..|r| - 1]
  {
    var kept := RemoveMatches(h, t);
    var pushed := [t] + kept;
    var n := if |pushed| > MaxEntries then |pushed| - 1 else |pushed|;
    var r := pushed[..n];
    UpdateShape(h, t, kept, r);
    r
  }

  lemma UpdateShape(h: seq<string>, t: string, kept: seq<string>, r: seq<string>)
    requires kept == RemoveMatches(h, t)
    requires |kept| <= |r| <= |kept| + 1 && r != [] && r == ([t] + kept)[..|r|]
    ensures r[0] == t
    ensures forall i :: 1 <= i < |r| ==> !SameIgnoringCase(r[i], t)
    ensures IsSubsequence(r[1..], h)
  {
    assert r[1..] == kept[..|r| - 1];
    forall i | 1 <= i < |r| ensures !SameIgnoringCase(r[i], t) {
      assert r[i] == kept[i - 1];
    }
    PrefixIsSubsequence(kept, |r| - 1);
    SubsequenceTransitive(r[1..], kept, h);
  }

  /** A history as the page itself leaves it: at most seven entries, no two the same ignoring case. */
  predicate WellFormed(h: seq<string>) {
    && |h| <= MaxEntries
    && forall i, j :: 0 <= i < j < |h| ==> !SameIgnoringCase(h[i], h[j])
  }

  /** A search keeps a well-formed history well-formed. */
  lemma UpdatePreservesWellFormed(h: seq<string>, t: string)
    requires WellFormed(h)
    ensures WellFormed(UpdateHistory(h, t))
  {
    var r := UpdateHistory(h, t);
    forall i, j | 0 <= i < j < |r| ensures !SameIgnoringCase(r[i], r[j]) {
      if i > 0 {
        SubsequenceDistinct(r[1..], h, i - 1, j - 1);
      }
    }
  }

  /** Two positions of a subsequence come from two different positions of the whole, in order. */
  lemma {:induction false} SubsequenceDistinct(a: seq<string>, b: seq<string>, i: nat, j: nat)
    requires IsSubsequence(a, b) && i < j < |a|
    requires forall p, q :: 0 <= p < q < |b| ==> !SameIgnoringCase(b[p], b[q])
    ensures !SameIgnoringCase(a[i], a[j])
    decreases |b|
  {
    if a[0] == b[0] && IsSubsequence(a[1..], b[1..]) {
      if i == 0 {
        SubsequenceElements(a[1..], b[1..]);
        assert a[j] in a[1..];
        var q :| 0 <= q < |b[1..]| && b[1..][q] == a[j];
        assert b[q + 1] == a[j];
      } else {
        SubsequenceDistinct(a[1..], b[1..], i - 1, j - 1);
      }
    } else {
      SubsequenceDistinct(a, b[1..], i, j);
    }
  }

  /** Searching again for the topic at the head of a well-formed history changes nothing. */
  lemma UpdateIdempotent(h: seq<string>, t: string)
    requires WellFormed(h)
    ensures UpdateHistory(UpdateHistory(h, t), t) == UpdateHistory(h, t)
  {
    var r := UpdateHistory(h, t);
    UpdatePreservesWellFormed(h, t);
    assert SameIgnoringCase(r[0], t);
    NoMatchKept(r[1..], t);
    assert r == [r[0]] + r[1..];
    RemoveHead(r, t);
  }

  /** Removing `t`'s matches from a list that starts with `t` and has no other match leaves the rest. */
  lemma RemoveHead(r: seq<string>, t: string)
    requires r != [] && SameIgnoringCase(r[0], t)
    requires RemoveMatches(r[1..], t) == r[1..]
    ensures RemoveMatches(r, t) == r[1..]
  {
  }

  /** A list with no match of `t` passes through the filter unchanged. */
  lemma {:induction false} NoMatchKept(h: seq<string>, t: string)
    requires forall i :: 0 <= i < |h| ==> !SameIgnoringCase(h[i], t)
    ensures RemoveMatches(h, t) == h
    decreases |h|
  {
    if h != [] {
      NoMatchKept(h[1..], t);
    }
  }

  /** A new topic pushed onto a full history drops exactly the oldest entry. */
  lemma FullHistoryDropsOldest(h: seq<string>, t: string)
    requires |h| == MaxEntries
    requires forall i :: 0 <= i < |h| ==> !SameIgnoringCase(h[i], t)
    ensures UpdateHistory(h, t) == [t] + h[..MaxEntries - 1]
  {
    NoMatchKept(h, t);
  }

  /** A loaded history that is already too long stays too long: `pop` drops one entry only. */
  lemma OverlongHistoryStaysOverlong(h: seq<string>, t: string)
    requires |h| > MaxEntries
    requires forall i :: 0 <= i < |h| ==> !SameIgnoringCase(h[i], t)
    ensures |UpdateHistory(h, t)| == |h| > MaxEntries
  {
    NoMatchKept(h, t);
  }

  /** `saveHistory`: `localStorage.setItem("searchHistory", JSON.stringify(searchHistory))`. */
  function SaveHistory(st: Storage, h: seq<string>): (r: Storage)
    ensures StorageKey in r && r[StorageKey] == JsonStrings(h)
    ensures forall k :: k != StorageKey ==> (k in r <==> k in st) && (k in st ==> r[k] == st[k])
  {
    st[StorageKey := JsonStrings(h)]
  }

  /** What `loadHistory` does with the history: keep it (no entry, or the empty string),
      replace it with the parsed list (unchecked), or throw from `JSON.parse`. */
  datatype LoadOutcome = Keep | Replace(items: seq<string>) | Throws

  function LoadHistory(st: Storage): (r: LoadOutcome)
    ensures r.Keep? <==> StorageKey !in st || st[StorageKey] == EmptyText
    ensures r.Throws? <==> StorageKey in st && st[StorageKey] == Malformed
    ensures r.Replace? ==> StorageKey in st && st[StorageKey] == JsonStrings(r.items)
  {
    if StorageKey !in st then Keep
    else match st[StorageKey]
      case EmptyText => Keep
      case Malformed => Throws
      case JsonStrings(items) => Replace(items)
  }

  /** A saved history loads back as it was saved. */
  lemma LoadAfterSave(st: Storage, h: seq<string>)
    ensures LoadHistory(SaveHistory(st, h)) == Replace(h)
  {
  }
}
