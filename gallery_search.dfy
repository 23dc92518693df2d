/**
 * The gallery's search box: which team items stay visible for a query, the
 * staggered delay each visible item gets, and the count shown in the
 * sidebar heading. Item texts are what the page renders for each team.
 */
module GallerySearch {
  import opened Base
  import opened Text

  /** `!query || text.toLowerCase().includes(query)`. */
  predicate Visible(query: string, text: string)
  {
    query == [] || Contains(Lower(text), query)
  }

  /** How many of the texts are visible for the query. */
  function VisibleCount(query: string, texts: seq<string>): (n: nat)
    ensures n <= |texts|
  {
    if texts == [] then 0
    else VisibleCount(query, texts[..|texts| - 1]) + (if Visible(query, texts[|texts| - 1]) then 1 else 0)
  }

  /** The decimal digits of `n`, as a template literal writes a count. */
  function NatToString(n: nat): (s: string)
    ensures s != [] && forall i :: 0 <= i < |s| ==> '0' <= s[i] <= '9'
  {
    if n < 10 then [('0' as int + n) as char]
    else NatToString(n / 10) + [('0' as int + n % 10) as char]
  }

  /** `text.split(' ')[0]`: everything before the first space. */
  function FirstWord(text: string): (w: string)
    ensures w <= text && ' ' !in w
    ensures |w| < |text| ==> text[|w|] == ' '
  {
    if text == [] || text[0] == ' ' then [] else [text[0]] + FirstWord(text[1..])
  }

  /** The results line `filterTeams` builds: the count, a space, then what was counted. */
  function ResultsText(count: nat, query: string): string
  {
    NatToString(count) + " " + (if query != [] then "results for \"" + query + "\"" else "projects")
  }

  /** `updateSearchResults(text)`: the sidebar heading. */
  function Heading(text: string): string
  {
    "Projects (" + FirstWord(text) + ")"
  }

  /** A word without spaces followed by a space is what FirstWord returns. */
  lemma {:induction false} FirstWordOf(w: string, rest: string)
    requires ' ' !in w
    ensures FirstWord(w + " " + rest) == w
    decreases |w|
  {
    if w != [] {
      assert (w + " " + rest)[1..] == w[1..] + " " + rest;
      FirstWordOf(w[1..], rest);
      assert [w[0]] + w[1..] == w;
    }
  }

  /** The heading shows just the number of visible items, whatever the query. */
  lemma HeadingShowsCount(count: nat, query: string)
    ensures Heading(ResultsText(count, query)) == "Projects (" + NatToString(count) + ")"
  {
    var digits := NatToString(count);
    assert ' ' !in digits;
    FirstWordOf(digits, if query != [] then "results for \"" + query + "\"" else "projects");
  }

  /** An empty query shows every item. */
  lemma {:induction false} EmptyQueryShowsAll(texts: seq<string>)
    ensures VisibleCount([], texts) == |texts|
  {
    if texts != [] {
      EmptyQueryShowsAll(texts[..|texts| - 1]);
    }
  }

  /** The indices of the visible texts. */
  ghost function VisibleIndices(query: string, texts: seq<string>): set<int>
  {
    set k | 0 <= k < |texts| && Visible(query, texts[k])
  }

  /** VisibleCount is the number of visible items. */
  lemma {:induction false} VisibleCountCounts(query: string, texts: seq<string>)
    ensures VisibleCount(query, texts) == |VisibleIndices(query, texts)|
  {
    if texts != [] {
      var n := |texts| - 1;
      var init := texts[..n];
      VisibleCountCounts(query, init);
      var before := VisibleIndices(query, init);
      var after := VisibleIndices(query, texts);
      if Visible(query, texts[n]) {
        assert after == before + {n};
      } else {
        assert after == before;
      }
    }
  }

  /** Counting a longer prefix never gives less. */
  lemma {:induction false} VisibleCountPrefix(query: string, texts: seq<string>, i: nat, j: nat)
    requires i <= j <= |texts|
    ensures VisibleCount(query, texts[..i]) <= VisibleCount(query, texts[..j])
    decreases j - i
  {
    if i < j {
      VisibleCountPrefix(query, texts, i, j - 1);
      assert texts[..j][..j - 1] == texts[..j - 1];
    }
  }

  /**
   * Visible items get the ranks 0, 1, 2, ... in list order: a visible item's
   * rank is below every later visible item's rank and below the total.
   */
  lemma RanksIncrease(query: string, texts: seq<string>, k1: nat, k2: nat)
    requires k1 < k2 <= |texts| && Visible(query, texts[k1])
    ensures VisibleCount(query, texts[..k1]) < VisibleCount(query, texts[..k2])
  {
    assert texts[..k1 + 1][..k1] == texts[..k1];
    VisibleCountPrefix(query, texts, k1 + 1, k2);
  }

  /**
   * `filterTeams(query)` over the items' texts: which items are shown, the
   * delay rank each shown item gets (hidden items keep theirs), and the
   * sidebar heading.
   */
  method FilterTeams(query: string, itemTexts: seq<string>)
    returns (shown: seq<bool>, delays: seq<Option<nat>>, heading: string)
    ensures |shown| == |itemTexts| && |delays| == |itemTexts|
    ensures forall k :: 0 <= k < |itemTexts| ==> shown[k] == Visible(query, itemTexts[k])
    ensures forall k :: 0 <= k < |itemTexts| ==>
      delays[k] == if shown[k] then Some(VisibleCount(query, itemTexts[..k])) else None
    ensures heading == "Projects (" + NatToString(VisibleCount(query, itemTexts)) + ")"
  {
    var visibleCount: nat := 0;
    shown := [];
    delays := [];
    var index := 0;
    while index < |itemTexts|
      invariant 0 <= index <= |itemTexts|
      invariant |shown| == index && |delays| == index
      invariant visibleCount == VisibleCount(query, itemTexts[..index])
      invariant forall k :: 0 <= k < index ==> shown[k] == Visible(query, itemTexts[k])
      invariant forall k :: 0 <= k < index ==>
        delays[k] == if shown[k] then Some(VisibleCount(query, itemTexts[..k])) else None
    {
      var text := Lower(itemTexts[index]);
      var isVisible := query == [] || Contains(text, query);
      assert itemTexts[..index + 1][..index] == itemTexts[..index];
      if isVisible {
        shown := shown + [true];
        delays := delays + [Some(visibleCount)];
        visibleCount := visibleCount + 1;
      } else {
        shown := shown + [false];
        delays := delays + [None];
      }
      index := index + 1;
    }
    assert itemTexts[..index] == itemTexts;
    var resultsText := ResultsText(visibleCount, query);
    heading := Heading(resultsText);
    HeadingShowsCount(visibleCount, query);
  }
}
