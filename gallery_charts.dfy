/**
 * The gallery's two analytics charts: projects counted per county and per
 * theme into an object whose entries keep first-insertion order, then
 * listed by count, largest first, with ties in insertion order. Also the
 * two theme lookup tables with their defaults. The HTML of each row and
 * the bar widths are not modelled.
 */
module GalleryCharts {
  import opened Base
  import GalleryLikes

  /** One entry of the counts object: a key and how many projects have it. */
  datatype Row = Row(key: string, count: nat)

  /** Each value once, in the order it first occurs: the key order of the counts object. */
  function FirstOccurrences(values: seq<string>): (keys: seq<string>)
    ensures |keys| <= |values|
  {
    if values == [] then []
    else
      var keys := FirstOccurrences(values[..|values| - 1]);
      var v := values[|values| - 1];
      if v in keys then keys else keys + [v]
  }

  /** The entries for the keys, each with its multiplicity in m. */
  function EntriesOf(keys: seq<string>, m: multiset<string>): (rows: seq<Row>)
    ensures |rows| == |keys|
  {
    if keys == [] then []
    else
      var k := keys[|keys| - 1];
      EntriesOf(keys[..|keys| - 1], m) + [Row(k, m[k])]
  }

  /** `Object.entries` of the counts the chart builds for these values. */
  function Tally(values: seq<string>): seq<Row>
  {
    EntriesOf(FirstOccurrences(values), multiset(values))
  }

  function Keys(rows: seq<Row>): (keys: seq<string>)
    ensures |keys| == |rows|
  {
    if rows == [] then [] else [rows[0].key] + Keys(rows[1..])
  }

  /** The sum of the counts. */
  function Sum(rows: seq<Row>): nat
  {
    if rows == [] then 0 else rows[0].count + Sum(rows[1..])
  }

  /** Counts never increase along the rows. */
  predicate SortedDesc(rows: seq<Row>)
  {
    forall i, j :: 0 <= i < j < |rows| ==> rows[i].count >= rows[j].count
  }

  /** The rows with the given count, in their order. */
  function WithCount(rows: seq<Row>, c: nat): (r: seq<Row>)
    ensures |r| <= |rows|
  {
    if rows == [] then []
    else (if rows[0].count == c then [rows[0]] else []) + WithCount(rows[1..], c)
  }

  /**
   * Puts a row in front of the first row whose count is not larger: the
   * step of a stable sort with the comparator `b - a`, for a row that came
   * before all the others.
   */
  function Insert(r: Row, rows: seq<Row>): (s: seq<Row>)
    ensures |s| == |rows| + 1
  {
    if rows == [] || rows[0].count <= r.count then [r] + rows
    else [rows[0]] + Insert(r, rows[1..])
  }

  /** `.sort(([,a], [,b]) => b - a)`, which is stable. */
  function SortDesc(rows: seq<Row>): (s: seq<Row>)
    ensures |s| == |rows|
  {
    if rows == [] then [] else Insert(rows[0], SortDesc(rows[1..]))
  }

  /** The keys are exactly the values, each once. */
  lemma {:induction false} FirstOccurrencesFacts(values: seq<string>)
    ensures Distinct(FirstOccurrences(values))
    ensures forall k :: k in FirstOccurrences(values) <==> k in values
  {
    if values != [] {
      var init := values[..|values| - 1];
      var v := values[|values| - 1];
      FirstOccurrencesFacts(init);
      assert values == init + [v];
    }
  }

  lemma {:induction false} KeysOfEntries(keys: seq<string>, m: multiset<string>)
    ensures Keys(EntriesOf(keys, m)) == keys
  {
    if keys != [] {
      var init := keys[..|keys| - 1];
      KeysOfEntries(init, m);
      KeysAppend(EntriesOf(init, m), [Row(keys[|keys| - 1], m[keys[|keys| - 1]])]);
      assert init + [keys[|keys| - 1]] == keys;
    }
  }

  lemma {:induction false} KeysAppend(a: seq<Row>, b: seq<Row>)
    ensures Keys(a + b) == Keys(a) + Keys(b)
  {
    if a != [] {
      assert (a + b)[1..] == a[1..] + b;
      KeysAppend(a[1..], b);
    } else {
      assert a + b == b;
    }
  }

  lemma {:induction false} SumAppend(a: seq<Row>, b: seq<Row>)
    ensures Sum(a + b) == Sum(a) + Sum(b)
  {
    if a != [] {
      assert (a + b)[1..] == a[1..] + b;
      SumAppend(a[1..], b);
    } else {
      assert a + b == b;
    }
  }

  /** Each row of the tally holds a key's multiplicity. */
  lemma {:induction false} EntriesCount(keys: seq<string>, m: multiset<string>, r: Row)
    requires r in EntriesOf(keys, m)
    ensures r.key in keys && r.count == m[r.key]
  {
    var init := keys[..|keys| - 1];
    if r != EntriesOf(keys, m)[|keys| - 1] {
      assert r in EntriesOf(init, m);
      EntriesCount(init, m, r);
    }
  }

  /** Every key has its row in the tally. */
  lemma {:induction false} EntriesHaveKey(keys: seq<string>, m: multiset<string>, k: string)
    requires k in keys
    ensures Row(k, m[k]) in EntriesOf(keys, m)
  {
    var init := keys[..|keys| - 1];
    if k != keys[|keys| - 1] {
      assert keys == init + [keys[|keys| - 1]];
      EntriesHaveKey(init, m, k);
    }
  }

  /** One more occurrence of v raises the total by the number of times v is a key. */
  lemma {:induction false} SumBump(keys: seq<string>, m: multiset<string>, v: string)
    ensures Sum(EntriesOf(keys, m + multiset{v})) == Sum(EntriesOf(keys, m)) + multiset(keys)[v]
  {
    if keys != [] {
      var init := keys[..|keys| - 1];
      var k := keys[|keys| - 1];
      SumBump(init, m, v);
      SumAppend(EntriesOf(init, m + multiset{v}), [Row(k, (m + multiset{v})[k])]);
      SumAppend(EntriesOf(init, m), [Row(k, m[k])]);
      assert keys == init + [k];
    }
  }

  /** The counts add up to the number of values counted. */
  lemma {:induction false} TallySum(values: seq<string>)
    ensures Sum(Tally(values)) == |values|
  {
    if values != [] {
      var init := values[..|values| - 1];
      var v := values[|values| - 1];
      var keys := FirstOccurrences(init);
      assert values == init + [v];
      TallySum(init);
      FirstOccurrencesFacts(init);
      SumBump(keys, multiset(init), v);
      if v in init {
        DistinctOnce(keys, v);
      } else {
        assert multiset(keys)[v] == 0;
        SumAppend(EntriesOf(keys, multiset(values)), [Row(v, multiset(values)[v])]);
        assert (keys + [v])[..|keys|] == keys;
      }
    }
  }

  /** A value of a sequence without repetitions occurs exactly once in it. */
  lemma {:induction false} DistinctOnce(s: seq<string>, v: string)
    requires Distinct(s) && v in s
    ensures multiset(s)[v] == 1
  {
    var init := s[..|s| - 1];
    var last := s[|s| - 1];
    assert s == init + [last];
    if v == last {
      assert v !in init;
    } else {
      DistinctOnce(init, v);
    }
  }

  /** Insert adds exactly the one row. */
  lemma {:induction false} InsertPermutes(r: Row, rows: seq<Row>)
    ensures multiset(Insert(r, rows)) == multiset(rows) + multiset{r}
  {
    if rows != [] && rows[0].count > r.count {
      InsertPermutes(r, rows[1..]);
      assert rows == [rows[0]] + rows[1..];
    }
  }

  lemma {:induction false} InsertKeys(r: Row, rows: seq<Row>)
    ensures forall k :: k in Keys(Insert(r, rows)) <==> k == r.key || k in Keys(rows)
  {
    if rows != [] && rows[0].count > r.count {
      InsertKeys(r, rows[1..]);
    }
  }

  lemma {:induction false} InsertSum(r: Row, rows: seq<Row>)
    ensures Sum(Insert(r, rows)) == r.count + Sum(rows)
  {
    if rows != [] && rows[0].count > r.count {
      InsertSum(r, rows[1..]);
    }
  }

  /**
   * Insert puts the row first among the rows with its count, and leaves
   * the rows with any other count as they were.
   */
  lemma {:induction false} InsertStable(r: Row, rows: seq<Row>)
    ensures WithCount(Insert(r, rows), r.count) == [r] + WithCount(rows, r.count)
    ensures forall c :: c != r.count ==> WithCount(Insert(r, rows), c) == WithCount(rows, c)
  {
    if rows != [] && rows[0].count > r.count {
      InsertStable(r, rows[1..]);
      var s := Insert(r, rows);
      assert s[1..] == Insert(r, rows[1..]);
    } else {
      var s := Insert(r, rows);
      assert s[1..] == rows;
    }
  }

  lemma {:induction false} InsertSorted(r: Row, rows: seq<Row>)
    requires SortedDesc(rows)
    ensures SortedDesc(Insert(r, rows))
  {
    if rows != [] && rows[0].count > r.count {
      InsertSorted(r, rows[1..]);
      InsertPermutes(r, rows[1..]);
      var s := Insert(r, rows);
      forall j | 0 < j < |s|
        ensures s[0].count >= s[j].count
      {
        assert s[j] in multiset(Insert(r, rows[1..]));
      }
    }
  }

  lemma {:induction false} InsertDistinct(r: Row, rows: seq<Row>)
    requires Distinct(Keys(rows)) && r.key !in Keys(rows)
    ensures Distinct(Keys(Insert(r, rows)))
  {
    if rows != [] && rows[0].count > r.count {
      DistinctCons(rows[0].key, Keys(rows[1..]));
      InsertDistinct(r, rows[1..]);
      InsertKeys(r, rows[1..]);
      DistinctCons(rows[0].key, Keys(Insert(r, rows[1..])));
    } else {
      DistinctCons(r.key, Keys(rows));
    }
  }

  lemma DistinctCons(x: string, s: seq<string>)
    ensures Distinct([x] + s) <==> x !in s && Distinct(s)
  {
    if x !in s && Distinct(s) {
      forall i, j | 0 <= i < j < |[x] + s|
        ensures ([x] + s)[i] != ([x] + s)[j]
      {
        if i > 0 {
          assert ([x] + s)[i] == s[i - 1] && ([x] + s)[j] == s[j - 1];
        }
      }
    }
    if Distinct([x] + s) {
      forall i, j | 0 <= i < j < |s|
        ensures s[i] != s[j]
      {
        assert s[i] == ([x] + s)[i + 1] && s[j] == ([x] + s)[j + 1];
      }
      forall i | 0 <= i < |s|
        ensures s[i] != x
      {
        assert s[i] == ([x] + s)[i + 1] && x == ([x] + s)[0];
      }
    }
  }

  /** The sort is ordered by count, largest first, and is a permutation. */
  lemma {:induction false} SortDescOrdered(rows: seq<Row>)
    ensures SortedDesc(SortDesc(rows))
    ensures multiset(SortDesc(rows)) == multiset(rows)
  {
    if rows != [] {
      var tail := SortDesc(rows[1..]);
      SortDescOrdered(rows[1..]);
      InsertPermutes(rows[0], tail);
      InsertSorted(rows[0], tail);
      assert rows == [rows[0]] + rows[1..];
    }
  }

  lemma {:induction false} SortDescKeys(rows: seq<Row>)
    ensures forall k :: k in Keys(SortDesc(rows)) <==> k in Keys(rows)
    ensures Distinct(Keys(rows)) ==> Distinct(Keys(SortDesc(rows)))
  {
    if rows != [] {
      var tail := SortDesc(rows[1..]);
      SortDescKeys(rows[1..]);
      InsertKeys(rows[0], tail);
      DistinctCons(rows[0].key, Keys(rows[1..]));
      if Distinct(Keys(rows)) {
        InsertDistinct(rows[0], tail);
      }
    }
  }

  lemma {:induction false} SortDescSum(rows: seq<Row>)
    ensures Sum(SortDesc(rows)) == Sum(rows)
  {
    if rows != [] {
      SortDescSum(rows[1..]);
      InsertSum(rows[0], SortDesc(rows[1..]));
    }
  }

  /** Rows with equal counts keep their relative order: the sort is stable. */
  lemma {:induction false} SortDescStable(rows: seq<Row>)
    ensures forall c :: WithCount(SortDesc(rows), c) == WithCount(rows, c)
  {
    if rows != [] {
      SortDescStable(rows[1..]);
      InsertStable(rows[0], SortDesc(rows[1..]));
    }
  }

  /**
   * What a chart lists for a sequence of values: each distinct value in
   * exactly one row carrying its number of occurrences, the counts adding
   * up to the number of values, largest count first (the `maxCount` the
   * bars are scaled by is the first row's), and rows with equal counts in
   * the order their value first occurs.
   */
  lemma ChartFacts(values: seq<string>)
    ensures SortedDesc(SortDesc(Tally(values)))
    ensures Sum(SortDesc(Tally(values))) == |values|
    ensures Distinct(Keys(SortDesc(Tally(values))))
    ensures forall r :: r in SortDesc(Tally(values)) ==> r.key in values && r.count == multiset(values)[r.key]
    ensures forall k :: k in values ==> Row(k, multiset(values)[k]) in SortDesc(Tally(values))
    ensures forall c :: WithCount(SortDesc(Tally(values)), c) == WithCount(Tally(values), c)
  {
    var keys := FirstOccurrences(values);
    var m := multiset(values);
    var tally := Tally(values);
    FirstOccurrencesFacts(values);
    KeysOfEntries(keys, m);
    TallySum(values);
    SortDescOrdered(tally);
    SortDescKeys(tally);
    SortDescSum(tally);
    SortDescStable(tally);
    forall r | r in SortDesc(tally)
      ensures r.key in values && r.count == m[r.key]
    {
      assert r in multiset(tally);
      EntriesCount(keys, m, r);
    }
    forall k | k in values
      ensures Row(k, m[k]) in SortDesc(tally)
    {
      EntriesHaveKey(keys, m, k);
      assert Row(k, m[k]) in multiset(tally);
    }
  }

  /**
   * The counting loop: `counts[v] = (counts[v] || 0) + 1` for each value,
   * then `Object.entries(counts)`.
   */
  method CountBy(values: seq<string>) returns (rows: seq<Row>)
    ensures rows == Tally(values)
  {
    var keys: seq<string> := [];
    var counts: map<string, nat> := map[];
    for i := 0 to |values|
      invariant keys == FirstOccurrences(values[..i])
      invariant forall k :: k in counts <==> k in keys
      invariant forall k :: k in counts ==> counts[k] == multiset(values[..i])[k]
    {
      var v := values[i];
      assert values[..i + 1] == values[..i] + [v];
      if v in counts {
        counts := counts[v := counts[v] + 1];
      } else {
        FirstOccurrencesFacts(values[..i]);
        keys := keys + [v];
        counts := counts[v := 1];
      }
    }
    assert values[..|values|] == values;
    rows := [];
    for j := 0 to |keys|
      invariant rows == EntriesOf(keys[..j], multiset(values))
    {
      assert keys[..j + 1][..j] == keys[..j];
      rows := rows + [Row(keys[j], counts[keys[j]])];
    }
    assert keys[..|keys|] == keys;
  }

  function Counties(projects: seq<GalleryLikes.Project>): seq<string>
  {
    seq(|projects|, i requires 0 <= i < |projects| => projects[i].county)
  }

  function Themes(projects: seq<GalleryLikes.Project>): seq<string>
  {
    seq(|projects|, i requires 0 <= i < |projects| => projects[i].theme)
  }

  /** `createCountyChart`: the county rows in the order the chart lists them. */
  method CreateCountyChart(projects: seq<GalleryLikes.Project>) returns (rows: seq<Row>)
    ensures rows == SortDesc(Tally(Counties(projects)))
  {
    var counties := CountBy(Counties(projects));
    rows := SortDesc(counties);
  }

  /** `createThemeChart`: the theme rows in the order the chart lists them. */
  method CreateThemeChart(projects: seq<GalleryLikes.Project>) returns (rows: seq<Row>)
    ensures rows == SortDesc(Tally(Themes(projects)))
  {
    var themes := CountBy(Themes(projects));
    rows := SortDesc(themes);
  }

  /** The six themes the lookup tables know. */
  const KNOWN_THEMES: seq<string> := ["CleanTech", "HealthTech", "Enterprise", "Education", "Language", "MediaTech"]
  const DEFAULT_THEME_COLOR: string := "#6B7280"
  const DEFAULT_THEME_ICON: string := "\U{1F916}"

  /** `getThemeColor`: the theme's colour, grey for any other theme. */
  function ThemeColor(theme: string): (color: string)
    ensures theme !in KNOWN_THEMES <==> color == DEFAULT_THEME_COLOR
  {
    match theme
    case "CleanTech" => "#10B981"
    case "HealthTech" => "#3B82F6"
    case "Enterprise" => "#F59E0B"
    case "Education" => "#8B5CF6"
    case "Language" => "#EF4444"
    case "MediaTech" => "#EC4899"
    case _ => DEFAULT_THEME_COLOR
  }

  /** `getThemeIcon`: the theme's emoji, a robot for any other theme. */
  function ThemeIcon(theme: string): (icon: string)
    ensures theme !in KNOWN_THEMES <==> icon == DEFAULT_THEME_ICON
  {
    match theme
    case "CleanTech" => "\U{1F331}"
    case "HealthTech" => "\U{1F3E5}"
    case "Enterprise" => "\U{1F3E2}"
    case "Education" => "\U{1F393}"
    case "Language" => "\U{1F4AC}"
    case "MediaTech" => "\U{1F3AC}"
    case _ => DEFAULT_THEME_ICON
  }
}
