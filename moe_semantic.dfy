/**
 * The semantic half of the MoE router (`getSemanticExperts`): keyword rules
 * pick at most one primary category, which contributes three of its experts,
 * and two further categories contribute one expert each.
 */
module MoeSemantic {
  import opened Base
  import opened Text
  import MoeHash

  /** Index 0, the always-active shared expert that routing never returns. */
  const SHARED_EXPERT_INDEX: int := 0

  datatype Category = Math | Language | Vision | Logic | Code | Memory | Audio | Reasoning

  /** The key order of `expertTypes`, which is the order `Object.keys` lists them in. */
  const AllCategories: seq<Category> := [Math, Language, Vision, Logic, Code, Memory, Audio, Reasoning]

  /** The position of a category in AllCategories; its experts are exactly those equal to it modulo 8. */
  function Slot(c: Category): (k: nat)
    ensures k < 8
  {
    match c
    case Math => 0
    case Language => 1
    case Vision => 2
    case Logic => 3
    case Code => 4
    case Memory => 5
    case Audio => 6
    case Reasoning => 7
  }

  /**
   * The `expertTypes` table: the experts of a category are those congruent
   * to its slot modulo 8, from 1 to 31 (ExpertsTable lists them).
   */
  function ExpertsOf(c: Category): (es: seq<int>)
    ensures 3 <= |es| <= 4
  {
    var k := Slot(c);
    if k == 0 then [8, 16, 24] else [k, k + 8, k + 16, k + 24]
  }

  /** The table as the source writes it out. */
  lemma ExpertsTable()
    ensures ExpertsOf(Math) == [8, 16, 24]
    ensures ExpertsOf(Language) == [1, 9, 17, 25]
    ensures ExpertsOf(Vision) == [2, 10, 18, 26]
    ensures ExpertsOf(Logic) == [3, 11, 19, 27]
    ensures ExpertsOf(Code) == [4, 12, 20, 28]
    ensures ExpertsOf(Memory) == [5, 13, 21, 29]
    ensures ExpertsOf(Audio) == [6, 14, 22, 30]
    ensures ExpertsOf(Reasoning) == [7, 15, 23, 31]
  {
  }

  /** Each category owns three or four distinct routed experts, those congruent to its slot modulo 8. */
  lemma ExpertsOfFacts(c: Category)
    ensures Distinct(ExpertsOf(c))
    ensures forall i :: 0 <= i < |ExpertsOf(c)| ==> 1 <= ExpertsOf(c)[i] <= 31 && ExpertsOf(c)[i] % 8 == Slot(c)
  {
  }

  const MathWords: seq<string> := ["number", "count", "calculate", "math", "sum", "add"]
  const VisionWords: seq<string> := ["color", "see", "look", "visual", "image", "picture"]
  const ReasoningWords: seq<string> := ["think", "because", "why", "reason", "logic"]
  const CodeWords: seq<string> := ["code", "program", "function", "debug", "script"]
  const LanguageWords: seq<string> := ["the", "a", "an", "is", "are", "was", "were", "and", "or"]

  /** The alternation of a rule's regular expression matches somewhere in `s`. */
  predicate MatchesAny(s: string, words: seq<string>)
    decreases |words|
  {
    words != [] && (Contains(s, words[0]) || MatchesAny(s, words[1..]))
  }

  predicate HasDigit(s: string)
  {
    exists i :: 0 <= i < |s| && IsDigit(s[i])
  }

  /**
   * The first rule, in the source's order, that matches the lower-cased text.
   * Logic, Memory and Audio have no rule and are never primary.
   */
  function PrimaryCategory(text: string): (p: Option<Category>)
    ensures p != Some(Logic) && p != Some(Memory) && p != Some(Audio)
    ensures HasDigit(text) ==> p == Some(Math)
  {
    var lower := Lower(text);
    if HasDigit(lower) || MatchesAny(lower, MathWords) then Some(Math)
    else if MatchesAny(lower, VisionWords) then Some(Vision)
    else if MatchesAny(lower, ReasoningWords) then Some(Reasoning)
    else if MatchesAny(lower, CodeWords) then Some(Code)
    else if MatchesAny(lower, LanguageWords) then Some(Language)
    else None
  }

  /** A word of the list that occurs in `s` makes the rule match. */
  lemma {:induction false} MatchesWord(s: string, words: seq<string>, i: nat)
    requires i < |words| && Contains(s, words[i])
    ensures MatchesAny(s, words)
    decreases i
  {
    if i > 0 {
      MatchesWord(s, words[1..], i - 1);
    }
  }

  /** The matches are unanchored: a single letter `a` anywhere gives the text a primary category. */
  lemma LetterAGivesCategory(text: string, k: nat)
    requires k < |text| && LowerChar(text[k]) == 'a'
    ensures PrimaryCategory(text).Some?
  {
    var lower := Lower(text);
    ContainsChar(lower, k);
    assert LanguageWords[1] == [lower[k]];
    MatchesWord(lower, LanguageWords, 1);
  }

  /** `allTypes.filter(type => type !== primaryType)`. */
  function Without(cs: seq<Category>, p: Option<Category>): (r: seq<Category>)
    ensures |r| <= |cs|
    decreases |cs|
  {
    if cs == [] then []
    else (if Some(cs[0]) == p then [] else [cs[0]]) + Without(cs[1..], p)
  }

  /**
   * The categories left to draw secondary experts from, in key order: all of
   * them, or all but the primary one (OthersIsFilter: the filter gives this).
   */
  function Others(p: Option<Category>): seq<Category>
  {
    if p.None? then AllCategories
    else AllCategories[..Slot(p.value)] + AllCategories[Slot(p.value) + 1..]
  }

  /** Filtering out `p` keeps every other entry once and drops `p`. */
  lemma {:induction false} WithoutFacts(cs: seq<Category>, p: Option<Category>)
    ensures forall c :: c in Without(cs, p) ==> c in cs && Some(c) != p
    ensures Distinct(cs) ==> Distinct(Without(cs, p))
    ensures p.None? ==> Without(cs, p) == cs
    ensures Distinct(cs) && p.Some? && p.value in cs ==> |Without(cs, p)| == |cs| - 1
    ensures p.Some? && p.value !in cs ==> |Without(cs, p)| == |cs|
    decreases |cs|
  {
    if cs != [] {
      WithoutFacts(cs[1..], p);
      var head := if Some(cs[0]) == p then [] else [cs[0]];
      assert Without(cs, p) == head + Without(cs[1..], p);
      if Distinct(cs) {
        assert Distinct(cs[1..]);
        assert cs[0] !in cs[1..];
        forall i, j | 0 <= i < j < |Without(cs, p)| ensures Without(cs, p)[i] != Without(cs, p)[j] {
          if head != [] && i == 0 {
            assert Without(cs, p)[j] in Without(cs[1..], p);
          }
        }
      }
      if p.Some? && p.value in cs && p.value != cs[0] {
        assert p.value in cs[1..];
      }
    }
  }

  /** Filtering out a value the list does not hold changes nothing. */
  lemma {:induction false} WithoutAbsent(cs: seq<Category>, p: Option<Category>)
    requires p.None? || p.value !in cs
    ensures Without(cs, p) == cs
    decreases |cs|
  {
    if cs != [] {
      assert p.None? || p.value !in cs[1..];
      WithoutAbsent(cs[1..], p);
      assert [cs[0]] + cs[1..] == cs;
    }
  }

  /** Filtering the k-th entry out of a list without repeats removes exactly position k. */
  lemma {:induction false} WithoutAt(cs: seq<Category>, k: nat)
    requires Distinct(cs) && k < |cs|
    ensures Without(cs, Some(cs[k])) == cs[..k] + cs[k + 1..]
    decreases k
  {
    var tail := cs[1..];
    assert Distinct(tail);
    if k == 0 {
      assert cs[0] !in tail;
      WithoutAbsent(tail, Some(cs[0]));
      assert Without(cs, Some(cs[0])) == [] + tail;
    } else {
      assert tail[k - 1] == cs[k];
      WithoutAt(tail, k - 1);
      assert Without(cs, Some(cs[k])) == [cs[0]] + (tail[..k - 1] + tail[k..]);
      assert cs[..k] == [cs[0]] + tail[..k - 1];
      assert cs[k + 1..] == tail[k..];
    }
  }

  /** `allTypes.filter(type => type !== primaryType)` gives Others. */
  lemma OthersIsFilter(p: Option<Category>)
    ensures Without(AllCategories, p) == Others(p)
  {
    var all := AllCategories;
    assert Distinct(all);
    if p.Some? {
      SlotListed(p.value);
      WithoutAt(all, Slot(p.value));
    } else {
      WithoutAbsent(all, p);
    }
  }

  /** The remaining categories are seven, or all eight, without repeats. */
  lemma OthersShape(p: Option<Category>)
    ensures |Others(p)| == (if p.Some? then 7 else 8) && Distinct(Others(p))
  {
    var all := AllCategories;
    assert Distinct(all);
    if p.Some? {
      SlotListed(p.value);
    }
    OthersIsFilter(p);
    WithoutFacts(all, p);
  }

  /** The primary category is not among the remaining ones. */
  lemma OthersExclude(p: Option<Category>)
    ensures forall c :: c in Others(p) ==> Some(c) != p
  {
    OthersIsFilter(p);
    WithoutFacts(AllCategories, p);
  }

  /** The three experts of the primary category, at rotating offsets (hash + i) mod |list|. */
  function PrimaryPicks(c: Category, h: nat): seq<int>
  {
    var es := ExpertsOf(c);
    seq(Min(3, |es|), i requires 0 <= i < Min(3, |es|) => es[(h + i) % |es|])
  }

  /** The i-th secondary category: position (hash + i) mod |Others| of the remaining categories. */
  function SecondaryCategory(p: Option<Category>, h: nat, i: nat): Category
  {
    CategoryFrom(Others(p), h, i)
  }

  /** The category at position (hash + i) mod |others| of `others`. */
  function CategoryFrom(others: seq<Category>, h: nat, i: nat): Category
    requires others != []
  {
    others[(h + i) % |others|]
  }

  /**
   * The expert at offset (hash + i + 7) mod |list| of the category at
   * position (hash + i) mod |others| of `others`.
   */
  function PickFrom(others: seq<Category>, h: nat, i: nat): int
    requires others != []
  {
    var es := ExpertsOf(CategoryFrom(others, h, i));
    es[(h + i + 7) % |es|]
  }

  /** The expert of the i-th secondary category. */
  function SecondaryPick(p: Option<Category>, h: nat, i: nat): int
  {
    PickFrom(Others(p), h, i)
  }

  /** The semantic experts for primary category `p` and hash `h`. */
  function Picks(p: Option<Category>, h: nat): seq<int>
  {
    PrimaryPart(p, h) + [SecondaryPick(p, h, 0), SecondaryPick(p, h, 1)]
  }

  /** What `getSemanticExperts` returns. */
  function SemanticExperts(text: string): seq<int>
  {
    Picks(PrimaryCategory(text), MoeHash.Hash(text))
  }

  /** Rotating offsets i < j < 3 into a list of three or four entries land on different entries. */
  lemma RotationDistinct(h: nat, i: nat, j: nat, n: nat)
    requires i < j < 3 && (n == 3 || n == 4)
    ensures (h + i) % n != (h + j) % n
  {
    if n == 3 {
      assert (h + i) % 3 != (h + j) % 3;
    } else {
      assert (h + i) % 4 != (h + j) % 4;
    }
  }

  /** Consecutive offsets into the seven or eight remaining categories land on different categories. */
  lemma ConsecutiveDistinct(h: nat, n: nat)
    requires n == 7 || n == 8
    ensures h % n != (h + 1) % n
  {
    if n == 7 {
      assert h % 7 != (h + 1) % 7;
    } else {
      assert h % 8 != (h + 1) % 8;
    }
  }

  /** Facts about one primary pick. */
  lemma PrimaryPicksFacts(c: Category, h: nat)
    ensures |PrimaryPicks(c, h)| == 3 && Distinct(PrimaryPicks(c, h))
    ensures forall k :: 0 <= k < 3 ==>
      PrimaryPicks(c, h)[k] in ExpertsOf(c) && 1 <= PrimaryPicks(c, h)[k] <= 31 && PrimaryPicks(c, h)[k] % 8 == Slot(c)
  {
    var es := ExpertsOf(c);
    ExpertsOfFacts(c);
    var r := PrimaryPicks(c, h);
    forall i, j | 0 <= i < j < 3 ensures r[i] != r[j] {
      RotationDistinct(h, i, j, |es|);
    }
  }

  /** Consecutive positions in a list of seven or eight distinct categories give different categories and experts. */
  lemma PickPairFacts(others: seq<Category>, h: nat)
    requires Distinct(others) && (|others| == 7 || |others| == 8)
    ensures CategoryFrom(others, h, 0) != CategoryFrom(others, h, 1)
    ensures PickFrom(others, h, 0) != PickFrom(others, h, 1)
  {
    var n := |others|;
    ConsecutiveDistinct(h, n);
    assert h + 0 == h;
    var c0, c1 := CategoryFrom(others, h, 0), CategoryFrom(others, h, 1);
    PickFromFacts(others, h, 0);
    PickFromFacts(others, h, 1);
    SlotInjective(c0, c1);
  }

  /** The two secondary categories differ from each other and from the primary one. */
  lemma SecondaryCategoriesDiffer(p: Option<Category>, h: nat)
    ensures SecondaryCategory(p, h, 0) != SecondaryCategory(p, h, 1)
    ensures Some(SecondaryCategory(p, h, 0)) != p && Some(SecondaryCategory(p, h, 1)) != p
  {
    var others := Others(p);
    OthersShape(p);
    OthersExclude(p);
    PickPairFacts(others, h);
    assert CategoryFrom(others, h, 0) in others && CategoryFrom(others, h, 1) in others;
  }

  /** The two secondary picks lie in [1, 31], belong to their categories and differ. */
  lemma SecondaryPicksFacts(p: Option<Category>, h: nat)
    ensures 1 <= SecondaryPick(p, h, 0) <= 31 && SecondaryPick(p, h, 0) % 8 == Slot(SecondaryCategory(p, h, 0))
    ensures 1 <= SecondaryPick(p, h, 1) <= 31 && SecondaryPick(p, h, 1) % 8 == Slot(SecondaryCategory(p, h, 1))
    ensures SecondaryPick(p, h, 0) != SecondaryPick(p, h, 1)
  {
    var others := Others(p);
    OthersShape(p);
    PickPairFacts(others, h);
    PickFromFacts(others, h, 0);
    PickFromFacts(others, h, 1);
  }

  /** A pick lies in [1, 31] and belongs to the category it was drawn from. */
  lemma PickFromFacts(others: seq<Category>, h: nat, i: nat)
    requires others != []
    ensures 1 <= PickFrom(others, h, i) <= 31
    ensures PickFrom(others, h, i) % 8 == Slot(CategoryFrom(others, h, i))
  {
    ExpertsOfFacts(CategoryFrom(others, h, i));
  }

  /**
   * With a primary category the semantic list holds exactly five distinct
   * experts, without one exactly two.
   */
  lemma PicksDistinct(p: Option<Category>, h: nat)
    ensures |Picks(p, h)| == (if p.Some? then 5 else 2)
    ensures Distinct(Picks(p, h))
  {
    SecondaryPicksFacts(p, h);
    if p.Some? {
      PrimaryThenSecondaryDistinct(p.value, h);
    } else {
      assert Picks(p, h) == [SecondaryPick(p, h, 0), SecondaryPick(p, h, 1)];
    }
  }

  /** The five experts picked for primary category `c` are distinct. */
  lemma PrimaryThenSecondaryDistinct(c: Category, h: nat)
    ensures |Picks(Some(c), h)| == 5 && Distinct(Picks(Some(c), h))
  {
    var p := Some(c);
    var pp := PrimaryPicks(c, h);
    var a, b := SecondaryPick(p, h, 0), SecondaryPick(p, h, 1);
    assert |pp| == 3 && pp[0] != pp[1] && pp[0] != pp[2] && pp[1] != pp[2]
      && pp[0] % 8 == Slot(c) && pp[1] % 8 == Slot(c) && pp[2] % 8 == Slot(c) by {
      PrimaryPicksFacts(c, h);
    }
    assert a % 8 != Slot(c) && b % 8 != Slot(c) && a % 8 != b % 8 by {
      SecondaryPicksFacts(p, h);
      SecondaryCategoriesDiffer(p, h);
      var c0, c1 := SecondaryCategory(p, h, 0), SecondaryCategory(p, h, 1);
      SlotInjective(c0, c);
      SlotInjective(c1, c);
      SlotInjective(c0, c1);
    }
    var s := Picks(p, h);
    assert s == pp + [a, b];
    assert |s| == 5 && s[0] == pp[0] && s[1] == pp[1] && s[2] == pp[2] && s[3] == a && s[4] == b;
    FiveDistinct(s);
  }

  /** Every semantic expert lies in [1, 31], so none is the shared expert. */
  lemma PicksInRange(p: Option<Category>, h: nat)
    ensures forall k :: 0 <= k < |Picks(p, h)| ==> 1 <= Picks(p, h)[k] <= 31
  {
    SecondaryPicksFacts(p, h);
    var a, b := SecondaryPick(p, h, 0), SecondaryPick(p, h, 1);
    if p.Some? {
      PrimaryPicksFacts(p.value, h);
      var pp := PrimaryPicks(p.value, h);
      assert Picks(p, h) == pp + [a, b];
    } else {
      assert Picks(p, h) == [a, b];
    }
  }

  /**
   * With a primary category the list starts with three of its experts and
   * ends with one expert each of two further, different categories.
   */
  lemma PicksCategories(p: Option<Category>, h: nat)
    requires p.Some?
    ensures |Picks(p, h)| == 5
    ensures forall k :: 0 <= k < 3 ==> Picks(p, h)[k] in ExpertsOf(p.value)
    ensures Picks(p, h)[3] % 8 != Slot(p.value) && Picks(p, h)[4] % 8 != Slot(p.value)
    ensures Picks(p, h)[3] % 8 != Picks(p, h)[4] % 8
  {
    SecondaryPicksFacts(p, h);
    SecondaryCategoriesDiffer(p, h);
    var c0, c1 := SecondaryCategory(p, h, 0), SecondaryCategory(p, h, 1);
    SlotInjective(c0, c1);
    SlotInjective(c0, p.value);
    SlotInjective(c1, p.value);
    PrimaryPicksFacts(p.value, h);
    var pp := PrimaryPicks(p.value, h);
    assert Picks(p, h) == pp + [SecondaryPick(p, h, 0), SecondaryPick(p, h, 1)];
  }

  /** Without a primary category the two experts come from two different categories. */
  lemma PicksWithoutCategory(h: nat)
    ensures |Picks(None, h)| == 2 && Picks(None, h)[0] % 8 != Picks(None, h)[1] % 8
  {
    SecondaryPicksFacts(None, h);
    SecondaryCategoriesDiffer(None, h);
    SlotInjective(SecondaryCategory(None, h, 0), SecondaryCategory(None, h, 1));
  }

  lemma SlotInjective(c: Category, d: Category)
    requires c != d
    ensures Slot(c) != Slot(d)
  {
    SlotListed(c);
  }

  /** The slot of a category is its position in AllCategories. */
  lemma SlotListed(c: Category)
    ensures AllCategories[Slot(c)] == c
  {
  }

  /** Three distinct experts of one category and two of two further categories are five distinct experts. */
  lemma FiveDistinct(s: seq<int>)
    requires |s| == 5 && s[0] != s[1] && s[0] != s[2] && s[1] != s[2]
    requires s[0] % 8 == s[1] % 8 == s[2] % 8
    requires s[3] % 8 != s[0] % 8 && s[4] % 8 != s[0] % 8 && s[3] % 8 != s[4] % 8
    ensures Distinct(s)
  {
  }

  /** The same facts for the semantic experts of a token text. */
  lemma SemanticExpertsShape(text: string)
    ensures var s, p := SemanticExperts(text), PrimaryCategory(text);
      && |s| == (if p.Some? then 5 else 2)
      && Distinct(s)
      && (forall k :: 0 <= k < |s| ==> 1 <= s[k] <= 31)
      && (p.Some? ==> forall k :: 0 <= k < 3 ==> s[k] in ExpertsOf(p.value))
  {
    var p, h := PrimaryCategory(text), MoeHash.Hash(text);
    PicksDistinct(p, h);
    PicksInRange(p, h);
    if p.Some? {
      PicksCategories(p, h);
    }
  }

  /** The primary category Math contributes the three math experts 8, 16 and 24, in some order. */
  lemma MathPicksAreMathExperts(h: nat)
    ensures multiset(PrimaryPicks(Math, h)) == multiset{8, 16, 24}
  {
    var s := PrimaryPicks(Math, h);
    var r := h % 3;
    assert s == [[8, 16, 24][r], [8, 16, 24][(r + 1) % 3], [8, 16, 24][(r + 2) % 3]];
    if r == 0 {
      assert s == [8, 16, 24];
    } else if r == 1 {
      assert s == [16, 24, 8];
    } else {
      assert s == [24, 8, 16];
    }
  }

  /** A math token, for instance any token holding a digit, starts with the experts 8, 16 and 24. */
  lemma MathTokenStartsWithMathExperts(text: string)
    requires PrimaryCategory(text) == Some(Math)
    ensures multiset(SemanticExperts(text)[..3]) == multiset{8, 16, 24}
  {
    var h := MoeHash.Hash(text);
    assert SemanticExperts(text)[..3] == PrimaryPicks(Math, h);
    MathPicksAreMathExperts(h);
  }

  /** The experts the primary category contributes: none without one. */
  function PrimaryPart(p: Option<Category>, h: nat): seq<int>
  {
    if p.Some? then PrimaryPicks(p.value, h) else []
  }

  /** The first push loop of `getSemanticExperts`: up to three experts of the primary category. */
  method PushPrimary(primaryType: Option<Category>, hash: nat) returns (experts: seq<int>)
    ensures experts == PrimaryPart(primaryType, hash)
  {
    experts := [];
    if primaryType.Some? {
      var typeExperts := ExpertsOf(primaryType.value);
      var numPrimary := Min(3, |typeExperts|);
      ghost var prim := PrimaryPicks(primaryType.value, hash);
      PrimaryPicksFacts(primaryType.value, hash);
      for i := 0 to numPrimary
        invariant experts == prim[..i]
      {
        var expertIndex := typeExperts[(hash + i) % |typeExperts|];
        assert expertIndex == prim[i];
        if expertIndex != SHARED_EXPERT_INDEX {
          experts := experts + [expertIndex];
        }
        assert prim[..i + 1] == prim[..i] + [prim[i]];
      }
      assert prim[..3] == prim;
    }
  }

  /** The two secondary experts are new, different from each other and not the shared expert. */
  lemma SecondaryPicksFresh(p: Option<Category>, h: nat)
    ensures |PrimaryPart(p, h)| == (if p.Some? then 3 else 0)
    ensures SecondaryPick(p, h, 0) != SecondaryPick(p, h, 1)
    ensures SecondaryPick(p, h, 0) !in PrimaryPart(p, h) && SecondaryPick(p, h, 1) !in PrimaryPart(p, h)
    ensures SecondaryPick(p, h, 0) != SHARED_EXPERT_INDEX && SecondaryPick(p, h, 1) != SHARED_EXPERT_INDEX
  {
    var all := Picks(p, h);
    PicksDistinct(p, h);
    PicksInRange(p, h);
    if p.Some? {
      PrimaryPicksFacts(p.value, h);
    }
    var prim := PrimaryPart(p, h);
    var n := |prim|;
    assert all[n] == SecondaryPick(p, h, 0) && all[n + 1] == SecondaryPick(p, h, 1);
    forall k | 0 <= k < n ensures prim[k] != all[n] && prim[k] != all[n + 1] {
      assert prim[k] == all[k];
    }
  }

  /** The pick of the i-th secondary category, computed as the loop does. */
  lemma SecondaryPickComputed(p: Option<Category>, h: nat, i: nat)
    ensures var others := Others(p);
      |others| > 0 &&
      var es := ExpertsOf(others[(h + i) % |others|]);
      es[(h + i + 7) % |es|] == SecondaryPick(p, h, i)
  {
    OthersShape(p);
  }

  /**
   * The second push loop of `getSemanticExperts`: one expert each of the
   * next two remaining categories, skipping the shared expert and repeats,
   * while fewer than five are collected.
   */
  method PushSecondary(primaryType: Option<Category>, secondaryTypes: seq<Category>, hash: nat, start: seq<int>)
    returns (experts: seq<int>)
    requires secondaryTypes == Others(primaryType)
    requires start == PrimaryPart(primaryType, hash)
    ensures experts == Picks(primaryType, hash)
  {
    ghost var first, second := SecondaryPick(primaryType, hash, 0), SecondaryPick(primaryType, hash, 1);
    SecondaryPicksFresh(primaryType, hash);
    experts := start;

    var i := 0;
    while i < 2 && |experts| < 5
      invariant 0 <= i <= 2 && |experts| == |start| + i <= 3 + i
      invariant experts == start + [first, second][..i]
    {
      SecondaryPickComputed(primaryType, hash, i);
      var typeIndex := (hash + i) % |secondaryTypes|;
      var typeExperts := ExpertsOf(secondaryTypes[typeIndex]);
      var expertIndex := typeExperts[(hash + i + 7) % |typeExperts|];
      assert expertIndex == [first, second][i];
      if expertIndex != SHARED_EXPERT_INDEX && expertIndex !in experts {
        experts := experts + [expertIndex];
      }
      i := i + 1;
    }
  }

  /** `getSemanticExperts`: classify the text, hash it, then run the two push loops. */
  method GetSemanticExperts(text: string) returns (experts: seq<int>)
    ensures experts == SemanticExperts(text)
  {
    var hash := MoeHash.SimpleHash(text);
    var primaryType := PrimaryCategory(text);
    var primary := PushPrimary(primaryType, hash);
    var secondaryTypes := Without(AllCategories, primaryType);
    OthersIsFilter(primaryType);
    experts := PushSecondary(primaryType, secondaryTypes, hash, primary);
  }
}
