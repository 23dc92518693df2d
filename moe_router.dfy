/**
 * `selectExpertsForToken`: the routed experts of one token. Up to three
 * semantic experts come first; the shuffled list of all routed experts then
 * fills the selection up to eight, skipping experts already chosen.
 */
module MoeRouter {
  import opened Base
  import MoeHash
  import MoeSemantic
  import MoeShuffle
  import Text

  /** Experts chosen per token besides the shared one. */
  const ROUTED_EXPERTS_COUNT: nat := 8

  /** The semantic experts taken before the fill. */
  const SEMANTIC_TAKEN: nat := 3

  /** `Set.prototype.add`, with the set kept in insertion order. */
  function Add(selected: seq<int>, x: int): (r: seq<int>)
    ensures x in r
    ensures forall y :: y in r <==> y in selected || y == x
  {
    if x in selected then selected else selected + [x]
  }

  /** Step 1: add each given semantic expert that is not the shared one. */
  function AddSemantic(selected: seq<int>, xs: seq<int>): seq<int>
    decreases |xs|
  {
    if xs == [] then selected
    else
      var next := if xs[0] != MoeSemantic.SHARED_EXPERT_INDEX then Add(selected, xs[0]) else selected;
      AddSemantic(next, xs[1..])
  }

  /** Step 2: walk the list, stopping once eight experts are held, adding the ones not yet held. */
  function Fill(selected: seq<int>, xs: seq<int>): seq<int>
    decreases |xs|
  {
    if xs == [] || |selected| >= ROUTED_EXPERTS_COUNT then selected
    else Fill(Add(selected, xs[0]), xs[1..])
  }

  /** `availableExperts` before the shuffle: 1, 2, ..., expertCount - 1. */
  function Available(expertCount: int): (r: seq<int>)
    ensures |r| == Max(0, expertCount - 1)
  {
    seq(Max(0, expertCount - 1), k requires 0 <= k => k + 1)
  }

  /** The routed experts for semantic list `semantic`, hash `h` and expert count `expertCount`. */
  function RouteFrom(semantic: seq<int>, h: nat, expertCount: int): seq<int>
  {
    var start := AddSemantic([], semantic[..Min(SEMANTIC_TAKEN, |semantic|)]);
    var filled := Fill(start, MoeShuffle.Shuffled(Available(expertCount), h));
    filled[..Min(ROUTED_EXPERTS_COUNT, |filled|)]
  }

  /** What `selectExpertsForToken` returns for a token text. */
  function Route(text: string, expertCount: int): seq<int>
  {
    RouteFrom(MoeSemantic.SemanticExperts(text), MoeHash.Hash(text), expertCount)
  }

  ghost function Elements(s: seq<int>): set<int>
  {
    set x | x in s
  }

  /** Adding keeps the order of what is held and never repeats an entry. */
  lemma AddFacts(selected: seq<int>, x: int)
    requires Distinct(selected)
    ensures Distinct(Add(selected, x))
    ensures |selected| <= |Add(selected, x)| <= |selected| + 1
    ensures Add(selected, x)[..|selected|] == selected
    ensures |Add(selected, x)| == |selected| <==> x in selected
  {
  }

  /** Fresh, non-shared semantic experts are all kept, in their order. */
  lemma {:induction false} AddSemanticFresh(selected: seq<int>, xs: seq<int>)
    requires Distinct(selected + xs)
    requires forall k :: 0 <= k < |xs| ==> xs[k] != MoeSemantic.SHARED_EXPERT_INDEX
    ensures AddSemantic(selected, xs) == selected + xs
    decreases |xs|
  {
    if xs != [] {
      assert xs[0] == (selected + xs)[|selected|];
      assert xs[0] !in selected by {
        forall k | 0 <= k < |selected| ensures selected[k] != xs[0] {
          assert selected[k] == (selected + xs)[k];
        }
      }
      assert selected + xs == (selected + [xs[0]]) + xs[1..];
      AddSemanticFresh(selected + [xs[0]], xs[1..]);
    }
  }

  /**
   * The fill keeps what it started with as a prefix, never repeats an
   * expert, stops at eight, adds only experts of the list, and when it ends
   * with fewer than eight it has taken every expert of the list.
   */
  lemma {:induction false} FillFacts(selected: seq<int>, xs: seq<int>)
    requires Distinct(selected)
    ensures var r := Fill(selected, xs);
      && |selected| <= |r| && r[..|selected|] == selected
      && Distinct(r)
      && |r| <= Max(|selected|, ROUTED_EXPERTS_COUNT)
      && (forall x :: x in r ==> x in selected || x in xs)
      && (|r| < ROUTED_EXPERTS_COUNT ==> forall x :: x in xs ==> x in r)
    decreases |xs|
  {
    if xs != [] && |selected| < ROUTED_EXPERTS_COUNT {
      var t := Add(selected, xs[0]);
      AddFacts(selected, xs[0]);
      FillFacts(t, xs[1..]);
      var r := Fill(t, xs[1..]);
      assert r[..|selected|] == r[..|t|][..|selected|];
      forall x | x in xs && |r| < ROUTED_EXPERTS_COUNT ensures x in r {
        if x == xs[0] {
          assert x in t;
          assert t == r[..|t|];
          assert x in r[..|t|];
        } else {
          assert x in xs[1..];
        }
      }
    }
  }

  /** The experts on offer are exactly 1 to expertCount - 1, each once. */
  lemma AvailableFacts(expertCount: int)
    ensures Distinct(Available(expertCount))
    ensures forall x :: x in Available(expertCount) <==> 1 <= x < expertCount
  {
    var a := Available(expertCount);
    forall x | 1 <= x < expertCount ensures x in a {
      assert a[x - 1] == x;
    }
  }

  /** The semantic part of a route: the first three semantic experts, when they are distinct and not shared. */
  lemma StartIsSemanticPrefix(semantic: seq<int>)
    requires Distinct(semantic)
    requires forall k :: 0 <= k < |semantic| ==> 1 <= semantic[k]
    ensures var pre := semantic[..Min(SEMANTIC_TAKEN, |semantic|)];
      AddSemantic([], pre) == pre && Distinct(pre) && |pre| <= SEMANTIC_TAKEN
  {
    var pre := semantic[..Min(SEMANTIC_TAKEN, |semantic|)];
    assert [] + pre == pre;
    AddSemanticFresh([], pre);
  }

  /**
   * A route for distinct semantic experts in [1, 31]: at most eight distinct
   * experts, never the shared one, starting with the first three semantic
   * experts; every later expert lies in [1, expertCount - 1], and a route
   * shorter than eight holds every expert from 1 to expertCount - 1.
   */
  lemma RouteFromFacts(semantic: seq<int>, h: nat, expertCount: int)
    requires Distinct(semantic)
    requires forall k :: 0 <= k < |semantic| ==> 1 <= semantic[k] <= 31
    ensures var r, p := RouteFrom(semantic, h, expertCount), Min(SEMANTIC_TAKEN, |semantic|);
      && |r| <= ROUTED_EXPERTS_COUNT && Distinct(r)
      && MoeSemantic.SHARED_EXPERT_INDEX !in r
      && p <= |r| && r[..p] == semantic[..p]
      && (forall k :: p <= k < |r| ==> 1 <= r[k] < expertCount)
      && (|r| < ROUTED_EXPERTS_COUNT ==> forall e :: 1 <= e < expertCount ==> e in r)
  {
    var p := Min(SEMANTIC_TAKEN, |semantic|);
    var pre := semantic[..p];
    StartIsSemanticPrefix(semantic);
    var avail := Available(expertCount);
    var shuffled := MoeShuffle.Shuffled(avail, h);
    MoeShuffle.ShuffledSameElements(avail, h);
    AvailableFacts(expertCount);
    FillFacts(pre, shuffled);
    var filled := Fill(pre, shuffled);
    assert RouteFrom(semantic, h, expertCount) == filled;
    forall k | p <= k < |filled| ensures 1 <= filled[k] < expertCount {
      assert filled[k] !in pre by {
        assert filled[..p] == pre;
        forall m | 0 <= m < p ensures pre[m] != filled[k] {
          assert pre[m] == filled[m];
        }
      }
      assert filled[k] in filled;
    }
    forall k | 0 <= k < |filled| ensures filled[k] != MoeSemantic.SHARED_EXPERT_INDEX {
      if k < p {
        assert filled[k] == pre[k] == semantic[k];
      }
    }
  }

  /**
   * The number of routed experts: eight, or fewer when the semantic prefix
   * and the experts 1 to expertCount - 1 together hold fewer than eight.
   */
  lemma RouteFromSize(semantic: seq<int>, h: nat, expertCount: int)
    requires Distinct(semantic)
    requires forall k :: 0 <= k < |semantic| ==> 1 <= semantic[k] <= 31
    ensures |RouteFrom(semantic, h, expertCount)| ==
      Min(ROUTED_EXPERTS_COUNT, |Elements(semantic[..Min(SEMANTIC_TAKEN, |semantic|)]) + Elements(Available(expertCount))|)
  {
    var pre := semantic[..Min(SEMANTIC_TAKEN, |semantic|)];
    StartIsSemanticPrefix(semantic);
    var avail := Available(expertCount);
    var shuffled := MoeShuffle.Shuffled(avail, h);
    MoeShuffle.ShuffledSameElements(avail, h);
    FillFacts(pre, shuffled);
    var filled := Fill(pre, shuffled);
    assert RouteFrom(semantic, h, expertCount) == filled;
    var all := Elements(pre) + Elements(avail);
    DistinctCardinality(filled);
    assert Elements(filled) <= all;
    SubsetCardinality(Elements(filled), all);
    if |filled| < ROUTED_EXPERTS_COUNT {
      assert all <= Elements(filled) by {
        forall x | x in all ensures x in filled {
          if x in pre {
            assert filled[..|pre|] == pre;
            assert x in filled[..|pre|];
          }
        }
      }
      SubsetCardinality(all, Elements(filled));
    }
  }

  /** With at least nine experts in the layer every token gets exactly eight routed experts. */
  lemma FullRoute(text: string, expertCount: int)
    requires expertCount >= ROUTED_EXPERTS_COUNT + 1
    ensures |Route(text, expertCount)| == ROUTED_EXPERTS_COUNT
  {
    var semantic, h := MoeSemantic.SemanticExperts(text), MoeHash.Hash(text);
    MoeSemantic.SemanticExpertsShape(text);
    RouteFromSize(semantic, h, expertCount);
    var avail := Available(expertCount);
    AvailableFacts(expertCount);
    DistinctCardinality(avail);
    var pre := semantic[..Min(SEMANTIC_TAKEN, |semantic|)];
    SubsetCardinality(Elements(avail), Elements(pre) + Elements(avail));
  }

  /** Facts about every route, with the semantic experts of the token's text. */
  lemma RouteFacts(text: string, expertCount: int)
    ensures var r, s := Route(text, expertCount), MoeSemantic.SemanticExperts(text);
      var p := Min(SEMANTIC_TAKEN, |s|);
      && |r| <= ROUTED_EXPERTS_COUNT && Distinct(r)
      && MoeSemantic.SHARED_EXPERT_INDEX !in r
      && p <= |r| && r[..p] == s[..p]
      && (forall k :: p <= k < |r| ==> 1 <= r[k] < expertCount)
  {
    MoeSemantic.SemanticExpertsShape(text);
    RouteFromFacts(MoeSemantic.SemanticExperts(text), MoeHash.Hash(text), expertCount);
  }

  /** With one expert or fewer nothing is on offer and the route is the semantic prefix alone. */
  lemma NoFillWithoutExperts(text: string, expertCount: int)
    requires expertCount <= 1
    ensures var s := MoeSemantic.SemanticExperts(text);
      Route(text, expertCount) == s[..Min(SEMANTIC_TAKEN, |s|)]
  {
    var s := MoeSemantic.SemanticExperts(text);
    MoeSemantic.SemanticExpertsShape(text);
    StartIsSemanticPrefix(s);
    var pre := s[..Min(SEMANTIC_TAKEN, |s|)];
    assert Available(expertCount) == [];
    assert MoeShuffle.Shuffled([], MoeHash.Hash(text)) == [];
  }

  /**
   * A token holding a digit is routed to the math experts 8, 16 and 24
   * first, whatever the expert count: the semantic experts are not checked
   * against it.
   */
  lemma DigitTokenKeepsMathExperts(text: string, expertCount: int)
    requires MoeSemantic.HasDigit(text)
    ensures var r := Route(text, expertCount);
      3 <= |r| && multiset(r[..3]) == multiset{8, 16, 24}
  {
    var s := MoeSemantic.SemanticExperts(text);
    MoeSemantic.MathTokenStartsWithMathExperts(text);
    MoeSemantic.SemanticExpertsShape(text);
    RouteFacts(text, expertCount);
  }

  /** A prefix that is a permutation of the math experts holds exactly those three. */
  lemma MathPrefixElements(pre: seq<int>)
    requires multiset(pre) == multiset{8, 16, 24}
    ensures Elements(pre) == {8, 16, 24} && |Elements(pre)| == 3
  {
    forall x ensures x in pre <==> x in multiset(pre) {
    }
    assert |{8, 16, 24}| == 3;
  }

  /** The experts 1 to expertCount - 1 number max(0, expertCount - 1), all below expertCount. */
  lemma AvailableElements(expertCount: int)
    ensures |Elements(Available(expertCount))| == Max(0, expertCount - 1)
    ensures forall x :: x in Elements(Available(expertCount)) ==> 1 <= x < expertCount
  {
    AvailableFacts(expertCount);
    DistinctCardinality(Available(expertCount));
  }

  /** How many experts a route gets when its semantic prefix is the three math experts. */
  lemma MathPrefixRouteSize(semantic: seq<int>, h: nat, expertCount: int)
    requires Distinct(semantic) && 3 <= |semantic|
    requires forall k :: 0 <= k < |semantic| ==> 1 <= semantic[k] <= 31
    requires multiset(semantic[..3]) == multiset{8, 16, 24}
    ensures |RouteFrom(semantic, h, expertCount)| == Min(ROUTED_EXPERTS_COUNT, 3 + Max(0, expertCount - 1))
  {
    RouteFromSize(semantic, h, expertCount);
    var math, offered := Elements(semantic[..3]), Elements(Available(expertCount));
    MathPrefixElements(semantic[..3]);
    AvailableElements(expertCount);
    if expertCount >= ROUTED_EXPERTS_COUNT + 1 {
      SubsetCardinality(offered, math + offered);
    } else {
      assert math * offered == {};
    }
  }

  /** How many experts a digit token gets: the three math experts plus 1 to expertCount - 1, capped at eight. */
  lemma DigitTokenRouteSize(text: string, expertCount: int)
    requires MoeSemantic.HasDigit(text)
    ensures |Route(text, expertCount)| == Min(ROUTED_EXPERTS_COUNT, 3 + Max(0, expertCount - 1))
  {
    var semantic := MoeSemantic.SemanticExperts(text);
    MoeSemantic.SemanticExpertsShape(text);
    MoeSemantic.MathTokenStartsWithMathExperts(text);
    MathPrefixRouteSize(semantic, MoeHash.Hash(text), expertCount);
    assert Route(text, expertCount) == RouteFrom(semantic, MoeHash.Hash(text), expertCount);
  }

  /** The token `xyz123` with four experts gets six: 8, 16 and 24, then 1, 2 and 3. */
  lemma DigitTokenWithFourExperts()
    ensures |Route("xyz123", 4)| == 6
  {
    assert MoeSemantic.HasDigit("xyz123") by {
      assert Text.IsDigit("xyz123"[3]);
    }
    DigitTokenRouteSize("xyz123", 4);
  }

  /** `selectExpertsForToken(token)` with `EXPERT_COUNT` equal to `expertCount`. */
  method SelectExpertsForToken(text: string, expertCount: int) returns (experts: seq<int>)
    ensures experts == Route(text, expertCount)
  {
    var hash := MoeHash.SimpleHash(text);
    var semanticExperts := MoeSemantic.GetSemanticExperts(text);
    experts := SelectFrom(semanticExperts, hash, expertCount);
  }

  /** The three steps of `selectExpertsForToken`, given the token's semantic experts and hash. */
  method SelectFrom(semanticExperts: seq<int>, hash: nat, expertCount: int) returns (experts: seq<int>)
    ensures experts == RouteFrom(semanticExperts, hash, expertCount)
  {
    var selectedExperts: seq<int> := [];

    // Step 1: the first three semantic experts.
    var numSemantic := Min(SEMANTIC_TAKEN, |semanticExperts|);
    ghost var taken := semanticExperts[..numSemantic];
    for i := 0 to numSemantic
      invariant AddSemantic(selectedExperts, taken[i..]) == AddSemantic([], taken)
    {
      assert taken[i..][1..] == taken[i + 1..];
      if semanticExperts[i] != MoeSemantic.SHARED_EXPERT_INDEX {
        selectedExperts := Add(selectedExperts, semanticExperts[i]);
      }
    }
    ghost var start := selectedExperts;

    // Step 2: the experts 1 .. EXPERT_COUNT - 1, shuffled by the token hash.
    var count := Max(0, expertCount - 1);
    var availableExperts := new int[count];
    for k := 0 to count
      invariant availableExperts[..k] == Available(expertCount)[..k]
    {
      availableExperts[k] := k + 1;
    }
    assert availableExperts[..] == Available(expertCount);
    MoeShuffle.ShuffleArray(availableExperts, hash);
    ghost var shuffled := availableExperts[..];

    // Step 3: fill up to eight from the shuffled list.
    var k := 0;
    while k < availableExperts.Length
      invariant 0 <= k <= availableExperts.Length
      invariant Fill(selectedExperts, shuffled[k..]) == Fill(start, shuffled)
    {
      if |selectedExperts| >= ROUTED_EXPERTS_COUNT {
        break;
      }
      var expert := availableExperts[k];
      assert shuffled[k..][1..] == shuffled[k + 1..];
      if expert !in selectedExperts {
        selectedExperts := selectedExperts + [expert];
      }
      k := k + 1;
    }
    experts := selectedExperts[..Min(ROUTED_EXPERTS_COUNT, |selectedExperts|)];
  }
}
