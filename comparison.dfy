/**
 * The attention comparison visualizer: the colour parser, the rule that
 * connects query heads to key/value heads, the trade-off table, and the
 * animation state. Drawing and the random attention weights are not
 * modelled.
 */
module Comparison {
  import opened Base
  import opened Text
  import Frames
  import Tokens

  // ---------------------------------------------------------------------
  // hexToRgb
  // ---------------------------------------------------------------------

  datatype Rgb = Rgb(r: int, g: int, b: int)

  /** The colour returned for anything that is not a six-digit hex code. */
  const FALLBACK: Rgb := Rgb(255, 107, 107)

  predicate InByteRange(c: Rgb)
  {
    0 <= c.r <= 255 && 0 <= c.g <= 255 && 0 <= c.b <= 255
  }

  /** What `[a-f\d]` matches under the `i` flag. */
  predicate IsHexDigit(c: char)
  {
    '0' <= c <= '9' || 'a' <= c <= 'f' || 'A' <= c <= 'F'
  }

  predicate AllHex(s: string)
  {
    forall i :: 0 <= i < |s| ==> IsHexDigit(s[i])
  }

  function HexValue(c: char): (v: nat)
    requires IsHexDigit(c)
    ensures v < 16
  {
    if '0' <= c <= '9' then c as int - '0' as int
    else if 'a' <= c <= 'f' then c as int - 'a' as int + 10
    else c as int - 'A' as int + 10
  }

  /** `parseInt` of two hex digits. */
  function ParseByte(hi: char, lo: char): (v: nat)
    requires IsHexDigit(hi) && IsHexDigit(lo)
    ensures v <= 255
  {
    HexValue(hi) * 16 + HexValue(lo)
  }

  /**
   * `hexToRgb(hex)`: an optional `#` and then exactly six hex digits, read
   * two by two; anything else gives the fallback colour.
   */
  function HexToRgb(hex: string): (c: Rgb)
    ensures InByteRange(c)
  {
    var d := if |hex| > 0 && hex[0] == '#' then hex[1..] else hex;
    if |d| == 6 && AllHex(d)
    then Rgb(ParseByte(d[0], d[1]), ParseByte(d[2], d[3]), ParseByte(d[4], d[5]))
    else FALLBACK
  }

  /** The strings the pattern `^#?([a-f\d]{2})([a-f\d]{2})([a-f\d]{2})$` accepts, case-insensitively. */
  predicate IsColorCode(s: string)
  {
    (|s| == 6 && AllHex(s)) || (|s| == 7 && s[0] == '#' && AllHex(s[1..]))
  }

  /** The six digits of a colour code. */
  function CodeDigits(s: string): (d: string)
    requires IsColorCode(s)
    ensures |d| == 6 && AllHex(d)
  {
    if |s| == 7 then s[1..] else s
  }

  /** The colour a code spells, component by component. */
  function Spelled(d: string): Rgb
    requires |d| == 6 && AllHex(d)
  {
    Rgb(ParseByte(d[0], d[1]), ParseByte(d[2], d[3]), ParseByte(d[4], d[5]))
  }

  /** Exactly the colour codes are parsed; every other string gives the fallback. */
  lemma HexToRgbMatches(s: string)
    ensures IsColorCode(s) ==> HexToRgb(s) == Spelled(CodeDigits(s))
    ensures !IsColorCode(s) ==> HexToRgb(s) == FALLBACK
  {
    if |s| == 6 && s[0] == '#' {
      assert !IsHexDigit(s[0]);
    }
  }

  /** Shorthand, alpha and empty codes, and anything with extra characters, are not parsed. */
  lemma WrongLengthFallsBack(s: string)
    requires |s| != 6 && |s| != 7
    ensures HexToRgb(s) == FALLBACK
  {
    HexToRgbMatches(s);
  }

  /** The lower-case hex digit of v < 16. */
  function HexChar(v: nat): (c: char)
    requires v < 16
    ensures IsHexDigit(c) && HexValue(c) == v
  {
    if v < 10 then ('0' as int + v) as char else ('a' as int + v - 10) as char
  }

  /** A component written as two hex digits. */
  function ByteHex(v: nat): (s: string)
    requires v <= 255
    ensures |s| == 2 && AllHex(s) && ParseByte(s[0], s[1]) == v
  {
    [HexChar(v / 16), HexChar(v % 16)]
  }

  /** Writing a colour as `#rrggbb` and parsing it gives the colour back. */
  lemma HexRoundTrip(c: Rgb)
    requires InByteRange(c)
    ensures HexToRgb("#" + ByteHex(c.r) + ByteHex(c.g) + ByteHex(c.b)) == c
    ensures HexToRgb(ByteHex(c.r) + ByteHex(c.g) + ByteHex(c.b)) == c
  {
    var d := ByteHex(c.r) + ByteHex(c.g) + ByteHex(c.b);
    assert ("#" + d)[1..] == d;
    assert d[0] == ByteHex(c.r)[0] && d[1] == ByteHex(c.r)[1];
    assert d[2] == ByteHex(c.g)[0] && d[3] == ByteHex(c.g)[1];
    assert d[4] == ByteHex(c.b)[0] && d[5] == ByteHex(c.b)[1];
    assert !IsHexDigit('#');
  }

  lemma LowerHexDigit(c: char)
    ensures IsHexDigit(LowerChar(c)) <==> IsHexDigit(c)
    ensures IsHexDigit(c) ==> HexValue(LowerChar(c)) == HexValue(c)
    ensures LowerChar(c) == '#' <==> c == '#'
  {
  }

  /** The pattern's `i` flag: upper- and lower-case codes give the same colour. */
  lemma HexToRgbIgnoresCase(s: string)
    ensures HexToRgb(Lower(s)) == HexToRgb(s)
  {
    var t := Lower(s);
    forall i | 0 <= i < |s| {
      LowerHexDigit(s[i]);
    }
    var d := if |s| > 0 && s[0] == '#' then s[1..] else s;
    var e := if |t| > 0 && t[0] == '#' then t[1..] else t;
    assert |e| == |d|;
    assert forall i :: 0 <= i < |d| ==> e[i] == LowerChar(d[i]);
    assert AllHex(e) <==> AllHex(d);
  }

  // ---------------------------------------------------------------------
  // Query head -> key/value head
  // ---------------------------------------------------------------------

  /** The head counts of an architecture entry. */
  datatype Arch = Arch(numHeads: nat, kvHeads: nat)

  /** The three architectures the visualizer knows. */
  function ArchitectureOf(key: string): (a: Option<Arch>)
    ensures a.Some? <==> key in {"mha", "mqa", "gqa"}
    ensures a.Some? ==> a.value.numHeads == 32 && 1 <= a.value.kvHeads <= a.value.numHeads
  {
    if key == "mha" then Some(Arch(32, 32))
    else if key == "mqa" then Some(Arch(32, 1))
    else if key == "gqa" then Some(Arch(32, 8))
    else None
  }

  /**
   * The key/value head a query head connects to: one shared head, one head
   * each, or the general grouping formula.
   */
  function KvIndex(qIdx: nat, arch: Arch): int
    requires arch.numHeads > 0
  {
    if arch.kvHeads == 1 then 0
    else if arch.kvHeads == arch.numHeads then qIdx
    else qIdx * arch.kvHeads / arch.numHeads
  }

  /** The grouping formula alone. */
  function GroupOf(qIdx: nat, arch: Arch): int
    requires arch.numHeads > 0
  {
    qIdx * arch.kvHeads / arch.numHeads
  }

  /** The two special cases agree with the grouping formula on every query head. */
  lemma KvIndexIsGrouping(qIdx: nat, arch: Arch)
    requires qIdx < arch.numHeads
    ensures KvIndex(qIdx, arch) == GroupOf(qIdx, arch)
  {
    var n := arch.numHeads;
    if arch.kvHeads == 1 {
      Frames.DivWindow(qIdx * 1, n, 0);
    } else if arch.kvHeads == n {
      assert (qIdx + 1) * n == qIdx * n + n;
      Frames.DivWindow(qIdx * n, n, qIdx);
    }
  }

  lemma MulDivBound(q: nat, k: nat, n: nat)
    requires q < n && k <= n && 0 < n
    ensures q * k / n < k || k == 0
    ensures q * k / n >= 0
  {
    if k > 0 {
      assert q * k < n * k;
    }
  }

  /** A query head always connects to an existing key/value head. */
  lemma KvIndexInRange(qIdx: nat, arch: Arch)
    requires qIdx < arch.numHeads && 1 <= arch.kvHeads <= arch.numHeads
    ensures 0 <= KvIndex(qIdx, arch) < arch.kvHeads
  {
    KvIndexIsGrouping(qIdx, arch);
    MulDivBound(qIdx, arch.kvHeads, arch.numHeads);
  }

  /** Later query heads never connect to earlier key/value heads. */
  lemma KvIndexMonotone(q1: nat, q2: nat, arch: Arch)
    requires q1 <= q2 < arch.numHeads
    ensures KvIndex(q1, arch) <= KvIndex(q2, arch)
  {
    KvIndexIsGrouping(q1, arch);
    KvIndexIsGrouping(q2, arch);
    Frames.MulMonotone(q1, q2, arch.kvHeads);
    Frames.DivMonotone(q1 * arch.kvHeads, q2 * arch.kvHeads, arch.numHeads);
  }

  /** Under grouped-query attention, query head q shares key/value head q / 4. */
  lemma GqaGroupsOfFour(qIdx: nat)
    requires qIdx < 32
    ensures KvIndex(qIdx, Arch(32, 8)) == qIdx / 4
  {
  }

  /** Under grouped-query attention, each key/value head serves exactly four query heads. */
  lemma GqaHeadShare(k: nat)
    requires k < 8
    ensures (set q: nat | q < 32 && KvIndex(q, Arch(32, 8)) == k) == {4 * k, 4 * k + 1, 4 * k + 2, 4 * k + 3}
    ensures |set q: nat | q < 32 && KvIndex(q, Arch(32, 8)) == k| == 4
  {
    var s := set q: nat | q < 32 && KvIndex(q, Arch(32, 8)) == k;
    forall q: nat | q < 32 ensures q in s <==> 4 * k <= q < 4 * k + 4 {
      GqaGroupsOfFour(q);
    }
    assert s == {4 * k, 4 * k + 1, 4 * k + 2, 4 * k + 3};
  }

  /** At most this many heads of either kind are drawn. */
  const HEADS_SHOWN: nat := 16

  /** The connections drawn for the first n query heads, as (query, key/value) pairs. */
  function ConnectionsUpTo(n: nat, arch: Arch): seq<(nat, int)>
    requires arch.numHeads > 0
  {
    if n == 0 then []
    else
      var q := n - 1;
      ConnectionsUpTo(q, arch)
      + (if KvIndex(q, arch) < Min(HEADS_SHOWN, arch.kvHeads) then [(q, KvIndex(q, arch))] else [])
  }

  /** The connections `drawQKVConnections` draws for an architecture. */
  function Connections(arch: Arch): seq<(nat, int)>
    requires arch.numHeads > 0
  {
    ConnectionsUpTo(Min(HEADS_SHOWN, arch.numHeads), arch)
  }

  /**
   * A pair is drawn exactly when its query head is among the first 16, it
   * is that head's key/value head, and that head is among the first 16
   * shown; pairs come in query-head order.
   */
  lemma {:induction false} ConnectionsUpToFacts(n: nat, arch: Arch)
    requires arch.numHeads > 0
    ensures forall q: nat, kv: int :: (q, kv) in ConnectionsUpTo(n, arch) <==>
      q < n && kv == KvIndex(q, arch) && kv < Min(HEADS_SHOWN, arch.kvHeads)
    ensures forall i, j :: 0 <= i < j < |ConnectionsUpTo(n, arch)| ==>
      ConnectionsUpTo(n, arch)[i].0 < ConnectionsUpTo(n, arch)[j].0
  {
    if n > 0 {
      ConnectionsUpToFacts(n - 1, arch);
    }
  }

  /** The connections of an architecture are those of the first 16 query heads, in order. */
  lemma ConnectionsFacts(arch: Arch)
    requires arch.numHeads > 0
    ensures forall q: nat, kv: int :: (q, kv) in Connections(arch) <==>
      q < Min(HEADS_SHOWN, arch.numHeads) && kv == KvIndex(q, arch) && kv < Min(HEADS_SHOWN, arch.kvHeads)
  {
    ConnectionsUpToFacts(Min(HEADS_SHOWN, arch.numHeads), arch);
  }

  /** Every known architecture draws all 16 query heads' connections: none falls off screen. */
  lemma {:induction false} KnownArchitecturesDrawSixteen(key: string)
    requires ArchitectureOf(key).Some?
    ensures |Connections(ArchitectureOf(key).value)| == HEADS_SHOWN
  {
    var arch := ArchitectureOf(key).value;
    AllConnected(HEADS_SHOWN, arch);
  }

  lemma {:induction false} AllConnected(n: nat, arch: Arch)
    requires n <= HEADS_SHOWN && arch.numHeads == 32 && 1 <= arch.kvHeads <= 32
    requires arch.kvHeads == 1 || arch.kvHeads == 8 || arch.kvHeads == 32
    ensures |ConnectionsUpTo(n, arch)| == n
  {
    if n > 0 {
      AllConnected(n - 1, arch);
      var q := n - 1;
      if arch.kvHeads == 8 {
        assert KvIndex(q, arch) == q * 8 / 32 == q / 4;
      }
    }
  }

  /** `drawQKVConnections`: nothing while stopped, otherwise one line per connected query head. */
  method DrawQkvConnections(isAnimating: bool, arch: Arch) returns (lines: seq<(nat, int)>)
    requires arch.numHeads > 0
    ensures lines == if isAnimating then Connections(arch) else []
  {
    if !isAnimating {
      return [];
    }
    var qHeadsToShow := Min(HEADS_SHOWN, arch.numHeads);
    var kvHeadsToShow := Min(HEADS_SHOWN, arch.kvHeads);
    lines := [];
    var qIdx := 0;
    while qIdx < qHeadsToShow
      invariant 0 <= qIdx <= qHeadsToShow
      invariant lines == ConnectionsUpTo(qIdx, arch)
    {
      var kvIdx;
      if arch.kvHeads == 1 {
        kvIdx := 0;
      } else if arch.kvHeads == arch.numHeads {
        kvIdx := qIdx;
      } else {
        kvIdx := qIdx * arch.kvHeads / arch.numHeads;
      }
      if kvIdx < kvHeadsToShow {
        lines := lines + [(qIdx, kvIdx)];
      }
      qIdx := qIdx + 1;
    }
  }

  // ---------------------------------------------------------------------
  // getArchitectureTradeoffs
  // ---------------------------------------------------------------------

  /** `getArchitectureTradeoffs(arch)`: four notes for a known architecture, none otherwise. */
  function Tradeoffs(key: string): (notes: seq<string>)
    ensures |notes| == 4 <==> ArchitectureOf(key).Some?
    ensures notes == [] <==> ArchitectureOf(key).None?
  {
    if key == "mha" then
      ["Highest memory usage", "Best modeling capacity", "Slowest inference", "Full expressiveness"]
    else if key == "mqa" then
      ["Lowest memory usage", "Fastest inference", "Some quality loss", "Simple implementation"]
    else if key == "gqa" then
      ["Balanced memory/quality", "Moderate speedup", "Good practical choice", "Industry standard"]
    else []
  }

  // ---------------------------------------------------------------------
  // Animation state
  // ---------------------------------------------------------------------

  const FRAMES_PER_TOKEN: nat := 10

  class ComparisonVisualizer {
    var currentArch: string
    var tokens: seq<Tokens.Token>
    var currentTokenIndex: int
    var animationFrame: nat
    var isAnimating: bool

    /** The current token is the one the previous frame showed, and only tokens that exist are shown. */
    ghost predicate Valid()
      reads this
    {
      (isAnimating ==> tokens != [])
      && (animationFrame == 0 ==> currentTokenIndex == 0)
      && (animationFrame > 0 ==>
            tokens != []
            && animationFrame <= Frames.MaxFrames(|tokens|, FRAMES_PER_TOKEN) + 1
            && currentTokenIndex == Frames.TokenIndexAt(animationFrame - 1, |tokens|, FRAMES_PER_TOKEN))
    }

    constructor ()
      ensures Valid()
      ensures currentArch == "gqa" && tokens == [] && currentTokenIndex == 0
      ensures animationFrame == 0 && !isAnimating
    {
      currentArch := "gqa";
      tokens := [];
      currentTokenIndex := 0;
      animationFrame := 0;
      isAnimating := false;
    }

    /** `setArchitecture`: only the architecture changes (the weights it redraws are not modelled). */
    method SetArchitecture(arch: string)
      requires Valid()
      modifies this
      ensures Valid()
      ensures currentArch == arch
      ensures tokens == old(tokens) && currentTokenIndex == old(currentTokenIndex)
      ensures animationFrame == old(animationFrame) && isAnimating == old(isAnimating)
    {
      currentArch := arch;
    }

    /** `resetAnimation`. */
    method ResetAnimation()
      modifies this
      ensures Valid()
      ensures animationFrame == 0 && currentTokenIndex == 0 && !isAnimating
      ensures tokens == old(tokens) && currentArch == old(currentArch)
    {
      animationFrame := 0;
      currentTokenIndex := 0;
      isAnimating := false;
    }

    /**
     * `animate`, one frame: stop once the frame counter has passed the last
     * frame, otherwise show the frame's token and advance the counter.
     */
    method Animate()
      requires Valid()
      modifies this
      ensures Valid()
      ensures tokens == old(tokens) && currentArch == old(currentArch)
      ensures !old(isAnimating) ==>
        !isAnimating && animationFrame == old(animationFrame) && currentTokenIndex == old(currentTokenIndex)
      ensures old(isAnimating) && old(animationFrame) > Frames.MaxFrames(|tokens|, FRAMES_PER_TOKEN) ==>
        !isAnimating && animationFrame == old(animationFrame) && currentTokenIndex == old(currentTokenIndex)
      ensures old(isAnimating) && old(animationFrame) <= Frames.MaxFrames(|tokens|, FRAMES_PER_TOKEN) ==>
        isAnimating && animationFrame == old(animationFrame) + 1
        && currentTokenIndex == Frames.TokenIndexAt(old(animationFrame), |tokens|, FRAMES_PER_TOKEN)
      ensures tokens != [] ==> 0 <= currentTokenIndex < |tokens|
      ensures currentTokenIndex >= old(currentTokenIndex)
    {
      if !isAnimating {
        return;
      }
      var framesPerToken := FRAMES_PER_TOKEN;
      var maxFrames := |tokens| * framesPerToken + 20;
      if animationFrame > maxFrames {
        isAnimating := false;
        return;
      }
      if |tokens| > 0 {
        var tokenCycle := animationFrame / framesPerToken;
        currentTokenIndex := Min(tokenCycle, |tokens| - 1);
      }
      if animationFrame > 0 {
        Frames.TokenIndexMonotone(animationFrame - 1, animationFrame, |tokens|, FRAMES_PER_TOKEN);
      }
      animationFrame := animationFrame + 1;
    }

    /** `startAnimation`: does nothing without tokens, otherwise starts and shows the first frame. */
    method StartAnimation()
      requires Valid()
      requires animationFrame == 0
      modifies this
      ensures Valid()
      ensures tokens == old(tokens) && currentArch == old(currentArch)
      ensures tokens == [] ==> isAnimating == old(isAnimating) && animationFrame == 0
      ensures tokens != [] ==> isAnimating && animationFrame == 1
      ensures currentTokenIndex == 0
    {
      if |tokens| == 0 {
        return;
      }
      isAnimating := true;
      Animate();
    }

    /** `processTokens`: takes every token (no cap here), resets and starts. */
    method ProcessTokens(newTokens: seq<Tokens.Token>)
      requires Valid()
      modifies this
      ensures Valid()
      ensures tokens == newTokens && currentArch == old(currentArch)
      ensures isAnimating == (newTokens != [])
      ensures animationFrame == (if newTokens == [] then 0 else 1)
      ensures currentTokenIndex == 0
    {
      tokens := newTokens;
      ResetAnimation();
      StartAnimation();
    }
  }
}
