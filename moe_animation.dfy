/**
 * The state machine of the MoE visualizer: which tokens it shows, which
 * token is current at each animation frame, and when the routing of the
 * current token is recomputed. Drawing is not modelled.
 */
module MoeAnimation {
  import opened Base
  import Frames
  import Tokens
  import MoeRouter

  /** The most experts the visualizer routes over. */
  const EXPERT_LIMIT: int := 32
  const FRAMES_PER_TOKEN: nat := 32
  const MAX_DISPLAYED_TOKENS: nat := 21

  class MoEVisualizer {
    var expertCount: int
    var selectedExperts: seq<int>
    var tokens: seq<Tokens.Token>
    var animationFrame: nat
    var currentTokenIndex: nat
    var isAnimating: bool

    /**
     * At most 21 tokens; the current token is the one the previous frame
     * showed; the first token never has a routing.
     */
    ghost predicate Valid()
      reads this
    {
      Bounded()
      && (isAnimating ==> tokens != [])
      && (animationFrame == 0 ==> currentTokenIndex == 0)
      && (animationFrame > 0 ==>
            tokens != []
            && animationFrame <= Frames.MaxFrames(|tokens|, FRAMES_PER_TOKEN) + 1
            && currentTokenIndex == Frames.TokenIndexAt(animationFrame - 1, |tokens|, FRAMES_PER_TOKEN))
      && (currentTokenIndex == 0 ==> selectedExperts == [])
      && (currentTokenIndex > 0 ==>
            currentTokenIndex < |tokens|)
    }

    /** At most 21 tokens are shown and at most 32 experts routed over. */
    ghost predicate Bounded()
      reads this
    {
      |tokens| <= MAX_DISPLAYED_TOKENS && expertCount <= EXPERT_LIMIT
    }

    /** How many more `animate` calls can still do something. */
    ghost function Remaining(): nat
      reads this
    {
      if isAnimating && animationFrame <= Frames.MaxFrames(|tokens|, FRAMES_PER_TOKEN) + 1
      then Frames.MaxFrames(|tokens|, FRAMES_PER_TOKEN) + 2 - animationFrame
      else 0
    }

    constructor ()
      ensures Valid()
      ensures expertCount == EXPERT_LIMIT && tokens == [] && selectedExperts == []
      ensures animationFrame == 0 && currentTokenIndex == 0 && !isAnimating
    {
      expertCount := EXPERT_LIMIT;
      selectedExperts := [];
      tokens := [];
      animationFrame := 0;
      currentTokenIndex := 0;
      isAnimating := false;
    }

    /** `setExpertCount`: capped at 32 from above only; nothing else changes. */
    method SetExpertCount(count: int)
      requires Valid()
      modifies this
      ensures Valid()
      ensures expertCount == Min(count, EXPERT_LIMIT)
      ensures tokens == old(tokens) && selectedExperts == old(selectedExperts)
      ensures animationFrame == old(animationFrame) && currentTokenIndex == old(currentTokenIndex)
      ensures isAnimating == old(isAnimating)
    {
      expertCount := Min(count, EXPERT_LIMIT);
    }

    /** `resetAnimation`: back to frame 0 with no token routed, stopped. */
    method ResetAnimation()
      requires Bounded()
      modifies this
      ensures Valid()
      ensures animationFrame == 0 && currentTokenIndex == 0 && selectedExperts == [] && !isAnimating
      ensures tokens == old(tokens) && expertCount == old(expertCount)
    {
      animationFrame := 0;
      currentTokenIndex := 0;
      selectedExperts := [];
      isAnimating := false;
    }

    /**
     * `animate`, one frame: stop once the frame counter has passed the last
     * frame; otherwise make the frame's token current, route it only if it
     * was not current already, and advance the counter.
     */
    method Animate()
      requires Valid()
      modifies this
      ensures Valid()
      ensures tokens == old(tokens) && expertCount == old(expertCount)
      ensures !old(isAnimating) ==>
        !isAnimating && animationFrame == old(animationFrame)
        && currentTokenIndex == old(currentTokenIndex) && selectedExperts == old(selectedExperts)
      ensures old(isAnimating) && old(animationFrame) > Frames.MaxFrames(|tokens|, FRAMES_PER_TOKEN) ==>
        !isAnimating && animationFrame == old(animationFrame)
        && currentTokenIndex == old(currentTokenIndex) && selectedExperts == old(selectedExperts)
      ensures old(isAnimating) && old(animationFrame) <= Frames.MaxFrames(|tokens|, FRAMES_PER_TOKEN) ==>
        isAnimating && animationFrame == old(animationFrame) + 1
        && currentTokenIndex == Frames.TokenIndexAt(old(animationFrame), |tokens|, FRAMES_PER_TOKEN)
        && (currentTokenIndex == old(currentTokenIndex) ==> selectedExperts == old(selectedExperts))
        && (currentTokenIndex != old(currentTokenIndex) ==>
              selectedExperts == MoeRouter.Route(tokens[currentTokenIndex].text, expertCount))
      ensures currentTokenIndex >= old(currentTokenIndex)
      ensures old(isAnimating) ==> Remaining() < old(Remaining())
    {
      if !isAnimating {
        return;
      }
      var maxFrames := |tokens| * FRAMES_PER_TOKEN + 20;
      if animationFrame > maxFrames {
        isAnimating := false;
        return;
      }
      ShowFrame();
    }

    /** The part of `animate` that runs while the animation is on its last frame or before. */
    method ShowFrame()
      requires Valid() && isAnimating
      requires animationFrame <= Frames.MaxFrames(|tokens|, FRAMES_PER_TOKEN)
      modifies this
      ensures Valid()
      ensures tokens == old(tokens) && expertCount == old(expertCount) && isAnimating
      ensures animationFrame == old(animationFrame) + 1
      ensures currentTokenIndex == Frames.TokenIndexAt(old(animationFrame), |tokens|, FRAMES_PER_TOKEN)
      ensures currentTokenIndex >= old(currentTokenIndex)
      ensures currentTokenIndex == old(currentTokenIndex) ==> selectedExperts == old(selectedExperts)
      ensures currentTokenIndex != old(currentTokenIndex) ==>
        selectedExperts == MoeRouter.Route(tokens[currentTokenIndex].text, expertCount)
    {
      var newTokenIndex := Min(animationFrame / FRAMES_PER_TOKEN, |tokens| - 1);
      if animationFrame > 0 {
        Frames.TokenIndexMonotone(animationFrame - 1, animationFrame, |tokens|, FRAMES_PER_TOKEN);
      }
      if newTokenIndex != currentTokenIndex && newTokenIndex < |tokens| {
        RouteToken(newTokenIndex);
      }
      animationFrame := animationFrame + 1;
    }

    /** Makes token k current and routes it with the present expert count. */
    method RouteToken(k: nat)
      requires k < |tokens|
      modifies this
      ensures tokens == old(tokens) && expertCount == old(expertCount)
      ensures currentTokenIndex == k
      ensures selectedExperts == MoeRouter.Route(tokens[k].text, expertCount)
      ensures animationFrame == old(animationFrame) && isAnimating == old(isAnimating)
    {
      currentTokenIndex := k;
      selectedExperts := MoeRouter.SelectExpertsForToken(tokens[k].text, expertCount);
    }

    /** `startAnimation`: does nothing without tokens, otherwise starts and draws the first frame. */
    method StartAnimation()
      requires Valid()
      requires animationFrame == 0
      modifies this
      ensures Valid()
      ensures tokens == old(tokens) && expertCount == old(expertCount)
      ensures tokens == [] ==> isAnimating == old(isAnimating) && animationFrame == 0
      ensures tokens != [] ==> isAnimating && animationFrame == 1
      ensures currentTokenIndex == 0 && selectedExperts == []
    {
      if |tokens| == 0 {
        return;
      }
      isAnimating := true;
      Animate();
    }

    /**
     * `processTokens`: keep the first 21 tokens, reset, and start: the first
     * token is current and nothing is routed yet.
     */
    method ProcessTokens(newTokens: seq<Tokens.Token>)
      requires Valid()
      modifies this
      ensures Valid()
      ensures tokens == newTokens[..Min(MAX_DISPLAYED_TOKENS, |newTokens|)]
      ensures expertCount == old(expertCount)
      ensures isAnimating == (newTokens != [])
      ensures animationFrame == (if newTokens == [] then 0 else 1)
      ensures currentTokenIndex == 0 && selectedExperts == []
    {
      tokens := newTokens[..Min(MAX_DISPLAYED_TOKENS, |newTokens|)];
      ResetAnimation();
      StartAnimation();
    }
  }
}
