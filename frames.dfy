/**
 * The frame -> token index rule shared by the MoE and the attention
 * comparison animations: each token is current for a fixed number of
 * frames, the last one stays current until the animation stops, and the
 * animation stops once the frame counter passes n * framesPerToken + 20.
 */
module Frames {
  import opened Base

  /** Frames of slack after the last token before an animation stops. */
  const COMPLETION_FRAMES: nat := 20

  /** `Math.min(Math.floor(frame / framesPerToken), tokenCount - 1)`. */
  function TokenIndexAt(frame: nat, tokenCount: nat, framesPerToken: nat): (k: int)
    requires framesPerToken > 0
    ensures tokenCount > 0 ==> 0 <= k < tokenCount
  {
    Min(frame / framesPerToken, tokenCount - 1)
  }

  /** `maxFrames`: the last frame drawn before the animation stops. */
  function MaxFrames(tokenCount: nat, framesPerToken: nat): nat
  {
    tokenCount * framesPerToken + COMPLETION_FRAMES
  }

  /** Whole-number division by a positive divisor is monotone. */
  lemma DivMonotone(a: nat, b: nat, d: nat)
    requires a <= b && d > 0
    ensures a / d <= b / d
  {
    if a / d > b / d {
      MulMonotone(b / d + 1, a / d, d);
    }
  }

  lemma MulMonotone(x: nat, y: nat, d: nat)
    requires x <= y
    ensures x * d <= y * d
  {
  }

  /** The quotient is k exactly on the frames k * d .. (k + 1) * d - 1. */
  lemma DivWindow(frame: nat, d: nat, k: nat)
    requires d > 0
    ensures frame / d == k <==> k * d <= frame < (k + 1) * d
  {
    var q := frame / d;
    assert q * d <= frame < q * d + d;
    if q < k {
      MulMonotone(q + 1, k, d);
    } else if q > k {
      MulMonotone(k + 1, q, d);
    }
  }

  /** The current token never moves backwards while the frame counter grows. */
  lemma TokenIndexMonotone(f1: nat, f2: nat, tokenCount: nat, framesPerToken: nat)
    requires f1 <= f2 && framesPerToken > 0
    ensures TokenIndexAt(f1, tokenCount, framesPerToken) <= TokenIndexAt(f2, tokenCount, framesPerToken)
  {
    DivMonotone(f1, f2, framesPerToken);
  }

  /**
   * Token k before the last is current exactly on frames k * framesPerToken
   * to (k + 1) * framesPerToken - 1; the last token from its first frame on.
   */
  lemma TokenIndexWindow(frame: nat, tokenCount: nat, framesPerToken: nat, k: nat)
    requires framesPerToken > 0 && k < tokenCount
    ensures k + 1 < tokenCount ==>
      (TokenIndexAt(frame, tokenCount, framesPerToken) == k <==>
       k * framesPerToken <= frame < (k + 1) * framesPerToken)
    ensures k + 1 == tokenCount ==>
      (TokenIndexAt(frame, tokenCount, framesPerToken) == k <==> k * framesPerToken <= frame)
  {
    DivWindow(frame, framesPerToken, k);
    if k + 1 == tokenCount && k * framesPerToken <= frame {
      if frame / framesPerToken < k {
        DivWindow(frame, framesPerToken, frame / framesPerToken);
        MulMonotone(frame / framesPerToken + 1, k, framesPerToken);
      }
    }
    if k + 1 == tokenCount && frame / framesPerToken >= k {
      DivWindow(frame, framesPerToken, frame / framesPerToken);
      MulMonotone(k, frame / framesPerToken, framesPerToken);
    }
  }

  /** Every token is current at some frame the animation draws: its first one. */
  lemma EveryTokenShown(tokenCount: nat, framesPerToken: nat, k: nat)
    requires framesPerToken > 0 && k < tokenCount
    ensures k * framesPerToken <= MaxFrames(tokenCount, framesPerToken)
    ensures TokenIndexAt(k * framesPerToken, tokenCount, framesPerToken) == k
  {
    MulMonotone(k, tokenCount, framesPerToken);
    TokenIndexWindow(k * framesPerToken, tokenCount, framesPerToken, k);
    if k + 1 < tokenCount {
      assert k * framesPerToken < (k + 1) * framesPerToken;
    }
  }
}
