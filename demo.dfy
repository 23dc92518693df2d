/**
 * The demo controller: the guard on the Process button, the processing
 * flag, and the reset of the configuration. The controls, notifications,
 * the timed hand-off of tokens to the visualizers and the visualizer calls
 * made by `resetDemo` are not modelled.
 */
module Demo {
  import opened Text
  import Tokens

  const DEFAULT_TEXT: string := "The quick brown fox jumps over the lazy dog"
  const DEFAULT_COMPRESSION_RATIO: int := 4
  const DEFAULT_EXPERT_COUNT: int := 32
  const DEFAULT_ANIMATION_SPEED: real := 1.0
  const DEFAULT_COMPARISON_ARCH: string := "gqa"

  class DeepSeekDemo {
    var compressionRatio: int
    var expertCount: int
    var animationSpeed: real
    var comparisonArch: string
    var inputText: string
    var isProcessing: bool
    var currentTokens: seq<Tokens.Token>

    /** The configuration defaults, then `processInput` on the default text. */
    constructor ()
      ensures compressionRatio == DEFAULT_COMPRESSION_RATIO && expertCount == DEFAULT_EXPERT_COUNT
      ensures animationSpeed == DEFAULT_ANIMATION_SPEED && comparisonArch == DEFAULT_COMPARISON_ARCH
      ensures inputText == DEFAULT_TEXT
      ensures isProcessing && currentTokens == Tokens.Tokenize(DEFAULT_TEXT)
    {
      compressionRatio := DEFAULT_COMPRESSION_RATIO;
      expertCount := DEFAULT_EXPERT_COUNT;
      animationSpeed := DEFAULT_ANIMATION_SPEED;
      comparisonArch := DEFAULT_COMPARISON_ARCH;
      inputText := DEFAULT_TEXT;
      isProcessing := false;
      currentTokens := [];
      new;
      ProcessInput();
    }

    /** `setProcessingState`: only the flag changes (the button and indicators are not modelled). */
    method SetProcessingState(processing: bool)
      modifies this
      ensures isProcessing == processing
      ensures inputText == old(inputText) && currentTokens == old(currentTokens)
      ensures compressionRatio == old(compressionRatio) && expertCount == old(expertCount)
      ensures animationSpeed == old(animationSpeed) && comparisonArch == old(comparisonArch)
    {
      isProcessing := processing;
    }

    /** The synchronous part of `processInput`: mark processing and tokenize the input. */
    method ProcessInput()
      modifies this
      ensures isProcessing && currentTokens == Tokens.Tokenize(inputText)
      ensures inputText == old(inputText)
      ensures compressionRatio == old(compressionRatio) && expertCount == old(expertCount)
      ensures animationSpeed == old(animationSpeed) && comparisonArch == old(comparisonArch)
    {
      SetProcessingState(true);
      currentTokens := Tokens.Tokenize(inputText);
    }

    /**
     * `handleProcessClick` with the text box holding `boxText`: ignored while
     * processing, refused when the trimmed text is empty, otherwise the
     * trimmed text becomes the input and is processed.
     */
    method HandleProcessClick(boxText: string)
      modifies this
      ensures compressionRatio == old(compressionRatio) && expertCount == old(expertCount)
      ensures animationSpeed == old(animationSpeed) && comparisonArch == old(comparisonArch)
      ensures old(isProcessing) || AllSpace(boxText) ==>
        isProcessing == old(isProcessing) && inputText == old(inputText) && currentTokens == old(currentTokens)
      ensures !old(isProcessing) && !AllSpace(boxText) ==>
        isProcessing && inputText == Tokens.Trim(boxText) && currentTokens == Tokens.Tokenize(boxText)
    {
      if isProcessing {
        return;
      }
      var newText := Tokens.Trim(boxText);
      Tokens.TrimFacts(boxText);
      if newText == [] {
        return;
      }
      inputText := newText;
      ProcessInput();
      Tokens.TrimKeepsTokens(boxText);
    }

    /** `resetDemo`: the four configuration fields go back to their defaults; the input text stays. */
    method ResetDemo()
      modifies this
      ensures compressionRatio == DEFAULT_COMPRESSION_RATIO && expertCount == DEFAULT_EXPERT_COUNT
      ensures animationSpeed == DEFAULT_ANIMATION_SPEED && comparisonArch == DEFAULT_COMPARISON_ARCH
      ensures inputText == old(inputText) && isProcessing == old(isProcessing)
      ensures currentTokens == old(currentTokens)
    {
      compressionRatio := DEFAULT_COMPRESSION_RATIO;
      expertCount := DEFAULT_EXPERT_COUNT;
      animationSpeed := DEFAULT_ANIMATION_SPEED;
      comparisonArch := DEFAULT_COMPARISON_ARCH;
    }
  }
}
