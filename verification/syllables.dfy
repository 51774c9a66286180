/** The syllable counter service's `countSyllables`: strip whitespace, run the
    morphological analyser, and sum the morae of every token's reading after
    conversion to hiragana. The analyser (kuromoji's `tokenize`) and the kana
    converter (wanakana's `toHiragana`) are not part of this model; they are
    uninterpreted functions carried by an `Engine`. */
module Syllables {
  import opened Wrappers
  import opened Text
  import Mora

  /** A token of the analyser: surface form and optional katakana reading. */
  datatype Token = Token(surfaceForm: string, reading: Option<string>)

  /** What one call of the analyser produces: tokens, or a thrown error. */
  datatype Analysis = Analyzed(tokens: seq<Token>) | AnalyzerFailed

  /** The tokenizer as `countSyllables` finds it once `initPromise` has been
      awaited: initialisation never started (no promise, a null field), the
      dictionary load rejected (the shared promise rethrows that error to
      every caller), or the tokenizer is built. */
  datatype Tokenizer = NotInitialized | InitFailed(loadError: string) | Ready(tokenize: string -> Analysis)

  datatype Engine = Engine(tokenizer: Tokenizer, toHiragana: string -> string)

  const NotInitializedMessage: string := "Tokenizer not initialized"

  /** The error a count rejects with when there is no tokenizer to use
      (only consulted when `t` is not `Ready`). */
  function CountError(t: Tokenizer): string {
    if t.InitFailed? then t.loadError else NotInitializedMessage
  }

  /** `text.replace(/\s+/g, '')` */
  function RemoveWhitespace(text: string): (r: string)
    ensures forall i :: 0 <= i < |r| ==> !IsJsWhitespace(r[i])
  {
    Keep(text, IsNotJsWhitespace)
  }

  /** `token.reading || token.surface_form`: a missing or empty reading falls
      back to the surface form. */
  function Reading(t: Token): string {
    if t.reading.Some? && t.reading.value != [] then t.reading.value else t.surfaceForm
  }

  /** Sum over the tokens of the morae of their readings in hiragana. */
  function TokenMorae(toHiragana: string -> string, tokens: seq<Token>): nat
    decreases |tokens|
  {
    if tokens == [] then 0
    else Mora.MoraCount(toHiragana(Reading(tokens[0]))) + TokenMorae(toHiragana, tokens[1..])
  }

  /** The value `countSyllables` resolves to, or the error it rejects with. */
  function SyllableCount(e: Engine, text: string): (r: Result<nat, string>)
    ensures r.Failure? <==> !e.tokenizer.Ready?
    ensures e.tokenizer.NotInitialized? ==> r == Failure(NotInitializedMessage)
    ensures e.tokenizer.InitFailed? ==> r == Failure(e.tokenizer.loadError)
  {
    if !e.tokenizer.Ready? then Failure(CountError(e.tokenizer))
    else
      var clean := RemoveWhitespace(text);
      if clean == [] then Success(0)
      else match e.tokenizer.tokenize(clean)
        case AnalyzerFailed => Success(0)
        case Analyzed(tokens) => Success(TokenMorae(e.toHiragana, tokens))
  }

  /** `countSyllables`: awaiting the initialisation and checking the tokenizer
      happen outside the try block, so their errors reach the caller; a failure
      of the analyser inside it is caught and yields 0. */
  method CountSyllables(e: Engine, text: string) returns (r: Result<nat, string>)
    ensures r == SyllableCount(e, text)
  {
    if !e.tokenizer.Ready? {
      return Failure(CountError(e.tokenizer));
    }
    var clean := RemoveWhitespace(text);
    if clean == [] {
      return Success(0);
    }
    var analysis := e.tokenizer.tokenize(clean);
    if analysis.AnalyzerFailed? {
      return Success(0);
    }
    var tokens := analysis.tokens;
    var total: nat := 0;
    var i := 0;
    while i < |tokens|
      invariant 0 <= i <= |tokens|
      invariant total == TokenMorae(e.toHiragana, tokens[..i])
    {
      var hiragana := e.toHiragana(Reading(tokens[i]));
      var morae := Mora.CountMoraeInHiragana(hiragana);
      Mora.MoraCountIsPositionCount(hiragana);
      TokenMoraeAppend(e.toHiragana, tokens[..i], [tokens[i]]);
      assert tokens[..i + 1] == tokens[..i] + [tokens[i]];
      total := total + morae;
      i := i + 1;
    }
    assert tokens[..i] == tokens;
    return Success(total);
  }

  /** The token sum is additive over token sequences. */
  lemma {:induction false} TokenMoraeAppend(toHiragana: string -> string, a: seq<Token>, b: seq<Token>)
    ensures TokenMorae(toHiragana, a + b) == TokenMorae(toHiragana, a) + TokenMorae(toHiragana, b)
    decreases |a|
  {
    if a == [] {
      assert a + b == b;
    } else {
      assert (a + b)[0] == a[0];
      assert (a + b)[1..] == a[1..] + b;
      TokenMoraeAppend(toHiragana, a[1..], b);
    }
  }

  /** Total length of the tokens' readings after conversion to hiragana. */
  function ReadingLength(toHiragana: string -> string, tokens: seq<Token>): nat
    decreases |tokens|
  {
    if tokens == [] then 0
    else |toHiragana(Reading(tokens[0]))| + ReadingLength(toHiragana, tokens[1..])
  }

  /** No token contributes more morae than its hiragana reading has characters. */
  lemma {:induction false} TokenMoraeBounded(toHiragana: string -> string, tokens: seq<Token>)
    ensures TokenMorae(toHiragana, tokens) <= ReadingLength(toHiragana, tokens)
    decreases |tokens|
  {
    if tokens != [] {
      Mora.MoraCountBounded(toHiragana(Reading(tokens[0])));
      TokenMoraeBounded(toHiragana, tokens[1..]);
    }
  }

  /** Empty and whitespace-only input counts 0 once the tokenizer is ready,
      without consulting the analyser. */
  lemma WhitespaceOnlyCountsZero(e: Engine, text: string)
    requires e.tokenizer.Ready?
    requires forall i :: 0 <= i < |text| ==> IsJsWhitespace(text[i])
    ensures SyllableCount(e, text) == Success(0)
  {
    KeepNone(text, IsNotJsWhitespace);
  }

  /** Whitespace never changes the count: the text is stripped before analysis. */
  lemma CountIgnoresWhitespace(e: Engine, text: string)
    ensures SyllableCount(e, text) == SyllableCount(e, RemoveWhitespace(text))
  {
    KeepIdempotent(text, IsNotJsWhitespace);
  }

  /** A thrown analyser error is caught and counts as 0. */
  lemma AnalyzerFailureCountsZero(e: Engine, text: string)
    requires e.tokenizer.Ready?
    requires e.tokenizer.tokenize(RemoveWhitespace(text)) == AnalyzerFailed
    ensures SyllableCount(e, text) == Success(0)
  {
  }

  /** The count of a successful analysis is the sum over tokens, with the
      reading falling back to the surface form, and is bounded by the length
      of the converted readings. */
  lemma CountOfAnalysis(e: Engine, text: string, tokens: seq<Token>)
    requires e.tokenizer.Ready?
    requires RemoveWhitespace(text) != []
    requires e.tokenizer.tokenize(RemoveWhitespace(text)) == Analyzed(tokens)
    ensures SyllableCount(e, text) == Success(TokenMorae(e.toHiragana, tokens))
    ensures SyllableCount(e, text).value <= ReadingLength(e.toHiragana, tokens)
  {
    TokenMoraeBounded(e.toHiragana, tokens);
  }

  /** A token without a usable reading is counted from its surface form. */
  lemma ReadingFallsBackToSurface(t: Token)
    requires t.reading == None || t.reading == Some([])
    ensures Reading(t) == t.surfaceForm
  {
  }
}
