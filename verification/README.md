# Senryu detection engine, modelled in Dafny

This project models the core of a chat bot that spots senryu, poems of 5, 7 and 5 morae, in chat messages. The model covers these parts of `SenryuDetectorService` and `SyllableCounterService`:

- **Text cleaner** (`cleanText`): five global regex deletions remove links, user mentions, channel mentions, role mentions and custom emoji. A character-class deletion then removes pictographic emoji, another removes whitespace, and `trim` runs last. Each markup pattern is modelled exactly as a language. Its global replacement deletes, at each position from left to right, the longest prefix in that language. Emoji and whitespace removal are per-character filters. `trim` removes exactly the leading and trailing whitespace, so it changes nothing once whitespace is gone.
- **Segmenter** (`segmentText`): splits at `、。！？!?\n\r` and drops the boundaries and empty pieces. If no piece is left, the segmenter returns the whole text as the only segment. The character-by-character loop is proved equal to a run-based reference definition.
- **Mora counter** (`countMoraeInHiragana`, `isJapaneseCharacter`): a character counts one mora when its code lies in U+3040..U+30FF and it is not one of the 18 listed small kana.
- **Syllable counter** (`countSyllables`): strips whitespace, runs the morphological analyser, and sums the morae of each token's reading after conversion to hiragana. A missing or empty reading falls back to the surface form. An analyser error counts as 0. When there is no tokenizer, the call throws.
- **Detector** (`detectSenryu`, `detectContinuousSenryu`): Phase A tries segment triples `(i, j, k)` in lexicographic order. Phase B then tries cut pairs `(i, j)` in lexicographic order. The first split whose lines count exactly 5, 7 and 5 is returned. When there is no tokenizer, the first count call throws and the detector passes that error on.

The analyser (kuromoji's `tokenize`) and the kana converter (wanakana's `toHiragana`) are uninterpreted: an `Engine` carries both as function values. The tokenizer's state, as `countSyllables` sees it after awaiting `initPromise`, is the datatype `Tokenizer = NotInitialized | InitFailed(loadError) | Ready(tokenize)`. `NotInitialized` means initialisation never started: there is no promise and the field is null. `InitFailed` means the dictionary load rejected. `initializeTokenizer` rethrows that error (src/syllable-counter.service.ts:28-30), and every count call awaits the same promise, so each one rejects with the loader's error. A call that can throw returns a `Result`, and TypeScript's `null` becomes `None`.

`countSyllables` is not total. The awaited `initPromise` and the `Tokenizer not initialized` check (src/syllable-counter.service.ts:40-46) sit outside the `try` block, so their errors reach the caller. `detectSenryu` does not catch them either. Without a tokenizer it fails exactly when the cleaned text has three or more characters, because below that length neither phase calls the counter.

Files: `wrappers.dfy` (Option/Result), `text.dfy` (subsequence, filtering, runs, joining), `cleaner.dfy`, `segmenter.dfy`, `mora.dfy`, `syllables.dfy`, `detector.dfy`.

## Model

| member | source | states |
|---|---|---|
| Mora.CountMoraeInHiragana | src/syllable-counter.service.ts:81-100 | the loop's count equals the number of positions holding a kana in U+3040..U+30FF that is not small kana, and is at most the length |
| Mora.MoraCountAppend | src/syllable-counter.service.ts:81-100 | the mora count of a concatenation is the sum of the counts |
| Mora.MoraCountBounded | src/syllable-counter.service.ts:81-100 | the mora count never exceeds the string length |
| Mora.MoraCountIsPositionCount | src/syllable-counter.service.ts:85-97 | the character fold equals the size of the set of moraic positions |
| Mora.SmallKanaOnlyCountsZero | src/syllable-counter.service.ts:83-91 | a string made only of small kana counts 0 morae |
| Mora.IsJapaneseCharacter | src/syllable-counter.service.ts:102-107 | the range test: code in U+3040..U+309F or U+30A0..U+30FF. `SingleCharacterCount` and `SmallKanaAreKana` state how it decides a character's mora |
| Mora.SingleCharacterCount | src/syllable-counter.service.ts:83-107 | one character counts 1 iff its code is in U+3040..U+309F or U+30A0..U+30FF and it is not small kana, otherwise 0 |
| Mora.SmallKanaAreKana | src/syllable-counter.service.ts:83-96 | every listed small kana lies in a kana block, so the range test alone would count it, yet it counts 0 |
| Mora.NasalAndGeminateCountOne | src/syllable-counter.service.ts:74-80 | ん, っ, ン, ッ and ー each count one mora |
| Mora.ContractedSoundCount | src/syllable-counter.service.ts:74-91 | きゃ counts one mora and きゃっ two |
| Syllables.Reading | src/syllable-counter.service.ts:59 | `token.reading`, or `token.surface_form` when the reading is absent or empty. `ReadingFallsBackToSurface` states the fallback |
| Syllables.TokenMorae | src/syllable-counter.service.ts:57-64 | the token loop's sum as a reference definition. `TokenMoraeAppend` and `TokenMoraeBounded` state its additivity and bound, and `CountSyllables` is proved to compute it |
| Syllables.RemoveWhitespace | src/syllable-counter.service.ts:49 | the stripped text contains no JavaScript whitespace |
| Syllables.SyllableCount | src/syllable-counter.service.ts:39-71 | counting fails iff the tokenizer is not ready: with `Tokenizer not initialized` when initialisation never ran, and with the loader's error when the awaited initialisation rejected |
| Syllables.CountSyllables | src/syllable-counter.service.ts:39-71 | the token loop computes the reference count: 0 for blank text or a failed analysis, else the sum over tokens of the morae of their hiragana readings |
| Syllables.TokenMoraeAppend | src/syllable-counter.service.ts:57-64 | the token sum is additive over token sequences |
| Syllables.TokenMoraeBounded | src/syllable-counter.service.ts:57-64 | the token sum is at most the total length of the converted readings |
| Syllables.WhitespaceOnlyCountsZero | src/syllable-counter.service.ts:48-50 | empty or whitespace-only text counts 0 once the tokenizer is ready |
| Syllables.CountIgnoresWhitespace | src/syllable-counter.service.ts:48-54 | a text and its whitespace-stripped form have the same count |
| Syllables.AnalyzerFailureCountsZero | src/syllable-counter.service.ts:52-70 | an analyser error is caught and the count is 0 |
| Syllables.CountOfAnalysis | src/syllable-counter.service.ts:54-66 | a successful analysis gives the token sum, bounded by the readings' length |
| Syllables.ReadingFallsBackToSurface | src/syllable-counter.service.ts:59 | a token with no reading, or an empty one, is read as its surface form |
| Text.Keep | src/senryu-detector.service.ts:94-95 | a character-class deletion keeps exactly the kept characters: all remaining characters pass the test, and every passing character keeps its multiplicity |
| Cleaner.LinkLength | src/senryu-detector.service.ts:89 | the length of the longest prefix that is the scheme followed by one or more non-whitespace characters, or 0 |
| Cleaner.MentionLength | src/senryu-detector.service.ts:90-92 | the unique prefix that is the mention head, one or more digits and `>`, or 0 |
| Cleaner.EmojiTagLength | src/senryu-detector.service.ts:93 | the unique prefix `<`, optional `a`, `:name:id>` with a word-character name and a digit id, or 0 |
| Cleaner.MatchLength | src/senryu-detector.service.ts:89-93 | for each markup pattern, the longest prefix in the pattern's language (the match at that position) |
| Cleaner.ReplaceAll | src/senryu-detector.service.ts:89-93 | one global `replace`: scanning left to right, delete the match at each position and resume after it, else keep the character. `ReplaceAllIsSubsequence` and `ReplaceAllUnchangedIff` state what it does |
| Cleaner.ReplaceAllIsSubsequence | src/senryu-detector.service.ts:89-93 | each global replacement only deletes characters |
| Cleaner.ReplaceAllUnchangedIff | src/senryu-detector.service.ts:89-93 | a replacement leaves the text unchanged iff no substring is in the pattern's language |
| Cleaner.Trim | src/senryu-detector.service.ts:96 | the result is a contiguous slice `s[a..b]` of the input, every character before `a` and from `b` on is whitespace, and the result neither starts nor ends with whitespace. So exactly the leading and trailing whitespace is removed, and a text without whitespace is unchanged |
| Cleaner.CleanText | src/senryu-detector.service.ts:87-97 | the cleaned text contains no whitespace, no U+3000 and no character in the six emoji ranges |
| Cleaner.CleanTextIsSubsequence | src/senryu-detector.service.ts:87-97 | cleaning only deletes characters and never lengthens the text |
| Cleaner.CleanTextKeepsPlainText | src/senryu-detector.service.ts:87-97 | text with no markup, emoji or whitespace is returned unchanged |
| Segmenter.IsBoundary | src/senryu-detector.service.ts:108 | the break characters `、。！？!?` and line feed and carriage return |
| Segmenter.Runs | src/senryu-detector.service.ts:104-120 | the maximal boundary-free runs of the text, the reference for the buffer loop. `RunsProperties` states their shape |
| Segmenter.RunsProperties | src/senryu-detector.service.ts:104-120 | the runs are non-empty and boundary-free, join to the text with boundaries removed, and are absent iff the text is all boundaries |
| Segmenter.RunsOfPlainText | src/senryu-detector.service.ts:107-120 | a non-empty text without boundaries is one segment |
| Segmenter.SegmentsOf | src/senryu-detector.service.ts:102-128 | the segment list is never empty, is `[text]` when the text has no non-boundary character, and otherwise consists of non-empty boundary-free segments that join to the text with boundaries removed |
| Segmenter.RunsFromStep | src/senryu-detector.service.ts:107-116 | reading one character moves a boundary-free character into the buffer, and a boundary emits a non-empty buffer |
| Segmenter.FlushLast | src/senryu-detector.service.ts:118-120 | a non-empty buffer left at the end is the last segment |
| Segmenter.SegmentText | src/senryu-detector.service.ts:102-128 | the buffer loop yields the reference segmentation |
| Detector.TripleLines | src/senryu-detector.service.ts:33-35 | the three Phase A lines together are segments i..k joined |
| Detector.CutLines | src/senryu-detector.service.ts:66-68 | the three Phase B lines are non-empty, have lengths fixed by the cuts and concatenate back to the text |
| Detector.CountAndCompare | src/senryu-detector.service.ts:37-41 | counting the three lines fails iff the tokenizer is not ready, else says whether they count 5, 7, 5 |
| Detector.TryTriple | src/senryu-detector.service.ts:33-41 | one Phase A candidate hits iff its lines count 5, 7, 5 |
| Detector.TryCut | src/senryu-detector.service.ts:66-74 | one Phase B candidate hits iff its lines count 5, 7, 5 |
| Detector.SearchSegments | src/senryu-detector.service.ts:30-47 | Phase A returns the lexicographically first hitting triple or none when none hits, and fails iff the tokenizer is not ready and there are at least three segments |
| Detector.SearchFromFirst | src/senryu-detector.service.ts:31-46 | for a fixed i, the first hitting (j, k), given that no earlier i hits |
| Detector.SearchFromSecond | src/senryu-detector.service.ts:32-45 | for fixed i and j, the first hitting k, given that no earlier pair hits |
| Detector.SearchCuts | src/senryu-detector.service.ts:61-82 | Phase B returns the lexicographically first hitting cut pair with 1 <= i < j < length, or none, and fails iff the tokenizer is not ready and the text has at least three characters |
| Detector.ManySegmentsNeedManyCharacters | src/senryu-detector.service.ts:30-65 | three or more segments imply three or more characters, so whenever Phase A counts, Phase B would count too |
| Detector.DetectSenryu | src/senryu-detector.service.ts:21-56 | empty cleaned text gives null; any match counts 5, 7, 5 and is Phase A's first triple, or else Phase B's first cut; null iff no triple and no cut hits; without a ready tokenizer the call fails iff the cleaned text has at least three characters |
| Detector.ThreeSegmentsFoundByPhaseA | src/senryu-detector.service.ts:30-44 | three punctuated segments that count 5, 7, 5 are found by Phase A as (0, 1, 2) |
| Detector.FirstTripleUnique | src/senryu-detector.service.ts:30-44 | the tie-break is deterministic: at most one triple is the first hit |
| Detector.FirstCutUnique | src/senryu-detector.service.ts:64-77 | at most one cut pair is the first hit |

## Left out

- Cleaner.CleanText: does not state that no markup remains, because deleting whitespace can join the pieces of new markup (`<@1 2>` becomes `<@12>`), and deleting an inner match can do the same.
- Tokenizer initialisation (`onModuleInit`, `initializeTokenizer`, the shared `initPromise`) is asynchronous dictionary loading. Its outcome is the `Tokenizer` state that the counter receives. A count that starts while loading is still pending sees the state that loading ends in.
- kuromoji's `tokenize` and wanakana's `toHiragana` are external libraries. They are function parameters of the model. `toHiragana` is taken not to throw.
- `async`/`await`, the logger calls and the Discord, HTTP, persistence and bootstrap layers are out of scope, as are the compiled `dist/` copies.
- Characters are Unicode code points. `segmentText` (`for ... of`), the emoji pass (the `u` flag) and the mora count agree with that. `substring` and `length` in Phase B count UTF-16 units, so a cut inside a surrogate pair is not modelled.
- The regular expressions are modelled pattern by pattern, not through a general regex engine. The mention and emoji patterns have at most one prefix in their language at a given position. The URL pattern's greedy `[^\s]+` takes the longest. So each pass deletes the longest prefix, which is the match the engine finds.
- "A text whose total mora count is not 17 has no match" is not stated. The analyser sees each line separately, so line counts need not add up to the count of the whole text.
