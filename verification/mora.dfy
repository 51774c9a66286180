/** The per-character mora counter of the syllable counter service
    (`countMoraeInHiragana` and `isJapaneseCharacter`). Characters are Unicode
    scalar values; the TypeScript loop indexes UTF-16 code units, which gives the same
    count because no surrogate unit is kana or small kana. */
module Mora {

  /** The nine small kana that are skipped, in hiragana and then katakana form. */
  const SmallKana: seq<char> :=
    ['ゃ', 'ゅ', 'ょ', 'ぁ', 'ぃ', 'ぅ', 'ぇ', 'ぉ', 'ゎ',
     'ャ', 'ュ', 'ョ', 'ァ', 'ィ', 'ゥ', 'ェ', 'ォ', 'ヮ']

  predicate IsSmallKana(c: char) {
    c in SmallKana
  }

  /** Hiragana block U+3040..U+309F or katakana block U+30A0..U+30FF. */
  predicate IsJapaneseCharacter(c: char) {
    var code := c as int;
    (0x3040 <= code <= 0x309F) || (0x30A0 <= code <= 0x30FF)
  }

  /** A character that contributes one mora. */
  predicate IsMora(c: char) {
    !IsSmallKana(c) && IsJapaneseCharacter(c)
  }

  /** Morae of `s`: one per kana that is not small kana. */
  function MoraCount(s: string): (r: nat)
    decreases |s|
  {
    if s == [] then 0
    else (if IsMora(s[0]) then 1 else 0) + MoraCount(s[1..])
  }

  /** The loop of `countMoraeInHiragana`: small kana are skipped, every other
      character adds one exactly when it lies in the two kana blocks. */
  method CountMoraeInHiragana(text: string) returns (count: nat)
    ensures count == |MoraPositions(text)|
    ensures count <= |text|
  {
    count := 0;
    var i := 0;
    while i < |text|
      invariant 0 <= i <= |text|
      invariant count == MoraCount(text[..i])
    {
      var c := text[i];
      MoraCountAppend(text[..i], [c]);
      assert text[..i + 1] == text[..i] + [c];
      if IsSmallKana(c) {
        i := i + 1;
        continue;
      }
      if IsJapaneseCharacter(c) {
        count := count + 1;
      }
      i := i + 1;
    }
    assert text[..i] == text;
    MoraCountIsPositionCount(text);
    MoraCountBounded(text);
  }

  /** Positions of `s` holding a character that counts: the reference
      definition of the mora count. */
  function MoraPositions(s: string): set<int> {
    set i | 0 <= i < |s| && IsMora(s[i])
  }

  /** The count is additive over concatenation. */
  lemma {:induction false} MoraCountAppend(a: string, b: string)
    ensures MoraCount(a + b) == MoraCount(a) + MoraCount(b)
    decreases |a|
  {
    if a == [] {
      assert a + b == b;
    } else {
      assert (a + b)[0] == a[0];
      assert (a + b)[1..] == a[1..] + b;
      MoraCountAppend(a[1..], b);
    }
  }

  lemma {:induction false} MoraCountBounded(s: string)
    ensures MoraCount(s) <= |s|
    decreases |s|
  {
    if s != [] {
      MoraCountBounded(s[1..]);
    }
  }

  /** The recursive count agrees with counting the positions that hold a mora. */
  lemma {:induction false} MoraCountIsPositionCount(s: string)
    ensures MoraCount(s) == |MoraPositions(s)|
    decreases |s|
  {
    if s == [] {
      assert MoraPositions(s) == {};
    } else {
      var p := s[..|s| - 1];
      var c := s[|s| - 1];
      assert s == p + [c];
      MoraCountIsPositionCount(p);
      MoraCountAppend(p, [c]);
      assert [c][1..] == [];
      if IsMora(c) {
        assert MoraPositions(s) == MoraPositions(p) + {|p|};
      } else {
        assert MoraPositions(s) == MoraPositions(p);
      }
    }
  }

  /** Small kana contribute nothing wherever they stand, including at the start. */
  lemma {:induction false} SmallKanaOnlyCountsZero(s: string)
    requires forall i :: 0 <= i < |s| ==> IsSmallKana(s[i])
    ensures MoraCount(s) == 0
    decreases |s|
  {
    if s != [] {
      SmallKanaOnlyCountsZero(s[1..]);
    }
  }

  /** A single character counts one exactly when it is kana and not small kana. */
  lemma SingleCharacterCount(c: char)
    ensures MoraCount([c]) == 1 <==> (0x3040 <= c as int <= 0x30FF && !IsSmallKana(c))
    ensures MoraCount([c]) <= 1
  {
    assert [c][1..] == [];
  }

  /** Every skipped character lies inside the kana blocks, so the skip matters. */
  lemma SmallKanaAreKana(c: char)
    requires IsSmallKana(c)
    ensures IsJapaneseCharacter(c) && MoraCount([c]) == 0
  {
    assert [c][1..] == [];
  }

  /** A kana that is not small kana is one mora on its own. */
  lemma KanaCountsOne(c: char)
    requires IsJapaneseCharacter(c) && !IsSmallKana(c)
    ensures MoraCount([c]) == 1
  {
    assert [c][1..] == [];
  }

  /** The moraic nasal and the geminate mark each count as one mora, in both scripts,
      and so does the long-vowel mark. */
  lemma NasalAndGeminateCountOne()
    ensures MoraCount("ん") == 1 && MoraCount("っ") == 1
    ensures MoraCount("ン") == 1 && MoraCount("ッ") == 1
    ensures MoraCount("ー") == 1
  {
    KanaCountsOne('ん');
    KanaCountsOne('っ');
    KanaCountsOne('ン');
    KanaCountsOne('ッ');
    KanaCountsOne('ー');
  }

  /** A yōon such as "きゃ" is one mora, and "きゃっ" two. */
  lemma ContractedSoundCount()
    ensures MoraCount("きゃ") == 1
    ensures MoraCount("きゃっ") == 2
  {
    MoraCountAppend("き", "ゃ");
    MoraCountAppend("きゃ", "っ");
    SingleCharacterCount('き');
    SingleCharacterCount('ゃ');
    SingleCharacterCount('っ');
    assert "きゃ" == "き" + "ゃ";
    assert "きゃっ" == "きゃ" + "っ";
  }
}
