/** The senryu detector service: clean the message, try every split into
    consecutive segment groups (Phase A), then every pair of cut points in the
    continuous text (Phase B), and report the first split whose lines count
    5, 7 and 5 morae. Counting goes through `countSyllables`, which rejects
    when the tokenizer is not initialised; the detector lets that rejection
    through, so the result is a `Result` whose `Success` holds `null` as `None`. */
module Detector {
  import opened Wrappers
  import opened Text
  import opened Syllables
  import Cleaner
  import Segmenter

  datatype SenryuMatch = SenryuMatch(line1: string, line2: string, line3: string)

  /** Segment indices of a Phase A split: lines [i, j), [j, k) and [k]. */
  datatype Triple = Triple(i: nat, j: nat, k: nat)

  /** Cut offsets of a Phase B split: lines [0, i), [i, j) and [j, end). */
  datatype Cut = Cut(i: nat, j: nat)

  /** The three lines count 5, 7 and 5 morae. */
  predicate Is575(e: Engine, m: SenryuMatch) {
    && SyllableCount(e, m.line1) == Success(5)
    && SyllableCount(e, m.line2) == Success(7)
    && SyllableCount(e, m.line3) == Success(5)
  }

  /** The lines of a Phase A split; together they are the segments i..k joined. */
  function TripleLines(segs: seq<string>, i: int, j: int, k: int): (m: SenryuMatch)
    requires 0 <= i < j < k < |segs|
    ensures m.line1 + m.line2 + m.line3 == Join(segs[i..k + 1])
  {
    assert segs[i..k + 1] == segs[i..j] + segs[j..k] + [segs[k]];
    JoinAppend(segs[i..j] + segs[j..k], [segs[k]]);
    JoinAppend(segs[i..j], segs[j..k]);
    JoinSingle(segs[k]);
    SenryuMatch(Join(segs[i..j]), Join(segs[j..k]), segs[k])
  }

  predicate TripleHit(e: Engine, segs: seq<string>, i: int, j: int, k: int) {
    0 <= i < j < k < |segs| && Is575(e, TripleLines(segs, i, j, k))
  }

  /** Lexicographic order on index triples: the order Phase A visits them in. */
  predicate TripleBefore(a: int, b: int, c: int, i: int, j: int, k: int) {
    a < i || (a == i && (b < j || (b == j && c < k)))
  }

  ghost predicate IsFirstTriple(e: Engine, segs: seq<string>, i: int, j: int, k: int) {
    && TripleHit(e, segs, i, j, k)
    && forall a, b, c :: TripleBefore(a, b, c, i, j, k) ==> !TripleHit(e, segs, a, b, c)
  }

  ghost predicate NoTripleHit(e: Engine, segs: seq<string>) {
    forall i, j, k :: !TripleHit(e, segs, i, j, k)
  }

  /** The lines of a Phase B split: three non-empty pieces that together are the text. */
  function CutLines(text: string, i: int, j: int): (m: SenryuMatch)
    requires 1 <= i < j < |text|
    ensures m.line1 + m.line2 + m.line3 == text
    ensures m.line1 != [] && m.line2 != [] && m.line3 != []
    ensures |m.line1| == i && |m.line1| + |m.line2| == j
  {
    assert text[..i] + text[i..j] + text[j..] == text;
    SenryuMatch(text[..i], text[i..j], text[j..])
  }

  predicate CutHit(e: Engine, text: string, i: int, j: int) {
    1 <= i < j < |text| && Is575(e, CutLines(text, i, j))
  }

  /** Lexicographic order on cut pairs: the order Phase B visits them in. */
  predicate CutBefore(a: int, b: int, i: int, j: int) {
    a < i || (a == i && b < j)
  }

  ghost predicate IsFirstCut(e: Engine, text: string, i: int, j: int) {
    && CutHit(e, text, i, j)
    && forall a, b :: CutBefore(a, b, i, j) ==> !CutHit(e, text, a, b)
  }

  ghost predicate NoCutHit(e: Engine, text: string) {
    forall i, j :: !CutHit(e, text, i, j)
  }

  /** Count the three lines and compare with 5, 7, 5. The three calls fail
      alike: `countSyllables` checks the tokenizer before anything else. */
  method CountAndCompare(e: Engine, m: SenryuMatch) returns (r: Result<bool, string>)
    ensures r.Failure? <==> !e.tokenizer.Ready?
    ensures r.Failure? ==> r.error == CountError(e.tokenizer)
    ensures r.Success? ==> (r.value <==> Is575(e, m))
  {
    var count1 := CountSyllables(e, m.line1);
    var count2 := CountSyllables(e, m.line2);
    var count3 := CountSyllables(e, m.line3);
    if count1.Failure? {
      return Failure(count1.error);
    }
    return Success(count1.value == 5 && count2.value == 7 && count3.value == 5);
  }

  /** One candidate of Phase A: `slice(i, j)`, `slice(j, k)` and `slice(k, k + 1)`, each joined. */
  method TryTriple(e: Engine, segs: seq<string>, i: nat, j: nat, k: nat) returns (r: Result<bool, string>)
    requires i < j < k < |segs|
    ensures r.Failure? <==> !e.tokenizer.Ready?
    ensures r.Failure? ==> r.error == CountError(e.tokenizer)
    ensures r.Success? ==> (r.value <==> TripleHit(e, segs, i, j, k))
  {
    var line1 := Join(segs[i..j]);
    var line2 := Join(segs[j..k]);
    var line3 := Join(segs[k..k + 1]);
    assert segs[k..k + 1] == [segs[k]];
    JoinSingle(segs[k]);
    r := CountAndCompare(e, SenryuMatch(line1, line2, line3));
  }

  /** One candidate of Phase B: `substring(0, i)`, `substring(i, j)` and `substring(j)`. */
  method TryCut(e: Engine, text: string, i: nat, j: nat) returns (r: Result<bool, string>)
    requires 1 <= i < j < |text|
    ensures r.Failure? <==> !e.tokenizer.Ready?
    ensures r.Failure? ==> r.error == CountError(e.tokenizer)
    ensures r.Success? ==> (r.value <==> CutHit(e, text, i, j))
  {
    r := CountAndCompare(e, SenryuMatch(text[..i], text[i..j], text[j..]));
  }

  /** Phase A: indices ascending, i outermost; the first 5-7-5 split wins.
      With fewer than three segments nothing is counted. */
  method SearchSegments(e: Engine, segs: seq<string>) returns (r: Result<Option<Triple>, string>)
    ensures r.Failure? <==> !e.tokenizer.Ready? && |segs| >= 3
    ensures r.Failure? ==> r.error == CountError(e.tokenizer)
    ensures r.Success? && r.value.Some? ==> IsFirstTriple(e, segs, r.value.value.i, r.value.value.j, r.value.value.k)
    ensures r.Success? && r.value.None? ==> NoTripleHit(e, segs)
  {
    var n := |segs|;
    var i := 0;
    while i < n - 2
      invariant 0 <= i && (n >= 3 ==> i <= n - 2)
      invariant i > 0 ==> e.tokenizer.Ready?
      invariant forall a, b, c :: a < i ==> !TripleHit(e, segs, a, b, c)
    {
      var found := SearchFromFirst(e, segs, i);
      if found.Failure? {
        return Failure(found.error);
      }
      if found.value.Some? {
        return Success(Some(found.value.value));
      }
      i := i + 1;
    }
    return Success(None);
  }

  /** The two inner loops of Phase A for a fixed first segment `i`. */
  method SearchFromFirst(e: Engine, segs: seq<string>, i: nat) returns (r: Result<Option<Triple>, string>)
    requires i < |segs| - 2
    requires forall a, b, c :: a < i ==> !TripleHit(e, segs, a, b, c)
    ensures r.Failure? <==> !e.tokenizer.Ready?
    ensures r.Failure? ==> r.error == CountError(e.tokenizer)
    ensures r.Success? && r.value.Some? ==> IsFirstTriple(e, segs, r.value.value.i, r.value.value.j, r.value.value.k)
    ensures r.Success? && r.value.None? ==> forall b, c :: !TripleHit(e, segs, i, b, c)
  {
    var n := |segs|;
    var j := i + 1;
    while j < n - 1
      invariant i + 1 <= j <= n - 1
      invariant j > i + 1 ==> e.tokenizer.Ready?
      invariant forall b, c :: b < j ==> !TripleHit(e, segs, i, b, c)
    {
      var found := SearchFromSecond(e, segs, i, j);
      if found.Failure? {
        return Failure(found.error);
      }
      if found.value.Some? {
        return Success(Some(Triple(i, j, found.value.value)));
      }
      forall b, c | b < j + 1
        ensures !TripleHit(e, segs, i, b, c)
      {
        if b == j {
          assert !TripleHit(e, segs, i, j, c);
        }
      }
      j := j + 1;
    }
    return Success(None);
  }

  /** The innermost loop of Phase A for fixed `i` and `j`: the first `k` that hits. */
  method SearchFromSecond(e: Engine, segs: seq<string>, i: nat, j: nat) returns (r: Result<Option<nat>, string>)
    requires i < j < |segs| - 1
    requires forall a, b, c :: a < i ==> !TripleHit(e, segs, a, b, c)
    requires forall b, c :: b < j ==> !TripleHit(e, segs, i, b, c)
    ensures r.Failure? <==> !e.tokenizer.Ready?
    ensures r.Failure? ==> r.error == CountError(e.tokenizer)
    ensures r.Success? && r.value.Some? ==> IsFirstTriple(e, segs, i, j, r.value.value)
    ensures r.Success? && r.value.None? ==> forall c :: !TripleHit(e, segs, i, j, c)
  {
    var n := |segs|;
    var k := j + 1;
    while k < n
      invariant j + 1 <= k <= n
      invariant k > j + 1 ==> e.tokenizer.Ready?
      invariant forall c :: c < k ==> !TripleHit(e, segs, i, j, c)
    {
      var hit := TryTriple(e, segs, i, j, k);
      if hit.Failure? {
        return Failure(hit.error);
      }
      if hit.value {
        return Success(Some(k));
      }
      assert !TripleHit(e, segs, i, j, k);
      k := k + 1;
    }
    return Success(None);
  }

  /** Phase B: cut offsets ascending, the first cut outermost; the first 5-7-5
      split wins. With fewer than three characters nothing is counted. */
  method SearchCuts(e: Engine, text: string) returns (r: Result<Option<Cut>, string>)
    ensures r.Failure? <==> !e.tokenizer.Ready? && |text| >= 3
    ensures r.Failure? ==> r.error == CountError(e.tokenizer)
    ensures r.Success? && r.value.Some? ==> IsFirstCut(e, text, r.value.value.i, r.value.value.j)
    ensures r.Success? && r.value.None? ==> NoCutHit(e, text)
  {
    var maxLength := |text|;
    var i := 1;
    while i < maxLength - 1
      invariant 1 <= i && (maxLength >= 3 ==> i <= maxLength - 1)
      invariant i > 1 ==> e.tokenizer.Ready?
      invariant forall a, b :: a < i ==> !CutHit(e, text, a, b)
    {
      var j := i + 1;
      while j < maxLength
        invariant i + 1 <= j <= maxLength
        invariant j > i + 1 ==> e.tokenizer.Ready?
        invariant forall a, b :: a < i ==> !CutHit(e, text, a, b)
        invariant forall b :: b < j ==> !CutHit(e, text, i, b)
      {
        var hit := TryCut(e, text, i, j);
        if hit.Failure? {
          return Failure(hit.error);
        }
        if hit.value {
          return Success(Some(Cut(i, j)));
        }
        assert !CutHit(e, text, i, j);
        j := j + 1;
      }
      i := i + 1;
    }
    return Success(None);
  }

  /** The match Phase A returns for `segs`. */
  ghost predicate FoundBySegments(e: Engine, segs: seq<string>, m: SenryuMatch) {
    exists i, j, k :: IsFirstTriple(e, segs, i, j, k) && m == TripleLines(segs, i, j, k)
  }

  /** The match Phase B returns for `text`. */
  ghost predicate FoundByCuts(e: Engine, text: string, m: SenryuMatch) {
    exists i, j :: IsFirstCut(e, text, i, j) && m == CutLines(text, i, j)
  }

  lemma {:induction false} JoinOfNonEmptyParts(parts: seq<string>)
    requires forall k :: 0 <= k < |parts| ==> parts[k] != []
    ensures |Join(parts)| >= |parts|
    decreases |parts|
  {
    if parts != [] {
      JoinOfNonEmptyParts(parts[1..]);
    }
  }

  /** Three or more segments need three or more characters, so whenever Phase A
      counts anything, Phase B would count too. */
  lemma ManySegmentsNeedManyCharacters(text: string)
    requires |Segmenter.SegmentsOf(text)| >= 3
    ensures |text| >= 3
  {
    var segs := Segmenter.SegmentsOf(text);
    JoinOfNonEmptyParts(segs);
    KeepIsSubsequence(text, Segmenter.IsContent);
    SubsequenceLength(Keep(text, Segmenter.IsContent), text);
  }

  /** `detectSenryu`. */
  method DetectSenryu(e: Engine, text: string) returns (r: Result<Option<SenryuMatch>, string>)
    ensures r.Failure? ==> r.error == CountError(e.tokenizer)
    ensures e.tokenizer.Ready? ==> r.Success?
    ensures !e.tokenizer.Ready? ==> (r.Failure? <==> |Cleaner.CleanText(text)| >= 3)
    ensures Cleaner.CleanText(text) == [] ==> r == Success(None)
    ensures r.Success? && r.value.Some? ==> Is575(e, r.value.value)
    ensures r.Success? ==>
      var clean := Cleaner.CleanText(text);
      (r.value.None? <==> NoTripleHit(e, Segmenter.SegmentsOf(clean)) && NoCutHit(e, clean))
    ensures r.Success? && r.value.Some? ==>
      var clean := Cleaner.CleanText(text);
      || FoundBySegments(e, Segmenter.SegmentsOf(clean), r.value.value)
      || (NoTripleHit(e, Segmenter.SegmentsOf(clean)) && FoundByCuts(e, clean, r.value.value))
  {
    var clean := Cleaner.CleanText(text);
    if clean == [] {
      assert Segmenter.SegmentsOf(clean) == [clean];
      return Success(None);
    }
    var segments := Segmenter.SegmentText(clean);
    if |segments| >= 3 {
      ManySegmentsNeedManyCharacters(clean);
    }
    var phaseA := SearchSegments(e, segments);
    if phaseA.Failure? {
      return Failure(phaseA.error);
    }
    if phaseA.value.Some? {
      var t := phaseA.value.value;
      var m := TripleLines(segments, t.i, t.j, t.k);
      assert FoundBySegments(e, segments, m);
      return Success(Some(m));
    }
    var phaseB := SearchCuts(e, clean);
    if phaseB.Failure? {
      return Failure(phaseB.error);
    }
    if phaseB.value.Some? {
      var c := phaseB.value.value;
      var m := CutLines(clean, c.i, c.j);
      assert FoundByCuts(e, clean, m);
      return Success(Some(m));
    }
    return Success(None);
  }

  /** A text punctuated into exactly three segments that count 5, 7 and 5 is
      found by Phase A, as those three segments. */
  lemma ThreeSegmentsFoundByPhaseA(e: Engine, segs: seq<string>)
    requires |segs| == 3
    requires Is575(e, SenryuMatch(segs[0], segs[1], segs[2]))
    ensures IsFirstTriple(e, segs, 0, 1, 2)
    ensures FoundBySegments(e, segs, SenryuMatch(segs[0], segs[1], segs[2]))
  {
    assert segs[0..1] == [segs[0]];
    assert segs[1..2] == [segs[1]];
    JoinSingle(segs[0]);
    JoinSingle(segs[1]);
    assert TripleLines(segs, 0, 1, 2) == SenryuMatch(segs[0], segs[1], segs[2]);
  }

  /** The tie-break is deterministic: at most one triple is the first hit. */
  lemma FirstTripleUnique(e: Engine, segs: seq<string>, i: int, j: int, k: int, i': int, j': int, k': int)
    requires IsFirstTriple(e, segs, i, j, k) && IsFirstTriple(e, segs, i', j', k')
    ensures i == i' && j == j' && k == k'
  {
  }

  /** At most one cut pair is the first hit. */
  lemma FirstCutUnique(e: Engine, text: string, i: int, j: int, i': int, j': int)
    requires IsFirstCut(e, text, i, j) && IsFirstCut(e, text, i', j')
    ensures i == i' && j == j'
  {
  }
}
