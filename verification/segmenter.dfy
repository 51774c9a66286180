/** The detector's `segmentText`: split at punctuation and line breaks,
    dropping the boundary characters and empty pieces, with the whole text as
    the single segment when no piece is left. (`for ... of` iterates code
    points, which are the characters of this model.) */
module Segmenter {
  import opened Text

  /** The boundary set `、。！？!?\n\r`. */
  predicate IsBoundary(c: char) {
    c in "、。！？!?\n\r"
  }

  predicate IsContent(c: char) {
    !IsBoundary(c)
  }

  predicate AllContent(s: string) {
    forall i :: 0 <= i < |s| ==> IsContent(s[i])
  }

  /** The maximal runs of non-boundary characters of `s`, left to right. */
  function Runs(s: string): seq<string>
    decreases |s|
  {
    if s == [] then []
    else if IsBoundary(s[0]) then Runs(s[1..])
    else
      var n := Span(s, IsContent);
      [s[..n]] + Runs(s[n..])
  }

  /** Every run is non-empty and boundary-free, together the runs are `s` with
      the boundaries deleted, and there is none exactly when `s` is all
      boundaries. */
  lemma {:induction false} RunsProperties(s: string)
    ensures forall k :: 0 <= k < |Runs(s)| ==> Runs(s)[k] != [] && AllContent(Runs(s)[k])
    ensures Join(Runs(s)) == Keep(s, IsContent)
    ensures Runs(s) == [] <==> forall i :: 0 <= i < |s| ==> IsBoundary(s[i])
    decreases |s|
  {
    if s == [] {
    } else if IsBoundary(s[0]) {
      RunsProperties(s[1..]);
      assert forall i :: 0 < i < |s| ==> s[i] == s[1..][i - 1];
    } else {
      var n := Span(s, IsContent);
      RunsProperties(s[n..]);
      assert s == s[..n] + s[n..];
      KeepAppend(s[..n], s[n..], IsContent);
      KeepIdentity(s[..n], IsContent);
      var rest := Runs(s[n..]);
      assert Runs(s) == [s[..n]] + rest;
      assert Join(Runs(s)) == s[..n] + Join(rest) by {
        assert ([s[..n]] + rest)[1..] == rest;
      }
      forall k | 0 <= k < |Runs(s)|
        ensures Runs(s)[k] != [] && AllContent(Runs(s)[k])
      {
        if k > 0 {
          assert Runs(s)[k] == rest[k - 1];
        }
      }
    }
  }

  /** A text without boundaries is one run. */
  lemma RunsOfPlainText(s: string)
    requires s != [] && AllContent(s)
    ensures Runs(s) == [s]
  {
    assert Span(s, IsContent) == |s|;
    assert s[..|s|] == s;
    assert s[|s|..] == [];
  }

  /** `segmentText`'s result: the runs, or the whole text when there is none. */
  function SegmentsOf(text: string): (r: seq<string>)
    ensures |r| >= 1
    ensures (forall i :: 0 <= i < |text| ==> IsBoundary(text[i])) ==> r == [text]
    ensures (exists i :: 0 <= i < |text| && IsContent(text[i])) ==>
      && (forall k :: 0 <= k < |r| ==> r[k] != [] && AllContent(r[k]))
      && Join(r) == Keep(text, IsContent)
    ensures text != [] && AllContent(text) ==> r == [text]
  {
    RunsProperties(text);
    assert text != [] && AllContent(text) ==> Runs(text) == [text] by {
      if text != [] && AllContent(text) {
        RunsOfPlainText(text);
      }
    }
    var runs := Runs(text);
    if runs == [] then [text] else runs
  }

  /** The runs still to come when `current` has been read but not emitted and
      `rest` is unread. */
  function RunsFrom(current: string, rest: string): seq<string> {
    if current == [] then Runs(rest)
    else
      var n := Span(rest, IsContent);
      [current + rest[..n]] + Runs(rest[n..])
  }

  /** One character of the scan, as `segmentText` processes it. */
  lemma RunsFromStep(current: string, rest: string)
    requires rest != []
    ensures IsBoundary(rest[0]) && current == [] ==> RunsFrom(current, rest) == RunsFrom([], rest[1..])
    ensures IsBoundary(rest[0]) && current != [] ==> RunsFrom(current, rest) == [current] + RunsFrom([], rest[1..])
    ensures IsContent(rest[0]) ==> RunsFrom(current, rest) == RunsFrom(current + [rest[0]], rest[1..])
  {
    if IsContent(rest[0]) {
      var n := Span(rest, IsContent);
      assert n == 1 + Span(rest[1..], IsContent);
      assert rest[1..][n - 1..] == rest[n..];
      assert [rest[0]] + rest[1..][..n - 1] == rest[..n];
      assert current + [rest[0]] + rest[1..][..n - 1] == current + rest[..n];
      var tail := Span(rest[1..], IsContent);
      var extended := current + [rest[0]];
      assert RunsFrom(extended, rest[1..]) == [extended + rest[1..][..tail]] + Runs(rest[1..][tail..]);
      if current == [] {
        assert Runs(rest) == [rest[..n]] + Runs(rest[n..]);
        assert extended == [rest[0]];
      }
    } else if current != [] {
      assert rest[..0] == [];
      assert current + rest[..0] == current;
      assert rest[0..] == rest;
    }
  }

  /** The end of the scan: a non-empty buffer is the last run. */
  lemma FlushLast(segments: seq<string>, current: string, text: string)
    requires segments + RunsFrom(current, []) == Runs(text)
    ensures (if current != [] then segments + [current] else segments) == Runs(text)
  {
    assert Runs([]) == [];
    if current != [] {
      assert current + [][..0] == current;
    }
  }

  /** The loop of `segmentText`: characters accumulate in `current`; a boundary
      emits a non-empty buffer and is dropped. */
  method SegmentText(text: string) returns (segments: seq<string>)
    ensures segments == SegmentsOf(text)
  {
    segments := [];
    var current := "";
    var i := 0;
    while i < |text|
      invariant 0 <= i <= |text|
      invariant segments + RunsFrom(current, text[i..]) == Runs(text)
    {
      var c := text[i];
      ghost var rest := text[i..];
      assert rest[0] == c && rest[1..] == text[i + 1..];
      ghost var before := segments + RunsFrom(current, rest);
      if IsBoundary(c) {
        if current != [] {
          RunsFromStep(current, rest);
          assert before == (segments + [current]) + RunsFrom([], text[i + 1..]);
          segments := segments + [current];
          current := "";
        } else {
          RunsFromStep(current, rest);
        }
      } else {
        RunsFromStep(current, rest);
        current := current + [c];
      }
      i := i + 1;
    }
    assert text[i..] == [];
    FlushLast(segments, current, text);
    if current != [] {
      segments := segments + [current];
    }
    if |segments| == 0 {
      segments := [text];
    }
  }
}
