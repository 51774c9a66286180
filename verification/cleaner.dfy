/** The detector's `cleanText`: five global regex deletions (links, user,
    channel and role mentions, custom emoji), a pictographic-emoji deletion,
    a whitespace deletion and a final `trim`.

    The mention and emoji patterns have at most one prefix in their language
    at a given position; the link pattern's greedy `[^\s]+` takes the longest
    of its prefixes. So a global `replace` deletes, scanning left to right,
    the longest prefix in the pattern's language at each position and resumes
    after it. `MatchLength` computes that prefix and is proved to be the
    longest prefix in the language; `ReplaceAll` does the scan. */
module Cleaner {
  import opened Text

  /** The markup patterns, in the order `cleanText` applies them:
      `https?:\/\/[^\s]+`, `<@!?\d+>`, `<#\d+>`, `<@&\d+>`, `<a?:[a-zA-Z0-9_]+:\d+>`. */
  datatype Markup = Url | UserMention | ChannelMention | RoleMention | CustomEmoji

  predicate IsDigit(c: char) {
    '0' <= c <= '9'
  }

  /** `[a-zA-Z0-9_]` */
  predicate IsWordChar(c: char) {
    ('a' <= c <= 'z') || ('A' <= c <= 'Z') || IsDigit(c) || c == '_'
  }

  predicate AllDigits(s: string) {
    forall i :: 0 <= i < |s| ==> IsDigit(s[i])
  }

  predicate AllWordChars(s: string) {
    forall i :: 0 <= i < |s| ==> IsWordChar(s[i])
  }

  predicate AllNotWhitespace(s: string) {
    forall i :: 0 <= i < |s| ==> !IsJsWhitespace(s[i])
  }

  predicate StartsWith(s: string, prefix: string) {
    |prefix| <= |s| && s[..|prefix|] == prefix
  }

  /** `w` is `scheme` followed by one or more non-whitespace characters. */
  predicate IsLink(w: string, scheme: string) {
    |w| > |scheme| && StartsWith(w, scheme) && AllNotWhitespace(w[|scheme|..])
  }

  /** `w` is `head`, one or more decimal digits and `>`. */
  predicate IsMention(w: string, head: string) {
    |w| > |head| + 1 && StartsWith(w, head) && w[|w| - 1] == '>' && AllDigits(w[|head|..|w| - 1])
  }

  /** `w` is `<`, `w[1..q]`, then `:name:id>` with a non-empty word-character
      name and a non-empty decimal id. */
  predicate IsEmojiTag(w: string, q: nat) {
    && |w| > q && w[0] == '<' && w[q] == ':' && w[|w| - 1] == '>'
    && exists k :: q + 1 < k < |w| - 2 && IsEmojiSplit(w, q, k)
  }

  /** `w[q+1..k]` is the emoji name and `w[k+1..|w|-1]` its id. */
  predicate IsEmojiSplit(w: string, q: nat, k: int)
    requires q + 1 < k < |w| - 2
  {
    w[k] == ':' && AllWordChars(w[q + 1..k]) && AllDigits(w[k + 1..|w| - 1])
  }

  /** The language of each markup pattern. */
  predicate InLanguage(p: Markup, w: string) {
    match p
    case Url => IsLink(w, "https://") || IsLink(w, "http://")
    case UserMention => IsMention(w, "<@") || IsMention(w, "<@!")
    case ChannelMention => IsMention(w, "<#")
    case RoleMention => IsMention(w, "<@&")
    case CustomEmoji => IsEmojiTag(w, 1) || (|w| > 1 && w[1] == 'a' && IsEmojiTag(w, 2))
  }

  /** `[^\s]+` after the scheme; 0 when there is no such character. */
  function LinkLength(s: string, scheme: string): (m: nat)
    ensures m <= |s|
    ensures m > 0 ==> IsLink(s[..m], scheme)
    ensures forall len :: 0 < len <= |s| && IsLink(s[..len], scheme) ==> len <= m
  {
    if !StartsWith(s, scheme) then 0
    else
      var run := Span(s[|scheme|..], IsNotJsWhitespace);
      if run == 0 then 0
      else
        var m := |scheme| + run;
        assert s[..m][..|scheme|] == scheme;
        assert forall i :: 0 <= i < run ==> s[..m][|scheme|..][i] == s[|scheme|..][i];
        m
  }

  /** `head`, `\d+`, `>`; 0 when the text does not start that way. */
  function MentionLength(s: string, head: string): (m: nat)
    ensures m <= |s|
    ensures m > 0 ==> IsMention(s[..m], head)
    ensures forall len :: 0 < len <= |s| && IsMention(s[..len], head) ==> len == m
  {
    if !StartsWith(s, head) then 0
    else
      var digits := Span(s[|head|..], IsDigit);
      var close := |head| + digits;
      if digits > 0 && close < |s| && s[close] == '>' then
        var m := close + 1;
        assert s[..m][..|head|] == s[..|head|];
        assert s[..m][|head|..m - 1] == s[|head|..][..digits];
        assert forall n :: 0 < n <= |s| && IsMention(s[..n], head) ==> n == m by {
          forall n | 0 < n <= |s| && IsMention(s[..n], head)
            ensures n == m
          {
            MentionDigitsAre(s, head, n, digits);
          }
        }
        m
      else
        assert forall n :: 0 < n <= |s| && IsMention(s[..n], head) ==> false by {
          forall n | 0 < n <= |s| && IsMention(s[..n], head)
            ensures false
          {
            MentionDigitsAre(s, head, n, digits);
          }
        }
        0
  }

  /** A mention prefix of length `n` has exactly `n - |head| - 1` digits, the
      maximal digit run after `head`. */
  lemma MentionDigitsAre(s: string, head: string, n: nat, digits: nat)
    requires StartsWith(s, head) && 0 < n <= |s| && IsMention(s[..n], head)
    requires digits == Span(s[|head|..], IsDigit)
    ensures digits == n - 1 - |head| && s[n - 1] == '>'
  {
    var w := s[..n];
    var digitRun := s[|head|..];
    assert |w| == n;
    assert AllDigits(w[|head|..n - 1]);
    forall i | 0 <= i < n - 1 - |head|
      ensures IsDigit(digitRun[i])
    {
      assert IsDigit(w[|head|..n - 1][i]);
      assert w[|head|..n - 1][i] == digitRun[i];
    }
    assert s[|head|..][n - 1 - |head|] == w[|w| - 1];
  }

  /** `:`, `[a-zA-Z0-9_]+`, `:`, `\d+`, `>` from position `q` of a text that
      starts with `<`; 0 when the text does not continue that way. */
  function EmojiTagLength(s: string, q: nat): (m: nat)
    requires |s| > 0 && s[0] == '<'
    ensures m <= |s|
    ensures m > 0 ==> IsEmojiTag(s[..m], q)
    ensures forall len :: 0 < len <= |s| && IsEmojiTag(s[..len], q) ==> len == m
  {
    EmojiTagDetermined(s, q);
    EmojiTagEndShape(s, q);
    var m := EmojiTagEnd(s, q);
    if m > 0 then EmojiTagFromShape(s, q, m); m else 0
  }

  /** Where the scan for `:name:id>` from position `q` stops: one past the
      `>`, or 0 when the text does not continue that way. */
  function EmojiTagEnd(s: string, q: nat): nat {
    if q >= |s| || s[q] != ':' then 0
    else
      var name := Span(s[q + 1..], IsWordChar);
      var k := q + 1 + name;
      if name == 0 || k >= |s| || s[k] != ':' then 0
      else
        var id := Span(s[k + 1..], IsDigit);
        var close := k + 1 + id;
        if id == 0 || close >= |s| || s[close] != '>' then 0 else close + 1
  }

  /** The scan stops exactly where `EmojiTagShape` says a tag ends. */
  lemma EmojiTagEndShape(s: string, q: nat)
    ensures EmojiTagEnd(s, q) <= |s|
    ensures EmojiTagEnd(s, q) > 0 ==> EmojiTagShape(s, q, EmojiTagEnd(s, q))
    ensures forall n :: EmojiTagShape(s, q, n) ==> n == EmojiTagEnd(s, q)
  {
  }

  /** The converse of `EmojiTagDetermined`: maximal runs in the right places
      make an emoji tag. */
  lemma EmojiTagFromShape(s: string, q: nat, m: nat)
    requires |s| > 0 && s[0] == '<' && EmojiTagShape(s, q, m)
    ensures IsEmojiTag(s[..m], q)
  {
    var name := Span(s[q + 1..], IsWordChar);
    var k := q + 1 + name;
    var id := Span(s[k + 1..], IsDigit);
    var w := s[..m];
    assert w[q + 1..k] == s[q + 1..][..name];
    assert w[k + 1..m - 1] == s[k + 1..][..id];
    assert IsEmojiSplit(w, q, k);
  }

  /** What an emoji tag of length `n` at the start of `s` forces: the name and
      the id are the maximal runs of their character classes. */
  predicate EmojiTagShape(s: string, q: nat, n: nat) {
    && q < |s| && s[q] == ':'
    && var name := Span(s[q + 1..], IsWordChar);
    && name > 0 && q + 1 + name < |s| && s[q + 1 + name] == ':'
    && var id := Span(s[q + 2 + name..], IsDigit);
    && id > 0 && n == q + 3 + name + id && n <= |s| && s[n - 1] == '>'
  }

  lemma EmojiTagDetermined(s: string, q: nat)
    ensures forall n :: 0 < n <= |s| && IsEmojiTag(s[..n], q) ==> EmojiTagShape(s, q, n)
  {
    forall n | 0 < n <= |s| && IsEmojiTag(s[..n], q)
      ensures EmojiTagShape(s, q, n)
    {
      var k :| q + 1 < k < n - 2 && IsEmojiSplit(s[..n], q, k);
      EmojiSplitDetermined(s, q, n, k);
    }
  }

  lemma EmojiSplitDetermined(s: string, q: nat, n: nat, k: int)
    requires 0 < n <= |s| && q + 1 < k < n - 2
    requires s[..n][q] == ':' && s[..n][n - 1] == '>'
    requires IsEmojiSplit(s[..n], q, k)
    ensures EmojiTagShape(s, q, n)
  {
    var w := s[..n];
    var nameRun := s[q + 1..];
    var idRun := s[k + 1..];
    forall i | 0 <= i < k - q - 1
      ensures IsWordChar(nameRun[i])
    {
      assert w[q + 1..k][i] == nameRun[i];
    }
    assert nameRun[k - q - 1] == w[k];
    assert Span(nameRun, IsWordChar) == k - q - 1;
    assert |w| == n;
    assert AllDigits(w[k + 1..n - 1]);
    forall i | 0 <= i < n - 2 - k
      ensures IsDigit(idRun[i])
    {
      assert IsDigit(w[k + 1..n - 1][i]);
      assert w[k + 1..n - 1][i] == idRun[i];
    }
    assert idRun[n - 2 - k] == w[n - 1];
    assert Span(idRun, IsDigit) == n - 2 - k;
  }

  /** The longest prefix of `s` in the language of `p` (0 if there is none):
      what the pattern matches when tried at the start of `s`. Where a pattern
      has an optional character, the form with it is tried first, as the
      regex engine does. */
  function MatchLength(p: Markup, s: string): (m: nat)
    ensures m <= |s|
    ensures m > 0 ==> InLanguage(p, s[..m])
    ensures forall len :: 0 < len <= |s| && InLanguage(p, s[..len]) ==> len <= m
  {
    match p
    case Url =>
      var secure := LinkLength(s, "https://");
      if secure > 0 then
        SecureLinkExcludesPlain(s);
        secure
      else LinkLength(s, "http://")
    case UserMention =>
      var bang := MentionLength(s, "<@!");
      if bang > 0 then
        NicknameMentionExcludesPlain(s);
        bang
      else MentionLength(s, "<@")
    case ChannelMention => MentionLength(s, "<#")
    case RoleMention => MentionLength(s, "<@&")
    case CustomEmoji =>
      if s == [] || s[0] != '<' then 0
      else if |s| > 1 && s[1] == 'a' then
        assert forall n :: 0 < n <= |s| && IsEmojiTag(s[..n], 1) ==> false;
        EmojiTagLength(s, 2)
      else
        EmojiTagLength(s, 1)
  }

  /** Where an `https://` link starts, no `http://` link does. */
  lemma SecureLinkExcludesPlain(s: string)
    requires LinkLength(s, "https://") > 0
    ensures forall n :: 0 < n <= |s| ==> !IsLink(s[..n], "http://")
  {
    var secure := LinkLength(s, "https://");
    assert s[4] == 's' by {
      assert s[..secure][..8][4] == 's';
    }
    assert forall n :: 0 < n <= |s| && IsLink(s[..n], "http://") ==> s[..n][..7][4] == s[4];
  }

  /** Where a `<@!` mention starts, no `<@` mention does. */
  lemma NicknameMentionExcludesPlain(s: string)
    requires MentionLength(s, "<@!") > 0
    ensures forall n :: 0 < n <= |s| ==> !IsMention(s[..n], "<@")
  {
    var bang := MentionLength(s, "<@!");
    assert s[2] == '!' by {
      assert s[..bang][..3][2] == '!';
    }
    assert forall n :: 0 < n <= |s| && IsMention(s[..n], "<@") ==> s[..n][2..n - 1][0] == s[2];
  }

  /** `s.replace(pattern, '')` for a global pattern: at each position, delete
      the match there if there is one and resume after it, otherwise keep the
      character and move on. */
  function ReplaceAll(p: Markup, s: string): string
    decreases |s|
  {
    if s == [] then []
    else
      var m := MatchLength(p, s);
      if m > 0 then ReplaceAll(p, s[m..]) else [s[0]] + ReplaceAll(p, s[1..])
  }

  /** No substring of `s` is in the language of `p`. */
  predicate NoMarkup(p: Markup, s: string) {
    forall i, n :: 0 <= i < n <= |s| ==> !InLanguage(p, s[i..n])
  }

  /** A pass only deletes characters. */
  lemma {:induction false} ReplaceAllIsSubsequence(p: Markup, s: string)
    ensures IsSubsequence(ReplaceAll(p, s), s)
    decreases |s|
  {
    if s != [] {
      var m := MatchLength(p, s);
      if m > 0 {
        ReplaceAllIsSubsequence(p, s[m..]);
        SubsequenceOfSuffix(ReplaceAll(p, s[m..]), s, m);
      } else {
        ReplaceAllIsSubsequence(p, s[1..]);
        SubsequenceCons(s[0], ReplaceAll(p, s[1..]), s[1..]);
        assert [s[0]] + s[1..] == s;
      }
    }
  }

  lemma ReplaceAllLength(p: Markup, s: string)
    ensures |ReplaceAll(p, s)| <= |s|
  {
    ReplaceAllIsSubsequence(p, s);
    SubsequenceLength(ReplaceAll(p, s), s);
  }

  /** A text with a substring in the pattern's language loses characters. */
  lemma {:induction false} ReplaceAllShrinks(p: Markup, s: string, i: nat, n: nat)
    requires i < n <= |s| && InLanguage(p, s[i..n])
    ensures |ReplaceAll(p, s)| < |s|
    decreases |s|
  {
    var m := MatchLength(p, s);
    if m > 0 {
      ReplaceAllLength(p, s[m..]);
    } else if i > 0 {
      assert s[1..][i - 1..n - 1] == s[i..n];
      ReplaceAllShrinks(p, s[1..], i - 1, n - 1);
    }
  }

  /** The pattern matches at no position of `s`. */
  predicate NoMatchAnywhere(p: Markup, s: string) {
    forall i :: 0 <= i < |s| ==> MatchLength(p, s[i..]) == 0
  }

  /** A text where the pattern matches nowhere passes unchanged. */
  lemma {:induction false} ReplaceAllKeepsPlainText(p: Markup, s: string)
    requires NoMatchAnywhere(p, s)
    ensures ReplaceAll(p, s) == s
    decreases |s|
  {
    if s != [] {
      assert s[0..] == s;
      assert forall i :: 0 <= i < |s| - 1 ==> s[1..][i..] == s[i + 1..];
      ReplaceAllKeepsPlainText(p, s[1..]);
      assert [s[0]] + s[1..] == s;
    }
  }

  lemma NoMarkupMeansNoMatch(p: Markup, s: string)
    requires NoMarkup(p, s)
    ensures NoMatchAnywhere(p, s)
  {
    forall i | 0 <= i < |s|
      ensures MatchLength(p, s[i..]) == 0
    {
      var m := MatchLength(p, s[i..]);
      assert s[i..][..m] == s[i..i + m];
    }
  }

  /** A pass leaves the text unchanged exactly when the text holds no match. */
  lemma ReplaceAllUnchangedIff(p: Markup, s: string)
    ensures ReplaceAll(p, s) == s <==> NoMarkup(p, s)
  {
    if NoMarkup(p, s) {
      NoMarkupMeansNoMatch(p, s);
      ReplaceAllKeepsPlainText(p, s);
    } else {
      var i, n :| 0 <= i < n <= |s| && InLanguage(p, s[i..n]);
      ReplaceAllShrinks(p, s, i, n);
    }
  }

  /** The pictographic emoji blocks deleted by `cleanText`: U+1F600..1F64F,
      U+1F300..1F5FF, U+1F680..1F6FF, U+1F1E0..1F1FF, U+2600..26FF and U+2700..27BF. */
  predicate IsPictograph(c: char) {
    var x := c as int;
    || (0x1F600 <= x <= 0x1F64F) || (0x1F300 <= x <= 0x1F5FF) || (0x1F680 <= x <= 0x1F6FF)
    || (0x1F1E0 <= x <= 0x1F1FF) || (0x2600 <= x <= 0x26FF) || (0x2700 <= x <= 0x27BF)
  }

  predicate IsNotPictograph(c: char) {
    !IsPictograph(c)
  }

  /** `[\s\u3000]` */
  predicate IsBlank(c: char) {
    IsJsWhitespace(c) || c == '\U{3000}'
  }

  predicate IsNotBlank(c: char) {
    !IsBlank(c)
  }

  function TrimStart(s: string): string
    decreases |s|
  {
    if s != [] && IsJsWhitespace(s[0]) then TrimStart(s[1..]) else s
  }

  function TrimEnd(s: string): string
    decreases |s|
  {
    if s != [] && IsJsWhitespace(s[|s| - 1]) then TrimEnd(s[..|s| - 1]) else s
  }

  /** `String.prototype.trim`: the input with its leading and trailing
      whitespace removed, and nothing else. */
  function Trim(s: string): (r: string)
    ensures r == [] || (!IsJsWhitespace(r[0]) && !IsJsWhitespace(r[|r| - 1]))
    ensures exists a, b ::
      (&& 0 <= a <= b <= |s| && r == s[a..b]
       && (forall i :: 0 <= i < a ==> IsJsWhitespace(s[i]))
       && (forall i :: b <= i < |s| ==> IsJsWhitespace(s[i])))
    ensures AllNotWhitespace(s) ==> r == s
  {
    TrimStartEnds(s);
    TrimEndEnds(TrimStart(s));
    TrimIsSlice(s);
    TrimEnd(TrimStart(s))
  }

  /** Trimming keeps one slice of the input and drops only whitespace around it. */
  lemma TrimIsSlice(s: string)
    ensures exists a, b ::
      (&& 0 <= a <= b <= |s| && TrimEnd(TrimStart(s)) == s[a..b]
       && (forall i :: 0 <= i < a ==> IsJsWhitespace(s[i]))
       && (forall i :: b <= i < |s| ==> IsJsWhitespace(s[i])))
  {
    var a, b := TrimBounds(s);
    assert && 0 <= a <= b <= |s| && TrimEnd(TrimStart(s)) == s[a..b]
           && (forall i :: 0 <= i < a ==> IsJsWhitespace(s[i]))
           && (forall i :: b <= i < |s| ==> IsJsWhitespace(s[i]));
  }

  /** Where the trimmed text starts and ends in the input. */
  lemma TrimBounds(s: string) returns (a: nat, b: nat)
    ensures a <= b <= |s| && TrimEnd(TrimStart(s)) == s[a..b]
    ensures forall i :: 0 <= i < a ==> IsJsWhitespace(s[i])
    ensures forall i :: b <= i < |s| ==> IsJsWhitespace(s[i])
  {
    var t := TrimStart(s);
    TrimStartEnds(s);
    TrimEndEnds(t);
    a := |s| - |t|;
    b := a + |TrimEnd(t)|;
    SuffixPrefix(s, a, |TrimEnd(t)|);
    SuffixTailWhitespace(s, a, |TrimEnd(t)|);
  }

  /** A prefix of a suffix is a slice. */
  lemma SuffixPrefix(s: string, a: nat, n: nat)
    requires a + n <= |s|
    ensures s[a..][..n] == s[a..a + n]
  {
  }

  /** Whitespace at the end of a suffix is whitespace at the end of the whole. */
  lemma SuffixTailWhitespace(s: string, a: nat, n: nat)
    requires a + n <= |s|
    requires forall i :: n <= i < |s| - a ==> IsJsWhitespace(s[a..][i])
    ensures forall i :: a + n <= i < |s| ==> IsJsWhitespace(s[i])
  {
    forall i | a + n <= i < |s|
      ensures IsJsWhitespace(s[i])
    {
      assert s[i] == s[a..][i - a];
    }
  }

  lemma {:induction false} TrimStartEnds(s: string)
    ensures TrimStart(s) == [] || !IsJsWhitespace(TrimStart(s)[0])
    ensures AllNotWhitespace(s) ==> TrimStart(s) == s
    ensures |TrimStart(s)| <= |s| && TrimStart(s) == s[|s| - |TrimStart(s)|..]
    ensures forall i :: 0 <= i < |s| - |TrimStart(s)| ==> IsJsWhitespace(s[i])
    decreases |s|
  {
    if s != [] && IsJsWhitespace(s[0]) {
      TrimStartEnds(s[1..]);
    }
  }

  lemma {:induction false} TrimEndEnds(s: string)
    ensures TrimEnd(s) == [] || !IsJsWhitespace(TrimEnd(s)[|TrimEnd(s)| - 1])
    ensures TrimEnd(s) == [] || (!IsJsWhitespace(s[0]) ==> !IsJsWhitespace(TrimEnd(s)[0]))
    ensures AllNotWhitespace(s) ==> TrimEnd(s) == s
    ensures |TrimEnd(s)| <= |s| && TrimEnd(s) == s[..|TrimEnd(s)|]
    ensures forall i :: |TrimEnd(s)| <= i < |s| ==> IsJsWhitespace(s[i])
    decreases |s|
  {
    if s != [] && IsJsWhitespace(s[|s| - 1]) {
      TrimEndEnds(s[..|s| - 1]);
    }
  }

  /** The passes of `cleanText` before `trim`, in order. */
  function StripNoise(text: string): string {
    var noLinks := ReplaceAll(Url, text);
    var noUsers := ReplaceAll(UserMention, noLinks);
    var noChannels := ReplaceAll(ChannelMention, noUsers);
    var noRoles := ReplaceAll(RoleMention, noChannels);
    var noCustom := ReplaceAll(CustomEmoji, noRoles);
    var noEmoji := Keep(noCustom, IsNotPictograph);
    Keep(noEmoji, IsNotBlank)
  }

  /** `cleanText`: the result has no whitespace (so no line break either) and
      no pictographic emoji. */
  function CleanText(text: string): (r: string)
    ensures forall i :: 0 <= i < |r| ==> !IsBlank(r[i]) && !IsPictograph(r[i])
  {
    var stripped := StripNoise(text);
    var noCustom := ReplaceAll(CustomEmoji, ReplaceAll(RoleMention, ReplaceAll(ChannelMention,
      ReplaceAll(UserMention, ReplaceAll(Url, text)))));
    var noEmoji := Keep(noCustom, IsNotPictograph);
    assert stripped == Keep(noEmoji, IsNotBlank);
    forall i | 0 <= i < |stripped|
      ensures !IsPictograph(stripped[i])
    {
      assert stripped[i] in multiset(stripped);
      assert stripped[i] in multiset(noEmoji);
      var j :| 0 <= j < |noEmoji| && noEmoji[j] == stripped[i];
    }
    Trim(stripped)
  }

  /** `cleanText` only deletes characters. */
  lemma CleanTextIsSubsequence(text: string)
    ensures IsSubsequence(CleanText(text), text)
    ensures |CleanText(text)| <= |text|
  {
    var noLinks := ReplaceAll(Url, text);
    var noUsers := ReplaceAll(UserMention, noLinks);
    var noChannels := ReplaceAll(ChannelMention, noUsers);
    var noRoles := ReplaceAll(RoleMention, noChannels);
    var noCustom := ReplaceAll(CustomEmoji, noRoles);
    var noEmoji := Keep(noCustom, IsNotPictograph);
    var stripped := Keep(noEmoji, IsNotBlank);
    ReplaceAllIsSubsequence(Url, text);
    ReplaceAllIsSubsequence(UserMention, noLinks);
    ReplaceAllIsSubsequence(ChannelMention, noUsers);
    ReplaceAllIsSubsequence(RoleMention, noChannels);
    ReplaceAllIsSubsequence(CustomEmoji, noRoles);
    KeepIsSubsequence(noCustom, IsNotPictograph);
    KeepIsSubsequence(noEmoji, IsNotBlank);
    SubsequenceTransitive(noUsers, noLinks, text);
    SubsequenceTransitive(noChannels, noUsers, text);
    SubsequenceTransitive(noRoles, noChannels, text);
    SubsequenceTransitive(noCustom, noRoles, text);
    SubsequenceTransitive(noEmoji, noCustom, text);
    SubsequenceTransitive(stripped, noEmoji, text);
    assert CleanText(text) == stripped;
    SubsequenceLength(stripped, text);
  }

  /** Text with no markup, no pictographic emoji and no whitespace is already clean. */
  lemma CleanTextKeepsPlainText(text: string)
    requires forall p :: NoMarkup(p, text)
    requires forall i :: 0 <= i < |text| ==> !IsBlank(text[i]) && !IsPictograph(text[i])
    ensures CleanText(text) == text
  {
    forall p: Markup
      ensures ReplaceAll(p, text) == text
    {
      ReplaceAllUnchangedIff(p, text);
    }
    KeepIdentity(text, IsNotPictograph);
    KeepIdentity(text, IsNotBlank);
    assert StripNoise(text) == text;
  }
}
