/** String helpers shared by the cleaner, the segmenter and the counters:
    deletion (subsequence), per-character filtering, maximal runs and joining. */
module Text {

  /** JavaScript's `\s` class: the WhiteSpace and LineTerminator code points of
      ECMAScript (tab, line tabulation, form feed, the Unicode space separators,
      the byte order mark, line feed, carriage return and the two Unicode line
      and paragraph separators). `String.prototype.trim` strips the same set. */
  predicate IsJsWhitespace(c: char) {
    var x := c as int;
    || x == 0x09 || x == 0x0A || x == 0x0B || x == 0x0C || x == 0x0D
    || x == 0x20 || x == 0xA0 || x == 0x1680 || (0x2000 <= x <= 0x200A)
    || x == 0x2028 || x == 0x2029 || x == 0x202F || x == 0x205F
    || x == 0x3000 || x == 0xFEFF
  }

  predicate IsNotJsWhitespace(c: char) {
    !IsJsWhitespace(c)
  }

  /** `a` can be obtained from `b` by deleting characters. */
  predicate IsSubsequence(a: string, b: string)
    decreases |b|
  {
    a == [] || (b != [] && ((a[0] == b[0] && IsSubsequence(a[1..], b[1..])) || IsSubsequence(a, b[1..])))
  }

  lemma {:induction false} SubsequenceLength(a: string, b: string)
    requires IsSubsequence(a, b)
    ensures |a| <= |b|
    decreases |b|
  {
    if a != [] {
      if a[0] == b[0] && IsSubsequence(a[1..], b[1..]) {
        SubsequenceLength(a[1..], b[1..]);
      } else {
        SubsequenceLength(a, b[1..]);
      }
    }
  }

  /** Deleting a prefix of `b` keeps `a` a subsequence of the whole of `b`. */
  lemma {:induction false} SubsequenceOfSuffix(a: string, b: string, k: nat)
    requires k <= |b|
    requires IsSubsequence(a, b[k..])
    ensures IsSubsequence(a, b)
    decreases k
  {
    if k > 0 {
      assert b[k..] == b[1..][k - 1..];
      SubsequenceOfSuffix(a, b[1..], k - 1);
    }
  }

  lemma SubsequenceCons(x: char, a: string, b: string)
    requires IsSubsequence(a, b)
    ensures IsSubsequence([x] + a, [x] + b)
  {
    assert ([x] + a)[1..] == a;
    assert ([x] + b)[1..] == b;
  }

  lemma {:induction false} SubsequenceTransitive(a: string, b: string, c: string)
    requires IsSubsequence(a, b) && IsSubsequence(b, c)
    ensures IsSubsequence(a, c)
    decreases |c|
  {
    if a == [] {
    } else if b == [] {
      // a is non-empty and a subsequence of the empty string: impossible
    } else if b[0] == c[0] && IsSubsequence(b[1..], c[1..]) {
      if a[0] == b[0] && IsSubsequence(a[1..], b[1..]) {
        SubsequenceTransitive(a[1..], b[1..], c[1..]);
      } else {
        SubsequenceTransitive(a, b[1..], c[1..]);
      }
    } else {
      SubsequenceTransitive(a, b, c[1..]);
    }
  }

  /** The characters of `s` for which `keep` holds, in order: a per-character
      global deletion such as `replace(/[...]/g, '')`. */
  function Keep(s: string, keep: char -> bool): (r: string)
    ensures forall i :: 0 <= i < |r| ==> keep(r[i])
    ensures forall c {:trigger multiset(r)[c]} :: keep(c) ==> multiset(r)[c] == multiset(s)[c]
    decreases |s|
  {
    if s == [] then []
    else
      var rest := Keep(s[1..], keep);
      assert s == [s[0]] + s[1..];
      if keep(s[0]) then [s[0]] + rest else rest
  }

  /** Filtering only deletes characters. */
  lemma {:induction false} KeepIsSubsequence(s: string, keep: char -> bool)
    ensures IsSubsequence(Keep(s, keep), s)
    decreases |s|
  {
    if s != [] {
      var rest := Keep(s[1..], keep);
      KeepIsSubsequence(s[1..], keep);
      if keep(s[0]) {
        SubsequenceCons(s[0], rest, s[1..]);
        assert [s[0]] + s[1..] == s;
      } else {
        SubsequenceOfSuffix(rest, s, 1);
      }
    }
  }

  lemma {:induction false} KeepAppend(a: string, b: string, keep: char -> bool)
    ensures Keep(a + b, keep) == Keep(a, keep) + Keep(b, keep)
    decreases |a|
  {
    if a == [] {
      assert a + b == b;
    } else {
      var ab := a + b;
      assert ab[0] == a[0];
      assert ab[1..] == a[1..] + b;
      KeepAppend(a[1..], b, keep);
      if keep(a[0]) {
        calc {
          Keep(ab, keep);
          [a[0]] + Keep(a[1..] + b, keep);
          [a[0]] + (Keep(a[1..], keep) + Keep(b, keep));
          ([a[0]] + Keep(a[1..], keep)) + Keep(b, keep);
        }
      }
    }
  }

  /** A string that has no character to delete is left as it is. */
  lemma {:induction false} KeepIdentity(s: string, keep: char -> bool)
    requires forall i :: 0 <= i < |s| ==> keep(s[i])
    ensures Keep(s, keep) == s
    decreases |s|
  {
    if s != [] {
      KeepIdentity(s[1..], keep);
    }
  }

  /** Filtering a string none of whose characters is kept yields the empty string. */
  lemma {:induction false} KeepNone(s: string, keep: char -> bool)
    requires forall i :: 0 <= i < |s| ==> !keep(s[i])
    ensures Keep(s, keep) == []
    decreases |s|
  {
    if s != [] {
      KeepNone(s[1..], keep);
    }
  }

  /** Filtering twice with the same predicate changes nothing the second time. */
  lemma KeepIdempotent(s: string, keep: char -> bool)
    ensures Keep(Keep(s, keep), keep) == Keep(s, keep)
  {
    KeepIdentity(Keep(s, keep), keep);
  }

  /** Length of the longest prefix of `s` whose characters all satisfy `inClass`
      (a greedy `[...]+` or `[...]*` run). */
  function Span(s: string, inClass: char -> bool): (n: nat)
    ensures n <= |s|
    ensures forall k :: 0 <= k < n ==> inClass(s[k])
    ensures n < |s| ==> !inClass(s[n])
    decreases |s|
  {
    if s == [] || !inClass(s[0]) then 0 else 1 + Span(s[1..], inClass)
  }

  /** Concatenation of the parts in order (`parts.join('')`). */
  function Join(parts: seq<string>): (r: string)
    decreases |parts|
  {
    if parts == [] then [] else parts[0] + Join(parts[1..])
  }

  lemma {:induction false} JoinAppend(a: seq<string>, b: seq<string>)
    ensures Join(a + b) == Join(a) + Join(b)
    decreases |a|
  {
    if a == [] {
      assert a + b == b;
    } else {
      assert (a + b)[0] == a[0];
      assert (a + b)[1..] == a[1..] + b;
      JoinAppend(a[1..], b);
    }
  }

  lemma JoinSingle(s: string)
    ensures Join([s]) == s
  {
    assert [s][1..] == [];
  }
}
