/**
 * Value-level helpers shared by every component: the two failure-compatible
 * wrappers, bytes, and the JavaScript string and array primitives the source
 * relies on (`toLowerCase`, `endsWith`, `includes`, `split`, `join`, `trim`,
 * `[...new Set(xs)]`), each written out with the behaviour the source sees.
 */
module Text {

  datatype Option<+T> = None | Some(value: T)

  datatype Result<+R, +E> = Success(value: R) | Failure(error: E)

  /** One octet of an `ArrayBuffer`. */
  type byte = x: int | 0 <= x < 256

  // ---------------------------------------------------------------------------
  // Case mapping (ASCII letters only, see README "Left out")
  // ---------------------------------------------------------------------------

  function LowerChar(c: char): char
  {
    if 'A' <= c <= 'Z' then (c as int + 32) as char else c
  }

  /** `s.toLowerCase()`, restricted to the ASCII letters. */
  function Lower(s: string): (r: string)
    ensures |r| == |s|
    ensures forall i :: 0 <= i < |s| ==> r[i] == LowerChar(s[i])
  {
    if s == [] then [] else [LowerChar(s[0])] + Lower(s[1..])
  }

  lemma {:induction false} LowerAppend(a: string, b: string)
    ensures Lower(a + b) == Lower(a) + Lower(b)
  {
    var l, r := Lower(a + b), Lower(a) + Lower(b);
    assert |l| == |r|;
    forall i | 0 <= i < |l| ensures l[i] == r[i] {
      if i < |a| { assert (a + b)[i] == a[i]; } else { assert (a + b)[i] == b[i - |a|]; }
    }
  }

  /** Lower-casing twice is lower-casing once. */
  lemma {:induction false} LowerIdempotent(s: string)
    ensures Lower(Lower(s)) == Lower(s)
  {
    if s != [] {
      LowerIdempotent(s[1..]);
      assert Lower(s)[1..] == Lower(s[1..]);
    }
  }

  // ---------------------------------------------------------------------------
  // Prefix, suffix and substring tests
  // ---------------------------------------------------------------------------

  predicate StartsWith(s: string, prefix: string)
  {
    |prefix| <= |s| && s[..|prefix|] == prefix
  }

  /** `s.endsWith(suffix)`: case-sensitive, the empty suffix always matches. */
  predicate EndsWith(s: string, suffix: string)
  {
    |suffix| <= |s| && s[|s| - |suffix|..] == suffix
  }

  /** `s.includes(t)`: some position of `s` starts a copy of `t`. */
  predicate Includes(s: string, t: string)
    decreases |s|
  {
    StartsWith(s, t) || (s != [] && Includes(s[1..], t))
  }

  lemma {:induction false} EndsWithAppend(a: string, suffix: string)
    ensures EndsWith(a + suffix, suffix)
  {
    assert (a + suffix)[|a|..] == suffix;
  }

  /** Whatever surrounds `t`, the whole text includes it. */
  lemma {:induction false} IncludesInside(a: string, t: string, b: string)
    ensures Includes(a + t + b, t)
  {
    if a == [] {
      assert a + t + b == t + b;
      assert (t + b)[..|t|] == t;
    } else {
      IncludesInside(a[1..], t, b);
      assert (a + t + b)[1..] == a[1..] + t + b;
    }
  }

  /** A text that includes `t` holds every character of `t`. */
  lemma {:induction false} IncludesChars(s: string, t: string, c: char)
    requires Includes(s, t) && c in t
    ensures c in s
    decreases |s|
  {
    if StartsWith(s, t) {
      var i :| 0 <= i < |t| && t[i] == c;
      assert s[i] == c;
    } else {
      IncludesChars(s[1..], t, c);
    }
  }

  /** A text without upper-case letters is its own lower-case form. */
  lemma LowerFixed(s: string)
    requires forall i :: 0 <= i < |s| ==> !('A' <= s[i] <= 'Z')
    ensures Lower(s) == s
  {
  }

  /** A lower-case phrase is found in the lower-cased text around it. */
  lemma LowerKeepsPhrase(a: string, phrase: string, b: string)
    requires Lower(phrase) == phrase
    ensures Includes(Lower(a + phrase + b), phrase)
  {
    LowerAppend(a + phrase, b);
    LowerAppend(a, phrase);
    IncludesInside(Lower(a), phrase, Lower(b));
  }

  /** No character of `s` is, ignoring case, one of `cs`. */
  predicate LacksChars(s: string, cs: set<char>)
  {
    forall i :: 0 <= i < |s| ==> LowerChar(s[i]) !in cs
  }

  lemma LacksCharsAppend(a: string, b: string, cs: set<char>)
    requires LacksChars(a, cs) && LacksChars(b, cs)
    ensures LacksChars(a + b, cs)
  {
    forall i | 0 <= i < |a + b| ensures LowerChar((a + b)[i]) !in cs {
      if i < |a| { assert (a + b)[i] == a[i]; } else { assert (a + b)[i] == b[i - |a|]; }
    }
  }

  lemma CharAtStart(s: string, word: string, at: nat)
    requires at < |word| && StartsWith(s, word)
    ensures s[at] == word[at]
  {
    assert s[..|word|][at] == s[at];
  }

  /** A text without one of a word's characters does not include the word. */
  lemma {:induction false} AbsentChar(s: string, word: string, at: nat)
    requires at < |word| && forall i :: 0 <= i < |s| ==> s[i] != word[at]
    ensures !Includes(s, word)
  {
    if s != [] {
      if StartsWith(s, word) {
        CharAtStart(s, word, at);
      }
      AbsentChar(s[1..], word, at);
    }
  }

  /** A word with a character that `s` does not hold, in any case, is not in the lower-cased `s`. */
  lemma LowerAvoidsChar(s: string, cs: set<char>, word: string, at: nat)
    requires at < |word| && word[at] in cs && LacksChars(s, cs)
    ensures !Includes(Lower(s), word)
  {
    AbsentChar(Lower(s), word, at);
  }

  /** No `x` is followed by `y`, ignoring the case of either. */
  predicate LacksPair(s: string, x: char, y: char)
  {
    forall i :: 0 <= i < |s| - 1 ==> !(LowerChar(s[i]) == x && LowerChar(s[i + 1]) == y)
  }

  /** Two texts without the pair, which do not form it where they meet, give a text without it. */
  lemma LacksPairAppend(a: string, b: string, x: char, y: char)
    requires LacksPair(a, x, y) && LacksPair(b, x, y)
    requires a != [] && b != [] ==> !(LowerChar(a[|a| - 1]) == x && LowerChar(b[0]) == y)
    ensures LacksPair(a + b, x, y)
  {
    var s := a + b;
    forall i | 0 <= i < |s| - 1 ensures !(LowerChar(s[i]) == x && LowerChar(s[i + 1]) == y) {
      if i < |a| - 1 {
        assert s[i] == a[i] && s[i + 1] == a[i + 1];
      } else if i == |a| - 1 {
        assert s[i] == a[i] && s[i + 1] == b[0];
      } else {
        assert s[i] == b[i - |a|] && s[i + 1] == b[i - |a| + 1];
      }
    }
  }

  /** A text in which two adjacent characters of a word never occur side by side does not include it. */
  lemma {:induction false} AbsentPair(s: string, word: string, at: nat)
    requires at + 1 < |word|
    requires forall i :: 0 <= i < |s| - 1 ==> !(s[i] == word[at] && s[i + 1] == word[at + 1])
    ensures !Includes(s, word)
  {
    if s != [] {
      if StartsWith(s, word) {
        CharAtStart(s, word, at);
        CharAtStart(s, word, at + 1);
      }
      AbsentPair(s[1..], word, at);
    }
  }

  /** A word with a pair of adjacent characters that `s` never holds, in any case, is not in the lower-cased `s`. */
  lemma LowerAvoidsPair(s: string, word: string, at: nat)
    requires at + 1 < |word| && LacksPair(s, word[at], word[at + 1])
    ensures !Includes(Lower(s), word)
  {
    AbsentPair(Lower(s), word, at);
  }

  /** A text never includes something longer than itself. */
  lemma {:induction false} IncludesNotLonger(s: string, t: string)
    requires Includes(s, t)
    ensures |t| <= |s|
  {
    if !StartsWith(s, t) {
      IncludesNotLonger(s[1..], t);
    }
  }

  // ---------------------------------------------------------------------------
  // String.prototype.split with a one-character separator, and Array.join
  // ---------------------------------------------------------------------------

  /** `s.split(sep)`: the pieces between separators, always at least one. */
  function Split(s: string, sep: char): (r: seq<string>)
    ensures |r| >= 1
  {
    if s == [] then [""]
    else
      var rest := Split(s[1..], sep);
      if s[0] == sep then [""] + rest else [[s[0]] + rest[0]] + rest[1..]
  }

  /** `parts.join(sep)`. */
  function Join(parts: seq<string>, sep: string): string
  {
    if |parts| == 0 then ""
    else if |parts| == 1 then parts[0]
    else parts[0] + sep + Join(parts[1..], sep)
  }

  /** No piece of a split contains the separator. */
  lemma {:induction false} SplitPiecesFree(s: string, sep: char)
    ensures forall k :: 0 <= k < |Split(s, sep)| ==> sep !in Split(s, sep)[k]
  {
    if s != [] {
      SplitPiecesFree(s[1..], sep);
    }
  }

  /** Joining the pieces with the separator gives back the text. */
  lemma {:induction false} JoinSplit(s: string, sep: char)
    ensures Join(Split(s, sep), [sep]) == s
  {
    if s != [] {
      var rest := Split(s[1..], sep);
      JoinSplit(s[1..], sep);
      if s[0] == sep {
        assert Split(s, sep) == [""] + rest;
        assert ([""] + rest)[1..] == rest;
      } else {
        var p := Split(s, sep);
        assert p == [[s[0]] + rest[0]] + rest[1..];
        if |rest| == 1 {
          assert s == [s[0]] + s[1..];
        } else {
          assert p[1..] == rest[1..];
          assert Join(rest, [sep]) == rest[0] + [sep] + Join(rest[1..], [sep]);
          assert s == [s[0]] + s[1..];
        }
      }
    }
  }

  /** Every character of a piece comes from the text. */
  lemma {:induction false} SplitPieceChars(s: string, sep: char, k: nat, c: char)
    requires k < |Split(s, sep)| && c in Split(s, sep)[k]
    ensures c in s
  {
    if s != [] {
      var rest := Split(s[1..], sep);
      if s[0] == sep {
        assert Split(s, sep)[k] == rest[k - 1];
        SplitPieceChars(s[1..], sep, k - 1, c);
      } else if k == 0 {
        if c != s[0] {
          assert c in rest[0];
          SplitPieceChars(s[1..], sep, 0, c);
        }
      } else {
        assert Split(s, sep)[k] == rest[k];
        SplitPieceChars(s[1..], sep, k, c);
      }
    }
  }

  /** A text without the separator splits into itself alone. */
  lemma {:induction false} SplitWithoutSeparator(x: string, sep: char)
    requires sep !in x
    ensures Split(x, sep) == [x]
  {
    if x != [] {
      SplitWithoutSeparator(x[1..], sep);
      assert x == [x[0]] + x[1..];
    }
  }

  /** A separator-free head followed by the separator is split off as one piece. */
  lemma {:induction false} SplitHead(x: string, sep: char, rest: string)
    requires sep !in x
    ensures Split(x + [sep] + rest, sep) == [x] + Split(rest, sep)
  {
    if x == [] {
      assert x + [sep] + rest == [sep] + rest;
      assert ([sep] + rest)[1..] == rest;
    } else {
      var s := x + [sep] + rest;
      assert s[0] == x[0] && s[1..] == x[1..] + [sep] + rest;
      SplitHead(x[1..], sep, rest);
      assert [x[0]] + x[1..] == x;
    }
  }

  /** The last piece of a split is the text after the last separator. */
  lemma {:induction false} SplitLast(x: string, sep: char, tail: string)
    requires sep !in tail
    ensures Split(x + [sep] + tail, sep)[|Split(x + [sep] + tail, sep)| - 1] == tail
  {
    if x == [] {
      assert x + [sep] + tail == [sep] + tail;
      assert ([sep] + tail)[1..] == tail;
      SplitWithoutSeparator(tail, sep);
    } else {
      var s := x + [sep] + tail;
      assert s[1..] == x[1..] + [sep] + tail;
      SplitLast(x[1..], sep, tail);
      var rest := Split(s[1..], sep);
      if |rest| == 1 {
        // the remaining text still holds a separator, so it splits into two or more
        SplitAtLeastTwo(x[1..], sep, tail);
      }
    }
  }

  lemma {:induction false} SplitAtLeastTwo(x: string, sep: char, tail: string)
    ensures |Split(x + [sep] + tail, sep)| >= 2
  {
    if x == [] {
      assert x + [sep] + tail == [sep] + tail;
      assert ([sep] + tail)[1..] == tail;
    } else {
      var s := x + [sep] + tail;
      assert s[1..] == x[1..] + [sep] + tail;
      SplitAtLeastTwo(x[1..], sep, tail);
    }
  }

  // ---------------------------------------------------------------------------
  // String.prototype.trim
  // ---------------------------------------------------------------------------

  /**
   * The ECMAScript WhiteSpace and LineTerminator code points: TAB, VT, FF, SP,
   * NBSP, ZWNBSP, the Zs space separators, LF, CR, LS and PS.
   */
  predicate IsJsWhitespace(c: char)
  {
    c == '\t' || c == '\U{000B}' || c == '\U{000C}' || c == ' ' || c == '\U{00A0}'
    || c == '\U{FEFF}' || c == '\U{1680}' || ('\U{2000}' <= c <= '\U{200A}')
    || c == '\U{202F}' || c == '\U{205F}' || c == '\U{3000}'
    || c == '\n' || c == '\r' || c == '\U{2028}' || c == '\U{2029}'
  }

  function TrimStart(s: string): (r: string)
    ensures |r| <= |s| && r == s[|s| - |r|..]
    ensures r != [] ==> !IsJsWhitespace(r[0])
    ensures forall i :: 0 <= i < |s| - |r| ==> IsJsWhitespace(s[i])
  {
    if s != [] && IsJsWhitespace(s[0]) then
      var r := TrimStart(s[1..]);
      assert s[1..][|s| - 1 - |r|..] == s[|s| - |r|..];
      assert forall i :: 1 <= i < |s| - |r| ==> s[i] == s[1..][i - 1];
      r
    else s
  }

  function TrimEnd(s: string): (r: string)
    ensures |r| <= |s| && r == s[..|r|]
    ensures r != [] ==> !IsJsWhitespace(r[|r| - 1])
    ensures forall i :: |r| <= i < |s| ==> IsJsWhitespace(s[i])
  {
    if s != [] && IsJsWhitespace(s[|s| - 1]) then
      var r := TrimEnd(s[..|s| - 1]);
      assert s[..|s| - 1][..|r|] == s[..|r|];
      assert forall i :: |r| <= i < |s| - 1 ==> s[i] == s[..|s| - 1][i];
      r
    else s
  }

  /** `s.trim()`. */
  function Trim(s: string): string
  {
    TrimEnd(TrimStart(s))
  }

  /** Nothing but white space, the empty text included. */
  predicate Blank(s: string)
  {
    forall i :: 0 <= i < |s| ==> IsJsWhitespace(s[i])
  }

  /** Trimming leaves nothing exactly when the text is blank. */
  lemma TrimEmptyIff(s: string)
    ensures Trim(s) == "" <==> Blank(s)
  {
    var t := TrimStart(s);
    if Trim(s) == "" {
      assert t == [];
    } else {
      var k := |s| - |t|;
      assert t != [] && t[0] == s[k] && !IsJsWhitespace(s[k]);
    }
  }

  // ---------------------------------------------------------------------------
  // Order-preserving de-duplication (`[...new Set(xs)]`) and subsequences
  // ---------------------------------------------------------------------------

  predicate Distinct<T(==)>(s: seq<T>)
  {
    forall i, j :: 0 <= i < j < |s| ==> s[i] != s[j]
  }

  /** `a` can be obtained from `b` by deleting elements. */
  predicate IsSubsequence<T(==)>(a: seq<T>, b: seq<T>)
    decreases |b|
  {
    if a == [] then true
    else if b == [] then false
    else if a[|a| - 1] == b[|b| - 1] then IsSubsequence(a[..|a| - 1], b[..|b| - 1])
    else IsSubsequence(a, b[..|b| - 1])
  }

  lemma {:induction false} SubsequenceExtend<T>(a: seq<T>, b: seq<T>, x: T)
    requires IsSubsequence(a, b)
    ensures IsSubsequence(a, b + [x])
    decreases |b|, 1
  {
    if a != [] {
      assert (b + [x])[..|b|] == b;
      if a[|a| - 1] == x {
        SubsequenceDropLast(a, b);
      }
    }
  }

  lemma {:induction false} SubsequenceDropLast<T>(a: seq<T>, b: seq<T>)
    requires a != [] && IsSubsequence(a, b)
    ensures IsSubsequence(a[..|a| - 1], b)
    decreases |b|, 0
  {
    var b', y := b[..|b| - 1], b[|b| - 1];
    assert b' + [y] == b;
    if a[|a| - 1] == y {
      SubsequenceExtend(a[..|a| - 1], b', y);
    } else {
      SubsequenceDropLast(a, b');
      SubsequenceExtend(a[..|a| - 1], b', y);
    }
  }

  lemma SubsequenceBoth<T>(a: seq<T>, b: seq<T>, x: T)
    requires IsSubsequence(a, b)
    ensures IsSubsequence(a + [x], b + [x])
  {
    assert (a + [x])[..|a|] == a && (b + [x])[..|b|] == b;
  }

  lemma {:induction false} SubsequenceReflexive<T>(a: seq<T>)
    ensures IsSubsequence(a, a)
  {
    if a != [] {
      SubsequenceReflexive(a[..|a| - 1]);
    }
  }

  lemma {:induction false} SubsequenceLength<T>(a: seq<T>, b: seq<T>)
    requires IsSubsequence(a, b)
    ensures |a| <= |b|
    decreases |b|
  {
    if a != [] {
      if a[|a| - 1] == b[|b| - 1] {
        SubsequenceLength(a[..|a| - 1], b[..|b| - 1]);
      } else {
        SubsequenceLength(a, b[..|b| - 1]);
      }
    }
  }

  /** Every element of a subsequence comes from the sequence. */
  lemma {:induction false} SubsequenceElements<T>(a: seq<T>, b: seq<T>)
    requires IsSubsequence(a, b)
    ensures forall x :: x in a ==> x in b
    decreases |b|
  {
    if a != [] {
      if a[|a| - 1] == b[|b| - 1] {
        SubsequenceElements(a[..|a| - 1], b[..|b| - 1]);
        assert a == a[..|a| - 1] + [a[|a| - 1]];
      } else {
        SubsequenceElements(a, b[..|b| - 1]);
      }
      assert b == b[..|b| - 1] + [b[|b| - 1]];
    }
  }

  /** `[...new Set(s)]`: the first occurrence of every value, in order. */
  function Dedup<T(==,!new)>(s: seq<T>): (r: seq<T>)
    ensures forall x :: x in r <==> x in s
    ensures Distinct(r)
  {
    if s == [] then []
    else
      var d := Dedup(s[..|s| - 1]);
      assert forall x :: x in s <==> x in s[..|s| - 1] || x == s[|s| - 1];
      if s[|s| - 1] in d then d else d + [s[|s| - 1]]
  }

  /** One more value is appended exactly when it is new. */
  lemma DedupSnoc<T(!new)>(s: seq<T>, x: T)
    ensures Dedup(s + [x]) == if x in s then Dedup(s) else Dedup(s) + [x]
  {
    assert (s + [x])[..|s|] == s;
  }

  /** De-duplication only deletes elements. */
  lemma {:induction false} DedupSubsequence<T(!new)>(s: seq<T>)
    ensures IsSubsequence(Dedup(s), s)
  {
    if s != [] {
      var init := s[..|s| - 1];
      DedupSubsequence(init);
      assert s == init + [s[|s| - 1]];
      if s[|s| - 1] in Dedup(init) {
        SubsequenceExtend(Dedup(init), init, s[|s| - 1]);
      } else {
        SubsequenceBoth(Dedup(init), init, s[|s| - 1]);
      }
    }
  }

  /** Values that were already distinct are kept as they are. */
  lemma {:induction false} DedupDistinct<T(!new)>(s: seq<T>)
    requires Distinct(s)
    ensures Dedup(s) == s
  {
    if s != [] {
      var init := s[..|s| - 1];
      DedupDistinct(init);
      assert s[|s| - 1] !in init;
      assert s == init + [s[|s| - 1]];
    }
  }

  /**
   * What de-duplication has produced for a prefix stays, in place, at the front
   * of what it produces for the whole: earlier first occurrences keep their
   * positions whatever follows.
   */
  lemma {:induction false} DedupPrefix<T(!new)>(a: seq<T>, b: seq<T>)
    ensures |Dedup(a)| <= |Dedup(a + b)|
    ensures Dedup(a + b)[..|Dedup(a)|] == Dedup(a)
    decreases |b|
  {
    if b == [] {
      assert a + b == a;
    } else {
      var b' := b[..|b| - 1];
      DedupPrefix(a, b');
      assert (a + b)[..|a + b| - 1] == a + b';
    }
  }
}
