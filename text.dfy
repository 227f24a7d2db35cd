/**
 * The JavaScript string operations the classifier relies on:
 * `toLowerCase` (ASCII only), `trim`, `includes` and `join(" ")`.
 */
module Text {

  // ---------------------------------------------------------------------
  // Lower-casing
  // ---------------------------------------------------------------------

  predicate IsUpper(c: char) { 'A' <= c <= 'Z' }

  function LowerChar(c: char): (r: char)
    ensures !IsUpper(r)
    ensures IsUpper(c) ==> r as int == c as int + 32
    ensures !IsUpper(c) ==> r == c
  {
    if IsUpper(c) then (c as int + 32) as char else c
  }

  function UpperChar(c: char): (r: char)
    ensures 'a' <= c <= 'z' ==> IsUpper(r) && LowerChar(r) == c
    ensures !('a' <= c <= 'z') ==> r == c
  {
    if 'a' <= c <= 'z' then (c as int - 32) as char else c
  }

  /** `s.toLowerCase()`, restricted to the ASCII letters. */
  function Lower(s: string): (r: string)
    ensures |r| == |s|
    ensures forall i :: 0 <= i < |s| ==> r[i] == LowerChar(s[i])
  {
    seq(|s|, i requires 0 <= i < |s| => LowerChar(s[i]))
  }

  /** `s.toUpperCase()`, restricted to the ASCII letters; used to state case-insensitivity. */
  function Upper(s: string): (r: string)
    ensures |r| == |s|
    ensures forall i :: 0 <= i < |s| ==> r[i] == UpperChar(s[i])
  {
    seq(|s|, i requires 0 <= i < |s| => UpperChar(s[i]))
  }

  lemma LowerIgnoresCase(s: string)
    ensures Lower(Upper(s)) == Lower(s)
    ensures Lower(Lower(s)) == Lower(s)
  {
    assert forall i :: 0 <= i < |s| ==> Lower(Upper(s))[i] == Lower(s)[i];
  }

  // ---------------------------------------------------------------------
  // Trimming
  // ---------------------------------------------------------------------

  /**
   * The characters `String.prototype.trim` removes: the ECMAScript
   * WhiteSpace and LineTerminator code points.
   */
  predicate IsWhitespace(c: char) {
    || c == '\t' || c == '\n' || c == '\U{000B}' || c == '\U{000C}' || c == '\r' || c == ' '
    || c == '\U{00A0}' || c == '\U{1680}' || ('\U{2000}' <= c <= '\U{200A}')
    || c == '\U{2028}' || c == '\U{2029}' || c == '\U{202F}' || c == '\U{205F}'
    || c == '\U{3000}' || c == '\U{FEFF}'
  }

  /**
   * The code points of the WhiteSpace table (section 12.2 of ECMA-262:
   * TAB, VT, FF, ZWNBSP and the Unicode space separators SPACE, NBSP,
   * U+1680, U+2000 to U+200A, U+202F, U+205F, U+3000) and of the
   * LineTerminator table (section 12.3: LF, CR, LS, PS), listed one by one.
   */
  const EcmaWhitespace: set<char> := {
    '\U{0009}', '\U{000B}', '\U{000C}', '\U{FEFF}',
    '\U{0020}', '\U{00A0}', '\U{1680}',
    '\U{2000}', '\U{2001}', '\U{2002}', '\U{2003}', '\U{2004}', '\U{2005}',
    '\U{2006}', '\U{2007}', '\U{2008}', '\U{2009}', '\U{200A}',
    '\U{202F}', '\U{205F}', '\U{3000}',
    '\U{000A}', '\U{000D}', '\U{2028}', '\U{2029}'
  }

  /**
   * `IsWhitespace` holds of exactly the code points `trim` strips, so
   * the zero-width space U+200B, for one, is kept as text.
   */
  lemma WhitespaceCodePoints(c: char)
    ensures IsWhitespace(c) <==> c in EcmaWhitespace
    ensures IsWhitespace('\U{00A0}') && !IsWhitespace('\U{200B}')
  {
  }

  ghost predicate AllWhitespace(s: string) {
    forall i :: 0 <= i < |s| ==> IsWhitespace(s[i])
  }

  /** Lower-casing neither creates nor removes whitespace. */
  lemma LowerKeepsWhitespace(s: string)
    ensures AllWhitespace(Lower(s)) <==> AllWhitespace(s)
  {
    assert forall i :: 0 <= i < |s| ==> (IsWhitespace(Lower(s)[i]) <==> IsWhitespace(s[i]));
  }

  lemma AllWhitespaceConcat(a: string, b: string)
    ensures AllWhitespace(a + b) <==> AllWhitespace(a) && AllWhitespace(b)
  {
    if AllWhitespace(a + b) {
      assert forall i :: 0 <= i < |a| ==> a[i] == (a + b)[i];
      assert forall i :: 0 <= i < |b| ==> b[i] == (a + b)[|a| + i];
    }
  }

  /** `s.trimStart()`: drops the leading whitespace. */
  function TrimStart(s: string): string
    decreases |s|
  {
    if |s| > 0 && IsWhitespace(s[0]) then TrimStart(s[1..]) else s
  }

  /** `s.trimEnd()`: drops the trailing whitespace. */
  function TrimEnd(s: string): string
    decreases |s|
  {
    if |s| > 0 && IsWhitespace(s[|s| - 1]) then TrimEnd(s[..|s| - 1]) else s
  }

  /** `TrimStart` keeps a suffix, drops only whitespace, and stops at a non-whitespace character. */
  lemma {:induction false} TrimStartIsSuffix(s: string)
    ensures |TrimStart(s)| <= |s| && TrimStart(s) == s[|s| - |TrimStart(s)|..]
    ensures forall i :: 0 <= i < |s| - |TrimStart(s)| ==> IsWhitespace(s[i])
    ensures TrimStart(s) != [] ==> !IsWhitespace(TrimStart(s)[0])
    decreases |s|
  {
    if |s| > 0 && IsWhitespace(s[0]) {
      var u := s[1..];
      TrimStartIsSuffix(u);
      var r := TrimStart(u);
      assert u[|u| - |r|..] == s[|s| - |r|..];
      forall i | 1 <= i < |s| - |r| ensures IsWhitespace(s[i]) {
        assert s[i] == u[i - 1];
      }
    }
  }

  /** `TrimEnd` keeps a prefix, drops only whitespace, and stops at a non-whitespace character. */
  lemma {:induction false} TrimEndIsPrefix(s: string)
    ensures |TrimEnd(s)| <= |s| && TrimEnd(s) == s[..|TrimEnd(s)|]
    ensures forall i :: |TrimEnd(s)| <= i < |s| ==> IsWhitespace(s[i])
    ensures TrimEnd(s) != [] ==> !IsWhitespace(TrimEnd(s)[|TrimEnd(s)| - 1])
    decreases |s|
  {
    if |s| > 0 && IsWhitespace(s[|s| - 1]) {
      var u := s[..|s| - 1];
      TrimEndIsPrefix(u);
      var r := TrimEnd(u);
      assert u[..|r|] == s[..|r|];
      forall i | |r| <= i < |s| - 1 ensures IsWhitespace(s[i]) {
        assert s[i] == u[i];
      }
    }
  }

  /** `s.trim()`. It is empty exactly when `s` is all whitespace, and otherwise starts and ends with a non-whitespace character. */
  function Trim(s: string): (r: string)
    ensures |r| <= |s|
    ensures r == [] <==> AllWhitespace(s)
    ensures r != [] ==> !IsWhitespace(r[0]) && !IsWhitespace(r[|r| - 1])
  {
    TrimEndsAreWords(s);
    TrimEnd(TrimStart(s))
  }

  /** Trimming leaves nothing exactly when there is nothing but whitespace, and otherwise a word. */
  lemma TrimEndsAreWords(s: string)
    ensures |TrimEnd(TrimStart(s))| <= |s|
    ensures TrimEnd(TrimStart(s)) == [] <==> AllWhitespace(s)
    ensures TrimEnd(TrimStart(s)) != [] ==> IsWord(TrimEnd(TrimStart(s)))
  {
    var t := TrimStart(s);
    TrimStartIsSuffix(s);
    TrimEndIsPrefix(t);
    var r := TrimEnd(t);
    assert t != [] ==> t[0] == s[|s| - |t|];
    assert r != [] ==> r[0] == t[0];
  }

  /** Trimming keeps a contiguous slice of `s` and drops only whitespace around it. */
  lemma TrimIsSlice(s: string) returns (a: nat)
    ensures a + |Trim(s)| <= |s|
    ensures Trim(s) == s[a..a + |Trim(s)|]
    ensures forall i :: 0 <= i < a ==> IsWhitespace(s[i])
    ensures forall i :: a + |Trim(s)| <= i < |s| ==> IsWhitespace(s[i])
  {
    a := TrimPartsSlice(s);
  }

  /** `TrimIsSlice`, stated on the two halves of `Trim`. */
  lemma TrimPartsSlice(s: string) returns (a: nat)
    ensures a + |TrimEnd(TrimStart(s))| <= |s|
    ensures TrimEnd(TrimStart(s)) == s[a..a + |TrimEnd(TrimStart(s))|]
    ensures forall i :: 0 <= i < a ==> IsWhitespace(s[i])
    ensures forall i :: a + |TrimEnd(TrimStart(s))| <= i < |s| ==> IsWhitespace(s[i])
  {
    var t := TrimStart(s);
    TrimStartIsSuffix(s);
    TrimEndIsPrefix(t);
    a := PrefixOfSuffix(s, t, TrimEnd(t));
  }

  /** A prefix `r` of a suffix `t` of `s` is a slice of `s`; whitespace after `r` in `t` is whitespace in `s`. */
  lemma PrefixOfSuffix(s: string, t: string, r: string) returns (a: nat)
    requires |t| <= |s| && t == s[|s| - |t|..]
    requires |r| <= |t| && r == t[..|r|]
    requires forall i :: |r| <= i < |t| ==> IsWhitespace(t[i])
    ensures a == |s| - |t| && a + |r| <= |s| && r == s[a..a + |r|]
    ensures forall i :: a + |r| <= i < |s| ==> IsWhitespace(s[i])
  {
    a := |s| - |t|;
    assert t == s[a..|s|] && r == t[0..|r|];
    SliceOfSlice(s, a, |s|, 0, |r|);
    forall i | a + |r| <= i < |s| ensures IsWhitespace(s[i]) {
      assert s[i] == t[i - a];
    }
  }

  // ---------------------------------------------------------------------
  // Substring containment
  // ---------------------------------------------------------------------

  /** `k` occurs in `s` starting at index `i`. */
  ghost predicate OccursAt(k: string, s: string, i: int) {
    0 <= i <= |s| - |k| && s[i..i + |k|] == k
  }

  /** Reference definition: `k` occurs in `s` as a contiguous substring. */
  ghost predicate Occurs(k: string, s: string) {
    exists i :: OccursAt(k, s, i)
  }

  /** `k[j..]` matches `s` at offset `i + j`. */
  function MatchesAt(s: string, k: string, i: nat, j: nat): bool
    requires i + |k| <= |s| && j <= |k|
    decreases |k| - j
  {
    j == |k| || (s[i + j] == k[j] && MatchesAt(s, k, i, j + 1))
  }

  /** `k` occurs in `s` at some offset `p >= i`. */
  function IncludesFrom(s: string, k: string, i: nat): bool
    decreases |s| - i
  {
    if i + |k| > |s| then false
    else MatchesAt(s, k, i, 0) || IncludesFrom(s, k, i + 1)
  }

  lemma {:induction false} MatchesAtIsSlice(s: string, k: string, i: nat, j: nat)
    requires i + |k| <= |s| && j <= |k|
    ensures MatchesAt(s, k, i, j) <==> s[i + j..i + |k|] == k[j..]
    decreases |k| - j
  {
    if j < |k| {
      MatchesAtIsSlice(s, k, i, j + 1);
      assert s[i + j..i + |k|] == [s[i + j]] + s[i + j + 1..i + |k|];
      assert k[j..] == [k[j]] + k[j + 1..];
    }
  }

  lemma {:induction false} IncludesFromIsOccurrence(s: string, k: string, i: nat)
    ensures IncludesFrom(s, k, i) <==> exists p :: i <= p && OccursAt(k, s, p)
    decreases |s| - i
  {
    if i + |k| <= |s| {
      MatchesAtIsSlice(s, k, i, 0);
      assert k[0..] == k;
      IncludesFromIsOccurrence(s, k, i + 1);
      if MatchesAt(s, k, i, 0) {
        assert OccursAt(k, s, i);
      }
      assert forall p :: i <= p && OccursAt(k, s, p) ==> p == i || i + 1 <= p;
    }
  }

  /** `s.includes(k)`: computed by scanning, and equal to the reference definition. */
  function Includes(s: string, k: string): (r: bool)
    ensures r <==> Occurs(k, s)
  {
    IncludesFromIsOccurrence(s, k, 0);
    IncludesFrom(s, k, 0)
  }

  /** A character of `k` that `s` lacks rules out every occurrence of `k` in `s`. */
  lemma MissingCharacter(k: string, s: string, c: char)
    requires c in k && c !in s
    ensures !Occurs(k, s)
  {
  }

  lemma OccursInLeft(k: string, a: string, b: string)
    requires Occurs(k, a)
    ensures Occurs(k, a + b)
  {
    var i :| OccursAt(k, a, i);
    assert (a + b)[i..i + |k|] == a[i..i + |k|];
    assert OccursAt(k, a + b, i);
  }

  lemma OccursInRight(k: string, a: string, b: string)
    requires Occurs(k, b)
    ensures Occurs(k, a + b)
  {
    var i :| OccursAt(k, b, i);
    assert (a + b)[|a| + i..|a| + i + |k|] == b[i..i + |k|];
    assert OccursAt(k, a + b, |a| + i);
  }

  lemma SliceOfSlice(s: string, a: int, b: int, i: int, j: int)
    requires 0 <= a <= b <= |s| && 0 <= i <= j <= b - a
    ensures s[a..b][i..j] == s[a + i..a + j]
  {
    assert forall n :: 0 <= n < j - i ==> s[a..b][i..j][n] == s[a + i + n];
  }

  /** An occurrence of `k` at `p` in `s` that lies inside the slice `t == s[a..a + |t|]` is an occurrence in `t`. */
  lemma OccursInSlice(k: string, s: string, a: int, t: string, p: int)
    requires 0 <= a <= p && p + |k| <= a + |t| <= |s| && t == s[a..a + |t|]
    requires OccursAt(k, s, p)
    ensures Occurs(k, t)
  {
    SliceOfSlice(s, a, a + |t|, p - a, p - a + |k|);
    assert OccursAt(k, t, p - a);
  }

  /** Containment is transitive: whatever contains `k` contains every substring of `k`. */
  lemma {:induction false} OccursTransitive(k1: string, k2: string, s: string)
    requires Occurs(k1, k2) && Occurs(k2, s)
    ensures Occurs(k1, s)
  {
    var i :| OccursAt(k1, k2, i);
    var p :| OccursAt(k2, s, p);
    SliceOfSlice(s, p, p + |k2|, i, i + |k1|);
    assert OccursAt(k1, s, p + i);
  }

  /** An occurrence of a non-empty `k` at `p` starts with `k`'s first character and ends with its last. */
  lemma OccurrenceEnds(k: string, s: string, p: int)
    requires k != [] && OccursAt(k, s, p)
    ensures s[p] == k[0] && s[p + |k| - 1] == k[|k| - 1]
  {
    assert s[p..p + |k|][0] == s[p];
    assert s[p..p + |k|][|k| - 1] == s[p + |k| - 1];
  }

  /** Non-empty, and neither starting nor ending with whitespace. */
  predicate IsWord(k: string) {
    k != [] && !IsWhitespace(k[0]) && !IsWhitespace(k[|k| - 1])
  }

  /** `Trim` removes exactly the whitespace around a word (or leaves nothing of all-whitespace text). */
  lemma TrimAround(a: string, x: string, b: string)
    requires AllWhitespace(a) && AllWhitespace(b)
    requires x == [] || IsWord(x)
    ensures Trim(a + x + b) == x
  {
    if x == [] {
      assert a + x + b == a + b;
      AllWhitespaceConcat(a, b);
    } else {
      TrimAroundWord(a, x, b);
    }
  }

  /** The word case of `TrimAround`. */
  lemma TrimAroundWord(a: string, x: string, b: string)
    requires AllWhitespace(a) && AllWhitespace(b) && IsWord(x)
    ensures Trim(a + x + b) == x
  {
    WordInFrame(a, x, b);
    TrimOfFramedWord(a + x + b, |a|, x);
  }

  /** In `a + x + b`, the word `x` sits at `|a|` with only whitespace around it. */
  lemma WordInFrame(a: string, x: string, b: string)
    requires AllWhitespace(a) && AllWhitespace(b)
    ensures (a + x + b)[|a|..|a| + |x|] == x
    ensures forall n :: 0 <= n < |a| ==> IsWhitespace((a + x + b)[n])
    ensures forall n :: |a| + |x| <= n < |a + x + b| ==> IsWhitespace((a + x + b)[n])
  {
    var s := a + x + b;
    forall n | 0 <= n < |a| ensures IsWhitespace(s[n]) {
      assert s[n] == a[n];
    }
    forall n | |a| + |x| <= n < |s| ensures IsWhitespace(s[n]) {
      assert s[n] == b[n - |a| - |x|];
    }
  }

  /** A word with only whitespace around it is what `Trim` keeps. */
  lemma TrimOfFramedWord(s: string, lo: nat, x: string)
    requires IsWord(x) && lo + |x| <= |s| && s[lo..lo + |x|] == x
    requires forall n :: 0 <= n < lo ==> IsWhitespace(s[n])
    requires forall n :: lo + |x| <= n < |s| ==> IsWhitespace(s[n])
    ensures Trim(s) == x
  {
    var p := TrimIsSlice(s);
    SameFrame(s, lo, x, p, Trim(s));
  }

  /** Two words framed by whitespace in the same text are the same slice. */
  lemma SameFrame(s: string, lo: nat, x: string, p: nat, t: string)
    requires IsWord(x) && lo + |x| <= |s| && s[lo..lo + |x|] == x
    requires forall n :: 0 <= n < lo ==> IsWhitespace(s[n])
    requires forall n :: lo + |x| <= n < |s| ==> IsWhitespace(s[n])
    requires p + |t| <= |s| && t == s[p..p + |t|]
    requires forall n :: 0 <= n < p ==> IsWhitespace(s[n])
    requires forall n :: p + |t| <= n < |s| ==> IsWhitespace(s[n])
    requires t != [] ==> IsWord(t)
    ensures t == x
  {
    OccurrenceEnds(x, s, lo);
    assert p <= lo < p + |t|;
    OccurrenceEnds(t, s, p);
  }

  /**
   * A keyword that neither starts nor ends with whitespace survives
   * trimming: if it occurs in `s`, it occurs in `Trim(s)`.
   */
  lemma {:induction false} OccursSurvivesTrim(k: string, s: string)
    requires IsWord(k)
    requires Occurs(k, s)
    ensures Occurs(k, Trim(s))
  {
    var a := TrimIsSlice(s);
    WordInsideSlice(k, s, a, Trim(s));
  }

  /** A word occurring in `s` lies inside any slice of `s` outside which there is only whitespace. */
  lemma WordInsideSlice(k: string, s: string, a: nat, t: string)
    requires IsWord(k) && Occurs(k, s)
    requires a + |t| <= |s| && t == s[a..a + |t|]
    requires forall n :: 0 <= n < a ==> IsWhitespace(s[n])
    requires forall n :: a + |t| <= n < |s| ==> IsWhitespace(s[n])
    ensures Occurs(k, t)
  {
    var p :| OccursAt(k, s, p);
    OccurrenceEnds(k, s, p);
    assert a <= p && p + |k| <= a + |t|;
    OccursInSlice(k, s, a, t, p);
  }

  // ---------------------------------------------------------------------
  // Joining
  // ---------------------------------------------------------------------

  /** `parts.join(" ")`. */
  function JoinWithSpaces(parts: seq<string>): (r: string)
    ensures parts == [] ==> r == []
    ensures |parts| == 1 ==> r == parts[0]
    ensures |parts| > 1 ==> |r| > |parts[0]| && r[..|parts[0]|] == parts[0] && r[|parts[0]|] == ' '
    ensures forall i :: 0 <= i < |parts| ==> Occurs(parts[i], r)
  {
    if |parts| == 0 then []
    else if |parts| == 1 then assert OccursAt(parts[0], parts[0], 0); parts[0]
    else
      var rest := JoinWithSpaces(parts[1..]);
      var r := parts[0] + " " + rest;
      assert r[..|parts[0]|] == parts[0];
      assert OccursAt(parts[0], r, 0);
      forall i | 1 <= i < |parts|
        ensures Occurs(parts[i], r)
      {
        assert parts[i] == parts[1..][i - 1];
        OccursInRight(parts[i], parts[0] + " ", rest);
      }
      r
  }

  /** The joined text is all whitespace exactly when every part is. */
  lemma {:induction false} JoinAllWhitespace(parts: seq<string>)
    ensures AllWhitespace(JoinWithSpaces(parts)) <==> forall i :: 0 <= i < |parts| ==> AllWhitespace(parts[i])
  {
    if |parts| > 1 {
      JoinAllWhitespace(parts[1..]);
      var rest := JoinWithSpaces(parts[1..]);
      AllWhitespaceConcat(parts[0] + " ", rest);
      AllWhitespaceConcat(parts[0], " ");
      assert forall i :: 0 <= i < |parts| - 1 ==> parts[1..][i] == parts[i + 1];
    }
  }
}
