/**
 * The JavaScript string operations used by the core, on strings modelled
 * as sequences of characters: whitespace and trimming (String.prototype.trim),
 * substring with its clamping, ASCII lower-casing, replacement of the first
 * occurrence of a pattern, padStart, and split on a one-character separator.
 */
module JsText {
  import opened Wrappers

  /**
   * WhiteSpace and LineTerminator of ECMA-262 (sections 12.2 and 12.3):
   * TAB, VT, FF, ZWNBSP, LF, CR, LS, PS and the Unicode space separators.
   */
  predicate IsWhitespace(c: char)
  {
    c == '\t' || c == '\n' || c == '\U{B}' || c == '\U{C}' || c == '\r' ||
    c == ' ' || c == '\U{A0}' || c == '\U{1680}' || ('\U{2000}' <= c <= '\U{200A}') ||
    c == '\U{2028}' || c == '\U{2029}' || c == '\U{202F}' || c == '\U{205F}' ||
    c == '\U{3000}' || c == '\U{FEFF}'
  }

  predicate AllWhitespace(s: string)
  {
    forall i :: 0 <= i < |s| ==> IsWhitespace(s[i])
  }

  /** s without its leading whitespace. */
  function TrimStart(s: string): (r: string)
    ensures |r| <= |s| && r == s[|s| - |r|..]
  {
    if s != [] && IsWhitespace(s[0]) then TrimStart(s[1..]) else s
  }

  /** s without its trailing whitespace. */
  function TrimEnd(s: string): (r: string)
    ensures |r| <= |s| && r == s[..|r|]
  {
    if s != [] && IsWhitespace(s[|s| - 1]) then TrimEnd(s[..|s| - 1]) else s
  }

  /** TrimStart removes exactly the leading whitespace. */
  lemma {:induction false} TrimStartSpec(s: string)
    ensures AllWhitespace(s[..|s| - |TrimStart(s)|])
    ensures TrimStart(s) == [] || !IsWhitespace(TrimStart(s)[0])
  {
    if s != [] && IsWhitespace(s[0]) {
      var u := s[1..];
      TrimStartSpec(u);
      var k := |u| - |TrimStart(u)|;
      WhitespaceCons(s, u, k);
      assert TrimStart(s) == TrimStart(u);
    }
  }

  lemma WhitespaceCons(s: string, u: string, k: nat)
    requires s != [] && u == s[1..] && k <= |u|
    requires IsWhitespace(s[0]) && AllWhitespace(u[..k])
    ensures AllWhitespace(s[..k + 1])
  {
    var t := s[..k + 1];
    forall i | 1 <= i < |t| ensures IsWhitespace(t[i]) {
      assert t[i] == u[..k][i - 1];
    }
  }

  /** TrimEnd removes exactly the trailing whitespace. */
  lemma {:induction false} TrimEndSpec(s: string)
    ensures AllWhitespace(s[|TrimEnd(s)|..])
    ensures TrimEnd(s) == [] || !IsWhitespace(TrimEnd(s)[|TrimEnd(s)| - 1])
  {
    if s != [] && IsWhitespace(s[|s| - 1]) {
      var p := s[..|s| - 1];
      TrimEndSpec(p);
      var k := |TrimEnd(p)|;
      WhitespaceSnoc(s, p, k);
      assert TrimEnd(s) == TrimEnd(p);
    }
  }

  lemma WhitespaceSnoc(s: string, p: string, k: nat)
    requires s != [] && p == s[..|s| - 1] && k <= |p|
    requires IsWhitespace(s[|s| - 1]) && AllWhitespace(p[k..])
    ensures AllWhitespace(s[k..])
  {
    forall i | 0 <= i < |s| - 1 - k ensures IsWhitespace(s[k..][i]) {
      assert s[k..][i] == p[k..][i];
    }
  }

  /** String.prototype.trim: s without leading and trailing whitespace. */
  function Trim(s: string): string
  {
    TrimEnd(TrimStart(s))
  }

  /**
   * trim removes exactly the whitespace at both ends: the result is the
   * slice of s between a whitespace prefix and a whitespace suffix, and it
   * neither starts nor ends with whitespace.
   */
  lemma TrimSpec(s: string)
    ensures |s| - |TrimStart(s)| + |Trim(s)| <= |s|
    ensures Trim(s) == s[|s| - |TrimStart(s)|..|s| - |TrimStart(s)| + |Trim(s)|]
    ensures AllWhitespace(s[..|s| - |TrimStart(s)|])
    ensures AllWhitespace(s[|s| - |TrimStart(s)| + |Trim(s)|..])
    ensures Trim(s) == [] || !IsWhitespace(Trim(s)[0])
    ensures Trim(s) == [] || !IsWhitespace(Trim(s)[|Trim(s)| - 1])
  {
    TrimStartSpec(s);
    TrimInside(s);
    TrimTrailing(s);
    TrimFirst(s);
    TrimLast(s);
  }

  lemma TrimInside(s: string)
    ensures |s| - |TrimStart(s)| + |Trim(s)| <= |s|
    ensures Trim(s) == s[|s| - |TrimStart(s)|..|s| - |TrimStart(s)| + |Trim(s)|]
  {
    PrefixOfTail(s, TrimStart(s), Trim(s));
  }

  /** If t is a suffix of s and r a prefix of t, r is the slice of s where t starts. */
  lemma PrefixOfTail(s: string, t: string, r: string)
    requires |t| <= |s| && t == s[|s| - |t|..] && |r| <= |t| && r == t[..|r|]
    ensures |s| - |t| + |r| <= |s|
    ensures r == s[|s| - |t|..|s| - |t| + |r|]
  {
  }

  lemma TrimTrailing(s: string)
    ensures |s| - |TrimStart(s)| + |Trim(s)| <= |s|
    ensures AllWhitespace(s[|s| - |TrimStart(s)| + |Trim(s)|..])
  {
    var t := TrimStart(s);
    var r := TrimEnd(t);
    TrimEndSpec(t);
    WhitespaceTail(s, |s| - |t|, t, |r|);
  }

  /** If t is s from index a on and t's tail from b is whitespace, so is s's tail from a + b. */
  lemma WhitespaceTail(s: string, a: nat, t: string, b: nat)
    requires a <= |s| && t == s[a..] && b <= |t| && AllWhitespace(t[b..])
    ensures AllWhitespace(s[a + b..])
  {
    assert s[a + b..] == t[b..];
  }

  lemma TrimFirst(s: string)
    ensures Trim(s) == [] || !IsWhitespace(Trim(s)[0])
  {
    var t := TrimStart(s);
    TrimStartSpec(s);
    FirstOfPrefix(t, TrimEnd(t));
  }

  /** A non-empty prefix of t starts with t's first character. */
  lemma FirstOfPrefix(t: string, r: string)
    requires |r| <= |t| && r == t[..|r|]
    ensures r == [] || r[0] == t[0]
  {
  }

  lemma TrimLast(s: string)
    ensures Trim(s) == [] || !IsWhitespace(Trim(s)[|Trim(s)| - 1])
  {
    TrimEndSpec(TrimStart(s));
  }

  lemma {:induction false} TrimStartPrefix(w: string, s: string)
    requires AllWhitespace(w)
    ensures TrimStart(w + s) == TrimStart(s)
  {
    if w != [] {
      assert (w + s)[0] == w[0];
      assert (w + s)[1..] == w[1..] + s;
      TrimStartPrefix(w[1..], s);
    } else {
      assert w + s == s;
    }
  }

  lemma {:induction false} TrimEndSuffix(s: string, w: string)
    requires AllWhitespace(w)
    ensures TrimEnd(s + w) == TrimEnd(s)
  {
    if w != [] {
      assert (s + w)[..|s + w| - 1] == s + w[..|w| - 1];
      TrimEndSuffix(s, w[..|w| - 1]);
    } else {
      assert s + w == s;
    }
  }

  /** Once a string starts with a non-space, appending leaves its TrimStart a prefix. */
  lemma {:induction false} TrimStartAppend(s: string, w: string)
    requires TrimStart(s) != []
    ensures TrimStart(s + w) == TrimStart(s) + w
  {
    assert (s + w)[0] == s[0];
    if IsWhitespace(s[0]) {
      assert TrimStart(s) == TrimStart(s[1..]);
      assert (s + w)[1..] == s[1..] + w;
      TrimStartAppend(s[1..], w);
    } else {
      assert TrimStart(s) == s;
    }
  }

  /** Surrounding whitespace never changes what trim returns. */
  lemma TrimAbsorbsWhitespace(w1: string, s: string, w2: string)
    requires AllWhitespace(w1) && AllWhitespace(w2)
    ensures Trim(w1 + s + w2) == Trim(s)
  {
    AppendAssociative(w1, s, w2);
    TrimStartPrefix(w1, s + w2);
    TrimAbsorbsTrailing(s, w2);
  }

  lemma AppendAssociative(a: string, b: string, c: string)
    ensures a + b + c == a + (b + c)
  {
  }

  lemma TrimAbsorbsTrailing(s: string, w: string)
    requires AllWhitespace(w)
    ensures TrimEnd(TrimStart(s + w)) == TrimEnd(TrimStart(s))
  {
    if TrimStart(s) != [] {
      TrimStartAppend(s, w);
      TrimEndSuffix(TrimStart(s), w);
    } else {
      BlankAppend(s, w);
    }
  }

  /** A string that trims to nothing still does so with whitespace appended. */
  lemma BlankAppend(s: string, w: string)
    requires TrimStart(s) == [] && AllWhitespace(w)
    ensures TrimStart(s + w) == []
  {
    TrimStartSpec(s);
    WhitespaceWhole(s, |s| - |TrimStart(s)|);
    WhitespaceJoin(s, w);
    TrimStartPrefix(s + w, []);
    assert s + w + [] == s + w;
  }

  lemma WhitespaceWhole(s: string, k: nat)
    requires k == |s| && AllWhitespace(s[..k])
    ensures AllWhitespace(s)
  {
    assert s[..k] == s;
  }

  lemma WhitespaceJoin(a: string, b: string)
    requires AllWhitespace(a) && AllWhitespace(b)
    ensures AllWhitespace(a + b)
  {
  }

  /** Clamping of an argument of String.prototype.substring to 0..len. */
  function ClampIndex(k: int, len: nat): (r: nat)
    ensures r <= len
  {
    if k < 0 then 0 else if k > len then len else k
  }

  /**
   * String.prototype.substring(start, end) (section 22.1.3.25 of ECMA-262):
   * both arguments are clamped to 0..|s| and swapped when out of order.
   */
  function Substring(s: string, start: int, end: int): (r: string)
    ensures var a, b := ClampIndex(start, |s|), ClampIndex(end, |s|);
      |r| == (if a <= b then b - a else a - b)
    ensures var lo := if ClampIndex(start, |s|) <= ClampIndex(end, |s|) then ClampIndex(start, |s|) else ClampIndex(end, |s|);
      forall i :: 0 <= i < |r| ==> r[i] == s[lo + i]
  {
    var a, b := ClampIndex(start, |s|), ClampIndex(end, |s|);
    if a <= b then s[a..b] else s[b..a]
  }

  /** Lower-casing of one character, for the ASCII letters A..Z. */
  function LowerChar(c: char): (r: char)
    ensures 'A' <= c <= 'Z' ==> 'a' <= r <= 'z' && r as int - c as int == 32
    ensures !('A' <= c <= 'Z') ==> r == c
  {
    if 'A' <= c <= 'Z' then (c as int + 32) as char else c
  }

  /** String.prototype.toLowerCase, restricted to ASCII letters. */
  function ToLower(s: string): (r: string)
    ensures |r| == |s| && forall i :: 0 <= i < |s| ==> r[i] == LowerChar(s[i])
  {
    seq(|s|, i requires 0 <= i < |s| => LowerChar(s[i]))
  }

  predicate OccursAt(s: string, pat: string, k: nat)
  {
    k + |pat| <= |s| && s[k..k + |pat|] == pat
  }

  /** The first index at or after from where pat occurs in s. */
  function FindFrom(s: string, pat: string, from: nat): (r: Option<nat>)
    ensures r.Some? ==>
      && from <= r.value && OccursAt(s, pat, r.value)
      && forall j :: from <= j < r.value ==> !OccursAt(s, pat, j)
    ensures r.None? ==> forall j :: from <= j ==> !OccursAt(s, pat, j)
    decreases |s| - from
  {
    if from + |pat| > |s| then None
    else if s[from..from + |pat|] == pat then Some(from)
    else FindFrom(s, pat, from + 1)
  }

  /** String.prototype.indexOf(pat), with None for -1. */
  function IndexOf(s: string, pat: string): (r: Option<nat>)
    ensures r.Some? ==> OccursAt(s, pat, r.value) && forall j :: 0 <= j < r.value ==> !OccursAt(s, pat, j)
    ensures r.None? ==> forall j: nat :: !OccursAt(s, pat, j)
  {
    FindFrom(s, pat, 0)
  }

  /** String.prototype.replace with a string pattern: only the first occurrence is replaced. */
  function ReplaceFirst(s: string, pat: string, rep: string): (r: string)
    ensures IndexOf(s, pat).None? ==> r == s
    ensures IndexOf(s, pat).Some? ==> var k := IndexOf(s, pat).value;
      r == s[..k] + rep + s[k + |pat|..]
  {
    match IndexOf(s, pat)
    case None => s
    case Some(k) => s[..k] + rep + s[k + |pat|..]
  }

  function Repeat(c: char, n: nat): (r: string)
    ensures |r| == n && forall i :: 0 <= i < n ==> r[i] == c
  {
    if n == 0 then [] else [c] + Repeat(c, n - 1)
  }

  /** String.prototype.padStart(n, [c]): pads on the left up to length n and never truncates. */
  function PadStart(s: string, n: nat, c: char): (r: string)
    ensures |r| == if |s| >= n then |s| else n
    ensures r[|r| - |s|..] == s
    ensures forall i :: 0 <= i < |r| - |s| ==> r[i] == c
  {
    if |s| >= n then s else Repeat(c, n - |s|) + s
  }

  /** Number of occurrences of c in s. */
  function Count(s: string, c: char): nat
  {
    if s == [] then 0 else (if s[0] == c then 1 else 0) + Count(s[1..], c)
  }

  /** String.prototype.split with a one-character separator. */
  function Split(s: string, sep: char): (parts: seq<string>)
    ensures |parts| >= 1
  {
    if s == [] then [""]
    else
      var rest := Split(s[1..], sep);
      if s[0] == sep then [""] + rest else [[s[0]] + rest[0]] + rest[1..]
  }

  /** Array.prototype.join with a one-character separator. */
  function Join(parts: seq<string>, sep: char): string
    requires |parts| >= 1
  {
    if |parts| == 1 then parts[0] else parts[0] + [sep] + Join(parts[1..], sep)
  }

  /** split then join gives the string back. */
  lemma {:induction false} JoinSplit(s: string, sep: char)
    ensures Join(Split(s, sep), sep) == s
  {
    if s != [] {
      JoinSplit(s[1..], sep);
      var rest := Split(s[1..], sep);
      if s[0] != sep {
        var parts := [[s[0]] + rest[0]] + rest[1..];
        if |rest| > 1 {
          assert parts[1..] == rest[1..];
          assert Join(rest, sep) == rest[0] + [sep] + Join(rest[1..], sep);
        }
      } else {
        assert ([""] + rest)[1..] == rest;
      }
    }
  }

  /** split yields one more piece than there are separators, and no piece holds one. */
  lemma {:induction false} SplitCount(s: string, sep: char)
    ensures |Split(s, sep)| == Count(s, sep) + 1
    ensures forall k :: 0 <= k < |Split(s, sep)| ==> sep !in Split(s, sep)[k]
  {
    if s != [] {
      SplitCount(s[1..], sep);
      var rest := Split(s[1..], sep);
      if s[0] != sep {
        assert sep !in rest[0];
        var parts := Split(s, sep);
        forall k | 0 <= k < |parts| ensures sep !in parts[k] {
          if k > 0 { assert parts[k] == rest[k]; }
        }
      }
    }
  }

  /** join then split gives the pieces back when none of them holds the separator. */
  lemma {:induction false} SplitJoin(parts: seq<string>, sep: char)
    requires |parts| >= 1
    requires forall k :: 0 <= k < |parts| ==> sep !in parts[k]
    ensures Split(Join(parts, sep), sep) == parts
  {
    if |parts| == 1 {
      SplitNoSeparator(parts[0], sep);
    } else {
      SplitJoin(parts[1..], sep);
      SplitAfterPiece(parts[0], Join(parts[1..], sep), sep);
      assert [parts[0]] + parts[1..] == parts;
    }
  }

  lemma {:induction false} SplitNoSeparator(s: string, sep: char)
    requires sep !in s
    ensures Split(s, sep) == [s]
  {
    if s != [] {
      SplitNoSeparator(s[1..], sep);
      assert [s[0]] + s[1..] == s;
    }
  }

  lemma {:induction false} SplitAfterPiece(p: string, t: string, sep: char)
    requires sep !in p
    ensures Split(p + [sep] + t, sep) == [p] + Split(t, sep)
  {
    if p == [] {
      assert p + [sep] + t == [sep] + t;
      assert ([sep] + t)[1..] == t;
    } else {
      assert (p + [sep] + t)[0] == p[0];
      assert (p + [sep] + t)[1..] == p[1..] + [sep] + t;
      SplitAfterPiece(p[1..], t, sep);
      assert [p[0]] + p[1..] == p;
    }
  }
}
