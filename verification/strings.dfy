/** The JavaScript string operations the compilers and validators rely on:
    number formatting, `split`/`join`, `toLowerCase`, `startsWith`, `replace`
    with a string pattern, `padStart` and `trim`. */
module Strings {
  import opened Wrappers

  predicate IsDigit(c: char) { '0' <= c <= '9' }

  predicate AllDigits(s: string) { forall i :: 0 <= i < |s| ==> IsDigit(s[i]) }

  function DigitChar(d: nat): (c: char)
    requires d < 10
    ensures IsDigit(c)
  {
    (d + '0' as int) as char
  }

  function DigitValue(c: char): nat
    requires IsDigit(c)
  {
    c as int - '0' as int
  }

  /** Decimal rendering of a non-negative integer, as `String(n)` does. */
  function NatToString(n: nat): (s: string)
    ensures 1 <= |s|
    ensures AllDigits(s)
    ensures |s| > 1 ==> s[0] != '0'
  {
    if n < 10 then [DigitChar(n)] else NatToString(n / 10) + [DigitChar(n % 10)]
  }

  /** The value a string of decimal digits denotes. */
  function DigitsValue(s: string): nat
    requires AllDigits(s)
  {
    if |s| == 0 then 0 else 10 * DigitsValue(s[..|s| - 1]) + DigitValue(s[|s| - 1])
  }

  /** Rendering a natural number and reading it back gives the number. */
  lemma {:induction false} NatToStringRoundTrip(n: nat)
    ensures DigitsValue(NatToString(n)) == n
  {
    if n >= 10 {
      var s := NatToString(n);
      assert s[..|s| - 1] == NatToString(n / 10);
      NatToStringRoundTrip(n / 10);
    }
  }

  /** Decimal rendering of an integer, with a leading `-` when negative. */
  function IntToString(i: int): string
  {
    if i < 0 then "-" + NatToString(-i) else NatToString(i)
  }

  // ---------------------------------------------------------------------------
  // Searching and splitting

  /** The first position of `c` in `s`. */
  function IndexOf(s: string, c: char): (k: nat)
    requires c in s
    ensures k < |s| && s[k] == c && c !in s[..k]
  {
    if s[0] == c then 0 else 1 + IndexOf(s[1..], c)
  }

  /** After the first `c` there is one `c` fewer. */
  lemma {:induction false} CountAfterFirst(s: string, c: char)
    requires c in s
    ensures CountChar(s[IndexOf(s, c) + 1..], c) == CountChar(s, c) - 1
  {
    if s[0] != c {
      assert c in s[1..];
      CountAfterFirst(s[1..], c);
      assert s[1..][IndexOf(s[1..], c) + 1..] == s[IndexOf(s, c) + 1..];
    }
  }

  /** The last position of `c` in `s`, if any. */
  function LastIndexOf(s: string, c: char): (r: Option<nat>)
    ensures r.None? <==> c !in s
    ensures r.Some? ==> r.value < |s| && s[r.value] == c && c !in s[r.value + 1..]
  {
    if |s| == 0 then None
    else if s[|s| - 1] == c then Some(|s| - 1)
    else
      var r := LastIndexOf(s[..|s| - 1], c);
      assert r.Some? ==> s[r.value + 1..] == s[..|s| - 1][r.value + 1..] + [s[|s| - 1]];
      assert c in s[..|s| - 1] <==> c in s;
      r
  }

  /** The number of occurrences of `c` in `s`. */
  function CountChar(s: string, c: char): nat
  {
    if |s| == 0 then 0 else (if s[0] == c then 1 else 0) + CountChar(s[1..], c)
  }

  lemma {:induction false} CountCharZero(s: string, c: char)
    ensures CountChar(s, c) == 0 <==> c !in s
  {
    if |s| > 0 {
      CountCharZero(s[1..], c);
    }
  }

  lemma {:induction false} CountCharAppend(a: string, b: string, c: char)
    ensures CountChar(a + b, c) == CountChar(a, c) + CountChar(b, c)
  {
    if |a| == 0 {
      assert a + b == b;
    } else {
      assert (a + b)[1..] == a[1..] + b;
      CountCharAppend(a[1..], b, c);
    }
  }

  /** `s.split(sep)` for a one-character separator. */
  function Split(s: string, sep: char): (parts: seq<string>)
    ensures 1 <= |parts|
    decreases |s|
  {
    if sep !in s then [s]
    else
      var k := IndexOf(s, sep);
      [s[..k]] + Split(s[k + 1..], sep)
  }

  /** `parts.join(sep)`. */
  function Join(parts: seq<string>, sep: char): string
  {
    if |parts| == 0 then ""
    else if |parts| == 1 then parts[0]
    else parts[0] + [sep] + Join(parts[1..], sep)
  }

  /** Splitting at a separator-free head peels that head off. */
  lemma SplitCons(a: string, sep: char, b: string)
    requires sep !in a
    ensures Split(a + [sep] + b, sep) == [a] + Split(b, sep)
  {
    var s := a + [sep] + b;
    assert s[|a|] == sep;
    var k := IndexOf(s, sep);
    assert s[..|a|] == a;
    assert k == |a|;
    assert s[k + 1..] == b;
  }

  /** Joining the parts of a split restores the string. */
  lemma {:induction false} JoinSplit(s: string, sep: char)
    ensures Join(Split(s, sep), sep) == s
    decreases |s|
  {
    if sep in s {
      var k := IndexOf(s, sep);
      var t := s[k + 1..];
      JoinSplit(t, sep);
      var ps := Split(t, sep);
      assert Split(s, sep) == [s[..k]] + ps;
      hide Split, IndexOf;
      JoinCons(s[..k], ps, sep);
      CutAt(s, k);
    } else {
      assert Split(s, sep) == [s];
    }
  }

  lemma JoinCons(a: string, parts: seq<string>, sep: char)
    requires |parts| > 0
    ensures Join([a] + parts, sep) == a + [sep] + Join(parts, sep)
  {
    assert ([a] + parts)[1..] == parts;
  }

  /** A string is its part before position `i`, the character there, and the rest. */
  lemma CutAt(s: string, i: nat)
    requires i < |s|
    ensures s == s[..i] + [s[i]] + s[i + 1..]
  {
  }

  /** A split has one more part than there are separators. */
  lemma {:induction false} SplitLength(s: string, sep: char)
    ensures |Split(s, sep)| == CountChar(s, sep) + 1
    decreases |s|
  {
    if sep !in s {
      CountCharZero(s, sep);
    } else {
      var k := IndexOf(s, sep);
      SplitLength(s[k + 1..], sep);
      assert s == s[..k] + ([sep] + s[k + 1..]);
      CountCharAppend(s[..k], [sep] + s[k + 1..], sep);
      CountCharZero(s[..k], sep);
      assert ([sep] + s[k + 1..])[1..] == s[k + 1..];
    }
  }

  /** The last element of a non-empty sequence, as `pop()` returns it. */
  function Last<T>(xs: seq<T>): T
    requires |xs| > 0
  {
    xs[|xs| - 1]
  }

  /** `p` is a separator-free suffix of `s`, preceded by a separator unless it is all of `s`. */
  predicate SuffixAfterSep(s: string, sep: char, p: string)
  {
    && |p| <= |s| && sep !in p && p == s[|s| - |p|..]
    && (|p| < |s| ==> s[|s| - |p| - 1] == sep)
  }

  /** The last part of a split is the longest separator-free suffix. */
  lemma {:induction false} SplitLastIsSuffix(s: string, sep: char)
    ensures SuffixAfterSep(s, sep, Last(Split(s, sep)))
    decreases |s|
  {
    if sep in s {
      var k := IndexOf(s, sep);
      var t := s[k + 1..];
      SplitLastIsSuffix(t, sep);
      SplitTailLast(s, sep);
      var p := Last(Split(t, sep));
      hide Split, IndexOf, Last;
      SuffixPastSeparator(s, sep, k, p);
    } else {
      assert Split(s, sep) == [s];
      assert Last(Split(s, sep)) == s;
      hide Split, Last;
      assert s[|s| - |s|..] == s;
    }
  }

  /** A suffix of the right shape of the text after a separator at `k` is one of the
      whole text too. */
  lemma SuffixPastSeparator(s: string, sep: char, k: nat, p: string)
    requires k < |s| && s[k] == sep
    requires SuffixAfterSep(s[k + 1..], sep, p)
    ensures |p| < |s| && SuffixAfterSep(s, sep, p)
  {
    var t := s[k + 1..];
    var m := |s| - |p|;
    assert m == k + 1 + (|t| - |p|);
    forall i | 0 <= i < |p| ensures p[i] == s[m + i] {
      assert p[i] == t[|t| - |p| + i];
    }
    assert p == s[m..];
    if |p| < |t| {
      assert t[|t| - |p| - 1] == s[m - 1];
    }
  }

  lemma LastAfterHead<T>(x: T, xs: seq<T>)
    requires |xs| > 0
    ensures Last([x] + xs) == Last(xs)
  {
  }

  /** Past the first separator, a split ends with the same part. */
  lemma SplitTailLast(s: string, sep: char)
    requires sep in s
    ensures Last(Split(s, sep)) == Last(Split(s[IndexOf(s, sep) + 1..], sep))
  {
    var pt := Split(s[IndexOf(s, sep) + 1..], sep);
    LastAfterHead(s[..IndexOf(s, sep)], pt);
  }

  // ---------------------------------------------------------------------------
  // Case, prefixes and replacement

  /** `toLowerCase` on one character; only ASCII letters change. */
  function LowerChar(c: char): char
  {
    if 'A' <= c <= 'Z' then (c as int + 32) as char else c
  }

  function ToLower(s: string): (r: string)
    ensures |r| == |s|
    ensures forall i :: 0 <= i < |s| ==> r[i] == LowerChar(s[i])
  {
    if |s| == 0 then "" else [LowerChar(s[0])] + ToLower(s[1..])
  }

  lemma ToLowerAppend(a: string, b: string)
    ensures ToLower(a + b) == ToLower(a) + ToLower(b)
  {
  }

  predicate StartsWith(s: string, p: string)
  {
    |p| <= |s| && s[..|p|] == p
  }

  predicate EndsWith(s: string, p: string)
  {
    |p| <= |s| && s[|s| - |p|..] == p
  }

  predicate OccursAt(s: string, p: string, i: nat)
  {
    i + |p| <= |s| && s[i..i + |p|] == p
  }

  /** The first position at which `p` occurs in `s`, if any (`indexOf`). */
  function FindFirst(s: string, p: string): (r: Option<nat>)
    ensures r.Some? ==> OccursAt(s, p, r.value)
    ensures r.Some? ==> forall j :: 0 <= j < r.value ==> !OccursAt(s, p, j)
    ensures r.None? ==> forall j :: 0 <= j <= |s| ==> !OccursAt(s, p, j)
  {
    if StartsWith(s, p) then Some(0)
    else if |s| == 0 then None
    else
      var r := FindFirst(s[1..], p);
      assert forall j :: 0 < j <= |s| ==> (OccursAt(s, p, j) <==> OccursAt(s[1..], p, j - 1));
      match r
      case None => None
      case Some(k) => Some(k + 1)
  }

  /** `s.replace(p, q)` with a string pattern: only the first occurrence is replaced. */
  function ReplaceFirst(s: string, p: string, q: string): string
  {
    match FindFirst(s, p)
    case None => s
    case Some(i) => s[..i] + q + s[i + |p|..]
  }

  /** `s.padStart(n, c)`. */
  function PadStart(s: string, n: nat, c: char): (r: string)
    ensures |r| == if |s| >= n then |s| else n
    ensures EndsWith(r, s)
    ensures forall i :: 0 <= i < |r| - |s| ==> r[i] == c
  {
    if |s| >= n then s
    else
      var pad := seq(n - |s|, _ => c);
      assert (pad + s)[|pad + s| - |s|..] == s;
      pad + s
  }

  // ---------------------------------------------------------------------------
  // Whitespace

  /** The characters `String.prototype.trim` removes: ECMAScript WhiteSpace and LineTerminator. */
  predicate IsJsSpace(c: char)
  {
    || c == '\t' || c == '\n' || c == '\U{000B}' || c == '\U{000C}' || c == '\r'
    || c == ' ' || c == '\U{00A0}' || c == '\U{1680}'
    || ('\U{2000}' <= c <= '\U{200A}')
    || c == '\U{2028}' || c == '\U{2029}' || c == '\U{202F}' || c == '\U{205F}'
    || c == '\U{3000}' || c == '\U{FEFF}'
  }

  function TrimStart(s: string): (r: string)
    ensures EndsWith(s, r)
    ensures |r| > 0 ==> !IsJsSpace(r[0])
    ensures forall i :: 0 <= i < |s| - |r| ==> IsJsSpace(s[i])
  {
    if |s| > 0 && IsJsSpace(s[0]) then TrimStart(s[1..]) else s
  }

  function TrimEnd(s: string): (r: string)
    ensures StartsWith(s, r)
    ensures |r| > 0 ==> !IsJsSpace(r[|r| - 1])
    ensures forall i :: |r| <= i < |s| ==> IsJsSpace(s[i])
  {
    if |s| > 0 && IsJsSpace(s[|s| - 1]) then TrimEnd(s[..|s| - 1]) else s
  }

  /** `s.trim()`. */
  function Trim(s: string): string
  {
    TrimEnd(TrimStart(s))
  }

  /** Trimming leaves nothing exactly when every character is whitespace. */
  lemma TrimEmptyIffBlank(s: string)
    ensures Trim(s) == "" <==> forall i :: 0 <= i < |s| ==> IsJsSpace(s[i])
  {
    var t := TrimStart(s);
    if Trim(s) == "" {
      assert |t| == 0;
    } else {
      var r := Trim(s);
      assert !IsJsSpace(r[0]);
      assert r[0] == t[0] == s[|s| - |t|];
    }
  }
}
