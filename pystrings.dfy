/** The operations on Python `str` values that the bot and the validator use, with
    CPython 3 semantics. A Python string is a `seq<char>` of Unicode scalar values. */
module PyStrings {

  /** The characters for which `str.isspace()` holds; `str.strip()` without an
      argument removes exactly these from both ends. */
  const Whitespace: set<char> := {
    '\t', '\n', '\U{B}', '\U{C}', '\r', '\U{1C}', '\U{1D}', '\U{1E}', '\U{1F}', ' ',
    '\U{85}', '\U{A0}', '\U{1680}',
    '\U{2000}', '\U{2001}', '\U{2002}', '\U{2003}', '\U{2004}', '\U{2005}',
    '\U{2006}', '\U{2007}', '\U{2008}', '\U{2009}', '\U{200A}',
    '\U{2028}', '\U{2029}', '\U{202F}', '\U{205F}', '\U{3000}'
  }

  /** `s.lstrip(chars)`: the longest prefix made of characters of `chars` is dropped. */
  function LStrip(s: string, chars: set<char>): (r: string)
    ensures |r| <= |s|
  {
    if |s| > 0 && s[0] in chars then LStrip(s[1..], chars) else s
  }

  /** `s.rstrip(chars)`: the longest suffix made of characters of `chars` is dropped. */
  function RStrip(s: string, chars: set<char>): (r: string)
    ensures |r| <= |s|
  {
    if |s| > 0 && s[|s| - 1] in chars then RStrip(s[..|s| - 1], chars) else s
  }

  /** `lstrip` keeps a suffix, drops only characters of `chars`, and stops at one that is not. */
  lemma {:induction false} LStripFacts(s: string, chars: set<char>)
    ensures var r := LStrip(s, chars);
      r == s[|s| - |r|..]
      && (r == [] || r[0] !in chars)
      && (forall i :: 0 <= i < |s| - |r| ==> s[i] in chars)
  {
    if |s| > 0 && s[0] in chars {
      LStripFacts(s[1..], chars);
      var r := LStrip(s, chars);
      forall i | 0 <= i < |s| - |r| ensures s[i] in chars {
        if i > 0 { assert s[i] == s[1..][i - 1]; }
      }
    }
  }

  /** `rstrip` keeps a prefix, drops only characters of `chars`, and stops at one that is not. */
  lemma {:induction false} RStripFacts(s: string, chars: set<char>)
    ensures var r := RStrip(s, chars);
      r == s[..|r|]
      && (r == [] || r[|r| - 1] !in chars)
      && (forall i :: |r| <= i < |s| ==> s[i] in chars)
  {
    if |s| > 0 && s[|s| - 1] in chars {
      RStripFacts(s[..|s| - 1], chars);
      var r := RStrip(s, chars);
      forall i | |r| <= i < |s| ensures s[i] in chars {
        if i < |s| - 1 { assert s[i] == s[..|s| - 1][i]; }
      }
    }
  }

  /** `s.strip(chars)`. */
  function StripChars(s: string, chars: set<char>): string
  {
    RStrip(LStrip(s, chars), chars)
  }

  /** `s.strip()`. */
  function Strip(s: string): string
  {
    StripChars(s, Whitespace)
  }

  /** Stripping keeps the slice `s[i..i + |r|]` of `s`, whose ends are not stripped
      characters, and removes only stripped characters. */
  lemma StripCharsSlice(s: string, chars: set<char>) returns (i: nat)
    ensures var r := StripChars(s, chars);
      i <= |s| - |r| && r == s[i..i + |r|]
      && (forall k :: 0 <= k < i ==> s[k] in chars)
      && (forall k :: i + |r| <= k < |s| ==> s[k] in chars)
    ensures var r := StripChars(s, chars); r == [] || (r[0] !in chars && r[|r| - 1] !in chars)
  {
    var l := LStrip(s, chars);
    LStripFacts(s, chars);
    var r := RStrip(l, chars);
    RStripFacts(l, chars);
    assert r == StripChars(s, chars);
    i := |s| - |l|;
    assert l == s[i..];
    assert r == l[..|r|];
    assert r == s[i..i + |r|];
    forall k | i + |r| <= k < |s| ensures s[k] in chars {
      assert |r| <= k - i < |l|;
      assert s[k] == l[k - i];
    }
    if r != [] {
      assert r[0] == l[0];
    }
  }

  /** A character that is not stripped survives stripping. */
  lemma StripKeepsInner(s: string, chars: set<char>, c: char)
    requires c in s && c !in chars
    ensures c in StripChars(s, chars)
  {
    var i := StripCharsSlice(s, chars);
    var r := StripChars(s, chars);
    var j :| 0 <= j < |s| && s[j] == c;
    assert i <= j < i + |r|;
    assert r[j - i] == c;
  }

  /** Stripping twice strips nothing more. */
  lemma {:induction false} StripIdempotent(s: string, chars: set<char>)
    ensures StripChars(StripChars(s, chars), chars) == StripChars(s, chars)
  {
    var r := StripChars(s, chars);
    var i := StripCharsSlice(s, chars);
    LStripFacts(r, chars);
    RStripFacts(r, chars);
    if r != [] {
      assert LStrip(r, chars) == r;
      assert RStrip(r, chars) == r;
    }
  }

  /** `needle in hay` for two strings: `needle` occurs as a contiguous substring. */
  predicate Contains(hay: string, needle: string)
  {
    exists i | 0 <= i <= |hay| - |needle| :: OccursAt(hay, needle, i)
  }

  /** `needle` occurs in `hay` starting at index `i`. */
  predicate OccursAt(hay: string, needle: string, i: int)
  {
    0 <= i <= |hay| - |needle| && hay[i..i + |needle|] == needle
  }

  /** Every string contains itself. */
  lemma ContainsSelf(s: string)
    ensures Contains(s, s)
  {
    assert s[0..0 + |s|] == s;
    assert OccursAt(s, s, 0);
  }

  /** A one-character needle is contained exactly when the character occurs. */
  lemma ContainsChar(hay: string, c: char)
    ensures Contains(hay, [c]) <==> c in hay
  {
    if c in hay {
      var i :| 0 <= i < |hay| && hay[i] == c;
      assert hay[i..i + |[c]|] == [c];
      assert OccursAt(hay, [c], i);
    }
    if Contains(hay, [c]) {
      var i :| 0 <= i <= |hay| - |[c]| && OccursAt(hay, [c], i);
      assert hay[i..i + 1] == [c];
      assert hay[i] == c;
    }
  }

  /** `s.startswith(p)`. */
  predicate StartsWith(s: string, p: string)
  {
    |p| <= |s| && s[..|p|] == p
  }

  /** `s.endswith(p)`. */
  predicate EndsWith(s: string, p: string)
  {
    |p| <= |s| && s[|s| - |p|..] == p
  }

  /** `s.find(c)` for a single character: the first index of `c`, or -1. */
  function IndexOf(s: string, c: char): (i: int)
    ensures -1 <= i < |s|
    ensures i == -1 <==> c !in s
    ensures i >= 0 ==> s[i] == c && c !in s[..i]
  {
    if |s| == 0 then -1
    else if s[0] == c then 0
    else
      var j := IndexOf(s[1..], c);
      assert s[1..][..if j < 0 then 0 else j] == s[1..1 + (if j < 0 then 0 else j)];
      if j == -1 then -1 else j + 1
  }

  /** The first `c` of `a + [c] + b` is the one after `a` when `a` has none. */
  lemma {:induction false} IndexOfAfter(a: string, c: char, b: string)
    requires c !in a
    ensures IndexOf(a + [c] + b, c) == |a|
  {
    if |a| > 0 {
      IndexOfAfter(a[1..], c, b);
      assert (a + [c] + b)[1..] == a[1..] + [c] + b;
    }
  }

  /** `s.rfind(c)` for a single character: the last index of `c`, or -1. */
  function LastIndexOf(s: string, c: char): (i: int)
    ensures -1 <= i < |s|
    ensures i >= 0 ==> s[i] == c
    ensures forall k :: i < k < |s| ==> s[k] != c
  {
    if |s| == 0 then -1
    else if s[|s| - 1] == c then |s| - 1
    else LastIndexOf(s[..|s| - 1], c)
  }

  /** `s.split(sep)` for a one-character separator. */
  function Split(s: string, sep: char): (parts: seq<string>)
    ensures |parts| >= 1
    ensures forall k :: 0 <= k < |parts| ==> sep !in parts[k]
  {
    if |s| == 0 then [""]
    else
      var rest := Split(s[1..], sep);
      if s[0] == sep then [""] + rest else [[s[0]] + rest[0]] + rest[1..]
  }

  /** `sep.join(parts)` for a one-character separator. */
  function Join(parts: seq<string>, sep: char): string
  {
    if |parts| == 0 then ""
    else if |parts| == 1 then parts[0]
    else parts[0] + [sep] + Join(parts[1..], sep)
  }

  /** Splitting and rejoining gives back the original string. */
  lemma {:induction false} JoinSplit(s: string, sep: char)
    ensures Join(Split(s, sep), sep) == s
  {
    if |s| > 0 {
      var rest := Split(s[1..], sep);
      JoinSplit(s[1..], sep);
      if s[0] == sep {
        assert Split(s, sep) == [""] + rest;
        assert ([""] + rest)[1..] == rest;
      } else {
        var parts := [[s[0]] + rest[0]] + rest[1..];
        assert Split(s, sep) == parts;
        if |rest| > 1 {
          assert parts[1..] == rest[1..];
          assert Join(rest, sep) == rest[0] + [sep] + Join(rest[1..], sep);
        }
      }
    }
  }

  /** Joining parts that do not contain the separator and splitting again recovers the parts. */
  lemma {:induction false} SplitJoin(parts: seq<string>, sep: char)
    requires |parts| >= 1
    requires forall k :: 0 <= k < |parts| ==> sep !in parts[k]
    ensures Split(Join(parts, sep), sep) == parts
  {
    if |parts| == 1 {
      SplitNoSep(parts[0], sep);
    } else {
      SplitJoin(parts[1..], sep);
      SplitAfterSep(parts[0], Join(parts[1..], sep), sep);
      assert Join(parts, sep) == parts[0] + [sep] + Join(parts[1..], sep);
      assert [parts[0]] + parts[1..] == parts;
    }
  }

  lemma {:induction false} SplitNoSep(s: string, sep: char)
    requires sep !in s
    ensures Split(s, sep) == [s]
  {
    if |s| > 0 {
      SplitNoSep(s[1..], sep);
      assert [s[0]] + s[1..] == s;
    }
  }

  lemma {:induction false} SplitAfterSep(a: string, b: string, sep: char)
    requires sep !in a
    ensures Split(a + [sep] + b, sep) == [a] + Split(b, sep)
  {
    if |a| == 0 {
      assert a + [sep] + b == [sep] + b;
      assert ([sep] + b)[1..] == b;
    } else {
      var s := a + [sep] + b;
      SplitAfterSep(a[1..], b, sep);
      assert s[1..] == a[1..] + [sep] + b;
      var rest := Split(s[1..], sep);
      assert rest == [a[1..]] + Split(b, sep);
      assert s[0] == a[0] && a[0] != sep;
      assert Split(s, sep) == [[a[0]] + rest[0]] + rest[1..];
      assert rest[0] == a[1..] && rest[1..] == Split(b, sep);
      assert [a[0]] + a[1..] == a;
    }
  }

  /** The text of `s` before its first `sep`, or all of `s` when it has none. */
  function FirstField(s: string, sep: char): (r: string)
    ensures sep !in r
    ensures StartsWith(s, r)
  {
    var i := IndexOf(s, sep);
    if i < 0 then s else s[..i]
  }

  /** The parts of `s.split(sep)`: the first is the text before the first separator, and
      when there is a separator the remaining parts are the split of what follows it. */
  lemma SplitFirst(s: string, sep: char)
    ensures Split(s, sep)[0] == FirstField(s, sep)
    ensures |Split(s, sep)| >= 2 <==> sep in s
    ensures sep in s ==> Split(s, sep)[1..] == Split(s[IndexOf(s, sep) + 1..], sep)
  {
    if sep !in s {
      SplitNoSep(s, sep);
    } else {
      var i := IndexOf(s, sep);
      SplitAt(s, i, sep);
    }
  }

  /** Splitting at the first separator, at index `i`. */
  lemma SplitAt(s: string, i: nat, sep: char)
    requires i < |s| && s[i] == sep && sep !in s[..i]
    ensures Split(s, sep) == [s[..i]] + Split(s[i + 1..], sep)
  {
    var a, b := s[..i], s[i + 1..];
    assert s == a + [sep] + b;
    SplitAfterSep(a, b, sep);
  }

  /** `s.count(c)` for a single character. */
  function CountChar(s: string, c: char): nat
  {
    if |s| == 0 then 0 else (if s[|s| - 1] == c then 1 else 0) + CountChar(s[..|s| - 1], c)
  }

  /** `s.split(sep)` has one more part than `s` has separators. */
  lemma {:induction false} SplitCount(s: string, sep: char)
    ensures |Split(s, sep)| == CountChar(s, sep) + 1
  {
    if |s| > 0 {
      SplitCount(s[1..], sep);
      CountCharFront(s, sep);
    }
  }

  lemma {:induction false} CountCharFront(s: string, c: char)
    requires |s| > 0
    ensures CountChar(s, c) == (if s[0] == c then 1 else 0) + CountChar(s[1..], c)
  {
    if |s| > 1 {
      CountCharFront(s[..|s| - 1], c);
      assert s[..|s| - 1][1..] == s[1..][..|s| - 2];
      assert s[..|s| - 1][0] == s[0];
    }
  }

  /** `s.replace(c, "")` for a single character `c`. */
  function RemoveChar(s: string, c: char): (r: string)
    ensures |r| <= |s|
    ensures c !in r
    ensures forall x :: x != c ==> (x in r <==> x in s)
  {
    if |s| == 0 then "" else (if s[0] == c then "" else [s[0]]) + RemoveChar(s[1..], c)
  }

  /** `s.replace(a, b)` for single characters `a` and `b`. */
  function ReplaceChar(s: string, a: char, b: char): (r: string)
    ensures |r| == |s|
    ensures forall i :: 0 <= i < |s| ==> r[i] == (if s[i] == a then b else s[i])
  {
    if |s| == 0 then "" else [if s[0] == a then b else s[0]] + ReplaceChar(s[1..], a, b)
  }

  /** `"".join(parts)`. */
  function Concat(parts: seq<string>): string
  {
    if |parts| == 0 then "" else Concat(parts[..|parts| - 1]) + parts[|parts| - 1]
  }

  /** The decimal digit character for `d`. */
  function DigitChar(d: nat): (c: char)
    requires d < 10
    ensures IsDigit(c) && c as int - '0' as int == d
  {
    (d + '0' as int) as char
  }

  predicate IsDigit(c: char)
  {
    '0' as int <= c as int <= '9' as int
  }

  /** `\d` in a `str` pattern, and `str.isdecimal`: a character of Unicode category Nd
      (a decimal digit of any script), by the ranges of Unicode 15.0, the table of
      Python 3.12. */
  predicate IsDecimal(c: char)
  {
    var n := c as int;
    0x30 <= n <= 0x39 || 0x660 <= n <= 0x669 || 0x6F0 <= n <= 0x6F9 || 0x7C0 <= n <= 0x7C9
    || 0x966 <= n <= 0x96F || 0x9E6 <= n <= 0x9EF || 0xA66 <= n <= 0xA6F || 0xAE6 <= n <= 0xAEF
    || 0xB66 <= n <= 0xB6F || 0xBE6 <= n <= 0xBEF || 0xC66 <= n <= 0xC6F || 0xCE6 <= n <= 0xCEF
    || 0xD66 <= n <= 0xD6F || 0xDE6 <= n <= 0xDEF || 0xE50 <= n <= 0xE59 || 0xED0 <= n <= 0xED9
    || 0xF20 <= n <= 0xF29 || 0x1040 <= n <= 0x1049 || 0x1090 <= n <= 0x1099 || 0x17E0 <= n <= 0x17E9
    || 0x1810 <= n <= 0x1819 || 0x1946 <= n <= 0x194F || 0x19D0 <= n <= 0x19D9 || 0x1A80 <= n <= 0x1A89
    || 0x1A90 <= n <= 0x1A99 || 0x1B50 <= n <= 0x1B59 || 0x1BB0 <= n <= 0x1BB9 || 0x1C40 <= n <= 0x1C49
    || 0x1C50 <= n <= 0x1C59 || 0xA620 <= n <= 0xA629 || 0xA8D0 <= n <= 0xA8D9 || 0xA900 <= n <= 0xA909
    || 0xA9D0 <= n <= 0xA9D9 || 0xA9F0 <= n <= 0xA9F9 || 0xAA50 <= n <= 0xAA59 || 0xABF0 <= n <= 0xABF9
    || 0xFF10 <= n <= 0xFF19 || 0x104A0 <= n <= 0x104A9 || 0x10D30 <= n <= 0x10D39 || 0x11066 <= n <= 0x1106F
    || 0x110F0 <= n <= 0x110F9 || 0x11136 <= n <= 0x1113F || 0x111D0 <= n <= 0x111D9 || 0x112F0 <= n <= 0x112F9
    || 0x11450 <= n <= 0x11459 || 0x114D0 <= n <= 0x114D9 || 0x11650 <= n <= 0x11659 || 0x116C0 <= n <= 0x116C9
    || 0x11730 <= n <= 0x11739 || 0x118E0 <= n <= 0x118E9 || 0x11950 <= n <= 0x11959 || 0x11C50 <= n <= 0x11C59
    || 0x11D50 <= n <= 0x11D59 || 0x11DA0 <= n <= 0x11DA9 || 0x11F50 <= n <= 0x11F59 || 0x16A60 <= n <= 0x16A69
    || 0x16AC0 <= n <= 0x16AC9 || 0x16B50 <= n <= 0x16B59 || 0x1D7CE <= n <= 0x1D7FF || 0x1E140 <= n <= 0x1E149
    || 0x1E2F0 <= n <= 0x1E2F9 || 0x1E4F0 <= n <= 0x1E4F9 || 0x1E950 <= n <= 0x1E959 || 0x1FBF0 <= n <= 0x1FBF9
  }

  /** The ASCII digits are decimal digits. */
  lemma AsciiDigitIsDecimal(c: char)
    requires IsDigit(c)
    ensures IsDecimal(c)
  {
  }

  /** `str(n)` for a non-negative Python int, as an f-string prints it. */
  function NatToDecimal(n: nat): (r: string)
    ensures |r| >= 1
    ensures forall i :: 0 <= i < |r| ==> IsDigit(r[i])
    ensures |r| > 1 ==> r[0] != '0'
  {
    if n < 10 then [DigitChar(n)] else NatToDecimal(n / 10) + [DigitChar(n % 10)]
  }

  function DigitValue(c: char): nat
    requires IsDigit(c)
  {
    c as int - '0' as int
  }

  /** The number a string of decimal digits denotes. */
  function DecimalValue(s: string): nat
    requires forall i :: 0 <= i < |s| ==> IsDigit(s[i])
  {
    if |s| == 0 then 0 else 10 * DecimalValue(s[..|s| - 1]) + DigitValue(s[|s| - 1])
  }

  /** Printing a number in decimal loses nothing: reading the digits back gives the number. */
  lemma {:induction false} DecimalRoundTrip(n: nat)
    ensures DecimalValue(NatToDecimal(n)) == n
  {
    if n >= 10 {
      DecimalRoundTrip(n / 10);
      var r := NatToDecimal(n);
      assert r[..|r| - 1] == NatToDecimal(n / 10);
    }
  }

  /** Python's `xs[start:]`: a negative `start` counts from the end, and a start past either
      end is clipped. */
  function SliceFrom<T>(xs: seq<T>, start: int): (r: seq<T>)
    ensures |r| <= |xs|
    ensures 0 <= start ==> r == xs[if start <= |xs| then start else |xs|..]
    ensures start < 0 ==> r == xs[if -start <= |xs| then |xs| + start else 0..]
  {
    if start >= 0 then (if start <= |xs| then xs[start..] else [])
    else if |xs| + start >= 0 then xs[|xs| + start..]
    else xs
  }

  /** A message built as `pre + x + post` determines `x`. */
  lemma WrapInjective(pre: string, a: string, b: string, post: string)
    requires pre + a + post == pre + b + post
    ensures a == b
  {
    var m := pre + a + post;
    assert |a| == |b|;
    assert m[|pre|..|pre| + |a|] == a;
    assert (pre + b + post)[|pre|..|pre| + |b|] == b;
  }

  /** `[x.strip() for x in parts]`. */
  function StripEach(parts: seq<string>): (r: seq<string>)
    ensures |r| == |parts|
    ensures forall i :: 0 <= i < |r| ==> r[i] == Strip(parts[i])
  {
    seq(|parts|, i requires 0 <= i < |parts| => Strip(parts[i]))
  }
}
