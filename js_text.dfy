/** The JavaScript string operations the core relies on: the `\s` character
    class (which is also the set `String.prototype.trim` removes), removing
    all whitespace, trimming, the UTF-16 `length` of a string, and the ASCII
    part of `toLowerCase`. */
module JsText {

  /** A character matched by `\s` in a JavaScript regular expression:
      the ECMAScript WhiteSpace and LineTerminator characters. */
  predicate IsWhitespace(c: char)
  {
    || c == '\t' || c == '\n' || c == '\U{000B}' || c == '\U{000C}' || c == '\r'
    || c == ' ' || c == '\U{00A0}' || c == '\U{1680}'
    || ('\U{2000}' <= c <= '\U{200A}')
    || c == '\U{2028}' || c == '\U{2029}' || c == '\U{202F}' || c == '\U{205F}'
    || c == '\U{3000}' || c == '\U{FEFF}'
  }

  predicate AllWhitespace(s: string)
  {
    forall i :: 0 <= i < |s| ==> IsWhitespace(s[i])
  }

  /** `s.replace(/\s+/g, "")`: the string with every whitespace character removed. */
  function Compact(s: string): (r: string)
    ensures |r| <= |s|
    ensures forall i :: 0 <= i < |r| ==> !IsWhitespace(r[i])
    ensures r == [] <==> AllWhitespace(s)
  {
    if s == [] then []
    else if IsWhitespace(s[0]) then Compact(s[1..])
    else [s[0]] + Compact(s[1..])
  }

  /** Removing whitespace distributes over concatenation. */
  lemma {:induction false} CompactAppend(a: string, b: string)
    ensures Compact(a + b) == Compact(a) + Compact(b)
  {
    if a == [] {
      assert a + b == b;
    } else {
      assert (a + b)[1..] == a[1..] + b;
      CompactAppend(a[1..], b);
    }
  }

  /** A string without whitespace is left as it is. */
  lemma {:induction false} CompactOfSolid(s: string)
    requires forall i :: 0 <= i < |s| ==> !IsWhitespace(s[i])
    ensures Compact(s) == s
  {
    if s != [] {
      CompactOfSolid(s[1..]);
    }
  }

  /** The number of UTF-16 code units of one character. */
  function Utf16Units(c: char): nat
  {
    if c as int < 0x1_0000 then 1 else 2
  }

  /** JavaScript's `s.length`, which counts UTF-16 code units. */
  function Utf16Length(s: string): (n: nat)
    ensures |s| <= n <= 2 * |s|
  {
    if s == [] then 0 else Utf16Units(s[0]) + Utf16Length(s[1..])
  }

  /** On the Basic Multilingual Plane the JavaScript length is the character count. */
  lemma {:induction false} Utf16LengthOfBmp(s: string)
    requires forall i :: 0 <= i < |s| ==> s[i] as int < 0x1_0000
    ensures Utf16Length(s) == |s|
  {
    if s != [] {
      Utf16LengthOfBmp(s[1..]);
    }
  }

  /** The number of whitespace characters `s.trimStart()` drops. */
  function LeadingBlank(s: string): (n: nat)
    ensures n <= |s|
    ensures forall i :: 0 <= i < n ==> IsWhitespace(s[i])
    ensures n < |s| ==> !IsWhitespace(s[n])
  {
    if s != [] && IsWhitespace(s[0]) then 1 + LeadingBlank(s[1..]) else 0
  }

  /** The number of whitespace characters `s.trimEnd()` drops. */
  function TrailingBlank(s: string): (n: nat)
    ensures n <= |s|
    ensures forall i :: |s| - n <= i < |s| ==> IsWhitespace(s[i])
    ensures n < |s| ==> !IsWhitespace(s[|s| - n - 1])
  {
    if s != [] && IsWhitespace(s[|s| - 1]) then 1 + TrailingBlank(s[..|s| - 1]) else 0
  }

  /** `s.trimStart()`. */
  function TrimStart(s: string): string
  {
    s[LeadingBlank(s)..]
  }

  /** `s.trimEnd()`. */
  function TrimEnd(s: string): string
  {
    s[..|s| - TrailingBlank(s)]
  }

  /** `s.trim()`: neither end of the result is whitespace. */
  function Trim(s: string): (r: string)
    ensures r == [] || (!IsWhitespace(r[0]) && !IsWhitespace(r[|r| - 1]))
  {
    var t := TrimStart(s);
    assert t != [] ==> t[0] == s[LeadingBlank(s)];
    TrimEnd(t)
  }

  /** Dropping `n` elements from the front and then `m` from the back
      leaves one slice of the whole. */
  lemma SliceOfSuffix<T>(s: seq<T>, n: nat, m: nat)
    requires n + m <= |s|
    ensures s[n..][..|s[n..]| - m] == s[n..|s| - m]
  {
  }

  /** `trim` keeps one contiguous slice: what lies between the leading
      blanks and the trailing blanks of the rest. */
  lemma {:induction false} TrimIsSlice(s: string)
    ensures LeadingBlank(s) + TrailingBlank(TrimStart(s)) <= |s|
    ensures Trim(s) == s[LeadingBlank(s)..|s| - TrailingBlank(TrimStart(s))]
  {
    SliceOfSuffix(s, LeadingBlank(s), TrailingBlank(TrimStart(s)));
  }

  /** A string of whitespace only removes to nothing. */
  lemma {:induction false} CompactOfBlank(s: string)
    requires AllWhitespace(s)
    ensures Compact(s) == []
  {
    if s != [] {
      CompactOfBlank(s[1..]);
    }
  }

  lemma CompactOfTrimStart(s: string)
    ensures Compact(TrimStart(s)) == Compact(s)
  {
    var n := LeadingBlank(s);
    var blank := s[..n];
    assert AllWhitespace(blank);
    assert s == blank + s[n..];
    CompactAppend(blank, s[n..]);
    CompactOfBlank(blank);
  }

  lemma CompactOfTrimEnd(s: string)
    ensures Compact(TrimEnd(s)) == Compact(s)
  {
    var k := |s| - TrailingBlank(s);
    var blank := s[k..];
    assert AllWhitespace(blank);
    assert s == s[..k] + blank;
    CompactAppend(s[..k], blank);
    CompactOfBlank(blank);
  }

  /** Trimming removes only whitespace: what is left of the string once all
      whitespace is removed is the same before and after `trim`. */
  lemma CompactOfTrim(s: string)
    ensures Compact(Trim(s)) == Compact(s)
  {
    CompactOfTrimStart(s);
    CompactOfTrimEnd(TrimStart(s));
  }

  /** `s.trim().length > 0` exactly when `s` has a non-whitespace character. */
  lemma TrimEmptyIffBlank(s: string)
    ensures Trim(s) == [] <==> AllWhitespace(s)
  {
    CompactOfTrim(s);
  }

  /** The ASCII part of `toLowerCase` on one character. */
  function LowerAscii(c: char): char
  {
    if 'A' <= c <= 'Z' then (c as int + 32) as char else c
  }

  /** `s.toLowerCase()`, folding ASCII letters only. */
  function ToLowerAscii(s: string): string
  {
    seq(|s|, i requires 0 <= i < |s| => LowerAscii(s[i]))
  }

  /** `s.endsWith(suffix)`. */
  predicate EndsWith(s: string, suffix: string)
  {
    |suffix| <= |s| && s[|s| - |suffix|..] == suffix
  }

  /** `name.toLowerCase().endsWith(".pdf")` holds exactly when the last four
      characters are a dot and the letters p, d, f in either case. */
  lemma PdfSuffixIgnoresCase(name: string)
    ensures EndsWith(ToLowerAscii(name), ".pdf") <==>
      && |name| >= 4
      && name[|name| - 4] == '.'
      && (name[|name| - 3] == 'p' || name[|name| - 3] == 'P')
      && (name[|name| - 2] == 'd' || name[|name| - 2] == 'D')
      && (name[|name| - 1] == 'f' || name[|name| - 1] == 'F')
  {
    var low := ToLowerAscii(name);
    var n := |name|;
    if n >= 4 {
      var tail := low[n - 4..];
      assert tail == [low[n - 4], low[n - 3], low[n - 2], low[n - 1]];
      assert tail == ".pdf" <==>
        low[n - 4] == '.' && low[n - 3] == 'p' && low[n - 2] == 'd' && low[n - 1] == 'f';
    }
  }
}
