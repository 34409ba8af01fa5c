/**
 * The .NET string operations the client relies on: TrimEnd, Trim, whitespace
 * tests, lower-casing, decimal formatting of integers, the file-name helpers of
 * System.IO.Path, and SecurityElement.Escape with the entity resolution of an
 * XML reader as its inverse.
 */
module Strings {
  import opened Wrappers

  /** `s.TrimEnd(c)`: `s` without its trailing run of `c`. */
  function TrimEnd(s: string, c: char): (r: string)
    ensures r <= s
    ensures r == [] || r[|r| - 1] != c
    ensures forall i :: |r| <= i < |s| ==> s[i] == c
  {
    if s != [] && s[|s| - 1] == c then TrimEnd(s[..|s| - 1], c) else s
  }

  /** `k` copies of `c`. */
  function Repeat(c: char, k: nat): (r: string)
    ensures |r| == k
    ensures forall i :: 0 <= i < k ==> r[i] == c
  {
    if k == 0 then [] else Repeat(c, k - 1) + [c]
  }

  /** Appending any number of `c` to `s` does not change `s.TrimEnd(c)`. */
  lemma {:induction false} TrimEndAbsorbsTrailing(s: string, c: char, k: nat)
    ensures TrimEnd(s + Repeat(c, k), c) == TrimEnd(s, c)
  {
    if k == 0 {
      assert s + Repeat(c, 0) == s;
    } else {
      var t := s + Repeat(c, k - 1);
      assert s + Repeat(c, k) == t + [c];
      assert (t + [c])[..|t + [c]| - 1] == t;
      TrimEndAbsorbsTrailing(s, c, k - 1);
    }
  }

  /** TrimEnd is idempotent. */
  lemma TrimEndIdempotent(s: string, c: char)
    ensures TrimEnd(TrimEnd(s, c), c) == TrimEnd(s, c)
  {
  }

  /** `char.IsWhiteSpace`: the Unicode space separators, line and paragraph
      separators, and the control characters U+0009 to U+000D and U+0085. */
  predicate IsWhiteSpace(c: char)
  {
    || c == ' '
    || ('\t' <= c <= '\r')
    || c == '\U{0085}' || c == '\U{00A0}' || c == '\U{1680}'
    || ('\U{2000}' <= c <= '\U{200A}')
    || c == '\U{2028}' || c == '\U{2029}' || c == '\U{202F}' || c == '\U{205F}'
    || c == '\U{3000}'
  }

  /** Every character of `s` is whitespace (the empty string included). */
  predicate IsBlank(s: string)
  {
    forall i :: 0 <= i < |s| ==> IsWhiteSpace(s[i])
  }

  /** `string.IsNullOrWhiteSpace`, with null as None. */
  predicate IsNullOrWhiteSpace(s: Option<string>)
  {
    s.None? || IsBlank(s.value)
  }

  /** `s.TrimEnd()`: `s` without its trailing whitespace. */
  function TrimTrailingWhiteSpace(s: string): (r: string)
    ensures r <= s
    ensures r == [] || !IsWhiteSpace(r[|r| - 1])
    ensures forall i :: |r| <= i < |s| ==> IsWhiteSpace(s[i])
  {
    if s != [] && IsWhiteSpace(s[|s| - 1]) then TrimTrailingWhiteSpace(s[..|s| - 1]) else s
  }

  /** `s.TrimStart()`: `s` without its leading whitespace. */
  function TrimLeadingWhiteSpace(s: string): (r: string)
    ensures |r| <= |s| && r == s[|s| - |r|..]
    ensures r == [] || !IsWhiteSpace(r[0])
    ensures forall i :: 0 <= i < |s| - |r| ==> IsWhiteSpace(s[i])
  {
    if s != [] && IsWhiteSpace(s[0]) then TrimLeadingWhiteSpace(s[1..]) else s
  }

  /** `s.Trim()`: the part of `s` between its leading and its trailing whitespace. */
  function Trim(s: string): string
  {
    TrimLeadingWhiteSpace(TrimTrailingWhiteSpace(s))
  }

  /** A trimmed string neither starts nor ends with whitespace. */
  lemma TrimHasNoOuterWhiteSpace(s: string)
    ensures var r := Trim(s);
      r == [] || (!IsWhiteSpace(r[0]) && !IsWhiteSpace(r[|r| - 1]))
  {
    var t := TrimTrailingWhiteSpace(s);
    var r := TrimLeadingWhiteSpace(t);
    if r != [] {
      assert r == t[|t| - |r|..];
      assert r[|r| - 1] == t[|t| - 1];
    }
  }

  /** Trimming leaves nothing exactly when the string is blank. */
  lemma TrimEmptyIffBlank(s: string)
    ensures Trim(s) == [] <==> IsBlank(s)
  {
    var t := TrimTrailingWhiteSpace(s);
    if Trim(s) == [] {
      forall i | 0 <= i < |s| ensures IsWhiteSpace(s[i]) {
        if i < |t| { assert t[i] == s[i]; }
      }
    }
  }

  /** What `TrimEnd()` drops is a blank suffix. */
  lemma TrailingIsBlank(s: string)
    ensures IsBlank(s[|TrimTrailingWhiteSpace(s)|..])
  {
    var n := |TrimTrailingWhiteSpace(s)|;
    forall i | 0 <= i < |s| - n ensures IsWhiteSpace(s[n..][i]) {
      assert s[n..][i] == s[n + i];
    }
  }

  /** What `TrimStart()` drops is a blank prefix. */
  lemma LeadingIsBlank(t: string)
    ensures IsBlank(t[..|t| - |TrimLeadingWhiteSpace(t)|])
  {
    var k := |t| - |TrimLeadingWhiteSpace(t)|;
    forall i | 0 <= i < k ensures IsWhiteSpace(t[..k][i]) {
      assert t[..k][i] == t[i];
    }
  }

  /** A blank prefix of a prefix and a blank suffix frame the rest. */
  lemma Framed(s: string, t: string, r: string)
    requires |t| <= |s| && t == s[..|t|] && IsBlank(s[|t|..])
    requires |r| <= |t| && r == t[|t| - |r|..] && IsBlank(t[..|t| - |r|])
    ensures exists k :: 0 <= k <= |s| - |r| && s[k..k + |r|] == r && IsBlank(s[..k]) && IsBlank(s[k + |r|..])
  {
    var k := |t| - |r|;
    assert s[..k] == t[..k];
    assert s[k + |r|..] == s[|t|..];
    assert s[k..k + |r|] == t[k..];
  }

  /** Trim removes whitespace only, and only at the two ends. */
  lemma TrimIsInfix(s: string)
    ensures var r := Trim(s);
      exists k :: 0 <= k <= |s| - |r| && s[k..k + |r|] == r && IsBlank(s[..k]) && IsBlank(s[k + |r|..])
  {
    var t := TrimTrailingWhiteSpace(s);
    var r := TrimLeadingWhiteSpace(t);
    TrailingIsBlank(s);
    LeadingIsBlank(t);
    Framed(s, t, r);
  }

  /** ASCII upper-case letters map to lower case; every other character is kept.
      No other character lower-cases to an ASCII letter other than 'k' (the
      Kelvin sign) and 'i' (the dotted capital I), so comparisons against
      lower-case words without those letters are exact. */
  function ToLowerChar(c: char): (r: char)
    ensures 'a' <= r <= 'z' ==> c == r || c as int == r as int - 32
  {
    if 'A' <= c <= 'Z' then (c as int + 32) as char else c
  }

  /** `s.ToLower()` on the characters that matter to the client. */
  function ToLower(s: string): (r: string)
    ensures |r| == |s|
    ensures forall i :: 0 <= i < |s| ==> r[i] == ToLowerChar(s[i])
  {
    if s == [] then [] else [ToLowerChar(s[0])] + ToLower(s[1..])
  }

  /** The decimal digit for `d`. */
  function DigitChar(d: nat): (c: char)
    requires d < 10
    ensures '0' <= c <= '9'
  {
    (48 + d) as char
  }

  predicate IsDigits(s: string)
  {
    forall i :: 0 <= i < |s| ==> '0' <= s[i] <= '9'
  }

  /** Decimal rendering of a natural number, without leading zeros. */
  function NatToString(n: nat): (s: string)
    ensures |s| >= 1 && IsDigits(s)
    ensures s[0] == '0' ==> n == 0
  {
    if n < 10 then [DigitChar(n)] else NatToString(n / 10) + [DigitChar(n % 10)]
  }

  /** The number a string of decimal digits denotes. */
  function DigitsValue(s: string): nat
    requires IsDigits(s)
  {
    if s == [] then 0 else DigitsValue(s[..|s| - 1]) * 10 + (s[|s| - 1] as int - 48)
  }

  /** Reading back the digits gives the number: the rendering loses nothing. */
  lemma {:induction false} NatToStringRoundTrip(n: nat)
    ensures DigitsValue(NatToString(n)) == n
  {
    if n >= 10 {
      var s := NatToString(n);
      assert s[..|s| - 1] == NatToString(n / 10);
      NatToStringRoundTrip(n / 10);
    }
  }

  /** Interpolation of an `int` into a string: an optional minus sign, then the digits. */
  function IntToString(i: int): string
  {
    if i < 0 then "-" + NatToString(-i) else NatToString(i)
  }

  /** The rendering reads back as the number: its digits, after a '-' for a
      negative number, denote the magnitude. */
  lemma IntToStringReadsBack(i: int)
    ensures var s := IntToString(i);
      && (i >= 0 ==> IsDigits(s) && DigitsValue(s) == i)
      && (i < 0 ==> |s| >= 2 && s[0] == '-' && IsDigits(s[1..]) && DigitsValue(s[1..]) == -i)
  {
    if i < 0 {
      NatToStringRoundTrip(-i);
      assert ("-" + NatToString(-i))[1..] == NatToString(-i);
    } else {
      NatToStringRoundTrip(i);
    }
  }

  function LastIndexOfAny(s: string, cs: set<char>): (k: int)
    ensures -1 <= k < |s|
    ensures k >= 0 ==> s[k] in cs
    ensures forall j :: k < j < |s| ==> s[j] !in cs
  {
    if s == [] then -1
    else if s[|s| - 1] in cs then |s| - 1
    else LastIndexOfAny(s[..|s| - 1], cs)
  }

  /** `Path.GetFileName`: what follows the last directory separator. */
  function FileName(path: string): string
  {
    path[LastIndexOfAny(path, {'/', '\\'}) + 1..]
  }

  /** The file name is the end of the path after its last separator, and holds
      no separator itself. */
  lemma FileNameIsLastSegment(path: string)
    ensures var r := FileName(path);
      && |r| <= |path| && r == path[|path| - |r|..]
      && (forall i :: 0 <= i < |r| ==> r[i] != '/' && r[i] != '\\')
      && (|r| < |path| ==> path[|path| - |r| - 1] in {'/', '\\'})
  {
    var k := LastIndexOfAny(path, {'/', '\\'});
    assert FileName(path) == path[k + 1..];
  }

  /** `Path.GetFileNameWithoutExtension`: the file name up to its last '.'. */
  function FileNameWithoutExtension(path: string): string
  {
    var f := FileName(path);
    var k := LastIndexOfAny(f, {'.'});
    if k < 0 then f else f[..k]
  }

  /** Without its extension, the file name keeps everything before its last
      '.', and all of it when it has none. */
  lemma ExtensionDropped(path: string)
    ensures var f, r := FileName(path), FileNameWithoutExtension(path);
      && r <= f
      && ('.' !in f ==> r == f)
      && ('.' in f ==> |r| < |f| && f[|r|] == '.' && '.' !in f[|r| + 1..])
  {
    var f := FileName(path);
    var k := LastIndexOfAny(f, {'.'});
    assert FileNameWithoutExtension(path) == if k < 0 then f else f[..k];
  }

  /** `SecurityElement.Escape` of one character: the five predefined entities of
      section 4.6 of XML 1.0. */
  function EscapeChar(c: char): (r: string)
    ensures |r| >= 1
  {
    match c
    case '<' => "&lt;"
    case '>' => "&gt;"
    case '"' => "&quot;"
    case '\'' => "&apos;"
    case '&' => "&amp;"
    case _ => [c]
  }

  /** `SecurityElement.Escape`: every markup character replaced by its entity. */
  function Escape(s: string): (r: string)
    ensures |r| >= |s|
    ensures forall i :: 0 <= i < |r| ==> r[i] !in {'<', '>', '"', '\''}
  {
    if s == [] then [] else EscapeChar(s[0]) + Escape(s[1..])
  }

  /** How an XML reader resolves the five predefined entities in character data. */
  function Unescape(s: string): string
  {
    if s == [] then []
    else if "&lt;" <= s then "<" + Unescape(s[4..])
    else if "&gt;" <= s then ">" + Unescape(s[4..])
    else if "&quot;" <= s then "\"" + Unescape(s[6..])
    else if "&apos;" <= s then "'" + Unescape(s[6..])
    else if "&amp;" <= s then "&" + Unescape(s[5..])
    else [s[0]] + Unescape(s[1..])
  }

  /** A character that is not part of any entity reads as itself. */
  lemma UnescapePlain(c: char, rest: string)
    requires c != '&'
    ensures Unescape([c] + rest) == [c] + Unescape(rest)
  {
    var s := [c] + rest;
    assert s[0] == c && s[1..] == rest;
    assert !("&lt;" <= s) && !("&gt;" <= s) && !("&quot;" <= s) && !("&apos;" <= s) && !("&amp;" <= s)
    by {
      assert "&lt;"[0] == "&gt;"[0] == "&quot;"[0] == "&apos;"[0] == "&amp;"[0] == '&';
    }
  }

  lemma UnescapeEscapeChar(c: char, rest: string)
    ensures Unescape(EscapeChar(c) + rest) == [c] + Unescape(rest)
  {
    var e := EscapeChar(c);
    var s := e + rest;
    assert s[|e|..] == rest;
    if c == '&' {
      assert s[..5] == "&amp;";
      assert !("&lt;" <= s) && !("&gt;" <= s) by { assert s[1] == 'a'; }
      assert !("&quot;" <= s) && !("&apos;" <= s) by { assert s[2] == 'm'; }
    } else if c == '"' {
      assert s[..6] == "&quot;";
      assert !("&lt;" <= s) && !("&gt;" <= s) by { assert s[1] == 'q'; }
    } else if c == '\'' {
      assert s[..6] == "&apos;";
      assert !("&lt;" <= s) && !("&gt;" <= s) && !("&quot;" <= s) by { assert s[1] == 'a'; }
    } else if c == '<' {
      assert s[..4] == "&lt;";
    } else if c == '>' {
      assert s[..4] == "&gt;";
      assert !("&lt;" <= s) by { assert s[1] == 'g'; }
    } else {
      assert e == [c];
      UnescapePlain(c, rest);
    }
  }

  /** An escaped field reads back, after entity resolution, as the original text. */
  lemma {:induction false} EscapeRoundTrip(s: string)
    ensures Unescape(Escape(s)) == s
  {
    if s != [] {
      UnescapeEscapeChar(s[0], Escape(s[1..]));
      EscapeRoundTrip(s[1..]);
    }
  }
}
