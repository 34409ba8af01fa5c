/**
 * The base64 encoding of section 4 of RFC 4648, as produced by
 * `Convert.ToBase64String` and read by `Convert.FromBase64String`: the report
 * definition travels base64-encoded inside the `<Definition>` element of the
 * CreateCatalogItem request and of the GetItemDefinition response.
 */
module Base64 {
  import opened Wrappers

  type byte = x: int | 0 <= x < 256

  /** The character of the base64 alphabet (Table 1 of RFC 4648) for sextet `i`. */
  function CharOf(i: nat): (c: char)
    requires i < 64
    ensures IsBase64Char(c)
  {
    if i < 26 then ('A' as int + i) as char
    else if i < 52 then ('a' as int + i - 26) as char
    else if i < 62 then ('0' as int + i - 52) as char
    else if i == 62 then '+'
    else '/'
  }

  predicate IsBase64Char(c: char)
  {
    ('A' <= c <= 'Z') || ('a' <= c <= 'z') || ('0' <= c <= '9') || c == '+' || c == '/'
  }

  /** The sextet an alphabet character stands for; the inverse of CharOf. */
  function SextetOf(c: char): (i: nat)
    requires IsBase64Char(c)
    ensures i < 64 && CharOf(i) == c
  {
    if 'A' <= c <= 'Z' then c as int - 'A' as int
    else if 'a' <= c <= 'z' then c as int - 'a' as int + 26
    else if '0' <= c <= '9' then c as int - '0' as int + 52
    else if c == '+' then 62
    else 63
  }

  lemma SextetOfCharOf(i: nat)
    requires i < 64
    ensures SextetOf(CharOf(i)) == i
  {
  }

  /** One group of three bytes, or a final group of one or two bytes padded with '='. */
  function EncodeGroup(g: seq<byte>): (s: string)
    requires 1 <= |g| <= 3
    ensures |s| == 4
    ensures IsBase64Char(s[0]) && IsBase64Char(s[1])
    ensures |g| == 1 ==> s[2] == '=' && s[3] == '='
    ensures |g| == 2 ==> IsBase64Char(s[2]) && s[3] == '='
    ensures |g| == 3 ==> IsBase64Char(s[2]) && IsBase64Char(s[3])
  {
    var b0 := g[0];
    var b1 := if |g| > 1 then g[1] else 0;
    var b2 := if |g| > 2 then g[2] else 0;
    [CharOf(b0 / 4), CharOf((b0 % 4) * 16 + b1 / 16)]
    + (if |g| > 1 then [CharOf((b1 % 16) * 4 + b2 / 64)] else "=")
    + (if |g| > 2 then [CharOf(b2 % 64)] else "=")
  }

  /** `Convert.ToBase64String`. */
  function Encode(b: seq<byte>): (s: string)
    ensures |s| % 4 == 0 && (b != [] ==> |s| >= 4)
  {
    if b == [] then []
    else if |b| <= 3 then EncodeGroup(b)
    else EncodeGroup(b[..3]) + Encode(b[3..])
  }

  /** The encoding uses the alphabet and the padding character only. */
  lemma {:induction false} EncodeAlphabet(b: seq<byte>)
    ensures forall i :: 0 <= i < |Encode(b)| ==> IsBase64Char(Encode(b)[i]) || Encode(b)[i] == '='
  {
    if |b| > 3 {
      var head, tail := EncodeGroup(b[..3]), Encode(b[3..]);
      EncodeAlphabet(b[3..]);
      assert Encode(b) == head + tail;
      forall i | 4 <= i < |head + tail| ensures (head + tail)[i] == tail[i - 4] {
      }
    }
  }

  /** Four characters for every started group of three bytes. */
  lemma {:induction false} EncodedLength(b: seq<byte>)
    ensures |Encode(b)| == 4 * ((|b| + 2) / 3)
  {
    var n := |b|;
    if n > 3 {
      EncodedLength(b[3..]);
      assert Encode(b) == EncodeGroup(b[..3]) + Encode(b[3..]);
      assert (n + 2) / 3 == (n - 3 + 2) / 3 + 1;
    } else if n > 0 {
      assert (n + 2) / 3 == 1;
    }
  }

  /** The characters `Convert.FromBase64String` skips anywhere in its input. */
  predicate IsSkipped(c: char)
  {
    c == ' ' || c == '\t' || c == '\r' || c == '\n'
  }

  function WithoutSkipped(s: string): (r: string)
    ensures |r| <= |s|
    ensures forall i :: 0 <= i < |r| ==> !IsSkipped(r[i])
  {
    if s == [] then [] else (if IsSkipped(s[0]) then [] else [s[0]]) + WithoutSkipped(s[1..])
  }

  /** Three bytes from four sextets. */
  function Join(c0: nat, c1: nat, c2: nat, c3: nat): (r: seq<byte>)
    requires c0 < 64 && c1 < 64 && c2 < 64 && c3 < 64
    ensures |r| == 3
  {
    [c0 * 4 + c1 / 16, (c1 % 16) * 16 + c2 / 4, (c2 % 4) * 64 + c3]
  }

  /** A group of four characters that is not the last one: no padding allowed. */
  function DecodeInnerGroup(q: string): (r: Option<seq<byte>>)
    requires |q| == 4
    ensures r.Some? ==> |r.value| == 3
  {
    if IsBase64Char(q[0]) && IsBase64Char(q[1]) && IsBase64Char(q[2]) && IsBase64Char(q[3]) then
      Some(Join(SextetOf(q[0]), SextetOf(q[1]), SextetOf(q[2]), SextetOf(q[3])))
    else None
  }

  /** The last group of four characters: it may end in one or two '='. */
  function DecodeLastGroup(q: string): (r: Option<seq<byte>>)
    requires |q| == 4
    ensures r.Some? ==> 1 <= |r.value| <= 3
  {
    if !IsBase64Char(q[0]) || !IsBase64Char(q[1]) then None
    else if q[2] == '=' && q[3] == '=' then
      Some(Join(SextetOf(q[0]), SextetOf(q[1]), 0, 0)[..1])
    else if IsBase64Char(q[2]) && q[3] == '=' then
      Some(Join(SextetOf(q[0]), SextetOf(q[1]), SextetOf(q[2]), 0)[..2])
    else DecodeInnerGroup(q)
  }

  /** Decoding of a string without skipped characters. */
  function DecodeGroups(s: string): (r: Option<seq<byte>>)
    decreases |s|
  {
    if |s| % 4 != 0 then None
    else if s == [] then Some([])
    else if |s| == 4 then DecodeLastGroup(s)
    else
      match (DecodeInnerGroup(s[..4]), DecodeGroups(s[4..]))
      case (Some(g), Some(rest)) => Some(g + rest)
      case _ => None
  }

  /** `Convert.FromBase64String`: None where it throws a FormatException. */
  function Decode(s: string): (r: Option<seq<byte>>)
    ensures r.Some? ==> |WithoutSkipped(s)| % 4 == 0
  {
    DecodeGroups(WithoutSkipped(s))
  }

  lemma {:induction false} WithoutSkippedKeeps(s: string)
    requires forall i :: 0 <= i < |s| ==> !IsSkipped(s[i])
    ensures WithoutSkipped(s) == s
  {
    if s != [] {
      WithoutSkippedKeeps(s[1..]);
    }
  }

  /** The first byte is split over the first two sextets and joined back. */
  lemma FirstByteBack(b0: byte, b1: byte)
    ensures var c1 := (b0 % 4) * 16 + b1 / 16;
      c1 < 64 && c1 % 16 == b1 / 16 && (b0 / 4) * 4 + c1 / 16 == b0
  {
  }

  /** The second byte is split over the second and third sextets and joined back. */
  lemma SecondByteBack(b0: byte, b1: byte, b2: byte)
    ensures var c1, c2 := (b0 % 4) * 16 + b1 / 16, (b1 % 16) * 4 + b2 / 64;
      c2 < 64 && c2 % 4 == b2 / 64 && (c1 % 16) * 16 + c2 / 4 == b1
  {
    FirstByteBack(b0, b1);
  }

  /** Two sextets cut from one byte join back into it. */
  lemma JoinBackOne(b0: byte)
    ensures Join(b0 / 4, (b0 % 4) * 16, 0, 0)[..1] == [b0]
  {
    FirstByteBack(b0, 0);
  }

  /** Three sextets cut from two bytes join back into them. */
  lemma JoinBackTwo(b0: byte, b1: byte)
    ensures Join(b0 / 4, (b0 % 4) * 16 + b1 / 16, (b1 % 16) * 4, 0)[..2] == [b0, b1]
  {
    FirstByteBack(b0, b1);
    SecondByteBack(b0, b1, 0);
  }

  lemma OneByteRoundTrip(b0: byte)
    ensures DecodeLastGroup(EncodeGroup([b0])) == Some([b0])
  {
    var c0, c1 := b0 / 4, (b0 % 4) * 16;
    var q := EncodeGroup([b0]);
    assert q == [CharOf(c0), CharOf(c1), '=', '='];
    SextetOfCharOf(c0);
    SextetOfCharOf(c1);
    JoinBackOne(b0);
  }

  lemma TwoBytesRoundTrip(b0: byte, b1: byte)
    ensures DecodeLastGroup(EncodeGroup([b0, b1])) == Some([b0, b1])
  {
    var c0, c1, c2 := b0 / 4, (b0 % 4) * 16 + b1 / 16, (b1 % 16) * 4;
    var q := EncodeGroup([b0, b1]);
    assert q == [CharOf(c0), CharOf(c1), CharOf(c2), '='];
    SextetOfCharOf(c0);
    SextetOfCharOf(c1);
    SextetOfCharOf(c2);
    JoinBackTwo(b0, b1);
  }

  /** Four sextets cut from three bytes join back into them. */
  lemma JoinBack(b0: byte, b1: byte, b2: byte)
    ensures Join(b0 / 4, (b0 % 4) * 16 + b1 / 16, (b1 % 16) * 4 + b2 / 64, b2 % 64) == [b0, b1, b2]
  {
    FirstByteBack(b0, b1);
    SecondByteBack(b0, b1, b2);
  }

  /** A last group without padding decodes as an inner group. */
  lemma LastOfFullGroup(q: string)
    requires |q| == 4 && IsBase64Char(q[2]) && IsBase64Char(q[3])
    ensures DecodeLastGroup(q) == DecodeInnerGroup(q)
  {
  }

  lemma ThreeBytesRoundTrip(b0: byte, b1: byte, b2: byte)
    ensures DecodeInnerGroup(EncodeGroup([b0, b1, b2])) == Some([b0, b1, b2])
    ensures DecodeLastGroup(EncodeGroup([b0, b1, b2])) == Some([b0, b1, b2])
  {
    var c0, c1, c2, c3 := b0 / 4, (b0 % 4) * 16 + b1 / 16, (b1 % 16) * 4 + b2 / 64, b2 % 64;
    var q := EncodeGroup([b0, b1, b2]);
    assert q == [CharOf(c0), CharOf(c1), CharOf(c2), CharOf(c3)];
    SextetOfCharOf(c0);
    SextetOfCharOf(c1);
    SextetOfCharOf(c2);
    SextetOfCharOf(c3);
    JoinBack(b0, b1, b2);
    LastOfFullGroup(q);
  }

  lemma GroupRoundTrip(g: seq<byte>)
    requires 1 <= |g| <= 3
    ensures DecodeLastGroup(EncodeGroup(g)) == Some(g)
    ensures |g| == 3 ==> DecodeInnerGroup(EncodeGroup(g)) == Some(g)
  {
    if |g| == 1 {
      assert g == [g[0]];
      OneByteRoundTrip(g[0]);
    } else if |g| == 2 {
      assert g == [g[0], g[1]];
      TwoBytesRoundTrip(g[0], g[1]);
    } else {
      assert g == [g[0], g[1], g[2]];
      ThreeBytesRoundTrip(g[0], g[1], g[2]);
    }
  }

  /** Decoding what was encoded gives back the bytes: the definition sent in a
      CreateCatalogItem request is the definition the server receives. */
  lemma {:induction false} RoundTrip(b: seq<byte>)
    ensures Decode(Encode(b)) == Some(b)
  {
    EncodeAlphabet(b);
    WithoutSkippedKeeps(Encode(b));
    GroupsRoundTrip(b);
  }

  /** A string of at least two groups decodes as its first group followed by the rest. */
  lemma DecodeGroupsStep(head: string, tail: string)
    requires |head| == 4 && |tail| >= 4 && |tail| % 4 == 0
    ensures DecodeGroups(head + tail) ==
      match (DecodeInnerGroup(head), DecodeGroups(tail))
      case (Some(g), Some(rest)) => Some(g + rest)
      case _ => None
  {
    var s := head + tail;
    assert |s| % 4 == 0;
    assert s[..4] == head && s[4..] == tail;
  }

  lemma {:induction false} GroupsRoundTrip(b: seq<byte>)
    ensures DecodeGroups(Encode(b)) == Some(b)
  {
    if b == [] {
    } else if |b| <= 3 {
      GroupRoundTrip(b);
    } else {
      var head, tail := EncodeGroup(b[..3]), Encode(b[3..]);
      assert Encode(b) == head + tail;
      GroupRoundTrip(b[..3]);
      GroupsRoundTrip(b[3..]);
      DecodeGroupsStep(head, tail);
      assert b[..3] + b[3..] == b;
    }
  }
}
