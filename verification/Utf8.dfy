/** UTF-8 strings as bytes, and the byte-limited cuts of agentiso/src/mcp/tools.rs and
    agentiso/src/mcp/git_tools.rs. */
module Utf8 {
  import opened Prelude
  import Decimal

  type Bytes = seq<U8>

  predicate Tail(b: U8) { 0x80 <= b <= 0xBF }

  /** The length of the character that `s` starts with, by the grammar in section 4 of
      RFC 3629; 0 when there is none. */
  function CharLen(s: Bytes): nat {
    if s == [] then 0
    else if s[0] <= 0x7F then 1
    else if 0xC2 <= s[0] <= 0xDF then
      if |s| >= 2 && Tail(s[1]) then 2 else 0
    else if 0xE0 <= s[0] <= 0xEF then
      if |s| >= 3 && Tail(s[1]) && Tail(s[2])
         && (s[0] == 0xE0 ==> s[1] >= 0xA0) && (s[0] == 0xED ==> s[1] <= 0x9F) then 3 else 0
    else if 0xF0 <= s[0] <= 0xF4 then
      if |s| >= 4 && Tail(s[1]) && Tail(s[2]) && Tail(s[3])
         && (s[0] == 0xF0 ==> s[1] >= 0x90) && (s[0] == 0xF4 ==> s[1] <= 0x8F) then 4 else 0
    else 0
  }

  /** The Unicode scalar values: all code points but the surrogates. */
  predicate IsScalar(c: nat) { c <= 0x10FFFF && !(0xD800 <= c <= 0xDFFF) }

  /** Section 3 of RFC 3629: six bits to each byte that follows the first. */
  function Encode(c: nat): Bytes
    requires IsScalar(c)
  {
    if c < 0x80 then [c]
    else if c < 0x800 then [0xC0 + c / 64, 0x80 + c % 64]
    else if c < 0x1_0000 then [0xE0 + c / 4096, 0x80 + c / 64 % 64, 0x80 + c % 64]
    else [0xF0 + c / 0x4_0000, 0x80 + c / 4096 % 64, 0x80 + c / 64 % 64, 0x80 + c % 64]
  }

  /** `high` followed by the six bits of `b`. */
  function More(high: nat, b: U8): nat
    requires Tail(b)
  {
    64 * high + (b as int - 0x80)
  }

  /** The scalar value of the character at the start. */
  function Decode(s: Bytes): nat
    requires CharLen(s) > 0
  {
    match CharLen(s)
    case 1 => s[0]
    case 2 => More(s[0] as int - 0xC0, s[1])
    case 3 => More(More(s[0] as int - 0xE0, s[1]), s[2])
    case _ => More(More(More(s[0] as int - 0xF0, s[1]), s[2]), s[3])
  }

  lemma LastSix(high: nat, b: U8)
    requires Tail(b)
    ensures More(high, b) / 64 == high && 0x80 + More(high, b) % 64 == b
  {
  }

  lemma SixAndSix(c: nat)
    ensures c / 64 / 64 == c / 4096 && c / 4096 / 64 == c / 0x4_0000
  {
  }

  lemma ThreeBytes(high: nat, b1: U8, b2: U8)
    requires Tail(b1) && Tail(b2)
    ensures var c := More(More(high, b1), b2);
            c / 4096 == high && 0x80 + c / 64 % 64 == b1 && 0x80 + c % 64 == b2
  {
    LastSix(More(high, b1), b2);
    LastSix(high, b1);
    SixAndSix(More(More(high, b1), b2));
    hide More;
  }

  lemma FourBytes(high: nat, b1: U8, b2: U8, b3: U8)
    requires Tail(b1) && Tail(b2) && Tail(b3)
    ensures var c := More(More(More(high, b1), b2), b3);
            && c / 0x4_0000 == high && 0x80 + c / 4096 % 64 == b1
            && 0x80 + c / 64 % 64 == b2 && 0x80 + c % 64 == b3
  {
    ThreeBytes(More(high, b1), b2, b3);
    LastSix(high, b1);
    SixAndSix(More(More(More(high, b1), b2), b3));
    hide More;
  }

  /** The three-byte forms of more than 11 bits and of no surrogate. */
  lemma ThreeInRange(high: nat, b1: U8, b2: U8)
    requires Tail(b1) && Tail(b2) && high <= 15 && (high == 0 ==> b1 >= 0xA0) && (high == 13 ==> b1 <= 0x9F)
    ensures var c := More(More(high, b1), b2); 0x800 <= c < 0x1_0000 && !(0xD800 <= c <= 0xDFFF)
  {
  }

  lemma EncodedInThree(c: nat, high: nat, b1: U8, b2: U8)
    requires 0x800 <= c < 0x1_0000 && c / 4096 == high && 0x80 + c / 64 % 64 == b1 && 0x80 + c % 64 == b2
    requires !(0xD800 <= c <= 0xDFFF)
    ensures IsScalar(c) && Encode(c) == [0xE0 + high, b1, b2]
  {
  }

  lemma ThreeDecoded(s: Bytes)
    requires CharLen(s) == 3
    ensures IsScalar(Decode(s)) && Encode(Decode(s)) == s[..3]
  {
    var high, b1, b2 := s[0] as int - 0xE0, s[1], s[2];
    ThreeInRange(high, b1, b2);
    ThreeBytes(high, b1, b2);
    EncodedInThree(Decode(s), high, b1, b2);
    hide Encode, IsScalar, More;
    assert s[..3] == [s[0], b1, b2];
  }

  /** The four-byte forms of more than 16 bits and of at most 0x10FFFF. */
  lemma FourInRange(high: nat, b1: U8, b2: U8, b3: U8)
    requires Tail(b1) && Tail(b2) && Tail(b3) && high <= 4 && (high == 0 ==> b1 >= 0x90) && (high == 4 ==> b1 <= 0x8F)
    ensures 0x1_0000 <= More(More(More(high, b1), b2), b3) <= 0x10FFFF
  {
  }

  lemma EncodedInFour(c: nat, high: nat, b1: U8, b2: U8, b3: U8)
    requires 0x1_0000 <= c <= 0x10FFFF && c / 0x4_0000 == high && 0x80 + c / 4096 % 64 == b1
    requires 0x80 + c / 64 % 64 == b2 && 0x80 + c % 64 == b3
    ensures IsScalar(c) && Encode(c) == [0xF0 + high, b1, b2, b3]
  {
  }

  lemma FourDecoded(s: Bytes)
    requires CharLen(s) == 4
    ensures IsScalar(Decode(s)) && Encode(Decode(s)) == s[..4]
  {
    var high, b1, b2, b3 := s[0] as int - 0xF0, s[1], s[2], s[3];
    FourInRange(high, b1, b2, b3);
    FourBytes(high, b1, b2, b3);
    EncodedInFour(Decode(s), high, b1, b2, b3);
    hide Encode, IsScalar, More;
    assert s[..4] == [s[0], b1, b2, b3];
  }

  lemma EncodeDecoded(s: Bytes)
    requires CharLen(s) > 0
    ensures IsScalar(Decode(s)) && Encode(Decode(s)) == s[..CharLen(s)]
  {
    match CharLen(s)
    case 1 =>
    case 2 => LastSix(s[0] as int - 0xC0, s[1]);
    case 3 => ThreeDecoded(s);
    case _ => FourDecoded(s);
  }

  lemma EncodeIsLong(c: nat)
    requires IsScalar(c)
    ensures |Encode(c)| > 0
  {
  }

  lemma ThreeEncoded(c: nat, rest: Bytes)
    requires IsScalar(c) && 0x800 <= c < 0x1_0000
    ensures CharLen(Encode(c) + rest) == |Encode(c)| == 3
  {
    assert c / 4096 == 0 ==> c / 64 % 64 >= 0x20;
    assert c / 4096 == 13 ==> c / 64 % 64 < 0x20;
  }

  lemma FourEncoded(c: nat, rest: Bytes)
    requires IsScalar(c) && 0x1_0000 <= c
    ensures CharLen(Encode(c) + rest) == |Encode(c)| == 4
  {
    assert c / 0x4_0000 == 0 ==> c / 4096 % 64 >= 0x10;
    assert c / 0x4_0000 == 4 ==> c / 4096 % 64 < 0x10;
  }

  lemma CharLenEncoded(c: nat, rest: Bytes)
    requires IsScalar(c)
    ensures CharLen(Encode(c) + rest) == |Encode(c)|
  {
    if c < 0x800 {
    } else if c < 0x1_0000 {
      ThreeEncoded(c, rest);
    } else {
      FourEncoded(c, rest);
    }
  }

  /** A sequence of whole characters. */
  predicate Valid(s: Bytes)
    decreases |s|
  {
    s == [] || (0 < CharLen(s) <= |s| && Valid(s[CharLen(s)..]))
  }

  type Scalar = c: nat | IsScalar(c)

  function EncodeAll(cs: seq<Scalar>): Bytes { if cs == [] then [] else Encode(cs[0]) + EncodeAll(cs[1..]) }

  function DecodeAll(s: Bytes): seq<Scalar>
    requires Valid(s)
    decreases |s|
  {
    if s == [] then [] else EncodeDecoded(s); [Decode(s)] + DecodeAll(s[CharLen(s)..])
  }

  lemma EncodeAllFirst(c: Scalar, cs: seq<Scalar>)
    ensures EncodeAll([c] + cs) == Encode(c) + EncodeAll(cs)
  {
    assert ([c] + cs)[1..] == cs;
  }

  lemma {:induction false} EncodeAllDecoded(s: Bytes)
    requires Valid(s)
    ensures EncodeAll(DecodeAll(s)) == s
    decreases |s|
  {
    hide CharLen, Decode, Encode;
    if s != [] {
      var n := CharLen(s);
      EncodeDecoded(s);
      EncodeAllDecoded(s[n..]);
      EncodeAllFirst(Decode(s), DecodeAll(s[n..]));
      hide EncodeAll;
      assert Encode(Decode(s)) == s[..n];
    }
  }

  lemma {:induction false} EncodeAllValid(cs: seq<Scalar>)
    ensures Valid(EncodeAll(cs))
  {
    hide CharLen, Encode;
    if cs != [] {
      var first, rest := Encode(cs[0]), EncodeAll(cs[1..]);
      EncodeAllValid(cs[1..]);
      CharLenEncoded(cs[0], rest);
      EncodeIsLong(cs[0]);
      assert (first + rest)[|first|..] == rest;
    }
  }

  /** The byte sequences accepted are exactly the encodings of sequences of scalar values. */
  lemma ValidExactly(s: Bytes)
    ensures Valid(s) <==> exists cs :: EncodeAll(cs) == s
  {
    if Valid(s) {
      EncodeAllDecoded(s);
    }
    if cs :| EncodeAll(cs) == s {
      EncodeAllValid(cs);
    }
  }

  /** What a string holds. */
  type Text = s: Bytes | Valid(s)

  predicate IsCharBoundary(s: Bytes, i: nat) {
    i == 0 || i == |s| || (i < |s| && !Tail(s[i]))
  }

  /** In valid text the byte test of a boundary says exactly that whole characters lie before it. */
  lemma {:induction false} BoundaryExactly(s: Bytes, i: nat)
    requires Valid(s) && i <= |s|
    ensures IsCharBoundary(s, i) <==> Valid(s[..i])
    decreases |s|
  {
    if i > 0 {
      var n := CharLen(s);
      if i < n {
        assert Tail(s[i]);
        assert CharLen(s[..i]) == 0;
      } else {
        BoundaryExactly(s[n..], i - n);
        SliceOfSlice(s, n, i);
        assert CharLen(s[..i]) == n;
        assert i == n ==> i == |s| || !Tail(s[n]) by {
          if i == n < |s| {
            assert CharLen(s[n..]) > 0 && s[n..][0] == s[n];
          }
        }
      }
    }
  }

  /** A boundary is never more than three bytes back. */
  lemma {:induction false} BoundaryNear(s: Bytes, i: nat) returns (j: nat)
    requires Valid(s) && i <= |s|
    ensures j <= i <= j + 3 && IsCharBoundary(s, j)
    decreases |s|
  {
    var n := CharLen(s);
    if s == [] || i < n {
      j := 0;
    } else {
      j := BoundaryNear(s[n..], i - n);
      j := j + n;
      BoundaryExactly(s, n);
      assert s[..n][n..] == [] && CharLen(s[..n]) == n;
    }
  }

  lemma CharLenOfPrefix(a: Bytes, b: Bytes)
    requires CharLen(a) > 0
    ensures CharLen(a + b) == CharLen(a)
  {
  }

  lemma {:induction false} ConcatValid(a: Bytes, b: Bytes)
    requires Valid(a) && Valid(b)
    ensures Valid(a + b)
    decreases |a|
  {
    hide CharLen;
    if a == [] {
      assert a + b == b;
    } else {
      CharLenOfPrefix(a, b);
      var n := CharLen(a);
      ConcatValid(a[n..], b);
      assert (a + b)[n..] == a[n..] + b;
    }
  }

  predicate IsAscii(s: string) { forall i :: 0 <= i < |s| ==> s[i] < 128 as char }

  function Ascii(s: string): Bytes
    requires IsAscii(s)
  {
    seq(|s|, i requires 0 <= i < |s| => s[i] as int)
  }

  lemma {:induction false} AsciiValid(s: string)
    requires IsAscii(s)
    ensures Valid(Ascii(s))
  {
    if s != [] {
      AsciiValid(s[1..]);
      assert Ascii(s)[1..] == Ascii(s[1..]);
    }
  }

  /** `end` is the longest cut of `s` into whole characters that fits in `limit` bytes. */
  ghost predicate LongestCut(s: Bytes, limit: nat, end: nat) {
    && end <= limit && end <= |s|
    && Valid(s[..end])
    && forall e :: end < e <= limit && e <= |s| ==> !Valid(s[..e])
  }

  /** The backward walk of both cuts: from the limit to a boundary, at most three bytes. */
  method FindCut(s: Bytes, limit: nat) returns (end: nat)
    requires Valid(s) && limit <= |s|
    ensures LongestCut(s, limit, end) && limit <= end + 3
  {
    ghost var near := BoundaryNear(s, limit);
    end := limit;
    while end > 0 && !IsCharBoundary(s, end)
      invariant near <= end <= limit
      invariant forall e :: end < e <= limit ==> !Valid(s[..e])
    {
      BoundaryExactly(s, end);
      end := end - 1;
    }
    BoundaryExactly(s, end);
  }

  function Notice(total: nat, shown: nat): string {
    "\n[TRUNCATED: " + Decimal.Numeral(total) + " bytes total, showing first " + Decimal.Numeral(shown) + " bytes]"
  }

  /** The notice gives the full length first and the length shown second. */
  lemma NoticeSays(total: nat, shown: nat) returns (a: string, b: string)
    ensures Decimal.AllDigits(a) && Decimal.AllDigits(b)
    ensures Decimal.Value(a) == total && Decimal.Value(b) == shown
    ensures Notice(total, shown) == "\n[TRUNCATED: " + a + " bytes total, showing first " + b + " bytes]"
  {
    a, b := Decimal.Numeral(total), Decimal.Numeral(shown);
    Decimal.NumeralRoundTrip(total);
    Decimal.NumeralRoundTrip(shown);
  }

  lemma DigitsAreAscii(s: string)
    requires Decimal.AllDigits(s)
    ensures IsAscii(s)
  {
  }

  lemma NoticeIsAscii(total: nat, shown: nat)
    ensures IsAscii(Notice(total, shown))
  {
    var a, b := Decimal.Numeral(total), Decimal.Numeral(shown);
    DigitsAreAscii(a);
    DigitsAreAscii(b);
    var start, middle, end := "\n[TRUNCATED: ", " bytes total, showing first ", " bytes]";
    NoticeWordsAreAscii();
    hide IsAscii;
    AsciiConcat(start, a);
    AsciiConcat(start + a, middle);
    AsciiConcat(start + a + middle, b);
    AsciiConcat(start + a + middle + b, end);
  }

  lemma NoticeWordsAreAscii()
    ensures IsAscii("\n[TRUNCATED: ") && IsAscii(" bytes total, showing first ") && IsAscii(" bytes]")
  {
  }

  lemma AsciiConcat(a: string, b: string)
    requires IsAscii(a) && IsAscii(b)
    ensures IsAscii(a + b)
  {
  }

  /** `truncate_output`: text within the limit is unchanged; longer text becomes its longest
      whole-character prefix within the limit and a notice, all of it valid text. */
  method TruncateOutput(s: Bytes, limit: nat) returns (out: Bytes)
    requires Valid(s)
    ensures Valid(out)
    ensures |s| <= limit ==> out == s
    ensures |s| > limit ==>
              exists end: nat :: LongestCut(s, limit, end) && limit <= end + 3
                && IsAscii(Notice(|s|, end)) && out == s[..end] + Ascii(Notice(|s|, end))
  {
    if |s| <= limit {
      return s;
    }
    var end := FindCut(s, limit);
    NoticeIsAscii(|s|, end);
    AsciiValid(Notice(|s|, end));
    ConcatValid(s[..end], Ascii(Notice(|s|, end)));
    out := s[..end] + Ascii(Notice(|s|, end));
  }

  /** The cut of a git diff: the same walk, with a shorter notice. */
  method TruncateDiff(s: Bytes, maxBytes: nat) returns (out: Bytes, truncated: bool)
    requires Valid(s)
    ensures Valid(out) && truncated == (|s| > maxBytes)
    ensures !truncated ==> out == s
    ensures truncated ==>
              exists end: nat :: LongestCut(s, maxBytes, end) && maxBytes <= end + 3
                && out == s[..end] + Ascii("[TRUNCATED]")
  {
    truncated := |s| > maxBytes;
    if truncated {
      var end := FindCut(s, maxBytes);
      AsciiValid("[TRUNCATED]");
      ConcatValid(s[..end], Ascii("[TRUNCATED]"));
      out := s[..end] + Ascii("[TRUNCATED]");
    } else {
      out := s;
    }
  }
}
