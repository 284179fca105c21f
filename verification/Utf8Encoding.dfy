/** UTF-8 as an encoding of characters (section 3 of RFC 3629): valid bytes are exactly the encodings of texts. */
module Utf8Encoding {
  import opened Wrappers
  import opened EditApplication
  import opened ChangelogTail

  /** The numbers of characters: no surrogates. */
  predicate IsScalar(n: int) {
    0 <= n < 0xD800 || 0xE000 <= n < 0x11_0000
  }

  function Encoded(n: int): (r: seq<byte>)
    requires IsScalar(n)
    ensures r != []
  {
    if n < 0x80 then [n]
    else if n < 0x800 then [0xC0 + n / 64, 0x80 + n % 64]
    else if n < 0x1_0000 then [0xE0 + n / 64 / 64, 0x80 + n / 64 % 64, 0x80 + n % 64]
    else [0xF0 + n / 64 / 64 / 64, 0x80 + n / 64 / 64 % 64, 0x80 + n / 64 % 64, 0x80 + n % 64]
  }

  /** An encoded character is a character, of the length its first byte announces. */
  lemma EncodedIsChar(n: int)
    requires IsScalar(n)
    ensures StartsWithChar(Encoded(n)) && LeadLength(Encoded(n)[0]) == |Encoded(n)|
  {
  }

  function Above(b: byte, base: int): int {
    b - base
  }

  /** The number of a character of k bytes. */
  function Scalar(k: nat, s: seq<byte>): int
    requires k <= |s|
  {
    if k == 1 then s[0]
    else if k == 2 then Pair(Above(s[0], 0xC0), Above(s[1], 0x80))
    else if k == 3 then Pair(Pair(Above(s[0], 0xE0), Above(s[1], 0x80)), Above(s[2], 0x80))
    else if k == 4 then Pair(Pair(Pair(Above(s[0], 0xF0), Above(s[1], 0x80)), Above(s[2], 0x80)), Above(s[3], 0x80))
    else 0
  }

  function Pair(high: int, low: int): int {
    high * 64 + low
  }

  lemma PairParts(high: int, low: int)
    requires 0 <= high && 0 <= low < 64
    ensures Pair(high, low) / 64 == high && Pair(high, low) % 64 == low
    ensures 64 * high <= Pair(high, low) < 64 * high + 64
    ensures low == Pair(high, low) - 64 * high
  {
  }

  /** A character is the encoding of its number. */
  lemma CharIsEncoded(s: seq<byte>)
    requires StartsWithChar(s)
    ensures var k := LeadLength(s[0]); IsScalar(Scalar(k, s)) && s[..k] == Encoded(Scalar(k, s))
  {
    hide Pair;
    var k := LeadLength(s[0]);
    var n := Scalar(k, s);
    if k == 1 {
      assert s[..1] == [s[0]];
    } else if k == 2 {
      TwoBytes(s);
    } else if k == 3 {
      ThreeBytes(s);
    } else {
      FourBytesRead(s);
    }
  }

  lemma TwoBytes(s: seq<byte>)
    requires StartsWithChar(s) && LeadLength(s[0]) == 2
    ensures IsScalar(Scalar(2, s)) && s[..2] == Encoded(Scalar(2, s))
  {
    hide Pair;
    PairParts(Above(s[0], 0xC0), Above(s[1], 0x80));
    assert s[..2] == [s[0], s[1]];
  }

  lemma ThreeBytes(s: seq<byte>)
    requires StartsWithChar(s) && LeadLength(s[0]) == 3
    ensures IsScalar(Scalar(3, s)) && s[..3] == Encoded(Scalar(3, s))
  {
    hide Pair;
    assert Continuation(s[2]);
    PairParts(Above(s[0], 0xE0), Above(s[1], 0x80));
    PairParts(Pair(Above(s[0], 0xE0), Above(s[1], 0x80)), Above(s[2], 0x80));
    assert s[..3] == [s[0], s[1], s[2]];
  }

  lemma FourBytesRead(s: seq<byte>)
    requires StartsWithChar(s) && LeadLength(s[0]) == 4
    ensures IsScalar(Scalar(4, s)) && s[..4] == Encoded(Scalar(4, s))
  {
    hide Pair;
    assert Continuation(s[2]) && Continuation(s[3]);
    PairParts(Above(s[0], 0xF0), Above(s[1], 0x80));
    PairParts(Pair(Above(s[0], 0xF0), Above(s[1], 0x80)), Above(s[2], 0x80));
    PairParts(Pair(Pair(Above(s[0], 0xF0), Above(s[1], 0x80)), Above(s[2], 0x80)), Above(s[3], 0x80));
    assert s[..4] == [s[0], s[1], s[2], s[3]];
  }

  lemma ScalarReadsBack(n: int)
    requires IsScalar(n)
    ensures Scalar(|Encoded(n)|, Encoded(n)) == n
  {
  }

  function EncodedText(text: string): seq<byte> {
    if text == "" then [] else Encoded(text[0] as int) + EncodedText(text[1..])
  }

  lemma StartsAnyway(c: seq<byte>, rest: seq<byte>)
    requires StartsWithChar(c) && LeadLength(c[0]) == |c|
    ensures StartsWithChar(c + rest) && (c + rest)[LeadLength((c + rest)[0])..] == rest
  {
  }

  lemma {:induction false} EncodedIsValid(text: string)
    ensures ValidUtf8(EncodedText(text))
  {
    hide Encoded, StartsWithChar, LeadLength;
    if text != "" {
      EncodedIsValid(text[1..]);
      EncodedIsChar(text[0] as int);
      StartsAnyway(Encoded(text[0] as int), EncodedText(text[1..]));
    }
  }

  lemma {:induction false} ValidIsEncoded(s: seq<byte>) returns (text: string)
    requires ValidUtf8(s)
    ensures EncodedText(text) == s
  {
    hide Encoded, SecondByteFits, Continuation;
    text := "";
    if s != [] {
      var k := LeadLength(s[0]);
      CharIsEncoded(s);
      var rest := ValidIsEncoded(s[k..]);
      text := [Scalar(k, s) as char] + rest;
      assert text[1..] == rest && s == s[..k] + s[k..];
    }
  }

  /** The bytes are valid if and only if they are the encoding of a text, and the text is the only one. */
  lemma ValidIffEncoded(s: seq<byte>)
    ensures ValidUtf8(s) <==> exists text {:trigger EncodedText(text)} :: EncodedText(text) == s
  {
    if ValidUtf8(s) {
      var text := ValidIsEncoded(s);
    }
    if text :| EncodedText(text) == s {
      EncodedIsValid(text);
    }
  }

  lemma {:induction false} TextReadsBack(a: string, b: string)
    requires EncodedText(a) == EncodedText(b)
    ensures a == b
    decreases |a|
  {
    hide Encoded, Scalar, LeadLength, StartsWithChar;
    if a != "" && b != "" {
      var x, y := a[0] as int, b[0] as int;
      EncodedIsChar(x);
      EncodedIsChar(y);
      assert EncodedText(a)[0] == Encoded(x)[0] && EncodedText(b)[0] == Encoded(y)[0];
      var k := |Encoded(x)|;
      assert EncodedText(a)[..k] == Encoded(x) && EncodedText(b)[..k] == Encoded(y);
      ScalarReadsBack(x);
      ScalarReadsBack(y);
      assert EncodedText(a)[k..] == EncodedText(a[1..]) && EncodedText(b)[k..] == EncodedText(b[1..]);
      TextReadsBack(a[1..], b[1..]);
      assert a == [a[0]] + a[1..] && b == [b[0]] + b[1..];
    }
  }

  /** The size that the budget of a changelog counts is the length of the encoding. */
  lemma {:induction false} BytesAreEncoded(text: string)
    ensures Bytes(text) == |EncodedText(text)|
  {
    if text != "" {
      BytesAreEncoded(text[1..]);
    }
  }
}
