/** Well-formed UTF-8, by the byte ranges of section 4 of RFC 3629. */
module Utf8 {
  import opened Common

  predicate Tail(b: byte) { 0x80 <= b <= 0xBF }

  /** The width of the leading character; 0 when the bytes begin none. */
  function CharWidth(s: seq<byte>): (n: nat)
    requires s != []
    ensures n <= |s|
  {
    var b := s[0];
    if b <= 0x7F then 1
    else if |s| < 2 then 0
    else if 0xC2 <= b <= 0xDF then (if Tail(s[1]) then 2 else 0)
    else if |s| < 3 || !Tail(s[1]) || !Tail(s[2]) then 0
    else if 0xE0 <= b <= 0xEF then
      (if (b == 0xE0 && s[1] < 0xA0) || (b == 0xED && s[1] > 0x9F) then 0 else 3)
    else if |s| < 4 || !Tail(s[3]) then 0
    else if 0xF0 <= b <= 0xF4 then
      (if (b == 0xF0 && s[1] < 0x90) || (b == 0xF4 && s[1] > 0x8F) then 0 else 4)
    else 0
  }

  predicate ValidUtf8(s: seq<byte>)
    decreases |s|
  {
    s == [] || (CharWidth(s) > 0 && ValidUtf8(s[CharWidth(s)..]))
  }

  // ------------------------------------------------------------------ what it encodes

  /** A Unicode scalar value: a code point that is no surrogate. */
  predicate Scalar(c: nat) {
    c <= 0x10FFFF && !(0xD800 <= c <= 0xDFFF)
  }

  /** A continuation byte with the low six bits of `c`. */
  function Continuation(c: nat): (b: byte)
    ensures Tail(b)
  {
    0x80 + c % 0x40
  }

  /** The encoding of one, by the table of section 3 of RFC 3629: its low six bits in
      the last byte, the next six in the one before, the rest in the first. */
  function Encode(c: nat): (s: seq<byte>)
    requires Scalar(c)
    ensures s != []
  {
    var d := c / 0x40;
    var e := d / 0x40;
    var f := e / 0x40;
    if c <= 0x7F then [c]
    else if c <= 0x7FF then [0xC0 + d, Continuation(c)]
    else if c <= 0xFFFF then [0xE0 + e, Continuation(d), Continuation(c)]
    else [0xF0 + f, Continuation(e), Continuation(d), Continuation(c)]
  }

  function EncodeAll(text: seq<nat>): seq<byte>
    requires forall c | c in text :: Scalar(c)
  {
    if text == [] then [] else Encode(text[0]) + EncodeAll(text[1..])
  }

  /** A character's encoding is read as one character, whatever follows. */
  lemma {:induction false} WidthOfEncoded(c: nat, rest: seq<byte>)
    requires Scalar(c)
    ensures CharWidth(Encode(c) + rest) == |Encode(c)|
  {
    var s := Encode(c) + rest;
    assert forall i | 0 <= i < |Encode(c)| :: s[i] == Encode(c)[i];
  }

  /** What is read as one character encodes one. */
  lemma {:induction false} WidthDecodes(s: seq<byte>) returns (c: nat)
    requires s != [] && CharWidth(s) > 0
    ensures Scalar(c) && Encode(c) == s[..CharWidth(s)]
  {
    var w, x: int := CharWidth(s), s[0];
    c := x;
    if w == 2 {
      c := Sixes(x - 0xC0, s[1]);
    } else if w == 3 {
      c := Sixes(x - 0xE0, s[1]);
      c := Sixes(c, s[2]);
    } else if w == 4 {
      c := Sixes(x - 0xF0, s[1]);
      c := Sixes(c, s[2]);
      c := Sixes(c, s[3]);
    }
  }

  /** Six more bits from a continuation byte. */
  lemma Sixes(high: nat, b: byte) returns (c: nat)
    requires Tail(b)
    ensures c == 0x40 * high + (b - 0x80) && c / 0x40 == high && Continuation(c) == b
  {
    c := 0x40 * high + (b as int - 0x80);
  }

  /** A string is well-formed exactly when it encodes a text of scalar values. */
  lemma {:induction false} ValidExactly(s: seq<byte>)
    ensures ValidUtf8(s) <==> exists text: seq<nat> :: Encodes(text, s)
  {
    hide CharWidth;
    if ValidUtf8(s) { var text := DecodeAll(s); }
    if text: seq<nat> :| Encodes(text, s) { EncodedValid(text); }
  }

  ghost predicate Encodes(text: seq<nat>, s: seq<byte>) {
    (forall c | c in text :: Scalar(c)) && EncodeAll(text) == s
  }

  lemma {:induction false} DecodeAll(s: seq<byte>) returns (text: seq<nat>)
    requires ValidUtf8(s)
    ensures Encodes(text, s)
    decreases |s|
  {
    text := [];
    hide CharWidth, Encode, Scalar;
    if s != [] {
      var c := WidthDecodes(s);
      var rest := DecodeAll(s[CharWidth(s)..]);
      text := [c] + rest;
      assert text[1..] == rest && s == s[..CharWidth(s)] + s[CharWidth(s)..];
    }
  }

  lemma {:induction false} EncodedValid(text: seq<nat>)
    requires forall c | c in text :: Scalar(c)
    ensures ValidUtf8(EncodeAll(text))
  {
    hide CharWidth, Encode, Scalar;
    if text != [] {
      var first, rest := Encode(text[0]), EncodeAll(text[1..]);
      WidthOfEncoded(text[0], rest);
      EncodedValid(text[1..]);
      assert (first + rest)[|first|..] == rest;
    }
  }

  /** And it encodes only one text. */
  lemma {:induction false} EncodesOne(a: seq<nat>, b: seq<nat>, s: seq<byte>)
    requires Encodes(a, s) && Encodes(b, s)
    ensures a == b
    decreases |a|
  {
    hide CharWidth, Encode, Scalar;
    if a != [] && b != [] {
      var x, y := Encode(a[0]), Encode(b[0]);
      WidthOfEncoded(a[0], EncodeAll(a[1..]));
      WidthOfEncoded(b[0], EncodeAll(b[1..]));
      assert x == s[..CharWidth(s)] == y;
      EncodeTells(a[0], b[0]);
      assert s[|x|..] == EncodeAll(a[1..]) && s[|y|..] == EncodeAll(b[1..]);
      EncodesOne(a[1..], b[1..], s[|x|..]);
      assert a == [a[0]] + a[1..] && b == [b[0]] + b[1..];
    }
  }

  lemma {:induction false} EncodeTells(a: nat, b: nat)
    requires Scalar(a) && Scalar(b) && Encode(a) == Encode(b)
    ensures a == b
  {
    var s, t := Encode(a), Encode(b);
    assert forall i | 0 <= i < |s| :: s[i] == t[i];
  }
}
