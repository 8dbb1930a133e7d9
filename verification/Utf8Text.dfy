/** The validity test of the JSON writer against RFC 3629: valid are exactly the
    encodings of sequences of Unicode scalar values. */
module Utf8Text {
  import opened Common
  import opened JsonString

  /** A Unicode scalar value: any code point but the surrogates. */
  type Scalar = code: int | 0 <= code < 0x110000 && !(0xD800 <= code < 0xE000)

  /** The encoding of section 3 of RFC 3629, one value after the other. */
  function Encoded(codes: seq<Scalar>): (s: Bytes) {
    if codes == [] then [] else Utf8(codes[0]) + Encoded(codes[1..])
  }

  /** An encoded value is recognised whatever follows it. */
  lemma LeadOfEncoded(code: Scalar, rest: Bytes)
    ensures LeadLength(Utf8(code) + rest) == |Utf8(code)| > 0
  {
    var s := Utf8(code) + rest;
    assert forall i :: 0 <= i < |Utf8(code)| ==> s[i] == Utf8(code)[i];
    if 0x800 <= code < 0x10000 {
      ThreeBytes(code);
    } else if code >= 0x10000 {
      FourBytes(code);
    }
  }

  lemma ThreeBytes(code: Scalar)
    requires 0x800 <= code < 0x10000
    ensures var u := Utf8(code);
      |u| == 3 && 0xE0 <= u[0] < 0xF0 && Cont(u[1]) && Cont(u[2]) && (u[0] == 0xE0 ==> u[1] >= 0xA0) && (u[0] == 0xED ==> u[1] < 0xA0)
  {
  }

  lemma FourBytes(code: Scalar)
    requires 0x10000 <= code
    ensures var u := Utf8(code);
      |u| == 4 && 0xF0 <= u[0] < 0xF5 && Cont(u[1]) && Cont(u[2]) && Cont(u[3]) && (u[0] == 0xF0 ==> u[1] >= 0x90) && (u[0] == 0xF4 ==> u[1] < 0x90)
  {
  }

  /** What is recognised is an encoded value. */
  lemma EncodedOfLead(s: Bytes) returns (code: Scalar)
    requires LeadLength(s) > 0
    ensures Utf8(code) == s[..LeadLength(s)]
  {
    var n := LeadLength(s);
    var first: int := s[0];
    if n == 1 {
      code := first;
    } else if n == 2 {
      var second: int := s[1];
      code := (first - 0xC0) * 64 + (second - 0x80);
    } else if n == 3 {
      code := OfThree(s[0], s[1], s[2]);
    } else {
      code := OfFour(s[0], s[1], s[2], s[3]);
    }
  }

  lemma OfThree(a: Byte, b: Byte, c: Byte) returns (code: Scalar)
    requires 0xE0 <= a < 0xF0 && Cont(b) && Cont(c) && (a == 0xE0 ==> b >= 0xA0) && (a == 0xED ==> b < 0xA0)
    ensures Utf8(code) == [a, b, c]
  {
    var x: int, y: int, z: int := a - 0xE0, b - 0x80, c - 0x80;
    code := x * 4096 + y * 64 + z;
  }

  lemma OfFour(a: Byte, b: Byte, c: Byte, d: Byte) returns (code: Scalar)
    requires 0xF0 <= a < 0xF5 && Cont(b) && Cont(c) && Cont(d) && (a == 0xF0 ==> b >= 0x90) && (a == 0xF4 ==> b < 0x90)
    ensures Utf8(code) == [a, b, c, d]
  {
    var x: int, y: int, z: int, w: int := a - 0xF0, b - 0x80, c - 0x80, d - 0x80;
    var all := x * 262144 + y * 4096 + z * 64 + w;
    assert all / 64 == x * 4096 + y * 64 + z && all / 4096 == x * 64 + y && all / 262144 == x;
    code := all;
  }

  lemma {:induction false} EncodedIsValid(codes: seq<Scalar>)
    ensures Utf8Valid(Encoded(codes))
    decreases |codes|
  {
    if codes == [] {
    } else {
      var s, rest := Encoded(codes), Encoded(codes[1..]);
      LeadOfEncoded(codes[0], rest);
      assert s[|Utf8(codes[0])|..] == rest;
      EncodedIsValid(codes[1..]);
    }
  }

  /** A valid sequence begins with an encoded value and goes on validly. */
  lemma ValidSplits(s: Bytes) returns (code: Scalar, rest: Bytes)
    requires Utf8Valid(s) && s != []
    ensures s == Utf8(code) + rest && Utf8Valid(rest) && |rest| < |s|
  {
    code := EncodedOfLead(s);
    rest := s[LeadLength(s)..];
    assert s[..LeadLength(s)] + rest == s;
  }

  lemma {:induction false} ValidIsEncoded(s: Bytes) returns (codes: seq<Scalar>)
    requires Utf8Valid(s)
    ensures Encoded(codes) == s
    decreases |s|
  {
    if s == [] {
      codes := [];
    } else {
      var code, rest := ValidSplits(s);
      codes := ValidIsEncoded(rest);
      EncodedCons(code, codes);
      codes := [code] + codes;
    }
  }

  lemma EncodedCons(code: Scalar, rest: seq<Scalar>)
    ensures Encoded([code] + rest) == Utf8(code) + Encoded(rest)
  {
    assert ([code] + rest)[1..] == rest;
  }

  /** The writer accepts a byte sequence if and only if it encodes some sequence of
      Unicode scalar values, of one to four bytes each. */
  lemma ValidIff(s: Bytes)
    ensures Utf8Valid(s) <==> exists codes: seq<Scalar> :: Encoded(codes) == s
  {
    if Utf8Valid(s) {
      var codes := ValidIsEncoded(s);
    }
    if codes: seq<Scalar> :| Encoded(codes) == s {
      EncodedIsValid(codes);
    }
  }
}
