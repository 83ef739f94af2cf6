/** The names an import may have: exactly the texts of Unicode scalar values (kernel/wasm_pure.py:140-149, section 3 of
    RFC 3629). */
module WasmNames {
  import opened WasmImports

  /** A code point that is not a surrogate. */
  predicate Scalar(c: nat) {
    c < 0xD800 || 0xE000 <= c < 0x110000
  }

  function EncodeChar(c: nat): (s: seq<byte>)
    requires Scalar(c)
    ensures 1 <= |s| <= 4
  {
    if c < 0x80 then [c]
    else if c < 0x800 then [0xC0 + c / 64, 0x80 + c % 64]
    else if c < 0x10000 then [0xE0 + c / 4096, 0x80 + c / 64 % 64, 0x80 + c % 64]
    else [0xF0 + c / 262144, 0x80 + c / 4096 % 64, 0x80 + c / 64 % 64, 0x80 + c % 64]
  }

  predicate Text(cs: seq<nat>) {
    forall i :: 0 <= i < |cs| ==> Scalar(cs[i])
  }

  function EncodeText(cs: seq<nat>): seq<byte>
    requires Text(cs)
  {
    if cs == [] then [] else EncodeChar(cs[0]) + EncodeText(cs[1..])
  }

  // ----- One character -----

  lemma WidthAsEncoded(c: nat, rest: seq<byte>)
    requires Scalar(c)
    ensures CharWidth(EncodeChar(c) + rest) == |EncodeChar(c)|
  {
    if c < 0x800 {
      ShortWidth(c, rest);
    } else if c < 0x10000 {
      ThreeWide(c, rest);
    } else {
      FourWide(c, rest);
    }
  }

  lemma ShortWidth(c: nat, rest: seq<byte>)
    requires c < 0x800
    ensures CharWidth(EncodeChar(c) + rest) == |EncodeChar(c)|
  {
  }

  lemma ThreeWide(c: nat, rest: seq<byte>)
    requires 0x800 <= c < 0x10000 && Scalar(c)
    ensures CharWidth(EncodeChar(c) + rest) == |EncodeChar(c)|
  {
    var a, b, d := c / 4096, c / 64 % 64, c % 64;
    assert c == 4096 * a + 64 * b + d;
    var s := EncodeChar(c) + rest;
    assert s[0] == 0xE0 + a && s[1] == 0x80 + b && s[2] == 0x80 + d;
  }

  lemma FourWide(c: nat, rest: seq<byte>)
    requires 0x10000 <= c < 0x110000
    ensures CharWidth(EncodeChar(c) + rest) == |EncodeChar(c)|
  {
    var s := EncodeChar(c) + rest;
    FourDigits(c);
    assert s[0] == 0xF0 + c / 262144 && s[1] == 0x80 + c / 4096 % 64;
    assert Continuation(s[1]) && Continuation(s[2]) && Continuation(s[3]);
  }

  lemma FourDigits(c: nat)
    requires 0x10000 <= c < 0x110000
    ensures c / 262144 <= 4
    ensures c / 262144 == 0 ==> c / 4096 % 64 >= 16
    ensures c / 262144 == 4 ==> c / 4096 % 64 < 16
  {
    var a, b := c / 262144, c / 4096;
    assert b / 64 == a && b == 64 * a + b % 64;
  }

  /** The code point of an accepted character. */
  lemma CharDecodes(s: seq<byte>) returns (c: nat)
    requires s != [] && CharWidth(s) > 0
    ensures Scalar(c) && CharWidth(s) <= |s| && EncodeChar(c) == s[..CharWidth(s)]
  {
    match CharWidth(s) {
      case 1 => c := s[0];
      case 2 =>
        var a: int, b: int := s[0] - 0xC0, s[1] - 0x80;
        c := 64 * a + b;
      case 3 => c := DecodesThree(s);
      case _ => c := DecodesFour(s);
    }
  }

  lemma DecodesThree(s: seq<byte>) returns (c: nat)
    requires s != [] && CharWidth(s) == 3
    ensures Scalar(c) && |s| >= 3 && EncodeChar(c) == s[..3]
  {
    var a: int, b: int, d: int := s[0] - 0xE0, s[1] - 0x80, s[2] - 0x80;
    c := 4096 * a + 64 * b + d;
    assert 0x800 <= c < 0x10000 && Scalar(c);
    assert c / 4096 == a && c / 64 % 64 == b && c % 64 == d;
  }

  lemma DecodesFour(s: seq<byte>) returns (c: nat)
    requires s != [] && CharWidth(s) >= 4
    ensures Scalar(c) && |s| >= 4 && CharWidth(s) == 4 && EncodeChar(c) == s[..4]
  {
    var a: int, b: int, d: int, e: int := s[0] - 0xF0, s[1] - 0x80, s[2] - 0x80, s[3] - 0x80;
    c := 262144 * a + 4096 * b + 64 * d + e;
    assert 0x10000 <= c < 0x110000;
    Regroup(a, b, d, e);
  }

  lemma Regroup(a: nat, b: nat, d: nat, e: nat)
    requires b < 64 && d < 64 && e < 64
    ensures var c := 262144 * a + 4096 * b + 64 * d + e;
            c / 262144 == a && c / 4096 % 64 == b && c / 64 % 64 == d && c % 64 == e
  {
    var c := 262144 * a + 4096 * b + 64 * d + e;
    assert c / 64 == 4096 * a + 64 * b + d;
    assert c / 4096 == 64 * a + b;
  }

  // ----- Whole names -----

  lemma {:induction false} TextIsValid(cs: seq<nat>)
    requires Text(cs)
    ensures ValidUtf8(EncodeText(cs))
    decreases |cs|
  {
    hide CharWidth, EncodeChar;
    if cs != [] {
      TextIsValid(cs[1..]);
      var head, rest := EncodeChar(cs[0]), EncodeText(cs[1..]);
      WidthAsEncoded(cs[0], rest);
      assert (head + rest)[|head|..] == rest;
    }
  }

  lemma {:induction false} ValidIsText(s: seq<byte>) returns (cs: seq<nat>)
    requires ValidUtf8(s)
    ensures Text(cs) && EncodeText(cs) == s
    decreases |s|
  {
    hide CharWidth, EncodeChar;
    cs := [];
    if s != [] {
      var w := CharWidth(s);
      var c := CharDecodes(s);
      var more := ValidIsText(s[w..]);
      cs := [c] + more;
      assert cs[1..] == more && s == s[..w] + s[w..];
    }
  }

  /** MAIN: the bytes a name may have are exactly the encodings of texts of Unicode scalar values: no overlong form, no
      surrogate, nothing past the last code point and nothing cut short. */
  lemma NamesAreTexts(s: seq<byte>)
    ensures ValidUtf8(s) <==> exists cs :: Text(cs) && EncodeText(cs) == s
  {
    if ValidUtf8(s) {
      var cs := ValidIsText(s);
    }
    if cs :| Text(cs) && EncodeText(cs) == s {
      TextIsValid(cs);
    }
  }
}
