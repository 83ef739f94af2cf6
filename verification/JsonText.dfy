/** Strings and integers of the canonical form (jjdai/canonical.py), each with a reader that
    inverts it on any following text. */
module JsonText {
  import opened Wrappers

  // ----- String escapes -----

  function HexDigit(d: nat): char
    requires d < 16
  {
    "0123456789abcdef"[d]
  }

  function Hex4(o: nat): (h: string)
    requires o < 0x10000
    ensures |h| == 4
  {
    [HexDigit(o / 4096), HexDigit(o / 256 % 16), HexDigit(o / 16 % 16), HexDigit(o % 16)]
  }

  function EscapeChar(c: char): string {
    var o := c as nat;
    if c == '"' then ['\\', '"']
    else if c == '\\' then ['\\', '\\']
    else if o == 0x08 then ['\\', 'b']
    else if o == 0x09 then ['\\', 't']
    else if o == 0x0A then ['\\', 'n']
    else if o == 0x0C then ['\\', 'f']
    else if o == 0x0D then ['\\', 'r']
    else if o < 0x20 then ['\\', 'u'] + Hex4(o)
    else [c]
  }

  /** Every character's text: section 3.2.2.2 of RFC 8785. Five control characters have a short form, the others are
      written as \u00 and two lower-case digits, the quote and the backslash are doubled by a backslash, and every
      character else stands for itself. */
  lemma EscapeTable(c: char)
    ensures EscapeChar('"') == "\\\"" && EscapeChar('\\') == "\\\\"
    ensures EscapeChar(8 as char) == "\\b" && EscapeChar(9 as char) == "\\t" && EscapeChar(10 as char) == "\\n"
    ensures EscapeChar(12 as char) == "\\f" && EscapeChar(13 as char) == "\\r"
    ensures c as nat < 16 && c as nat !in {8, 9, 10, 12, 13} ==>
              EscapeChar(c) == "\\u000" + ["0123456789abcdef"[c as nat]]
    ensures 16 <= c as nat < 32 ==> EscapeChar(c) == "\\u001" + ["0123456789abcdef"[c as nat - 16]]
    ensures c as nat >= 32 && c != '"' && c != '\\' ==> EscapeChar(c) == [c]
  {
    hide EscapeChar;
    ShortEscapes();
    if c as nat < 32 {
      LongEscape(c);
    } else {
      PlainEscape(c);
    }
  }

  lemma ShortEscapes()
    ensures EscapeChar('"') == "\\\"" && EscapeChar('\\') == "\\\\"
    ensures EscapeChar(8 as char) == "\\b" && EscapeChar(9 as char) == "\\t" && EscapeChar(10 as char) == "\\n"
    ensures EscapeChar(12 as char) == "\\f" && EscapeChar(13 as char) == "\\r"
  {
  }

  lemma PlainEscape(c: char)
    ensures c as nat >= 32 && c != '"' && c != '\\' ==> EscapeChar(c) == [c]
  {
  }

  lemma LongEscape(c: char)
    requires c as nat < 32
    ensures c as nat !in {8, 9, 10, 12, 13} ==>
              EscapeChar(c) == "\\u00" + [if c as nat < 16 then '0' else '1', HexDigit(c as nat % 16)]
  {
    hide HexDigit, Hex4;
    SmallHex(c as nat);
  }

  lemma SmallHex(o: nat)
    requires o < 32
    ensures Hex4(o) == "00" + [if o < 16 then '0' else '1', HexDigit(o % 16)]
  {
    assert o / 4096 == 0 && o / 256 % 16 == 0;
    assert o / 16 % 16 == if o < 16 then 0 else 1;
  }

  function EscapeAll(s: string): string {
    if s == [] then [] else EscapeChar(s[0]) + EscapeAll(s[1..])
  }

  /** A string literal: quotes around the escaped characters. */
  function Quote(s: string): string {
    ['"'] + EscapeAll(s) + ['"']
  }

  lemma {:induction false} EscapeAllConcat(s: string, t: string)
    ensures EscapeAll(s + t) == EscapeAll(s) + EscapeAll(t)
    decreases |s|
  {
    hide EscapeChar;
    if s == [] {
      assert s + t == t;
    } else {
      EscapeAllConcat(s[1..], t);
      assert (s + t)[1..] == s[1..] + t;
    }
  }

  /** The literal of a string is the literals of its parts run together inside one pair of quotes. */
  lemma QuoteExact(s: string, t: string, c: char)
    ensures EscapeAll([]) == [] && EscapeAll([c]) == EscapeChar(c) && EscapeAll(s + t) == EscapeAll(s) + EscapeAll(t)
    ensures Quote(s) == ['"'] + EscapeAll(s) + ['"']
  {
    hide EscapeChar;
    EscapeAllConcat(s, t);
    assert [c][1..] == [];
  }

  /** The output-list loop of `_escape_string`. */
  method EscapeString(s: string) returns (out: string)
    ensures out == Quote(s)
  {
    hide EscapeChar;
    out := ['"'];
    for i := 0 to |s|
      invariant out == ['"'] + EscapeAll(s[..i])
    {
      assert s[..i + 1] == s[..i] + [s[i]];
      EscapeAllConcat(s[..i], [s[i]]);
      assert EscapeAll([s[i]]) == EscapeChar(s[i]);
      out := out + EscapeChar(s[i]);
    }
    assert s[..|s|] == s;
    out := out + ['"'];
  }

  function HexValue(c: char): Option<nat> {
    var o := c as nat;
    if 48 <= o <= 57 then Some(o - 48) else if 97 <= o <= 102 then Some(o - 87) else None
  }

  lemma HexValueInverts(d: nat)
    requires d < 16
    ensures HexValue(HexDigit(d)) == Some(d)
  {
  }

  /** The character after a backslash, and what follows it. */
  function ReadEscape(t: string): (r: Option<(char, string)>)
    ensures r.Some? ==> |r.value.1| < |t|
  {
    if t == [] then None
    else if t[0] == '"' || t[0] == '\\' then Some((t[0], t[1..]))
    else if t[0] == 'b' then Some((8 as char, t[1..]))
    else if t[0] == 't' then Some((9 as char, t[1..]))
    else if t[0] == 'n' then Some((10 as char, t[1..]))
    else if t[0] == 'f' then Some((12 as char, t[1..]))
    else if t[0] == 'r' then Some((13 as char, t[1..]))
    else if t[0] == 'u' && |t| >= 5 then ReadHex(t[1..])
    else None
  }

  /** Four hexadecimal digits that name a control character. */
  function ReadHex(t: string): (r: Option<(char, string)>)
    requires |t| >= 4
    ensures r.Some? ==> |r.value.1| < |t|
  {
    var a, b, c, d := HexValue(t[0]), HexValue(t[1]), HexValue(t[2]), HexValue(t[3]);
    if a == Some(0) && b == Some(0) && c.Some? && c.value < 2 && d.Some?
    then Some(((16 * c.value + d.value) as char, t[4..]))
    else None
  }

  /** The rest of a string literal after its opening quote, and what follows its closing quote. */
  function ReadChars(t: string): (r: Option<(string, string)>)
    ensures r.Some? ==> |r.value.1| < |t|
    decreases |t|
  {
    if t == [] then None
    else if t[0] == '"' then Some(([], t[1..]))
    else if t[0] == '\\' then
      var e := ReadEscape(t[1..]);
      if e.None? then None
      else
        var more := ReadChars(e.value.1);
        if more.None? then None else Some(([e.value.0] + more.value.0, more.value.1))
    else
      var more := ReadChars(t[1..]);
      if more.None? then None else Some(([t[0]] + more.value.0, more.value.1))
  }

  lemma Hex4Reads(o: nat, rest: string)
    requires o < 0x20
    ensures ReadHex(Hex4(o) + rest) == Some((o as char, rest))
  {
    hide HexDigit, HexValue;
    HexValueInverts(0);
    HexValueInverts(o / 16);
    HexValueInverts(o % 16);
    var t := Hex4(o) + rest;
    assert t[4..] == rest;
    assert o / 4096 == 0 && o / 256 % 16 == 0 && o / 16 % 16 == o / 16;
  }

  /** The escape of one character reads back as that character. */
  lemma EscapeReads(c: char, rest: string)
    requires |EscapeChar(c)| > 1
    ensures EscapeChar(c)[0] == '\\' && ReadEscape(EscapeChar(c)[1..] + rest) == Some((c, rest))
  {
    hide Hex4, ReadHex;
    var t := EscapeChar(c)[1..] + rest;
    if |EscapeChar(c)| == 2 {
      assert t[1..] == rest;
    } else {
      var o := c as nat;
      assert t[1..] == Hex4(o) + rest;
      Hex4Reads(o, rest);
    }
  }

  lemma {:induction false} CharsReadBack(s: string, rest: string)
    ensures ReadChars(EscapeAll(s) + ['"'] + rest) == Some((s, rest))
    decreases |s|
  {
    hide ReadEscape, EscapeChar;
    var t := EscapeAll(s) + ['"'] + rest;
    if s == [] {
      assert t == ['"'] + rest && t[1..] == rest;
    } else {
      var more := EscapeAll(s[1..]) + ['"'] + rest;
      CharsReadBack(s[1..], rest);
      assert t == EscapeChar(s[0]) + more;
      assert [s[0]] + s[1..] == s;
      OneCharReads(s[0], more);
    }
  }

  lemma OneCharReads(c: char, more: string)
    ensures var t := EscapeChar(c) + more;
            ReadChars(t) ==
            if ReadChars(more).None? then None
            else Some(([c] + ReadChars(more).value.0, ReadChars(more).value.1))
  {
    hide ReadEscape;
    var t := EscapeChar(c) + more;
    if |EscapeChar(c)| == 1 {
      assert EscapeChar(c) == [c] && t[1..] == more;
    } else {
      EscapeReads(c, more);
      assert t[0] == '\\' && t[1..] == EscapeChar(c)[1..] + more;
    }
  }

  // ----- Integers -----

  predicate IsDigit(c: char) {
    '0' <= c <= '9'
  }

  function DigitChar(d: nat): char
    requires d < 10
  {
    "0123456789"[d]
  }

  function Decimal(n: nat): string {
    if n < 10 then [DigitChar(n)] else Decimal(n / 10) + [DigitChar(n % 10)]
  }

  /** Python's str of an integer. */
  function IntText(n: int): string {
    if n < 0 then ['-'] + Decimal(-n) else Decimal(n)
  }

  /** How many digits a text starts with. */
  function DigitSpan(t: string): (k: nat)
    ensures k <= |t| && forall i :: 0 <= i < k ==> IsDigit(t[i])
  {
    if t == [] || !IsDigit(t[0]) then 0 else 1 + DigitSpan(t[1..])
  }

  function DigitValue(c: char): nat
    requires IsDigit(c)
  {
    c as int - 48
  }

  function DigitsValue(ds: string): nat
    requires forall i :: 0 <= i < |ds| ==> IsDigit(ds[i])
  {
    if ds == [] then 0 else 10 * DigitsValue(ds[..|ds| - 1]) + DigitValue(ds[|ds| - 1])
  }

  function ReadNat(t: string): (r: Option<(nat, string)>)
    ensures r.Some? ==> |r.value.1| < |t|
  {
    var k := DigitSpan(t);
    if k == 0 then None else Some((DigitsValue(t[..k]), t[k..]))
  }

  function ReadInt(t: string): (r: Option<(int, string)>)
    ensures r.Some? ==> |r.value.1| < |t|
  {
    if t != [] && t[0] == '-' then
      var r := ReadNat(t[1..]);
      if r.None? then None
      else
        var m: int := r.value.0;
        Some((-m, r.value.1))
    else
      var r := ReadNat(t);
      if r.None? then None else Some((r.value.0, r.value.1))
  }

  /** A text that cannot continue a number. */
  predicate EndsNumber(rest: string) {
    rest == [] || !IsDigit(rest[0])
  }

  lemma {:induction false} SpanOfDigits(ds: string, rest: string)
    requires (forall i :: 0 <= i < |ds| ==> IsDigit(ds[i])) && EndsNumber(rest)
    ensures DigitSpan(ds + rest) == |ds|
    decreases |ds|
  {
    if ds == [] {
      assert ds + rest == rest;
    } else {
      SpanOfDigits(ds[1..], rest);
      assert (ds + rest)[1..] == ds[1..] + rest;
    }
  }

  lemma {:induction false} DecimalValue(n: nat)
    ensures |Decimal(n)| > 0 && (forall i :: 0 <= i < |Decimal(n)| ==> IsDigit(Decimal(n)[i]))
    ensures DigitsValue(Decimal(n)) == n
    decreases n
  {
    if n >= 10 {
      DecimalValue(n / 10);
      var ds := Decimal(n);
      assert ds[..|ds| - 1] == Decimal(n / 10);
    } else {
      assert Decimal(n)[..0] == [];
    }
  }

  /** No leading zero: only zero starts with 0, and it is a single digit. */
  lemma {:induction false} DecimalIsShort(n: nat)
    ensures |Decimal(n)| > 0 && (Decimal(n)[0] == '0' <==> n == 0) && (n == 0 ==> Decimal(n) == "0")
    decreases n
  {
    if n >= 10 {
      DecimalIsShort(n / 10);
    }
  }

  lemma NatReadsBack(n: nat, rest: string)
    requires EndsNumber(rest)
    ensures ReadNat(Decimal(n) + rest) == Some((n, rest))
  {
    hide Decimal, DigitsValue, DigitSpan;
    DecimalValue(n);
    SpanOfDigits(Decimal(n), rest);
    var t := Decimal(n) + rest;
    assert t[..|Decimal(n)|] == Decimal(n) && t[|Decimal(n)|..] == rest;
  }

  lemma IntReadsBack(n: int, rest: string)
    requires EndsNumber(rest)
    ensures ReadInt(IntText(n) + rest) == Some((n, rest))
    ensures |IntText(n)| > 0 && (IntText(n)[0] == '-' || IsDigit(IntText(n)[0]))
  {
    hide ReadNat, Decimal;
    if n < 0 {
      NatReadsBack(-n, rest);
      assert (IntText(n) + rest)[1..] == Decimal(-n) + rest;
    } else {
      NatReadsBack(n, rest);
      DecimalValue(n);
      assert (IntText(n) + rest)[0] == Decimal(n)[0];
    }
  }
}
