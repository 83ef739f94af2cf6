/** kernel/wasm_pure.py: the import reader behind the `pure` boundary (binary format of the
    WebAssembly Core Specification, sections 5.2.2 and 5.5.5). */
module WasmImports {

  type byte = x: int | 0 <= x < 256

  datatype Result<+T> = Ok(value: T) | Malformed

  datatype Kind = Func | Table | Memory | Global | UnknownKind

  datatype Import = Import(mod: seq<byte>, name: seq<byte>, kind: Kind)

  const IMPORT_SECTION: byte := 2

  // ----- LEB128 -----

  /** One unsigned LEB128 after k of its bytes; the eleventh byte is refused. */
  function ReadUleb(data: seq<byte>, pos: nat, k: nat): (r: Result<(nat, nat)>)
    ensures r.Ok? ==> pos < r.value.1 <= |data|
    decreases |data| - pos
  {
    if pos >= |data| then Malformed
    else if data[pos] < 128 then Ok((data[pos], pos + 1))
    else if 7 * (k + 1) > 63 then Malformed
    else
      var r := ReadUleb(data, pos + 1, k + 1);
      if r.Malformed? then Malformed else Ok((data[pos] % 128 + 128 * r.value.0, r.value.1))
  }

  function Power128(k: nat): nat {
    if k == 0 then 1 else 128 * Power128(k - 1)
  }

  /** What a number means once it is placed `scale` above what was already read. */
  function Placed(r: Result<(nat, nat)>, low: nat, scale: nat): Result<(nat, nat)> {
    if r.Malformed? then Malformed else Ok((low + scale * r.value.0, r.value.1))
  }

  lemma NextSeptet(data: seq<byte>, pos: nat, k: nat, low: nat, scale: nat)
    requires pos < |data| && data[pos] >= 128 && 7 * (k + 1) <= 63
    ensures Placed(ReadUleb(data, pos, k), low, scale)
         == Placed(ReadUleb(data, pos + 1, k + 1), low + data[pos] % 128 * scale, 128 * scale)
  {
    var r := ReadUleb(data, pos + 1, k + 1);
    if r.Ok? {
      hide *;
      Septets(low, scale, data[pos] % 128, r.value.0);
    }
  }

  lemma Septets(acc: nat, scale: nat, low: nat, high: nat)
    ensures acc + scale * (low + 128 * high) == (acc + low * scale) + (128 * scale) * high
  {
  }

  lemma LastSeptet(data: seq<byte>, pos: nat, k: nat, low: nat, scale: nat)
    requires pos < |data| && data[pos] < 128
    ensures Placed(ReadUleb(data, pos, k), low, scale) == Ok((low + data[pos] % 128 * scale, pos + 1))
  {
  }

  lemma Unreadable(data: seq<byte>, pos: nat, k: nat, low: nat, scale: nat)
    requires pos >= |data| || (data[pos] >= 128 && 7 * (k + 1) > 63)
    ensures Placed(ReadUleb(data, pos, k), low, scale) == Malformed
  {
  }

  /** The accumulator loop of `_uleb`; or-ing shifted septets is adding them. */
  method Uleb(data: seq<byte>, start: nat) returns (r: Result<(nat, nat)>)
    ensures r == ReadUleb(data, start, 0)
  {
    hide ReadUleb;
    var pos: nat, result: nat, shift: nat, scale: nat := start, 0, 0, 1;
    ghost var k := 0;
    assert Placed(ReadUleb(data, start, 0), 0, 1) == ReadUleb(data, start, 0);
    hide Placed;
    while true
      invariant start <= pos && shift == 7 * k && scale == Power128(k)
      invariant ReadUleb(data, start, 0) == Placed(ReadUleb(data, pos, k), result, scale)
      decreases |data| - pos
    {
      if pos >= |data| {
        Unreadable(data, pos, k, result, scale);
        return Malformed;
      }
      var b := data[pos];
      if b < 128 {
        LastSeptet(data, pos, k, result, scale);
        return Ok((result + b % 128 * scale, pos + 1));
      }
      shift := shift + 7;
      if shift > 63 {
        Unreadable(data, pos, k, result, scale);
        return Malformed;
      }
      NextSeptet(data, pos, k, result, scale);
      pos, result := pos + 1, result + b % 128 * scale;
      scale, k := 128 * scale, k + 1;
    }
  }

  // ----- Names -----

  predicate Continuation(b: byte) {
    0x80 <= b < 0xC0
  }

  /** How many bytes the first character of well-formed UTF-8 takes; 0 if it is ill-formed. */
  function CharWidth(s: seq<byte>): nat
    requires s != []
  {
    if s[0] < 0x80 then 1
    else if 0xC2 <= s[0] < 0xE0 then (if |s| >= 2 && Continuation(s[1]) then 2 else 0)
    else if 0xE0 <= s[0] < 0xF0 then
      if |s| >= 3 && Continuation(s[1]) && Continuation(s[2]) && (s[0] == 0xE0 ==> s[1] >= 0xA0)
         && (s[0] == 0xED ==> s[1] < 0xA0)
      then 3 else 0
    else if 0xF0 <= s[0] < 0xF5 then
      if |s| >= 4 && Continuation(s[1]) && Continuation(s[2]) && Continuation(s[3])
         && (s[0] == 0xF0 ==> s[1] >= 0x90) && (s[0] == 0xF4 ==> s[1] < 0x90) then 4 else 0
    else 0
  }

  predicate ValidUtf8(s: seq<byte>) {
    s == [] || (0 < CharWidth(s) <= |s| && ValidUtf8(s[CharWidth(s)..]))
  }

  /** A length and that many bytes of UTF-8. */
  function ReadName(data: seq<byte>, pos: nat): (r: Result<(seq<byte>, nat)>)
    ensures r.Ok? ==> pos < r.value.1 <= |data|
  {
    var n := ReadUleb(data, pos, 0);
    if n.Malformed? then Malformed
    else
      var (length, start) := n.value;
      if start + length > |data| || !ValidUtf8(data[start..start + length]) then Malformed
      else Ok((data[start..start + length], start + length))
  }

  // ----- Descriptors -----

  function KindOf(b: byte): Kind {
    if b == 0 then Func else if b == 1 then Table else if b == 2 then Memory else if b == 3 then Global else UnknownKind
  }

  function SkipLimits(data: seq<byte>, pos: nat): (r: Result<nat>)
    ensures r.Ok? ==> pos < r.value <= |data|
  {
    if pos >= |data| then Malformed
    else
      var low := ReadUleb(data, pos + 1, 0);
      if low.Malformed? then Malformed
      else if data[pos] % 2 == 0 then Ok(low.value.1)
      else
        var high := ReadUleb(data, low.value.1, 0);
        if high.Malformed? then Malformed else Ok(high.value.1)
  }

  function SkipBody(data: seq<byte>, pos: nat, kind: byte): (r: Result<nat>)
    ensures r.Ok? ==> pos <= r.value <= |data|
  {
    if kind == 0 then
      var t := ReadUleb(data, pos, 0);
      if t.Malformed? then Malformed else Ok(t.value.1)
    else if kind == 1 then if pos + 1 > |data| then Malformed else SkipLimits(data, pos + 1)
    else if kind == 2 then SkipLimits(data, pos)
    else if kind == 3 then if pos + 2 > |data| then Malformed else Ok(pos + 2)
    else Malformed
  }

  function SkipDescriptor(data: seq<byte>, pos: nat, end: nat): (r: Result<nat>)
    ensures r.Ok? ==> pos < r.value <= |data| && r.value <= end
  {
    if pos >= |data| then Malformed
    else
      var r := SkipBody(data, pos + 1, data[pos]);
      if r.Malformed? || r.value > end then Malformed else r
  }

  // ----- The import section -----

  function ReadEntry(data: seq<byte>, p: nat, end: nat): (r: Result<(Import, nat)>)
    ensures r.Ok? ==> p < r.value.1 <= |data|
  {
    var mod := ReadName(data, p);
    if mod.Malformed? then Malformed
    else
      var name := ReadName(data, mod.value.1);
      if name.Malformed? then Malformed
      else
        var at := name.value.1;
        if at >= end || at >= |data| then Malformed
        else
          var next := SkipDescriptor(data, at, end);
          if next.Malformed? then Malformed else Ok((Import(mod.value.0, name.value.0, KindOf(data[at])), next.value))
  }

  function ReadEntries(data: seq<byte>, p: nat, end: nat, count: nat): (r: Result<seq<Import>>)
    decreases count
  {
    if count == 0 then Ok([])
    else
      var e := ReadEntry(data, p, end);
      if e.Malformed? then Malformed
      else
        var more := ReadEntries(data, e.value.1, end, count - 1);
        if more.Malformed? then Malformed else Ok([e.value.0] + more.value)
  }

  function ReadImportSection(data: seq<byte>, pos: nat, end: nat): Result<seq<Import>> {
    var count := ReadUleb(data, pos, 0);
    if count.Malformed? then Malformed else ReadEntries(data, count.value.1, end, count.value.0)
  }

  function ReadSections(data: seq<byte>, pos: nat): (r: Result<seq<Import>>)
    decreases |data| - pos
  {
    if pos >= |data| then Ok([])
    else
      var size := ReadUleb(data, pos + 1, 0);
      if size.Malformed? then Malformed
      else
        var start, end := size.value.1, size.value.1 + size.value.0;
        if end > |data| then Malformed
        else
          var here := if data[pos] == IMPORT_SECTION then ReadImportSection(data, start, end) else Ok([]);
          if here.Malformed? then Malformed
          else
            var more := ReadSections(data, end);
            if more.Malformed? then Malformed else Ok(here.value + more.value)
  }

  const HEADER: seq<byte> := [0x00, 0x61, 0x73, 0x6D, 1, 0, 0, 0]

  function ImportsOf(data: seq<byte>): Result<seq<Import>> {
    if |data| < 8 || data[..8] != HEADER then Malformed else ReadSections(data, 8)
  }

  method ReadAllEntries(data: seq<byte>, start: nat, end: nat, count: nat) returns (r: Result<seq<Import>>)
    ensures r == ReadEntries(data, start, end, count)
  {
    hide ReadEntry;
    var imports, p := [], start;
    ghost var all := ReadEntries(data, start, end, count);
    assert all.Ok? ==> [] + all.value == all.value;
    for i := 0 to count
      invariant var rest := ReadEntries(data, p, end, count - i);
                all == if rest.Malformed? then Malformed else Ok(imports + rest.value)
    {
      var e := ReadEntry(data, p, end);
      if e.Malformed? {
        return Malformed;
      }
      ghost var more := ReadEntries(data, e.value.1, end, count - i - 1);
      if more.Ok? {
        assert imports + ([e.value.0] + more.value) == (imports + [e.value.0]) + more.value;
      }
      imports, p := imports + [e.value.0], e.value.1;
    }
    assert imports + [] == imports;
    r := Ok(imports);
  }

  /** Every byte string is read to the end or refused; the section loop always advances. */
  method ParseImports(data: seq<byte>) returns (r: Result<seq<Import>>)
    ensures r == ImportsOf(data)
  {
    if |data| < 8 || data[..8] != HEADER {
      return Malformed;
    }
    r := ParseSections(data);
  }

  method ParseSections(data: seq<byte>) returns (r: Result<seq<Import>>)
    requires |data| >= 8
    ensures r == ReadSections(data, 8)
  {
    hide ReadEntries, ReadUleb;
    var imports, pos: nat := [], 8;
    ghost var all := ReadSections(data, 8);
    assert all.Ok? ==> [] + all.value == all.value;
    while pos < |data|
      invariant 8 <= pos <= |data|
      invariant var rest := ReadSections(data, pos);
                all == if rest.Malformed? then Malformed else Ok(imports + rest.value)
      decreases |data| - pos
    {
      var id := data[pos];
      var size := Uleb(data, pos + 1);
      if size.Malformed? {
        return Malformed;
      }
      var start, end := size.value.1, size.value.1 + size.value.0;
      if end > |data| {
        return Malformed;
      }
      var here: seq<Import> := [];
      if id == IMPORT_SECTION {
        var count := Uleb(data, start);
        if count.Malformed? {
          return Malformed;
        }
        var es := ReadAllEntries(data, count.value.1, end, count.value.0);
        if es.Malformed? {
          return Malformed;
        }
        here := es.value;
      }
      ghost var more := ReadSections(data, end);
      if more.Ok? {
        assert imports + (here + more.value) == (imports + here) + more.value;
      }
      imports, pos := imports + here, end;
    }
    assert imports + [] == imports;
    r := Ok(imports);
  }
}
