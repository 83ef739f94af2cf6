/** An encoder for the part of the WebAssembly binary format that kernel/wasm_pure.py reads
    (sections 5.2.2 and 5.5.5 of the WebAssembly Core Specification), and the allowlist. */
module WasmEncoding {
  import opened WasmImports

  // ----- What an encoder emits -----

  /** A number and how many bytes it is written in: LEB128 may be padded. */
  datatype Number = Number(value: nat, width: nat) {
    predicate Writable() {
      1 <= width <= 10 && value < Power128(width)
    }
  }

  datatype Limits = Limits(flags: byte, min: Number, max: Number)

  datatype Descriptor =
    | FuncType(index: Number)
    | TableType(elem: byte, limits: Limits)
    | MemoryType(limits: Limits)
    | GlobalType(valtype: byte, mutability: byte)

  datatype Name = Name(text: seq<byte>, width: nat)

  datatype Entry = Entry(mod: Name, name: Name, descriptor: Descriptor)

  /** A section body may carry bytes after its last import; the reader skips them. */
  datatype Section =
    | ImportSection(sizeWidth: nat, countWidth: nat, entries: seq<Entry>, trailing: seq<byte>)
    | OtherSection(id: byte, sizeWidth: nat, body: seq<byte>)

  function NumberBytes(n: Number): (r: seq<byte>)
    requires n.Writable()
    ensures |r| == n.width
    decreases n.width
  {
    if n.width == 1 then [n.value]
    else [128 + n.value % 128] + NumberBytes(Number(n.value / 128, n.width - 1))
  }

  predicate WritableLimits(l: Limits) {
    l.min.Writable() && l.max.Writable()
  }

  predicate WritableDescriptor(d: Descriptor) {
    match d
    case FuncType(index) => index.Writable()
    case TableType(_, l) => WritableLimits(l)
    case MemoryType(l) => WritableLimits(l)
    case GlobalType(_, _) => true
  }

  predicate WritableName(n: Name) {
    Number(|n.text|, n.width).Writable() && ValidUtf8(n.text)
  }

  predicate WritableEntry(e: Entry) {
    WritableName(e.mod) && WritableName(e.name) && WritableDescriptor(e.descriptor)
  }

  predicate WritableBody(s: Section) {
    match s
    case ImportSection(_, countWidth, entries, _) =>
      (forall e <- entries :: WritableEntry(e)) && Number(|entries|, countWidth).Writable()
    case OtherSection(id, _, _) => id != IMPORT_SECTION
  }

  predicate WritableSection(s: Section) {
    WritableBody(s) && Number(|SectionBody(s)|, s.sizeWidth).Writable()
  }

  predicate WritableModule(m: seq<Section>) {
    forall s <- m :: WritableSection(s)
  }

  function LimitsBytes(l: Limits): (r: seq<byte>)
    requires WritableLimits(l)
  {
    [l.flags] + (NumberBytes(l.min) + if l.flags % 2 == 1 then NumberBytes(l.max) else [])
  }

  function DescriptorBytes(d: Descriptor): (r: seq<byte>)
    requires WritableDescriptor(d)
    ensures |r| > 0
  {
    match d
    case FuncType(index) => [0] + NumberBytes(index)
    case TableType(elem, l) => [1, elem] + LimitsBytes(l)
    case MemoryType(l) => [2] + LimitsBytes(l)
    case GlobalType(v, m) => [3, v, m]
  }

  function NameBytes(n: Name): seq<byte>
    requires WritableName(n)
  {
    NumberBytes(Number(|n.text|, n.width)) + n.text
  }

  function EntryBytes(e: Entry): seq<byte>
    requires WritableEntry(e)
  {
    NameBytes(e.mod) + (NameBytes(e.name) + DescriptorBytes(e.descriptor))
  }

  function EntriesBytes(es: seq<Entry>): seq<byte>
    requires forall e <- es :: WritableEntry(e)
  {
    if es == [] then [] else EntryBytes(es[0]) + EntriesBytes(es[1..])
  }

  function SectionBody(s: Section): seq<byte>
    requires WritableBody(s)
  {
    match s
    case ImportSection(_, countWidth, entries, trailing) =>
      NumberBytes(Number(|entries|, countWidth)) + (EntriesBytes(entries) + trailing)
    case OtherSection(_, _, body) => body
  }

  function SectionId(s: Section): byte {
    match s
    case ImportSection(_, _, _, _) => IMPORT_SECTION
    case OtherSection(id, _, _) => id
  }

  function SectionBytes(s: Section): (r: seq<byte>)
    requires WritableSection(s)
  {
    [SectionId(s)] + (NumberBytes(Number(|SectionBody(s)|, s.sizeWidth)) + SectionBody(s))
  }

  function SectionsBytes(m: seq<Section>): seq<byte>
    requires WritableModule(m)
  {
    if m == [] then [] else SectionBytes(m[0]) + SectionsBytes(m[1..])
  }

  function ModuleBytes(m: seq<Section>): seq<byte>
    requires WritableModule(m)
  {
    HEADER + SectionsBytes(m)
  }

  // ----- What it declares -----

  function KindOfDescriptor(d: Descriptor): Kind {
    match d
    case FuncType(_) => Func
    case TableType(_, _) => Table
    case MemoryType(_) => Memory
    case GlobalType(_, _) => Global
  }

  function Declared(e: Entry): Import {
    Import(e.mod.text, e.name.text, KindOfDescriptor(e.descriptor))
  }

  function DeclaredBy(es: seq<Entry>): (r: seq<Import>)
    ensures |r| == |es| && forall i :: 0 <= i < |es| ==> r[i] == Declared(es[i])
  {
    seq(|es|, i requires 0 <= i < |es| => Declared(es[i]))
  }

  function ModuleImports(m: seq<Section>): seq<Import> {
    if m == [] then [] else (if m[0].ImportSection? then DeclaredBy(m[0].entries) else []) + ModuleImports(m[1..])
  }

  // ----- The reader inverts the encoder -----

  /** The import count lies inside the section that declares it. */
  predicate CountFits(data: seq<byte>, body: nat, end: nat) {
    var count := ReadUleb(data, body, 0);
    count.Ok? ==> count.value.1 <= end
  }

  /** CountFits for every import section the reader reaches. */
  predicate CountsFit(data: seq<byte>, pos: nat)
    decreases |data| - pos
  {
    pos < |data| ==>
      var size := ReadUleb(data, pos + 1, 0);
      size.Ok? ==>
        var end := size.value.1 + size.value.0;
        && (data[pos] == IMPORT_SECTION ==> CountFits(data, size.value.1, end))
        && CountsFit(data, end)
  }

  predicate At(data: seq<byte>, pos: nat, bytes: seq<byte>) {
    pos + |bytes| <= |data| && data[pos..pos + |bytes|] == bytes
  }

  lemma AtParts(data: seq<byte>, pos: nat, a: seq<byte>, b: seq<byte>)
    requires At(data, pos, a + b)
    ensures At(data, pos, a) && At(data, pos + |a|, b)
  {
    var there := data[pos..pos + |a + b|];
    assert there[..|a|] == a && there[|a|..] == b;
    assert data[pos..pos + |a|] == there[..|a|];
    assert data[pos + |a|..pos + |a| + |b|] == there[|a|..];
  }

  lemma AtHead(data: seq<byte>, pos: nat, bytes: seq<byte>)
    requires At(data, pos, bytes) && bytes != []
    ensures pos < |data| && data[pos] == bytes[0]
  {
    assert data[pos] == data[pos..pos + |bytes|][0];
  }

  lemma NumberSplits(n: Number) returns (low: byte, rest: Number)
    requires n.Writable() && n.width > 1
    ensures low < 128 && n.value == low + 128 * rest.value && n.width == rest.width + 1
    ensures rest.Writable() && NumberBytes(n) == [128 + low] + NumberBytes(rest)
  {
    low, rest := n.value % 128, Number(n.value / 128, n.width - 1);
    assert Power128(n.width) == 128 * Power128(n.width - 1);
  }

  lemma UlebStep(data: seq<byte>, pos: nat, k: nat, low: byte, high: nat, next: nat)
    requires pos < |data| && data[pos] == 128 + low && low < 128 && k < 9
    requires ReadUleb(data, pos + 1, k + 1) == Ok((high, next))
    ensures ReadUleb(data, pos, k) == Ok((low + 128 * high, next))
  {
  }

  lemma OneByteReadsBack(n: Number, data: seq<byte>, pos: nat, k: nat)
    requires n.Writable() && n.width == 1 && At(data, pos, NumberBytes(n))
    ensures ReadUleb(data, pos, k) == Ok((n.value, pos + 1))
  {
    AtHead(data, pos, NumberBytes(n));
  }

  /** Every encoding of a number within ten bytes, padded or not, reads back as that number. */
  lemma {:induction false} NumberReadsBack(n: Number, data: seq<byte>, pos: nat, k: nat)
    requires n.Writable() && k + n.width <= 10
    requires At(data, pos, NumberBytes(n))
    ensures ReadUleb(data, pos, k) == Ok((n.value, pos + n.width))
    decreases n.width
  {
    hide NumberBytes, Power128, ReadUleb;
    if n.width == 1 {
      OneByteReadsBack(n, data, pos, k);
    } else {
      var low, rest := NumberSplits(n);
      AtHead(data, pos, NumberBytes(n));
      AtParts(data, pos, [128 + low], NumberBytes(rest));
      NumberReadsBack(rest, data, pos + 1, k + 1);
      UlebStep(data, pos, k, low, rest.value, pos + n.width);
    }
  }

  lemma NumberReads(n: Number, data: seq<byte>, pos: nat)
    requires n.Writable() && At(data, pos, NumberBytes(n))
    ensures ReadUleb(data, pos, 0) == Ok((n.value, pos + n.width))
  {
    NumberReadsBack(n, data, pos, 0);
  }

  lemma NameReadsBack(n: Name, data: seq<byte>, pos: nat)
    requires WritableName(n) && At(data, pos, NameBytes(n))
    ensures ReadName(data, pos) == Ok((n.text, pos + |NameBytes(n)|))
  {
    hide ReadUleb, ValidUtf8, NumberBytes, Power128;
    var length := Number(|n.text|, n.width);
    AtParts(data, pos, NumberBytes(length), n.text);
    NumberReads(length, data, pos);
  }

  lemma LimitsReadBack(l: Limits, data: seq<byte>, pos: nat)
    requires WritableLimits(l) && At(data, pos, LimitsBytes(l))
    ensures SkipLimits(data, pos) == Ok(pos + |LimitsBytes(l)|)
  {
    hide ReadUleb, NumberBytes, Power128;
    AtHead(data, pos, LimitsBytes(l));
    var max := if l.flags % 2 == 1 then NumberBytes(l.max) else [];
    AtParts(data, pos, [l.flags], NumberBytes(l.min) + max);
    AtParts(data, pos + 1, NumberBytes(l.min), max);
    NumberReads(l.min, data, pos + 1);
    if l.flags % 2 == 1 {
      NumberReads(l.max, data, pos + 1 + l.min.width);
    }
  }

  lemma BodyReadsBack(d: Descriptor, data: seq<byte>, pos: nat)
    requires WritableDescriptor(d) && At(data, pos, DescriptorBytes(d))
    ensures pos < |data| && KindOf(data[pos]) == KindOfDescriptor(d)
    ensures SkipBody(data, pos + 1, data[pos]) == Ok(pos + |DescriptorBytes(d)|)
  {
    hide ReadUleb, NumberBytes, Power128, SkipLimits, LimitsBytes;
    AtHead(data, pos, DescriptorBytes(d));
    match d
    case FuncType(index) =>
      AtParts(data, pos, [0], NumberBytes(index));
      NumberReads(index, data, pos + 1);
    case TableType(elem, l) =>
      AtParts(data, pos, [1, elem], LimitsBytes(l));
      LimitsReadBack(l, data, pos + 2);
    case MemoryType(l) =>
      AtParts(data, pos, [2], LimitsBytes(l));
      LimitsReadBack(l, data, pos + 1);
    case GlobalType(v, m) =>
  }

  lemma EntryReadsBack(e: Entry, data: seq<byte>, pos: nat, end: nat)
    requires WritableEntry(e) && At(data, pos, EntryBytes(e)) && pos + |EntryBytes(e)| <= end
    ensures ReadEntry(data, pos, end) == Ok((Declared(e), pos + |EntryBytes(e)|))
  {
    hide ReadName, NameBytes, SkipBody, DescriptorBytes, WritableName, WritableDescriptor, KindOf, KindOfDescriptor;
    var rest := NameBytes(e.name) + DescriptorBytes(e.descriptor);
    AtParts(data, pos, NameBytes(e.mod), rest);
    NameReadsBack(e.mod, data, pos);
    var second := pos + |NameBytes(e.mod)|;
    AtParts(data, second, NameBytes(e.name), DescriptorBytes(e.descriptor));
    NameReadsBack(e.name, data, second);
    BodyReadsBack(e.descriptor, data, second + |NameBytes(e.name)|);
  }

  lemma {:induction false} EntriesReadBack(es: seq<Entry>, data: seq<byte>, pos: nat, end: nat)
    requires (forall e <- es :: WritableEntry(e)) && At(data, pos, EntriesBytes(es)) && pos + |EntriesBytes(es)| <= end
    ensures ReadEntries(data, pos, end, |es|) == Ok(DeclaredBy(es))
  {
    hide ReadEntry, EntryBytes, WritableEntry;
    if es != [] {
      AtParts(data, pos, EntryBytes(es[0]), EntriesBytes(es[1..]));
      EntryReadsBack(es[0], data, pos, end);
      EntriesReadBack(es[1..], data, pos + |EntryBytes(es[0])|, end);
      assert DeclaredBy(es) == [Declared(es[0])] + DeclaredBy(es[1..]);
    }
  }

  lemma ImportSectionReadsBack(s: Section, data: seq<byte>, pos: nat)
    requires s.ImportSection? && WritableSection(s) && At(data, pos, SectionBody(s))
    ensures ReadImportSection(data, pos, pos + |SectionBody(s)|) == Ok(DeclaredBy(s.entries))
    ensures CountFits(data, pos, pos + |SectionBody(s)|)
  {
    hide ReadEntries, EntriesBytes, NumberBytes, ReadUleb, WritableEntry, DeclaredBy, Power128, At;
    var count, imports := Number(|s.entries|, s.countWidth), EntriesBytes(s.entries);
    var first, end := pos + s.countWidth, pos + |SectionBody(s)|;
    AtParts(data, pos, NumberBytes(count), imports + s.trailing);
    AtParts(data, first, imports, s.trailing);
    NumberReads(count, data, pos);
    assert end == first + |imports| + |s.trailing|;
    hide SectionBody;
    EntriesReadBack(s.entries, data, first, end);
  }

  /** What the reader makes of one section: its imports, its end, and whether the import count ends inside it. */
  lemma SectionReadsBack(s: Section, data: seq<byte>, pos: nat)
    requires WritableSection(s) && At(data, pos, SectionBytes(s))
    ensures pos < |data| && (data[pos] == IMPORT_SECTION <==> s.ImportSection?)
    ensures var body := pos + 1 + s.sizeWidth; var end := pos + |SectionBytes(s)|;
            && body <= end <= |data|
            && ReadUleb(data, pos + 1, 0) == Ok((end - body, body))
            && (s.ImportSection? ==>
                  ReadImportSection(data, body, end) == Ok(DeclaredBy(s.entries)) && CountFits(data, body, end))
  {
    hide ReadImportSection, SectionBytes, SectionBody, WritableBody, ReadUleb, DeclaredBy, Power128, CountFits;
    SectionHeader(s, data, pos);
    if s.ImportSection? {
      ImportSectionReadsBack(s, data, pos + 1 + s.sizeWidth);
    }
  }

  /** The id and the size of a section, and where its body stands. */
  lemma SectionHeader(s: Section, data: seq<byte>, pos: nat)
    requires WritableSection(s) && At(data, pos, SectionBytes(s))
    ensures pos < |data| && (data[pos] == IMPORT_SECTION <==> s.ImportSection?)
    ensures |SectionBytes(s)| == 1 + s.sizeWidth + |SectionBody(s)|
    ensures ReadUleb(data, pos + 1, 0) == Ok((|SectionBody(s)|, pos + 1 + s.sizeWidth))
    ensures At(data, pos + 1 + s.sizeWidth, SectionBody(s))
  {
    hide SectionBody, NumberBytes, ReadUleb, Power128;
    var size := Number(|SectionBody(s)|, s.sizeWidth);
    AtHead(data, pos, SectionBytes(s));
    hide At;
    AtParts(data, pos, [SectionId(s)], NumberBytes(size) + SectionBody(s));
    AtParts(data, pos + 1, NumberBytes(size), SectionBody(s));
    NumberReads(size, data, pos + 1);
  }

  /** Every emitted module reads back as exactly its imports, in order, whatever else it holds. */
  lemma {:induction false} SectionsReadBack(m: seq<Section>, data: seq<byte>, pos: nat)
    requires WritableModule(m) && At(data, pos, SectionsBytes(m)) && pos + |SectionsBytes(m)| == |data|
    ensures ReadSections(data, pos) == Ok(ModuleImports(m)) && CountsFit(data, pos)
  {
    hide ReadImportSection, CountFits, SectionBytes, WritableSection, ReadUleb, DeclaredBy;
    if m != [] {
      AtParts(data, pos, SectionBytes(m[0]), SectionsBytes(m[1..]));
      SectionReadsBack(m[0], data, pos);
      SectionsReadBack(m[1..], data, pos + |SectionBytes(m[0])|);
    }
  }

  lemma ModuleReadsBack(m: seq<Section>)
    requires WritableModule(m)
    ensures ImportsOf(ModuleBytes(m)) == Ok(ModuleImports(m)) && CountsFit(ModuleBytes(m), 8)
  {
    hide ReadSections, CountsFit, SectionsBytes, ModuleImports;
    var data := ModuleBytes(m);
    assert data[..8] == HEADER && data[8..] == SectionsBytes(m);
    SectionsReadBack(m, data, 8);
  }

  // ----- Whatever the reader accepts was encoded -----

  lemma AtJoin(data: seq<byte>, pos: nat, a: seq<byte>, b: seq<byte>)
    requires At(data, pos, a) && At(data, pos + |a|, b)
    ensures At(data, pos, a + b)
  {
    assert data[pos..pos + |a| + |b|] == data[pos..pos + |a|] + data[pos + |a|..pos + |a| + |b|];
  }

  lemma AtSlice(data: seq<byte>, pos: nat, next: nat)
    requires pos <= next <= |data|
    ensures At(data, pos, data[pos..next])
  {
  }

  lemma {:induction false} NumberWasWritten(data: seq<byte>, pos: nat, k: nat)
    requires k < 10 && ReadUleb(data, pos, k).Ok?
    ensures var (value, next) := ReadUleb(data, pos, k).value;
            var n := Number(value, next - pos);
            n.Writable() && k + n.width <= 10 && At(data, pos, NumberBytes(n))
    decreases |data| - pos
  {
    hide ReadUleb, NumberBytes, Power128;
    UlebUnfolds(data, pos, k);
    if data[pos] >= 128 {
      NumberWasWritten(data, pos + 1, k + 1);
      var (high, next) := ReadUleb(data, pos + 1, k + 1).value;
      var rest := Number(high, next - pos - 1);
      NumberExtends(data[pos] - 128, rest);
      UlebStep(data, pos, k, data[pos] - 128, high, next);
      AtJoin(data, pos, [data[pos]], NumberBytes(rest));
    }
  }

  lemma UlebUnfolds(data: seq<byte>, pos: nat, k: nat)
    requires ReadUleb(data, pos, k).Ok?
    ensures pos < |data| && At(data, pos, [data[pos]])
    ensures data[pos] >= 128 ==> k < 9 && ReadUleb(data, pos + 1, k + 1).Ok?
    ensures data[pos] < 128 ==>
              var n := Number(data[pos], 1);
              ReadUleb(data, pos, k) == Ok((n.value, pos + 1)) && n.Writable() && NumberBytes(n) == [data[pos]]
  {
    assert Power128(1) == 128;
    assert data[pos..pos + 1] == [data[pos]];
  }

  lemma NumberExtends(low: byte, rest: Number)
    requires rest.Writable() && rest.width < 10 && low < 128
    ensures var n := Number(low + 128 * rest.value, rest.width + 1);
            n.Writable() && NumberBytes(n) == [128 + low] + NumberBytes(rest)
  {
    var n := Number(low + 128 * rest.value, rest.width + 1);
    assert n.value % 128 == low && n.value / 128 == rest.value;
    assert Power128(n.width) == 128 * Power128(rest.width);
  }

  lemma NumberExact(data: seq<byte>, pos: nat) returns (n: Number)
    requires ReadUleb(data, pos, 0).Ok?
    ensures n.Writable() && At(data, pos, NumberBytes(n))
    ensures ReadUleb(data, pos, 0).value == (n.value, pos + n.width)
  {
    NumberWasWritten(data, pos, 0);
    n := Number(ReadUleb(data, pos, 0).value.0, ReadUleb(data, pos, 0).value.1 - pos);
  }

  lemma NameWasWritten(data: seq<byte>, pos: nat) returns (n: Name)
    requires ReadName(data, pos).Ok?
    ensures WritableName(n) && At(data, pos, NameBytes(n))
    ensures ReadName(data, pos).value == (n.text, pos + |NameBytes(n)|)
  {
    hide ReadUleb, ValidUtf8, NumberBytes, Power128;
    var length := NumberExact(data, pos);
    var start := pos + length.width;
    n := Name(data[start..start + length.value], length.width);
    AtSlice(data, start, start + length.value);
    AtJoin(data, pos, NumberBytes(length), n.text);
  }

  lemma LimitsWereWritten(data: seq<byte>, pos: nat) returns (l: Limits)
    requires SkipLimits(data, pos).Ok?
    ensures WritableLimits(l) && At(data, pos, LimitsBytes(l))
    ensures SkipLimits(data, pos).value == pos + |LimitsBytes(l)|
  {
    hide ReadUleb, NumberBytes, Power128;
    var min := NumberExact(data, pos + 1);
    var flags := data[pos];
    l := Limits(flags, min, min);
    var max := [];
    if flags % 2 == 1 {
      var high := NumberExact(data, pos + 1 + min.width);
      l := Limits(flags, min, high);
      max := NumberBytes(high);
    }
    AtJoin(data, pos + 1, NumberBytes(min), max);
    assert data[pos..pos + 1] == [flags];
    AtJoin(data, pos, [flags], NumberBytes(min) + max);
  }

  lemma DescriptorWasWritten(data: seq<byte>, pos: nat) returns (d: Descriptor)
    requires pos < |data| && SkipBody(data, pos + 1, data[pos]).Ok?
    ensures WritableDescriptor(d) && At(data, pos, DescriptorBytes(d)) && KindOf(data[pos]) == KindOfDescriptor(d)
    ensures SkipBody(data, pos + 1, data[pos]).value == pos + |DescriptorBytes(d)|
  {
    hide ReadUleb, NumberBytes, Power128, SkipLimits, LimitsBytes, WritableLimits;
    var kind := data[pos];
    assert data[pos..pos + 1] == [kind];
    if kind == 0 {
      var index := NumberExact(data, pos + 1);
      d := FuncType(index);
      AtJoin(data, pos, [0], NumberBytes(index));
    } else if kind == 1 {
      var l := LimitsWereWritten(data, pos + 2);
      d := TableType(data[pos + 1], l);
      assert data[pos..pos + 2] == [1, data[pos + 1]];
      AtJoin(data, pos, [1, data[pos + 1]], LimitsBytes(l));
    } else if kind == 2 {
      var l := LimitsWereWritten(data, pos + 1);
      d := MemoryType(l);
      AtJoin(data, pos, [2], LimitsBytes(l));
    } else {
      d := GlobalType(data[pos + 1], data[pos + 2]);
      assert data[pos..pos + 3] == [3, data[pos + 1], data[pos + 2]];
    }
  }

  lemma EntryWasWritten(data: seq<byte>, pos: nat, end: nat) returns (e: Entry)
    requires ReadEntry(data, pos, end).Ok?
    ensures WritableEntry(e) && At(data, pos, EntryBytes(e)) && pos + |EntryBytes(e)| <= end
    ensures ReadEntry(data, pos, end).value == (Declared(e), pos + |EntryBytes(e)|)
  {
    hide ReadName, NameBytes, SkipBody, DescriptorBytes, WritableName, WritableDescriptor, KindOf, KindOfDescriptor;
    var mod := NameWasWritten(data, pos);
    var second := pos + |NameBytes(mod)|;
    var name := NameWasWritten(data, second);
    var third := second + |NameBytes(name)|;
    var descriptor := DescriptorWasWritten(data, third);
    e := Entry(mod, name, descriptor);
    AtJoin(data, second, NameBytes(name), DescriptorBytes(descriptor));
    AtJoin(data, pos, NameBytes(mod), NameBytes(name) + DescriptorBytes(descriptor));
  }

  lemma {:induction false} EntriesWereWritten(data: seq<byte>, pos: nat, end: nat, count: nat) returns (es: seq<Entry>)
    requires ReadEntries(data, pos, end, count).Ok? && pos <= end <= |data|
    ensures |es| == count && (forall e <- es :: WritableEntry(e))
    ensures At(data, pos, EntriesBytes(es)) && pos + |EntriesBytes(es)| <= end
    decreases count
  {
    hide ReadEntry, EntryBytes, WritableEntry;
    es := [];
    if count > 0 {
      var e := EntryWasWritten(data, pos, end);
      var next := pos + |EntryBytes(e)|;
      var more := EntriesWereWritten(data, next, end, count - 1);
      es := [e] + more;
      assert es[1..] == more;
      AtJoin(data, pos, EntryBytes(e), EntriesBytes(more));
    }
  }

  lemma ImportBodyWasWritten(data: seq<byte>, pos: nat, end: nat, sizeWidth: nat) returns (s: Section)
    requires pos <= end <= |data| && ReadImportSection(data, pos, end).Ok? && CountFits(data, pos, end)
    ensures s.ImportSection? && WritableBody(s) && s.sizeWidth == sizeWidth
    ensures At(data, pos, SectionBody(s)) && pos + |SectionBody(s)| == end
  {
    hide ReadEntries, EntriesBytes, NumberBytes, ReadUleb, WritableEntry, Power128;
    var count := NumberExact(data, pos);
    var first := pos + count.width;
    var es := EntriesWereWritten(data, first, end, count.value);
    var after := first + |EntriesBytes(es)|;
    s := ImportSection(sizeWidth, count.width, es, data[after..end]);
    AtSlice(data, after, end);
    AtJoin(data, first, EntriesBytes(es), s.trailing);
    AtJoin(data, pos, NumberBytes(count), EntriesBytes(es) + s.trailing);
  }

  lemma BodyWasWritten(data: seq<byte>, id: byte, pos: nat, end: nat, sizeWidth: nat) returns (s: Section)
    requires pos <= end <= |data|
    requires id == IMPORT_SECTION ==> ReadImportSection(data, pos, end).Ok? && CountFits(data, pos, end)
    ensures WritableBody(s) && SectionId(s) == id && s.sizeWidth == sizeWidth
    ensures At(data, pos, SectionBody(s)) && pos + |SectionBody(s)| == end
  {
    hide ReadImportSection, CountFits;
    if id == IMPORT_SECTION {
      s := ImportBodyWasWritten(data, pos, end, sizeWidth);
    } else {
      s := OtherSection(id, sizeWidth, data[pos..end]);
      AtSlice(data, pos, end);
    }
  }

  lemma SectionWasWritten(data: seq<byte>, pos: nat, end: nat) returns (s: Section)
    requires pos < |data| && ReadUleb(data, pos + 1, 0).Ok?
    requires ReadUleb(data, pos + 1, 0).value.1 + ReadUleb(data, pos + 1, 0).value.0 == end <= |data|
    requires data[pos] == IMPORT_SECTION ==>
               var body := ReadUleb(data, pos + 1, 0).value.1;
               ReadImportSection(data, body, end).Ok? && CountFits(data, body, end)
    ensures WritableSection(s) && At(data, pos, SectionBytes(s)) && pos + |SectionBytes(s)| == end
  {
    hide ReadImportSection, NumberBytes, ReadUleb, Power128, CountFits, WritableBody, SectionBody, SectionId;
    var size := NumberExact(data, pos + 1);
    s := BodyWasWritten(data, data[pos], pos + 1 + size.width, end, size.width);
    AtJoin(data, pos + 1, NumberBytes(size), SectionBody(s));
    assert data[pos..pos + 1] == [data[pos]];
    AtJoin(data, pos, [data[pos]], NumberBytes(size) + SectionBody(s));
  }

  lemma {:induction false} SectionsWereWritten(data: seq<byte>, pos: nat) returns (m: seq<Section>)
    requires pos <= |data| && ReadSections(data, pos).Ok? && CountsFit(data, pos)
    ensures WritableModule(m) && SectionsBytes(m) == data[pos..]
    decreases |data| - pos
  {
    hide ReadImportSection, CountFits, SectionBytes, WritableSection, ReadUleb;
    m := [];
    if pos < |data| {
      var size := ReadUleb(data, pos + 1, 0).value;
      var end := size.1 + size.0;
      var s := SectionWasWritten(data, pos, end);
      var more := SectionsWereWritten(data, end);
      m := [s] + more;
      assert m[1..] == more;
      assert data[pos..] == data[pos..end] + data[end..];
    }
  }

  ghost predicate Encodes(m: seq<Section>, data: seq<byte>) {
    WritableModule(m) && ModuleBytes(m) == data
  }

  /** The bytes the reader accepts, with each import count inside its section, are exactly the encodings. */
  lemma ReaderAcceptsEncodings(data: seq<byte>)
    ensures ImportsOf(data).Ok? && CountsFit(data, 8) <==> exists m :: Encodes(m, data)
  {
    hide ReadSections, CountsFit, SectionsBytes, WritableModule;
    if m :| Encodes(m, data) {
      ModuleReadsBack(m);
    }
    if ImportsOf(data).Ok? && CountsFit(data, 8) {
      var m := SectionsWereWritten(data, 8);
      assert data == data[..8] + data[8..];
      assert Encodes(m, data);
    }
  }

  /** An import section whose count spills into the bytes after it is read as importing nothing, not refused. */
  lemma {:induction false} SpilledCountImportsNothing(data: seq<byte>, body: nat, end: nat)
    requires !CountFits(data, body, end)
    ensures ReadImportSection(data, body, end) == if ReadUleb(data, body, 0).value.0 == 0 then Ok([]) else Malformed
  {
    hide ReadUleb, ReadName, SkipDescriptor;
  }

  lemma SpilledCountExample()
    ensures ImportsOf(HEADER + [2, 0, 0, 0]) == Ok([])
    ensures !exists m :: Encodes(m, HEADER + [2, 0, 0, 0])
  {
    var data := HEADER + [2, 0, 0, 0];
    assert data[..8] == HEADER && data[8..] == [2, 0, 0, 0];
    assert ReadUleb(data, 9, 0) == Ok((0, 10)) && ReadUleb(data, 10, 0) == Ok((0, 11));
    assert ReadUleb(data, 11, 0) == Ok((0, 12));
    assert ReadEntries(data, 11, 10, 0) == Ok([]);
    assert ReadSections(data, 12) == Ok([]);
    var none: seq<Import> := [];
    assert none + none == none;
    assert data[10] == 0 && ReadSections(data, 10) == Ok([]);
    assert ReadSections(data, 8) == Ok([]);
    assert !CountsFit(data, 8);
    ReaderAcceptsEncodings(data);
  }

  // ----- The allowlist -----

  const WASI_MODULE: seq<byte> := AsciiBytes("wasi_snapshot_preview1")

  const FD_READ: seq<byte> := AsciiBytes("fd_read")
  const FD_WRITE: seq<byte> := AsciiBytes("fd_write")
  const PROC_EXIT: seq<byte> := AsciiBytes("proc_exit")

  const PURE_IMPORT_ALLOWLIST: set<(seq<byte>, seq<byte>)> :=
    {(WASI_MODULE, FD_READ), (WASI_MODULE, FD_WRITE), (WASI_MODULE, PROC_EXIT)}

  function AsciiBytes(s: string): seq<byte>
    requires forall i :: 0 <= i < |s| ==> s[i] as int < 128
  {
    if s == [] then [] else [s[0] as int] + AsciiBytes(s[1..])
  }

  predicate IsPure(i: Import) {
    (i.mod, i.name) in PURE_IMPORT_ALLOWLIST && i.kind == Func
  }

  lemma {:induction false} AsciiAt(s: string)
    requires forall i :: 0 <= i < |s| ==> s[i] as int < 128
    ensures |AsciiBytes(s)| == |s| && forall i :: 0 <= i < |s| ==> AsciiBytes(s)[i] == s[i] as int
    decreases |s|
  {
    if s != [] {
      AsciiAt(s[1..]);
    }
  }

  /** The boundary admits three functions of one module and nothing else: not another name or module, and not a memory,
      table or global under an admitted name. */
  lemma PureExact(i: Import)
    ensures IsPure(i) <==>
            i.kind == Func && i.mod == WASI_MODULE && (i.name == FD_READ || i.name == FD_WRITE || i.name == PROC_EXIT)
  {
    hide AsciiBytes;
  }

  ghost predicate IsFirstImpure(imports: seq<Import>, i: Import) {
    exists k :: 0 <= k < |imports| && imports[k] == i && !IsPure(i) && forall j :: 0 <= j < k ==> IsPure(imports[j])
  }

  datatype Verdict = Accepted(imports: seq<Import>) | Denied(culprit: Import) | NotReadable

  /** `check_pure_imports`: the verdict names the first import outside the boundary. */
  method CheckPureImports(data: seq<byte>) returns (v: Verdict)
    ensures v.NotReadable? <==> ImportsOf(data).Malformed?
    ensures v.Accepted? ==> ImportsOf(data) == Ok(v.imports) && forall i <- v.imports :: IsPure(i)
    ensures v.Denied? ==> ImportsOf(data).Ok? && IsFirstImpure(ImportsOf(data).value, v.culprit)
  {
    hide ImportsOf, IsPure;
    var parsed := ParseImports(data);
    if parsed.Malformed? {
      return NotReadable;
    }
    var imports := parsed.value;
    for k := 0 to |imports|
      invariant forall j :: 0 <= j < k ==> IsPure(imports[j])
    {
      if !IsPure(imports[k]) {
        return Denied(imports[k]);
      }
    }
    v := Accepted(imports);
  }

  /** An emitted module passes exactly when all it imports is allowlisted functions. */
  method CheckEmitted(m: seq<Section>) returns (v: Verdict)
    requires WritableModule(m)
    ensures v.Accepted? <==> forall i <- ModuleImports(m) :: IsPure(i)
    ensures v.Accepted? ==> v.imports == ModuleImports(m)
    ensures !v.NotReadable?
  {
    hide ImportsOf, IsPure, ModuleImports, ModuleBytes, WritableModule;
    ModuleReadsBack(m);
    v := CheckPureImports(ModuleBytes(m));
  }
}
