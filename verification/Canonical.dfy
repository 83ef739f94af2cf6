/** jjdai/canonical.py over JSON values with integer numbers: the serialization is a normal form. */
module Canonical {
  import opened Wrappers
  import opened JsonText
  import opened KeyOrder

  /** A dictionary is a sequence of entries in insertion order. */
  datatype Json =
    | Null | Bool(b: bool) | Num(n: int) | Str(s: string)
    | Arr(items: seq<Json>) | Obj(fields: seq<Entry<Json>>)

  /** Keys are distinct in every dictionary of the value. */
  ghost predicate WellKeyed(v: Json) {
    match v
    case Arr(items) => forall i :: 0 <= i < |items| ==> WellKeyed(items[i])
    case Obj(fields) => DistinctKeys(fields) && forall i :: 0 <= i < |fields| ==> WellKeyed(fields[i].value)
    case _ => true
  }

  // ----- The serializer -----

  function Join(texts: seq<string>): string {
    if texts == [] then []
    else if |texts| == 1 then texts[0]
    else texts[0] + [','] + Join(texts[1..])
  }

  function FieldText(e: Entry<string>): string {
    Quote(e.key) + [':'] + e.value
  }

  function FieldTexts(es: seq<Entry<string>>): seq<string> {
    seq(|es|, i requires 0 <= i < |es| => FieldText(es[i]))
  }

  function Atom(v: Json): string
    requires !v.Arr? && !v.Obj?
  {
    match v
    case Null => "null"
    case Bool(b) => if b then "true" else "false"
    case Str(s) => Quote(s)
    case Num(n) => IntText(n)
  }

  /** `_serialize`: fields sorted by the UTF-16 code units of their keys. */
  function Serialize(v: Json): string
    decreases v
  {
    match v
    case Arr(items) => ['['] + Join(SerializeItems(items)) + [']']
    case Obj(fields) => ['{'] + Join(FieldTexts(Sort(SerializeFields(fields)))) + ['}']
    case _ => Atom(v)
  }

  function SerializeItems(items: seq<Json>): seq<string>
    decreases items
  {
    if items == [] then [] else [Serialize(items[0])] + SerializeItems(items[1..])
  }

  function SerializeFields(fields: seq<Entry<Json>>): seq<Entry<string>>
    decreases fields
  {
    if fields == [] then [] else [Entry(fields[0].key, Serialize(fields[0].value))] + SerializeFields(fields[1..])
  }

  // ----- The normal form and its plain printer -----

  function Norm(v: Json): Json
    decreases v
  {
    match v
    case Arr(items) => Arr(NormItems(items))
    case Obj(fields) => Obj(Sort(NormFields(fields)))
    case _ => v
  }

  function NormItems(items: seq<Json>): seq<Json>
    decreases items
  {
    if items == [] then [] else [Norm(items[0])] + NormItems(items[1..])
  }

  function NormFields(fields: seq<Entry<Json>>): seq<Entry<Json>>
    decreases fields
  {
    if fields == [] then [] else [Entry(fields[0].key, Norm(fields[0].value))] + NormFields(fields[1..])
  }

  /** Printing in the order given. */
  function Print(v: Json): string
    decreases v
  {
    match v
    case Arr(items) => ['['] + Join(PrintItems(items)) + [']']
    case Obj(fields) => ['{'] + Join(FieldTexts(PrintFields(fields))) + ['}']
    case _ => Atom(v)
  }

  function PrintItems(items: seq<Json>): seq<string>
    decreases items
  {
    if items == [] then [] else [Print(items[0])] + PrintItems(items[1..])
  }

  function PrintFields(fields: seq<Entry<Json>>): seq<Entry<string>>
    decreases fields
  {
    if fields == [] then [] else [Entry(fields[0].key, Print(fields[0].value))] + PrintFields(fields[1..])
  }

  // ----- Serializing is printing the normal form -----

  lemma {:induction false} PrintOfInsert(e: Entry<Json>, s: seq<Entry<Json>>)
    ensures PrintFields(Insert(e, s)) == Insert(Entry(e.key, Print(e.value)), PrintFields(s))
    decreases |s|
  {
    hide Print, KeyLess;
    if s == [] {
      assert [e][1..] == [];
    } else if KeyLess(e.key, s[0].key) {
      assert ([e] + s)[1..] == s;
    } else {
      PrintOfInsert(e, s[1..]);
      assert ([s[0]] + Insert(e, s[1..]))[1..] == Insert(e, s[1..]);
      assert PrintFields(s)[1..] == PrintFields(s[1..]);
    }
  }

  /** Sorting looks at keys only, so it commutes with printing the values. */
  lemma {:induction false} PrintOfSort(fields: seq<Entry<Json>>)
    ensures PrintFields(Sort(fields)) == Sort(PrintFields(fields))
    decreases |fields|
  {
    hide Print, Insert;
    if fields != [] {
      PrintOfSort(fields[1..]);
      PrintOfInsert(fields[0], Sort(fields[1..]));
      assert PrintFields(fields)[1..] == PrintFields(fields[1..]);
    }
  }

  lemma {:induction false} SerializeIsPrint(v: Json)
    ensures Serialize(v) == Print(Norm(v))
    decreases v
  {
    hide Join, FieldTexts, Sort, Atom;
    match v {
      case Arr(items) => SerializeItemsIsPrint(items);
      case Obj(fields) =>
        SerializeFieldsIsPrint(fields);
        PrintOfSort(NormFields(fields));
      case _ =>
    }
  }

  lemma {:induction false} SerializeItemsIsPrint(items: seq<Json>)
    ensures SerializeItems(items) == PrintItems(NormItems(items))
    decreases items
  {
    hide Serialize, Print, Norm;
    if items != [] {
      SerializeIsPrint(items[0]);
      SerializeItemsIsPrint(items[1..]);
      assert NormItems(items)[1..] == NormItems(items[1..]);
    }
  }

  lemma {:induction false} SerializeFieldsIsPrint(fields: seq<Entry<Json>>)
    ensures SerializeFields(fields) == PrintFields(NormFields(fields))
    decreases fields
  {
    hide Serialize, Print, Norm;
    if fields != [] {
      SerializeIsPrint(fields[0].value);
      SerializeFieldsIsPrint(fields[1..]);
      assert NormFields(fields)[1..] == NormFields(fields[1..]);
    }
  }

  // ----- A reader -----

  function StartsWith(t: string, w: string): bool {
    |w| <= |t| && t[..|w|] == w
  }

  function ReadValue(t: string): (r: Option<(Json, string)>)
    ensures r.Some? ==> |r.value.1| < |t|
    decreases |t|, 0
  {
    if t == [] then None
    else if t[0] == '[' then
      if |t| > 1 && t[1] == ']' then Some((Arr([]), t[2..]))
      else
        var r := ReadItems(t[1..]);
        if r.None? then None else Some((Arr(r.value.0), r.value.1))
    else if t[0] == '{' then
      if |t| > 1 && t[1] == '}' then Some((Obj([]), t[2..]))
      else
        var r := ReadFields(t[1..]);
        if r.None? then None else Some((Obj(r.value.0), r.value.1))
    else ReadAtom(t)
  }

  function ReadAtom(t: string): (r: Option<(Json, string)>)
    ensures r.Some? ==> |r.value.1| < |t|
  {
    if t == [] then None
    else if t[0] == '"' then
      var r := ReadChars(t[1..]);
      if r.None? then None else Some((Str(r.value.0), r.value.1))
    else if StartsWith(t, "null") then Some((Null, t[4..]))
    else if StartsWith(t, "true") then Some((Bool(true), t[4..]))
    else if StartsWith(t, "false") then Some((Bool(false), t[5..]))
    else
      var r := ReadInt(t);
      if r.None? then None else Some((Num(r.value.0), r.value.1))
  }

  /** One or more items and the closing bracket. */
  function ReadItems(t: string): (r: Option<(seq<Json>, string)>)
    ensures r.Some? ==> |r.value.1| < |t|
    decreases |t|, 1
  {
    var v := ReadValue(t);
    if v.None? || v.value.1 == [] then None
    else if v.value.1[0] == ']' then Some(([v.value.0], v.value.1[1..]))
    else if v.value.1[0] == ',' then
      var more := ReadItems(v.value.1[1..]);
      if more.None? then None else Some(([v.value.0] + more.value.0, more.value.1))
    else None
  }

  /** A quoted key and the colon after it. */
  function ReadKey(t: string): (r: Option<(string, string)>)
    ensures r.Some? ==> |r.value.1| < |t|
  {
    if t == [] || t[0] != '"' then None
    else
      var k := ReadChars(t[1..]);
      if k.None? || k.value.1 == [] || k.value.1[0] != ':' then None else Some((k.value.0, k.value.1[1..]))
  }

  /** One or more fields and the closing brace. */
  function ReadFields(t: string): (r: Option<(seq<Entry<Json>>, string)>)
    ensures r.Some? ==> |r.value.1| < |t|
    decreases |t|, 1
  {
    var k := ReadKey(t);
    if k.None? then None
    else
      var v := ReadValue(k.value.1);
      if v.None? || v.value.1 == [] then None
      else if v.value.1[0] == '}' then Some(([Entry(k.value.0, v.value.0)], v.value.1[1..]))
      else if v.value.1[0] == ',' then
        var more := ReadFields(v.value.1[1..]);
        if more.None? then None else Some(([Entry(k.value.0, v.value.0)] + more.value.0, more.value.1))
      else None
  }

  // ----- Reading inverts printing -----

  lemma WordReadsBack(v: Json, rest: string)
    requires v.Null? || v.Bool?
    ensures ReadAtom(Atom(v) + rest) == Some((v, rest))
  {
    hide ReadChars, ReadInt, IntText, EscapeAll, Quote;
    var t := Atom(v) + rest;
    if v == Bool(false) {
      assert t[..5] == "false" && t[5..] == rest && t[0] == 'f';
    } else {
      assert t[..4] == Atom(v) && t[4..] == rest;
    }
  }

  lemma StringReadsBack(s: string, rest: string)
    ensures ReadAtom(Atom(Str(s)) + rest) == Some((Str(s), rest))
  {
    hide ReadChars, ReadInt, IntText, EscapeAll, StartsWith;
    var t := Atom(Str(s)) + rest;
    assert t[0] == '"' && t[1..] == EscapeAll(s) + ['"'] + rest;
    CharsReadBack(s, rest);
  }

  lemma NotAWord(t: string)
    requires t != [] && (t[0] == '-' || IsDigit(t[0]))
    ensures t[0] != '"' && !StartsWith(t, "null") && !StartsWith(t, "true") && !StartsWith(t, "false")
  {
    if |t| >= 4 {
      assert t[..4][0] == t[0];
    }
    if |t| >= 5 {
      assert t[..5][0] == t[0];
    }
  }

  lemma NumberReadsBack(n: int, rest: string)
    requires EndsNumber(rest)
    ensures ReadAtom(Atom(Num(n)) + rest) == Some((Num(n), rest))
  {
    hide ReadChars, ReadInt, IntText, EscapeAll, StartsWith;
    var t := Atom(Num(n)) + rest;
    IntReadsBack(n, rest);
    assert t[0] == IntText(n)[0];
    NotAWord(t);
  }

  lemma AtomReadsBack(v: Json, rest: string)
    requires !v.Arr? && !v.Obj? && (v.Num? ==> EndsNumber(rest))
    ensures ReadAtom(Atom(v) + rest) == Some((v, rest))
  {
    hide ReadAtom, Atom;
    match v {
      case Str(s) => StringReadsBack(s, rest);
      case Num(n) => NumberReadsBack(n, rest);
      case _ => WordReadsBack(v, rest);
    }
  }

  lemma AtomStarts(v: Json)
    requires !v.Arr? && !v.Obj?
    ensures |Atom(v)| > 0 && Atom(v)[0] !in {'[', '{', ']', '}'}
  {
    hide IntText, EscapeAll;
    if v.Num? {
      IntReadsBack(v.n, []);
    }
  }

  lemma FirstChar(v: Json)
    ensures |Print(v)| > 0 && Print(v)[0] != ']'
  {
    hide Join, FieldTexts, Atom;
    if !v.Arr? && !v.Obj? {
      AtomStarts(v);
    }
  }

  lemma KeyReadsBack(k: string, rest: string)
    ensures ReadKey(Quote(k) + [':'] + rest) == Some((k, rest))
  {
    hide ReadChars, EscapeAll;
    var t := Quote(k) + [':'] + rest;
    var after := [':'] + rest;
    assert t[1..] == EscapeAll(k) + ['"'] + after;
    CharsReadBack(k, after);
    assert after[1..] == rest;
  }

  lemma {:induction false} ValueReadsBack(v: Json, rest: string)
    requires v.Num? ==> EndsNumber(rest)
    ensures ReadValue(Print(v) + rest) == Some((v, rest))
    decreases v, 1
  {
    match v {
      case Arr(items) => ArrayReadsBack(items, rest);
      case Obj(fields) => ObjectReadsBack(fields, rest);
      case _ =>
        hide Atom, ReadAtom, ReadItems, ReadFields;
        AtomReadsBack(v, rest);
        AtomStarts(v);
        assert (Atom(v) + rest)[0] == Atom(v)[0];
    }
  }

  lemma {:induction false} ArrayReadsBack(items: seq<Json>, rest: string)
    ensures ReadValue(Print(Arr(items)) + rest) == Some((Arr(items), rest))
    decreases items, 2
  {
    hide ReadItems, ReadFields, ReadAtom;
    var t := Print(Arr(items)) + rest;
    if items == [] {
      assert t[0] == '[' && t[1] == ']' && t[2..] == rest;
    } else {
      ItemsReadBack(items, rest);
      ItemsStart(items);
      assert t[1..] == Join(PrintItems(items)) + [']'] + rest;
      assert t[1] == Join(PrintItems(items))[0];
    }
  }

  lemma ItemsStart(items: seq<Json>)
    requires items != []
    ensures |Join(PrintItems(items))| > 0 && Join(PrintItems(items))[0] != ']'
  {
    hide Print;
    FirstChar(items[0]);
  }

  lemma JoinOfItems(items: seq<Json>)
    requires items != []
    ensures Join(PrintItems(items)) ==
            if |items| == 1 then Print(items[0])
            else Print(items[0]) + [','] + Join(PrintItems(items[1..]))
  {
    hide Print;
    assert PrintItems(items)[1..] == PrintItems(items[1..]);
    if |items| == 1 {
      assert PrintItems(items[1..]) == [];
    } else {
      assert |PrintItems(items[1..])| > 0;
    }
  }

  lemma {:induction false} ItemsReadBack(items: seq<Json>, rest: string)
    requires items != []
    ensures ReadItems(Join(PrintItems(items)) + [']'] + rest) == Some((items, rest))
    decreases items, 1
  {
    hide Print, PrintItems, Join, ReadValue;
    var t := Join(PrintItems(items)) + [']'] + rest;
    JoinOfItems(items);
    if |items| == 1 {
      var after := [']'] + rest;
      ValueReadsBack(items[0], after);
      assert t == Print(items[0]) + after && after[1..] == rest;
      assert items == [items[0]];
    } else {
      var more := Join(PrintItems(items[1..])) + [']'] + rest;
      var after := [','] + more;
      ValueReadsBack(items[0], after);
      ItemsReadBack(items[1..], rest);
      assert t == Print(items[0]) + after && after[1..] == more;
      assert items == [items[0]] + items[1..];
    }
  }

  /** An opening brace, then fields. */
  lemma BraceReads(body: string, fields: seq<Entry<Json>>, rest: string)
    requires body != [] && body[0] != '}' && ReadFields(body) == Some((fields, rest))
    ensures ReadValue(['{'] + body) == Some((Obj(fields), rest))
  {
    hide ReadItems, ReadFields, ReadAtom;
    var t := ['{'] + body;
    assert t[1..] == body && t[1] == body[0];
  }

  lemma {:induction false} ObjectReadsBack(fields: seq<Entry<Json>>, rest: string)
    ensures ReadValue(Print(Obj(fields)) + rest) == Some((Obj(fields), rest))
    decreases fields, 2
  {
    if fields == [] {
      EmptyObjectReadsBack(rest);
    } else {
      hide Print, Join, FieldTexts, PrintFields, ReadValue, ReadFields;
      var inside := Join(FieldTexts(PrintFields(fields)));
      FieldsReadBack(fields, rest);
      JoinOfFields(fields);
      PrintedObject(fields, rest);
      BraceReads(inside + ['}'] + rest, fields, rest);
    }
  }

  lemma PrintedObject(fields: seq<Entry<Json>>, rest: string)
    ensures Print(Obj(fields)) + rest == ['{'] + (Join(FieldTexts(PrintFields(fields))) + ['}'] + rest)
  {
    hide Join, FieldTexts, PrintFields;
  }

  lemma EmptyObjectReadsBack(rest: string)
    ensures ReadValue(Print(Obj([])) + rest) == Some((Obj([]), rest))
  {
    hide ReadItems, ReadFields, ReadAtom;
    var none: seq<Entry<Json>> := [];
    assert FieldTexts(PrintFields(none)) == [];
    var t := Print(Obj(none)) + rest;
    assert t[0] == '{' && t[1] == '}' && t[2..] == rest;
  }

  function FieldPrint(f: Entry<Json>): string {
    Quote(f.key) + [':'] + Print(f.value)
  }

  lemma FieldsOneMore(fields: seq<Entry<Json>>)
    requires fields != []
    ensures FieldTexts(PrintFields(fields)) == [FieldPrint(fields[0])] + FieldTexts(PrintFields(fields[1..]))
  {
    hide Print, Quote;
    var es := PrintFields(fields);
    assert es[1..] == PrintFields(fields[1..]);
  }

  lemma JoinOneMore(text: string, more: seq<string>)
    ensures Join([text] + more) == if more == [] then text else text + [','] + Join(more)
  {
    assert ([text] + more)[1..] == more;
  }

  lemma FieldPrintStarts(f: Entry<Json>)
    ensures |FieldPrint(f)| > 0 && FieldPrint(f)[0] == '"'
  {
    hide Print, EscapeAll;
  }

  lemma JoinOfFields(fields: seq<Entry<Json>>)
    requires fields != []
    ensures Join(FieldTexts(PrintFields(fields))) ==
            if |fields| == 1 then FieldPrint(fields[0])
            else FieldPrint(fields[0]) + [','] + Join(FieldTexts(PrintFields(fields[1..])))
    ensures |Join(FieldTexts(PrintFields(fields)))| > 0 && Join(FieldTexts(PrintFields(fields)))[0] == '"'
  {
    var more := FieldTexts(PrintFields(fields[1..]));
    FieldsOneMore(fields);
    FieldPrintStarts(fields[0]);
    if |fields| == 1 {
      assert more == [];
    } else {
      FieldsOneMore(fields[1..]);
    }
    hide FieldTexts, PrintFields, FieldPrint, Join;
    JoinOneMore(FieldPrint(fields[0]), more);
  }

  lemma LastField(t: string, f: Entry<Json>, mid: string, rest: string)
    requires ReadKey(t) == Some((f.key, mid)) && ReadValue(mid) == Some((f.value, ['}'] + rest))
    ensures ReadFields(t) == Some(([f], rest))
  {
    hide ReadKey, ReadValue;
    assert (['}'] + rest)[1..] == rest;
  }

  lemma NextField(t: string, f: Entry<Json>, mid: string, more: string, fs: seq<Entry<Json>>, rest: string)
    requires ReadKey(t) == Some((f.key, mid)) && ReadValue(mid) == Some((f.value, [','] + more))
    requires ReadFields(more) == Some((fs, rest))
    ensures ReadFields(t) == Some(([f] + fs, rest))
  {
    hide ReadKey, ReadValue;
    assert ([','] + more)[1..] == more;
  }

  lemma {:induction false} FieldsReadBack(fields: seq<Entry<Json>>, rest: string)
    requires fields != []
    ensures ReadFields(Join(FieldTexts(PrintFields(fields))) + ['}'] + rest) == Some((fields, rest))
    decreases fields, 1
  {
    hide Print, PrintFields, FieldTexts, Join, ReadValue, ReadKey, ReadFields, Quote;
    var f := fields[0];
    var t := Join(FieldTexts(PrintFields(fields))) + ['}'] + rest;
    JoinOfFields(fields);
    if |fields| == 1 {
      var after := ['}'] + rest;
      KeyReadsBack(f.key, Print(f.value) + after);
      ValueReadsBack(f.value, after);
      assert t == Quote(f.key) + [':'] + (Print(f.value) + after);
      LastField(t, f, Print(f.value) + after, rest);
      assert fields == [f];
    } else {
      var more := Join(FieldTexts(PrintFields(fields[1..]))) + ['}'] + rest;
      var after := [','] + more;
      KeyReadsBack(f.key, Print(f.value) + after);
      ValueReadsBack(f.value, after);
      FieldsReadBack(fields[1..], rest);
      assert t == Quote(f.key) + [':'] + (Print(f.value) + after);
      NextField(t, f, Print(f.value) + after, more, fields[1..], rest);
      assert fields == [f] + fields[1..];
    }
  }

  // ----- The theorem -----

  /** Dictionary lookup: the position of a key. */
  function Find(fields: seq<Entry<Json>>, key: string): (at: Option<nat>)
    ensures at.Some? ==> at.value < |fields| && fields[at.value].key == key
    ensures at.None? ==> forall i :: 0 <= i < |fields| ==> fields[i].key != key
  {
    if fields == [] then None
    else if fields[0].key == key then Some(0)
    else
      var r := Find(fields[1..], key);
      if r.None? then None else Some(r.value + 1)
  }

  /** Equality of JSON values: lists item by item, dictionaries by lookup. */
  ghost predicate SameValue(a: Json, b: Json)
    decreases a
  {
    match (a, b)
    case (Arr(p), Arr(q)) => |p| == |q| && forall i :: 0 <= i < |p| ==> SameValue(p[i], q[i])
    case (Obj(p), Obj(q)) =>
      && (forall i :: 0 <= i < |p| ==>
            Find(q, p[i].key).Some? && SameValue(p[i].value, q[Find(q, p[i].key).value].value))
      && (forall j :: 0 <= j < |q| ==> Find(p, q[j].key).Some?)
    case _ => a == b
  }

  lemma {:induction false} NormItemsAt(items: seq<Json>)
    ensures |NormItems(items)| == |items| && forall i :: 0 <= i < |items| ==> NormItems(items)[i] == Norm(items[i])
    decreases |items|
  {
    hide Norm;
    if items != [] {
      NormItemsAt(items[1..]);
    }
  }

  lemma {:induction false} NormFieldsAt(fields: seq<Entry<Json>>)
    ensures |NormFields(fields)| == |fields|
    ensures forall i :: 0 <= i < |fields| ==> NormFields(fields)[i] == Entry(fields[i].key, Norm(fields[i].value))
    decreases |fields|
  {
    hide Norm;
    if fields != [] {
      NormFieldsAt(fields[1..]);
    }
  }

  /** Equal values have one normal form. */
  lemma {:induction false} SameValueNormalizes(a: Json, b: Json)
    requires WellKeyed(a) && WellKeyed(b) && SameValue(a, b)
    ensures Norm(a) == Norm(b)
    decreases a
  {
    match (a, b) {
      case (Arr(p), Arr(q)) => SameArrays(p, q);
      case (Obj(p), Obj(q)) => SameObjects(p, q);
      case _ =>
    }
  }

  lemma {:induction false} SameArrays(p: seq<Json>, q: seq<Json>)
    requires WellKeyed(Arr(p)) && WellKeyed(Arr(q)) && SameValue(Arr(p), Arr(q))
    ensures Norm(Arr(p)) == Norm(Arr(q))
    decreases p
  {
    hide Norm;
    forall i | 0 <= i < |p|
      ensures Norm(p[i]) == Norm(q[i])
    {
      SameValueNormalizes(p[i], q[i]);
    }
    SameItemsNormalize(p, q);
  }

  lemma {:induction false} SameObjects(p: seq<Entry<Json>>, q: seq<Entry<Json>>)
    requires WellKeyed(Obj(p)) && WellKeyed(Obj(q)) && SameValue(Obj(p), Obj(q))
    ensures Norm(Obj(p)) == Norm(Obj(q))
    decreases p
  {
    hide Norm, Find;
    forall i | 0 <= i < |p|
      ensures Find(q, p[i].key).Some? && Norm(p[i].value) == Norm(q[Find(q, p[i].key).value].value)
    {
      SameValueNormalizes(p[i].value, q[Find(q, p[i].key).value].value);
    }
    SameFieldsNormalize(p, q);
  }

  lemma SameItemsNormalize(p: seq<Json>, q: seq<Json>)
    requires |p| == |q| && forall i :: 0 <= i < |p| ==> Norm(p[i]) == Norm(q[i])
    ensures Norm(Arr(p)) == Norm(Arr(q))
  {
    NormItemsAt(p);
    NormItemsAt(q);
    assert NormItems(p) == NormItems(q);
  }

  lemma SameFieldsNormalize(p: seq<Entry<Json>>, q: seq<Entry<Json>>)
    requires DistinctKeys(p) && DistinctKeys(q)
    requires forall i :: 0 <= i < |p| ==>
               Find(q, p[i].key).Some? && Norm(p[i].value) == Norm(q[Find(q, p[i].key).value].value)
    requires forall j :: 0 <= j < |q| ==> Find(p, q[j].key).Some?
    ensures Norm(Obj(p)) == Norm(Obj(q))
  {
    hide NormFields, Sort, Find;
    NormFieldsAt(p);
    NormFieldsAt(q);
    var x, y := NormFields(p), NormFields(q);
    forall e | e in x
      ensures e in y
    {
      var i := IndexOf(x, e);
      assert y[Find(q, p[i].key).value] == e;
    }
    forall e | e in y
      ensures e in x
    {
      var j := IndexOf(y, e);
      var i := Find(p, q[j].key).value;
      assert Find(q, p[i].key).value == j;
      assert x[i] == e;
    }
    SortForgetsOrder(x, y);
  }

  /** One normal form means equal values. */
  lemma {:induction false} NormalFormDecides(a: Json, b: Json)
    requires WellKeyed(a) && WellKeyed(b) && Norm(a) == Norm(b)
    ensures SameValue(a, b)
    decreases a
  {
    match (a, b) {
      case (Arr(p), Arr(q)) => NormalArraysSame(p, q);
      case (Obj(p), Obj(q)) => NormalObjectsSame(p, q);
      case _ =>
    }
  }

  lemma {:induction false} NormalArraysSame(p: seq<Json>, q: seq<Json>)
    requires WellKeyed(Arr(p)) && WellKeyed(Arr(q)) && Norm(Arr(p)) == Norm(Arr(q))
    ensures SameValue(Arr(p), Arr(q))
    decreases p
  {
    ItemsOfNormalForm(p, q);
    hide Norm;
    forall i | 0 <= i < |p|
      ensures SameValue(p[i], q[i])
    {
      NormalFormDecides(p[i], q[i]);
    }
  }

  lemma {:induction false} NormalObjectsSame(p: seq<Entry<Json>>, q: seq<Entry<Json>>)
    requires WellKeyed(Obj(p)) && WellKeyed(Obj(q)) && Norm(Obj(p)) == Norm(Obj(q))
    ensures SameValue(Obj(p), Obj(q))
    decreases p
  {
    hide Norm, Find;
    forall i | 0 <= i < |p|
      ensures Find(q, p[i].key).Some? && SameValue(p[i].value, q[Find(q, p[i].key).value].value)
    {
      var j := MatchingField(p, q, i);
      assert Find(q, p[i].key) == Some(j);
      NormalFormDecides(p[i].value, q[j].value);
    }
    forall j | 0 <= j < |q|
      ensures Find(p, q[j].key).Some?
    {
      var i := MatchingField(q, p, j);
    }
  }

  lemma ItemsOfNormalForm(p: seq<Json>, q: seq<Json>)
    requires Norm(Arr(p)) == Norm(Arr(q))
    ensures |p| == |q| && forall i :: 0 <= i < |p| ==> Norm(p[i]) == Norm(q[i])
  {
    NormItemsAt(p);
    NormItemsAt(q);
    assert NormItems(p) == NormItems(q);
    assert forall i :: 0 <= i < |p| ==> NormItems(p)[i] == NormItems(q)[i];
  }

  lemma MatchingField(p: seq<Entry<Json>>, q: seq<Entry<Json>>, i: nat) returns (j: nat)
    requires Norm(Obj(p)) == Norm(Obj(q)) && i < |p|
    ensures j < |q| && p[i].key == q[j].key && Norm(p[i].value) == Norm(q[j].value)
  {
    hide NormFields, Sort;
    assert Sort(NormFields(p)) == Sort(NormFields(q));
    NormFieldsAt(p);
    NormFieldsAt(q);
    SortElements(NormFields(p));
    SortElements(NormFields(q));
    var e := NormFields(p)[i];
    assert e in NormFields(p);
    assert e in Sort(NormFields(p));
    assert e in NormFields(q);
    j := IndexOf(NormFields(q), e);
  }

  /** MAIN: the reader recovers the normal form from the canonical text, whatever follows it
      (for a bare number, anything that does not go on with a digit). */
  lemma CanonicalReadsBack(v: Json, rest: string)
    requires v.Num? ==> EndsNumber(rest)
    ensures ReadValue(Serialize(v) + rest) == Some((Norm(v), rest))
  {
    SerializeIsPrint(v);
    ValueReadsBack(Norm(v), rest);
  }

  /** MAIN: two values have the same canonical text exactly when they are the same JSON value;
      in particular the text does not depend on any insertion order. */
  lemma CanonicalUnambiguous(a: Json, b: Json)
    requires WellKeyed(a) && WellKeyed(b)
    ensures Serialize(a) == Serialize(b) <==> SameValue(a, b)
  {
    hide ReadValue, Serialize, Print, Norm;
    SerializeIsPrint(a);
    SerializeIsPrint(b);
    if Serialize(a) == Serialize(b) {
      CanonicalReadsBack(a, []);
      CanonicalReadsBack(b, []);
      assert Serialize(a) + [] == Serialize(b) + [];
      NormalFormDecides(a, b);
    } else if SameValue(a, b) {
      SameValueNormalizes(a, b);
    }
  }

  /** Every dictionary in a normal form lists its keys in strictly increasing UTF-16 order. */
  lemma NormalFormIsSorted(fields: seq<Entry<Json>>)
    requires DistinctKeys(fields)
    ensures Norm(Obj(fields)).Obj? && Increasing(Norm(Obj(fields)).fields)
  {
    NormFieldsAt(fields);
    SortIncreasing(NormFields(fields));
  }

  // ----- A concrete text -----

  lemma ExampleNumber()
    ensures IntText(-12) == "-12"
  {
    assert Decimal(12) == Decimal(1) + ['2'];
  }

  lemma ExampleList()
    ensures Serialize(Arr([Num(-12), Bool(true), Null])) == "[-12,true,null]"
  {
    var items := [Num(-12), Bool(true), Null];
    ExampleNumber();
    hide IntText;
    assert items[1..] == [Bool(true), Null] && items[1..][1..] == [Null] && items[1..][1..][1..] == [];
    assert SerializeItems([Null]) == ["null"];
    assert SerializeItems(items[1..]) == ["true", "null"];
    assert SerializeItems(items) == ["-12", "true", "null"];
    hide SerializeItems;
    JoinThree("-12", "true", "null");
  }

  lemma JoinThree(a: string, b: string, c: string)
    ensures Join([a, b, c]) == a + [','] + b + [','] + c
  {
    var texts := [a, b, c];
    assert texts[1..] == [b, c] && [b, c][1..] == [c];
    assert Join([b, c]) == b + [','] + c;
  }

  lemma ExampleString()
    ensures Serialize(Str("x")) == "\"x\""
  {
    PlainQuote('x');
    assert "x" == ['x'];
  }

  lemma ExampleField(c: char, value: string)
    requires c as nat >= 32 && c != '"' && c != '\\'
    ensures FieldText(Entry([c], value)) == ['"', c, '"', ':'] + value
  {
    PlainQuote(c);
    hide Quote;
  }

  lemma ExampleFieldA()
    ensures FieldText(Entry("a", "\"x\"")) == "\"a\":\"x\""
  {
    hide FieldText;
    assert "a" == ['a'];
    ExampleField('a', "\"x\"");
  }

  lemma ExampleFieldB()
    ensures FieldText(Entry("b", "[-12,true,null]")) == "\"b\":[-12,true,null]"
  {
    hide FieldText;
    assert "b" == ['b'];
    ExampleField('b', "[-12,true,null]");
  }

  lemma PlainQuote(c: char)
    requires c as nat >= 32 && c != '"' && c != '\\'
    ensures Quote([c]) == ['"', c, '"']
  {
    PlainEscape(c);
    hide EscapeChar;
    assert [c][1..] == [];
    assert EscapeAll([]) == [] && EscapeAll([c]) == [c] + [];
  }

  /** A dictionary inserted as b, a: no spaces, keys in order, lower-case literals. */
  lemma CanonicalExample()
    ensures Serialize(Obj([Entry("b", Arr([Num(-12), Bool(true), Null])), Entry("a", Str("x"))]))
         == "{\"a\":\"x\",\"b\":[-12,true,null]}"
  {
    var list, text := Arr([Num(-12), Bool(true), Null]), Str("x");
    ExampleList();
    ExampleString();
    ExampleFieldA();
    ExampleFieldB();
    hide KeyLess, Serialize, FieldText;
    var fields := [Entry("b", list), Entry("a", text)];
    var es := [Entry("b", "[-12,true,null]"), Entry("a", "\"x\"")];
    assert fields[1..] == [fields[1]] && fields[1..][1..] == [];
    assert SerializeFields(fields[1..]) == [es[1]];
    assert SerializeFields(fields) == es;
    SortTwo(es[0], es[1]);
    TwoFields(fields, es[1], es[0]);
  }

  lemma SortTwo(b: Entry<string>, a: Entry<string>)
    requires b.key == "b" && a.key == "a"
    ensures Sort([b, a]) == [a, b]
  {
    AstralBeforeLast();
    hide KeyLess;
    assert [b, a][1..] == [a] && [a][1..] == [];
    assert Sort([a]) == [a];
    assert Insert(b, [a]) == [a] + Insert(b, []);
  }

  lemma TwoFields(fields: seq<Entry<Json>>, first: Entry<string>, second: Entry<string>)
    requires Sort(SerializeFields(fields)) == [first, second]
    ensures Serialize(Obj(fields)) == ['{'] + FieldText(first) + [','] + FieldText(second) + ['}']
  {
    hide Sort, SerializeFields, FieldText;
    var texts := FieldTexts([first, second]);
    assert texts == [FieldText(first), FieldText(second)] && texts[1..] == [FieldText(second)];
    assert Join(texts) == FieldText(first) + [','] + FieldText(second);
  }
}
