/** Object keys in UTF-16 code unit order (section 3.2.3 of RFC 8785), as jjdai/canonical.py sorts them. */
module KeyOrder {

  /** A dictionary entry; a dictionary in insertion order is a sequence of them with distinct keys. */
  datatype Entry<T> = Entry(key: string, value: T)

  // ----- UTF-16 -----

  function Units(c: char): seq<nat> {
    var o := c as nat;
    if o < 0x10000 then [o] else [0xD800 + (o - 0x10000) / 0x400, 0xDC00 + (o - 0x10000) % 0x400]
  }

  /** Section 2.1 of RFC 2781: a unit of its own, or a high and a low surrogate that carry ten bits each. */
  lemma UnitsExact(c: char)
    ensures c as nat < 0x10000 ==> Units(c) == [c as nat]
    ensures c as nat >= 0x10000 ==>
              && |Units(c)| == 2 && 0xD800 <= Units(c)[0] < 0xDC00 <= Units(c)[1] < 0xE000
              && c as nat == 0x10000 + 0x400 * (Units(c)[0] - 0xD800) + (Units(c)[1] - 0xDC00)
  {
  }

  /** The code units of a key. */
  function Utf16(s: string): seq<nat> {
    if s == [] then [] else Units(s[0]) + Utf16(s[1..])
  }

  /** Only a high surrogate opens a pair, and scalar values are not surrogates. */
  lemma UnitsDecodable(c: char, d: char, x: seq<nat>, y: seq<nat>)
    requires Units(c) + x == Units(d) + y
    ensures c == d && x == y
  {
    var p, q := Units(c) + x, Units(d) + y;
    assert p[0] == q[0];
    if c as nat < 0x10000 {
      assert !(0xD800 <= c as nat < 0xE000);
      assert x == p[1..] && y == q[1..];
    } else {
      assert p[1] == q[1];
      assert x == p[2..] && y == q[2..];
    }
  }

  lemma {:induction false} Utf16Injective(s: string, t: string)
    requires Utf16(s) == Utf16(t)
    ensures s == t
    decreases |s|
  {
    if s != [] && t != [] {
      UnitsDecodable(s[0], t[0], Utf16(s[1..]), Utf16(t[1..]));
      Utf16Injective(s[1..], t[1..]);
      assert s == [s[0]] + s[1..] && t == [t[0]] + t[1..];
    }
  }

  // ----- Lexicographic order -----

  predicate LexLess(a: seq<nat>, b: seq<nat>) {
    if b == [] then false
    else if a == [] then true
    else a[0] < b[0] || (a[0] == b[0] && LexLess(a[1..], b[1..]))
  }

  /** The first i units agree, and there the first list ends or has the smaller unit. */
  ghost predicate LessFrom(a: seq<nat>, b: seq<nat>, i: nat) {
    i <= |a| && i < |b| && a[..i] == b[..i] && (i == |a| || a[i] < b[i])
  }

  lemma {:induction false} LessGivesPlace(a: seq<nat>, b: seq<nat>) returns (i: nat)
    requires LexLess(a, b)
    ensures LessFrom(a, b, i)
    decreases |a|
  {
    i := 0;
    if a != [] && a[0] == b[0] {
      var k := LessGivesPlace(a[1..], b[1..]);
      assert a[..k + 1] == [a[0]] + a[1..][..k] && b[..k + 1] == [b[0]] + b[1..][..k];
      i := k + 1;
    }
  }

  lemma {:induction false} PlaceGivesLess(a: seq<nat>, b: seq<nat>, i: nat)
    requires LessFrom(a, b, i)
    ensures LexLess(a, b)
    decreases |a|
  {
    if i > 0 {
      assert a[..i][0] == a[0] && b[..i][0] == b[0];
      assert a[1..][..i - 1] == a[..i][1..] && b[1..][..i - 1] == b[..i][1..];
      PlaceGivesLess(a[1..], b[1..], i - 1);
    }
  }

  /** One list is below another exactly when, after a common beginning, it ends or goes on with a smaller unit. */
  lemma LexExact(a: seq<nat>, b: seq<nat>)
    ensures LexLess(a, b) <==> exists i :: LessFrom(a, b, i)
  {
    if LexLess(a, b) {
      var i := LessGivesPlace(a, b);
    }
    if i :| LessFrom(a, b, i) {
      PlaceGivesLess(a, b, i);
    }
  }

  lemma {:induction false} LexTotal(a: seq<nat>, b: seq<nat>)
    ensures LexLess(a, b) || LexLess(b, a) || a == b
    decreases |a|
  {
    if a != [] && b != [] {
      LexTotal(a[1..], b[1..]);
      assert a == [a[0]] + a[1..] && b == [b[0]] + b[1..];
    }
  }

  lemma {:induction false} LexTransitive(a: seq<nat>, b: seq<nat>, c: seq<nat>)
    requires LexLess(a, b) && LexLess(b, c)
    ensures LexLess(a, c)
    decreases |a|
  {
    if a != [] && a[0] == b[0] == c[0] {
      LexTransitive(a[1..], b[1..], c[1..]);
    }
  }

  lemma {:induction false} LexIrreflexive(a: seq<nat>)
    ensures !LexLess(a, a)
    decreases |a|
  {
    if a != [] {
      LexIrreflexive(a[1..]);
    }
  }

  predicate KeyLess(s: string, t: string) {
    LexLess(Utf16(s), Utf16(t))
  }

  /** The key order is a strict total order on strings. */
  lemma KeyLessTotal(s: string, t: string)
    ensures KeyLess(s, t) || KeyLess(t, s) || s == t
  {
    LexTotal(Utf16(s), Utf16(t));
    if Utf16(s) == Utf16(t) {
      Utf16Injective(s, t);
    }
  }

  /** Code units and not code points are compared: a character outside the first plane comes before U+FFFF. */
  lemma AstralBeforeLast()
    ensures KeyLess("\U{10FFFF}", "\U{FFFF}") && !KeyLess("\U{FFFF}", "\U{10FFFF}")
    ensures KeyLess("a", "b") && !KeyLess("b", "a")
  {
    UnitsExact('\U{10FFFF}');
    UnitsExact('\U{FFFF}');
    assert Utf16("\U{FFFF}") == [0xFFFF];
    assert Utf16("a") == [97] && Utf16("b") == [98];
  }

  // ----- Sorting -----

  function Insert<T>(e: Entry<T>, s: seq<Entry<T>>): seq<Entry<T>> {
    if s == [] then [e]
    else if KeyLess(e.key, s[0].key) then [e] + s
    else [s[0]] + Insert(e, s[1..])
  }

  function Sort<T>(es: seq<Entry<T>>): seq<Entry<T>> {
    if es == [] then [] else Insert(es[0], Sort(es[1..]))
  }

  ghost predicate DistinctKeys<T>(es: seq<Entry<T>>) {
    forall i, j :: 0 <= i < j < |es| ==> es[i].key != es[j].key
  }

  ghost predicate Increasing<T>(es: seq<Entry<T>>) {
    forall i, j :: 0 <= i < j < |es| ==> KeyLess(es[i].key, es[j].key)
  }

  lemma IndexOf<T(!new)>(s: seq<T>, x: T) returns (i: nat)
    requires x in s
    ensures i < |s| && s[i] == x
  {
    i :| 0 <= i < |s| && s[i] == x;
  }

  lemma {:induction false} InsertElements<T(!new)>(e: Entry<T>, s: seq<Entry<T>>)
    ensures |Insert(e, s)| == |s| + 1 && forall x :: x in Insert(e, s) <==> x == e || x in s
    decreases |s|
  {
    if s != [] && !KeyLess(e.key, s[0].key) {
      InsertElements(e, s[1..]);
      assert s == [s[0]] + s[1..];
    }
  }

  lemma {:induction false} SortElements<T(!new)>(es: seq<Entry<T>>)
    ensures |Sort(es)| == |es| && forall x :: x in Sort(es) <==> x in es
    decreases |es|
  {
    if es != [] {
      SortElements(es[1..]);
      InsertElements(es[0], Sort(es[1..]));
      assert es == [es[0]] + es[1..];
    }
  }

  lemma {:induction false} InsertIncreasing<T(!new)>(e: Entry<T>, s: seq<Entry<T>>)
    requires Increasing(s) && forall x :: x in s ==> x.key != e.key
    ensures Increasing(Insert(e, s))
    decreases |s|
  {
    if s == [] {
    } else if KeyLess(e.key, s[0].key) {
      var t := [e] + s;
      forall i, j | 0 <= i < j < |t|
        ensures KeyLess(t[i].key, t[j].key)
      {
        if i == 0 && j > 1 {
          LexTransitive(Utf16(e.key), Utf16(s[0].key), Utf16(s[j - 1].key));
        }
      }
    } else {
      KeyLessTotal(e.key, s[0].key);
      InsertIncreasing(e, s[1..]);
      InsertElements(e, s[1..]);
      var t := [s[0]] + Insert(e, s[1..]);
      forall j | 1 <= j < |t|
        ensures KeyLess(s[0].key, t[j].key)
      {
        assert t[j] in Insert(e, s[1..]) && s[0] in s;
        if t[j] != e {
          var m := IndexOf(s[1..], t[j]);
          assert KeyLess(s[0].key, s[m + 1].key);
        }
      }
    }
  }

  /** The sorted fields are strictly increasing in the UTF-16 order. */
  lemma {:induction false} SortIncreasing<T(!new)>(es: seq<Entry<T>>)
    requires DistinctKeys(es)
    ensures Increasing(Sort(es))
    decreases |es|
  {
    if es != [] {
      SortIncreasing(es[1..]);
      SortElements(es[1..]);
      forall x | x in Sort(es[1..])
        ensures x.key != es[0].key
      {
        var i := IndexOf(es[1..], x);
        assert es[i + 1] == x;
      }
      InsertIncreasing(es[0], Sort(es[1..]));
    }
  }

  /** There is only one increasing arrangement of a set of entries. */
  lemma {:induction false} IncreasingUnique<T(!new)>(a: seq<Entry<T>>, b: seq<Entry<T>>)
    requires Increasing(a) && Increasing(b) && (forall x :: x in a <==> x in b)
    ensures a == b
    decreases |a|
  {
    assert (|b| > 0 ==> b[0] in a) && (|a| > 0 ==> a[0] in b);
    if a != [] && b != [] {
      FirstEntriesAgree(a, b);
      TailsAgree(a, b);
      IncreasingUnique(a[1..], b[1..]);
      assert a == [a[0]] + a[1..] && b == [b[0]] + b[1..];
    }
  }

  lemma FirstEntriesAgree<T(!new)>(a: seq<Entry<T>>, b: seq<Entry<T>>)
    requires Increasing(a) && Increasing(b) && (forall x :: x in a <==> x in b) && a != [] && b != []
    ensures a[0] == b[0]
  {
    assert a[0] in b && b[0] in a;
    var j :| 0 <= j < |b| && b[j] == a[0];
    var i :| 0 <= i < |a| && a[i] == b[0];
    if j > 0 && i > 0 {
      LexTransitive(Utf16(a[0].key), Utf16(a[i].key), Utf16(b[j].key));
      LexIrreflexive(Utf16(a[0].key));
    }
  }

  lemma TailsAgree<T(!new)>(a: seq<Entry<T>>, b: seq<Entry<T>>)
    requires Increasing(a) && Increasing(b) && (forall x :: x in a <==> x in b) && a != [] && b != [] && a[0] == b[0]
    ensures Increasing(a[1..]) && Increasing(b[1..]) && forall x :: x in a[1..] <==> x in b[1..]
  {
    HeadNotInTail(a);
    HeadNotInTail(b);
    var h := a[0];
    assert a == [h] + a[1..] && b == [h] + b[1..];
    forall x
      ensures x in a[1..] <==> x in b[1..]
    {
      assert x in a[1..] <==> x in a && x != h;
      assert x in b[1..] <==> x in b && x != h;
    }
  }

  lemma HeadNotInTail<T(!new)>(a: seq<Entry<T>>)
    requires Increasing(a) && a != []
    ensures a[0] !in a[1..]
  {
    if a[0] in a[1..] {
      var i :| 0 <= i < |a[1..]| && a[1..][i] == a[0];
      assert KeyLess(a[0].key, a[i + 1].key);
      LexIrreflexive(Utf16(a[0].key));
    }
  }

  /** MAIN: the sorted form of a dictionary does not depend on its insertion order. */
  lemma SortForgetsOrder<T(!new)>(a: seq<Entry<T>>, b: seq<Entry<T>>)
    requires DistinctKeys(a) && DistinctKeys(b) && (forall x :: x in a <==> x in b)
    ensures Sort(a) == Sort(b)
  {
    SortElements(a);
    SortElements(b);
    SortIncreasing(a);
    SortIncreasing(b);
    IncreasingUnique(Sort(a), Sort(b));
  }
}
