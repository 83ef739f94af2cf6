/** The coverage and gap arithmetic of core/segments.py: held indices as ranges, and what is missing. */
module Ranges {

  /** A half-open range [lo, hi). */
  datatype Range = Range(lo: int, hi: int)

  predicate InRange(x: int, r: Range) {
    r.lo <= x < r.hi
  }

  ghost predicate InSome(x: int, rs: seq<Range>) {
    exists i :: 0 <= i < |rs| && InRange(x, rs[i])
  }

  /** Sorted, non-empty and pairwise disjoint, with at least `gap` indices between neighbours. */
  ghost predicate Ordered(rs: seq<Range>, gap: nat) {
    && (forall i :: 0 <= i < |rs| ==> rs[i].lo < rs[i].hi)
    && (forall i, j :: 0 <= i < j < |rs| ==> rs[i].hi + gap <= rs[j].lo)
  }

  ghost predicate Increasing(s: seq<int>) {
    forall i, j :: 0 <= i < j < |s| ==> s[i] < s[j]
  }

  method Pick<T>(s: set<T>) returns (x: T)
    requires s != {}
    ensures x in s
  {
    x :| x in s;
  }

  method Least(s: set<int>) returns (m: int)
    requires s != {}
    ensures m in s && forall x :: x in s ==> m <= x
  {
    m := Pick(s);
    var rest := s - {m};
    while rest != {}
      invariant m in s && rest <= s && forall x :: x in s && x !in rest ==> m <= x
      decreases rest
    {
      var y := Pick(rest);
      if y < m {
        m := y;
      }
      rest := rest - {y};
    }
  }

  /** The keys of a dictionary in increasing order. */
  method Sorted(keys: set<int>) returns (s: seq<int>)
    ensures Increasing(s) && forall x :: x in s <==> x in keys
  {
    s := [];
    var rest := keys;
    while rest != {}
      invariant Increasing(s) && rest <= keys
      invariant forall x :: x in s <==> x in keys && x !in rest
      invariant forall i, y :: 0 <= i < |s| && y in rest ==> s[i] < y
      decreases rest
    {
      var m := Least(rest);
      s := s + [m];
      rest := rest - {m};
    }
  }

  /** Merge increasing indices into maximal ranges. */
  method Merge(s: seq<int>) returns (rs: seq<Range>)
    requires Increasing(s)
    ensures Ordered(rs, 1) && forall x :: InSome(x, rs) <==> x in s
  {
    rs := [];
    for k := 0 to |s|
      invariant Ordered(rs, 1)
      invariant rs != [] ==> k > 0 && rs[|rs| - 1].hi == s[k - 1] + 1
      invariant forall x :: InSome(x, rs) <==> x in s[..k]
    {
      var i := s[k];
      ghost var before := rs;
      assert s[..k + 1] == s[..k] + [i];
      if rs != [] && i == rs[|rs| - 1].hi {
        rs := rs[|rs| - 1 := Range(rs[|rs| - 1].lo, i + 1)];
        WidenLast(before, rs, i);
      } else {
        rs := rs + [Range(i, i + 1)];
        AddLast(before, Range(i, i + 1));
      }
    }
    assert s[..|s|] == s;
  }

  lemma WidenLast(before: seq<Range>, after: seq<Range>, i: int)
    requires before != [] && i == before[|before| - 1].hi && before[|before| - 1].lo < i
    requires after == before[|before| - 1 := Range(before[|before| - 1].lo, i + 1)]
    ensures forall x :: InSome(x, after) <==> InSome(x, before) || x == i
  {
    var n := |before| - 1;
    forall x
      ensures InSome(x, after) <==> InSome(x, before) || x == i
    {
      if InSome(x, before) {
        var j :| 0 <= j < |before| && InRange(x, before[j]);
        assert InRange(x, after[j]);
      } else if x == i {
        assert InRange(x, after[n]);
      }
      if InSome(x, after) {
        var j :| 0 <= j < |after| && InRange(x, after[j]);
        assert x == i || InRange(x, before[j]);
      }
    }
  }

  lemma AddLast(before: seq<Range>, r: Range)
    ensures forall x :: InSome(x, before + [r]) <==> InSome(x, before) || InRange(x, r)
  {
    var after := before + [r];
    forall x
      ensures InSome(x, after) <==> InSome(x, before) || InRange(x, r)
    {
      if InSome(x, before) {
        var j :| 0 <= j < |before| && InRange(x, before[j]);
        assert InRange(x, after[j]);
      } else if InRange(x, r) {
        assert InRange(x, after[|before|]);
      }
    }
  }

  /** MAIN: the coverage map.  The ranges are sorted, disjoint and never adjacent, and they
      hold exactly the held indices. */
  method Coverage(keys: set<int>) returns (rs: seq<Range>)
    ensures Ordered(rs, 1) && forall x :: InSome(x, rs) <==> x in keys
  {
    var s := Sorted(keys);
    rs := Merge(s);
  }

  function NonEmpty(gs: seq<Range>): seq<Range> {
    if gs == [] then []
    else if gs[0].lo < gs[0].hi then [gs[0]] + NonEmpty(gs[1..])
    else NonEmpty(gs[1..])
  }

  lemma {:induction false} NonEmptyKeepsAll(gs: seq<Range>)
    requires forall i :: 0 <= i < |gs| ==> gs[i].lo < gs[i].hi
    ensures NonEmpty(gs) == gs
  {
    if gs != [] {
      NonEmptyKeepsAll(gs[1..]);
    }
  }

  lemma {:induction false} NonEmptyDropsAll(gs: seq<Range>)
    requires forall i :: 0 <= i < |gs| ==> gs[i].hi <= gs[i].lo
    ensures NonEmpty(gs) == []
  {
    if gs != [] {
      NonEmptyDropsAll(gs[1..]);
    }
  }

  /** The indices a replica still lacks below `count`. */
  predicate Lacking(x: int, keys: set<int>, count: int) {
    0 <= x < count && x !in keys
  }

  /** MAIN: the gaps are sorted, non-empty, disjoint and never adjacent, and they hold exactly the indices of
      [0, count) that are not held. */
  method Missing(keys: set<int>, count: int) returns (gaps: seq<Range>)
    ensures Ordered(gaps, 1) && forall x :: InSome(x, gaps) <==> Lacking(x, keys, count)
  {
    var cov := Coverage(keys);
    var raw, cursor := GapsBefore(cov, count);
    ghost var walked := raw;
    if cursor < count {
      raw := raw + [Range(cursor, count)];
      AddLast(walked, Range(cursor, count));
    }
    gaps := NonEmpty(raw);
    if count <= 0 {
      NonEmptyDropsAll(raw);
    } else {
      NonEmptyKeepsAll(raw);
      forall x
        ensures InSome(x, gaps) <==> Lacking(x, keys, count)
      {
        assert InSome(x, cov) <==> x in keys;
      }
    }
  }

  function Min(a: int, b: int): int {
    if a <= b then a else b
  }

  function Max(a: int, b: int): int {
    if a <= b then b else a
  }

  /** The cursor loop over the coverage ranges. */
  method GapsBefore(cov: seq<Range>, count: int) returns (gaps: seq<Range>, cursor: int)
    requires Ordered(cov, 1)
    ensures count <= 0 ==> forall i :: 0 <= i < |gaps| ==> gaps[i].hi <= gaps[i].lo
    ensures count > 0 ==> Ordered(gaps, 1) && forall i :: 0 <= i < |gaps| ==> gaps[i].hi < cursor
    ensures cursor >= 0
    ensures count > 0 ==> forall x :: InSome(x, gaps) <==> 0 <= x < Min(cursor, count) && !InSome(x, cov)
    ensures cursor < count ==> forall x :: cursor <= x ==> !InSome(x, cov)
  {
    gaps, cursor := [], 0;
    for j := 0 to |cov|
      invariant cursor >= 0 && (j == 0 ==> cursor == 0) && (j > 0 ==> cursor == Max(0, cov[j - 1].hi))
      invariant j > 0 ==> cursor < count
      invariant count <= 0 ==> gaps == []
      invariant count > 0 ==> GapsUpTo(gaps, cursor, cursor, cov)
    {
      if count > 0 {
        GapStep(gaps, cursor, cov, j, count);
      }
      hide GapsUpTo;
      if cov[j].lo > cursor {
        gaps := gaps + [Range(cursor, Min(cov[j].lo, count))];
      }
      cursor := Max(cursor, cov[j].hi);
      if cursor >= count {
        return;
      }
    }
    assert forall i :: 0 <= i < |cov| ==> cov[i].hi <= cov[|cov| - 1].hi;
  }

  /** The gaps are in order, end below `last`, and hold exactly what is not covered below `limit`. */
  ghost predicate GapsUpTo(gaps: seq<Range>, last: int, limit: int, cov: seq<Range>) {
    && Ordered(gaps, 1) && (forall i :: 0 <= i < |gaps| ==> gaps[i].hi < last)
    && forall x :: InSome(x, gaps) <==> 0 <= x < limit && !InSome(x, cov)
  }

  /** One round of the loop. */
  lemma GapStep(gaps: seq<Range>, at: int, cov: seq<Range>, j: nat, count: int)
    requires Ordered(cov, 1) && j < |cov| && 0 <= at < count && GapsUpTo(gaps, at, at, cov)
    requires if j == 0 then at == 0 else at == Max(0, cov[j - 1].hi)
    ensures var next := if cov[j].lo > at then gaps + [Range(at, Min(cov[j].lo, count))] else gaps;
            var cursor := Max(at, cov[j].hi);
            GapsUpTo(next, cursor, Min(cursor, count), cov)
  {
    hide InSome;
    BetweenRanges(cov, j, at);
    if cov[j].lo > at {
      var gap := Range(at, Min(cov[j].lo, count));
      AddLast(gaps, gap);
    }
  }

  /** From the end of range j-1 to the end of range j, covered means "in range j". */
  lemma BetweenRanges(cov: seq<Range>, j: nat, at: int)
    requires Ordered(cov, 1) && j < |cov| && (j > 0 ==> at >= cov[j - 1].hi)
    ensures forall x :: at <= x < cov[j].hi ==> (InSome(x, cov) <==> cov[j].lo <= x)
  {
    forall x | at <= x < cov[j].hi
      ensures InSome(x, cov) <==> cov[j].lo <= x
    {
      assert forall i :: 0 <= i < j ==> cov[i].hi <= cov[j - 1].hi;
      if cov[j].lo <= x {
        assert InRange(x, cov[j]);
      }
    }
  }
}
