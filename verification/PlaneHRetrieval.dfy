/** core/plane_h.py:379-412 and core/rag_store.py:125-140: ranked, governed retrieval. */
module PlaneHRetrieval {
  import opened Wrappers
  import opened RagStore
  import opened PlaneH
  import opened PlaneHRuns

  // ----- Ranking -----

  /** How many tokens of the query a text shares; any function will do. */
  type Score = string -> nat

  predicate Matches(chunks: seq<Chunk>, ns: string, score: Score, id: int) {
    Holds(chunks, ns, id) && chunks[id - 1].text.Some? && score(chunks[id - 1].text.value) > 0
  }

  function ScoreOf(chunks: seq<Chunk>, score: Score, id: int): nat {
    if 1 <= id <= |chunks| && chunks[id - 1].text.Some? then score(chunks[id - 1].text.value) else 0
  }

  /** Higher score first, then lower id. */
  predicate Outranks(chunks: seq<Chunk>, score: Score, a: int, b: int) {
    var x, y := ScoreOf(chunks, score, a), ScoreOf(chunks, score, b);
    x > y || (x == y && a < b)
  }

  function Insert(chunks: seq<Chunk>, score: Score, id: int, ranked: seq<int>): seq<int> {
    if ranked == [] || Outranks(chunks, score, id, ranked[0]) then [id] + ranked
    else [ranked[0]] + Insert(chunks, score, id, ranked[1..])
  }

  /** The matching chunks among the first n, ranked. */
  function RankedUpTo(chunks: seq<Chunk>, ns: string, score: Score, n: nat): seq<int>
    requires n <= |chunks|
  {
    if n == 0 then []
    else
      var before := RankedUpTo(chunks, ns, score, n - 1);
      if Matches(chunks, ns, score, n) then Insert(chunks, score, n, before) else before
  }

  function Ranked(chunks: seq<Chunk>, ns: string, score: Score): seq<int> {
    RankedUpTo(chunks, ns, score, |chunks|)
  }

  ghost predicate InRankOrder(chunks: seq<Chunk>, score: Score, ids: seq<int>) {
    forall i, j :: 0 <= i < j < |ids| ==> Outranks(chunks, score, ids[i], ids[j])
  }

  lemma {:induction false} InsertRanks(chunks: seq<Chunk>, score: Score, id: int, ranked: seq<int>)
    requires InRankOrder(chunks, score, ranked) && id !in ranked
    ensures InRankOrder(chunks, score, Insert(chunks, score, id, ranked))
    ensures forall x :: x in Insert(chunks, score, id, ranked) <==> x == id || x in ranked
    decreases |ranked|
  {
    hide ScoreOf;
    if ranked != [] && !Outranks(chunks, score, id, ranked[0]) {
      InsertRanks(chunks, score, id, ranked[1..]);
      var rest := Insert(chunks, score, id, ranked[1..]);
      forall j | 0 <= j < |rest|
        ensures Outranks(chunks, score, ranked[0], rest[j])
      {
        assert rest[j] in rest;
        if rest[j] != id {
          var i :| 0 <= i < |ranked[1..]| && ranked[1..][i] == rest[j];
        }
      }
    }
  }

  lemma {:induction false} RankedUpToExact(chunks: seq<Chunk>, ns: string, score: Score, n: nat)
    requires n <= |chunks|
    ensures InRankOrder(chunks, score, RankedUpTo(chunks, ns, score, n))
    ensures forall id :: id in RankedUpTo(chunks, ns, score, n) <==> id <= n && Matches(chunks, ns, score, id)
    decreases n
  {
    hide Matches, Outranks, Insert;
    if n == 0 {
      NoChunkBelowOne(chunks, ns, score);
    } else {
      RankedUpToExact(chunks, ns, score, n - 1);
      if Matches(chunks, ns, score, n) {
        InsertRanks(chunks, score, n, RankedUpTo(chunks, ns, score, n - 1));
      }
    }
  }

  lemma NoChunkBelowOne(chunks: seq<Chunk>, ns: string, score: Score)
    ensures forall id :: id <= 0 ==> !Matches(chunks, ns, score, id)
  {
  }

  lemma RankedIs(chunks: seq<Chunk>, ns: string, score: Score)
    ensures InRankOrder(chunks, score, Ranked(chunks, ns, score))
    ensures forall id :: id in Ranked(chunks, ns, score) <==> Matches(chunks, ns, score, id)
  {
    RankedUpToExact(chunks, ns, score, |chunks|);
  }

  /** A chunk of the namespace with text that shares this many tokens with the query. */
  predicate Scores(chunks: seq<Chunk>, ns: string, score: Score, id: int, points: nat) {
    && 1 <= id <= |chunks| && chunks[id - 1].ns == ns && chunks[id - 1].text.Some?
    && score(chunks[id - 1].text.value) == points
  }

  /** The candidates are exactly the namespace's chunks that have text and share a token, by falling score and, among
      equals, rising id. */
  lemma RankedExact(chunks: seq<Chunk>, ns: string, score: Score)
    ensures var ids := Ranked(chunks, ns, score);
            && (forall id :: id in ids <==> exists points :: points > 0 && Scores(chunks, ns, score, id, points))
            && forall i, j, x, y ::
                 0 <= i < j < |ids| && Scores(chunks, ns, score, ids[i], x) && Scores(chunks, ns, score, ids[j], y) ==>
                   x > y || (x == y && ids[i] < ids[j])
  {
    hide Ranked;
    RankedIs(chunks, ns, score);
    var ids := Ranked(chunks, ns, score);
    forall id
      ensures id in ids <==> exists points :: points > 0 && Scores(chunks, ns, score, id, points)
    {
      if Matches(chunks, ns, score, id) {
        assert Scores(chunks, ns, score, id, score(chunks[id - 1].text.value));
      }
    }
    forall i, j, x, y | 0 <= i < j < |ids|
                        && Scores(chunks, ns, score, ids[i], x) && Scores(chunks, ns, score, ids[j], y)
      ensures x > y || (x == y && ids[i] < ids[j])
    {
      assert Outranks(chunks, score, ids[i], ids[j]);
    }
  }

  // ----- Filtering -----

  function AccessRank(a: Access): nat {
    match a
    case Public => 0
    case Internal => 1
    case Restricted => 2
    case UnknownAccess => 3
  }

  predicate Visible(t: Tables, id: int, access: Access, now: int) {
    && Governed(t, Some(id))
    && var m := t.meta[id];
       var b := m.envelope.body;
       && !m.redacted && m.supersededBy.None?
       && AccessRank(b.access) <= AccessRank(access)
       && !(b.expires.Some? && now > b.expires.value)
  }

  function Filtered(t: Tables, ranked: seq<int>, access: Access, now: int): seq<int> {
    if ranked == [] then []
    else
      var n := |ranked| - 1;
      Filtered(t, ranked[..n], access, now) + if Visible(t, ranked[n], access, now) then [ranked[n]] else []
  }

  lemma {:induction false} FilteredGrows(t: Tables, ranked: seq<int>, access: Access, now: int, i: nat)
    requires i <= |ranked|
    ensures Filtered(t, ranked[..i], access, now) <= Filtered(t, ranked, access, now)
    decreases |ranked| - i
  {
    if i < |ranked| {
      FilteredGrows(t, ranked, access, now, i + 1);
      assert ranked[..i + 1][..i] == ranked[..i];
    } else {
      assert ranked[..i] == ranked;
    }
  }

  lemma FilteredOneMore(t: Tables, ranked: seq<int>, access: Access, now: int, i: nat)
    requires i < |ranked|
    ensures Filtered(t, ranked[..i + 1], access, now)
         == Filtered(t, ranked[..i], access, now) + if Visible(t, ranked[i], access, now) then [ranked[i]] else []
  {
    hide Visible;
    assert ranked[..i + 1][..i] == ranked[..i];
  }

  lemma NothingFiltered(t: Tables, access: Access, now: int)
    ensures Filtered(t, [], access, now) == []
  {
  }

  function Most(k: int): nat {
    if k <= 1 then 1 else k
  }

  function FirstOf(ids: seq<int>, most: nat): seq<int> {
    if |ids| <= most then ids else ids[..most]
  }

  /** The Python slice [:4k], or [:12] when k is zero. */
  function Shortlist(ranked: seq<int>, k: int): (s: seq<int>)
    ensures s <= ranked
  {
    var n := if k == 0 then 12 else 4 * k;
    if n >= |ranked| then ranked
    else if n >= 0 then ranked[..n]
    else if |ranked| + n >= 0 then ranked[..|ranked| + n]
    else []
  }

  /** The filtering loop: the first k visible candidates of the shortlist, but one even when k is zero or less. */
  method FilterLoop(t: Tables, ranked: seq<int>, k: int, access: Access, now: int) returns (out: seq<int>)
    ensures out == FirstOf(Filtered(t, ranked, access, now), Most(k))
  {
    hide Visible, Filtered;
    out := [];
    NothingFiltered(t, access, now);
    assert ranked[..0] == [];
    for i := 0 to |ranked|
      invariant out == Filtered(t, ranked[..i], access, now)
      invariant |out| == 0 || |out| < k
    {
      FilteredOneMore(t, ranked, access, now, i);
      if Visible(t, ranked[i], access, now) {
        out := out + [ranked[i]];
        if |out| >= k {
          FilteredGrows(t, ranked, access, now, i + 1);
          return;
        }
      }
    }
    assert ranked[..|ranked|] == ranked;
  }

  /** None where an unknown access level or a reserved namespace is refused. */
  method Retrieve(t: Tables, cfg: Config, ns: string, score: Score, k: int, access: Access, now: int)
    returns (out: Option<seq<int>>)
    ensures out.None? <==> access == UnknownAccess || ns in cfg.reserved
    ensures out.Some? ==>
              out.value == FirstOf(Filtered(t, Shortlist(Ranked(t.chunks, ns, score), k), access, now), Most(k))
  {
    if access == UnknownAccess || ns in cfg.reserved {
      return None;
    }
    var hits := FilterLoop(t, Shortlist(Ranked(t.chunks, ns, score), k), k, access, now);
    out := Some(hits);
  }

  // ----- What comes back -----

  /** The shortlist is cut before the governed filter.  The result is that of filtering every candidate exactly when
      the shortlist already holds enough visible ones, or all there are. */
  lemma ShortlistIsEnoughIff(t: Tables, ranked: seq<int>, k: int, access: Access, now: int)
    ensures var cut, all := Filtered(t, Shortlist(ranked, k), access, now), Filtered(t, ranked, access, now);
            FirstOf(cut, Most(k)) == FirstOf(all, Most(k)) <==> |cut| >= Most(k) || |cut| == |all|
  {
    hide Visible, Filtered;
    var short := Shortlist(ranked, k);
    assert short == ranked[..|short|];
    FilteredGrows(t, ranked, access, now, |short|);
  }

  lemma {:induction false} FilteredIsVisible(t: Tables, ranked: seq<int>, access: Access, now: int)
    ensures forall id :: id in Filtered(t, ranked, access, now) <==> id in ranked && Visible(t, id, access, now)
    decreases |ranked|
  {
    hide Visible;
    if ranked != [] {
      var n := |ranked| - 1;
      FilteredIsVisible(t, ranked[..n], access, now);
      assert ranked == ranked[..n] + [ranked[n]];
    }
  }

  /** Whatever retrieval returns matches the query in its namespace and is visible. */
  lemma ReturnedMatches(t: Tables, ns: string, score: Score, k: int, access: Access, now: int, id: int)
    requires id in FirstOf(Filtered(t, Shortlist(Ranked(t.chunks, ns, score), k), access, now), Most(k))
    ensures Matches(t.chunks, ns, score, id) && Visible(t, id, access, now)
  {
    hide Visible, Matches, Ranked, Filtered;
    FilteredIsVisible(t, Shortlist(Ranked(t.chunks, ns, score), k), access, now);
    RankedIs(t.chunks, ns, score);
  }

  /** What is visible is the newest version of its lineage, with the text its author signed, proven by the current
      namespace root. */
  lemma VisibleIsCurrent(t: Tables, id: int, access: Access, now: int, other: int)
    requires AllAttested(t) && Visible(t, id, access, now)
    ensures var c := t.chunks[id - 1];
            && c.text.Some? && Verifies(t.meta[id].envelope, c.text)
            && ProofOf(t.chunks, c.ns, id).Some? && Proves(ProofOf(t.chunks, c.ns, id).value)
            && (other in t.meta && Origin(t, other) == Origin(t, id) ==> t.meta[other].version <= t.meta[id].version)
  {
    hide Verifies, Proves, ProofOf, Origin, Linked;
    assert Attested(t, id);
    ProofVerifies(t.chunks, t.chunks[id - 1].ns, id);
    if other in t.meta && Origin(t, other) == Origin(t, id) {
      OneHead(t, id, other);
    }
  }

  // ----- Who may read what -----

  /** The levels a reader gets. */
  predicate MayRead(reader: Access, level: Access) {
    match reader
    case Public => level == Public
    case Internal => level == Public || level == Internal
    case Restricted => level == Public || level == Internal || level == Restricted
    case UnknownAccess => false
  }

  /** Governed, neither redacted nor superseded, at a level the reader gets, and not past its retention limit. */
  predicate Readable(t: Tables, id: int, reader: Access, now: int) {
    && 1 <= id <= |t.chunks| && id in t.meta
    && var m := t.meta[id];
       && !m.redacted && m.supersededBy == None
       && MayRead(reader, m.envelope.body.access)
       && (m.envelope.body.expires.Some? ==> now <= m.envelope.body.expires.value)
  }

  lemma VisibleExact(t: Tables, id: int, reader: Access, now: int)
    requires reader != UnknownAccess
    ensures Visible(t, id, reader, now) <==> Readable(t, id, reader, now)
  {
  }

  // ----- Exactly what is returned -----

  /** The ids of a list that outrank this one. */
  function Above(chunks: seq<Chunk>, score: Score, ids: seq<int>, id: int): set<int> {
    set x | x in ids && Outranks(chunks, score, x, id)
  }

  /** In rank order a place is the number of those above. */
  lemma PlaceIsCount(chunks: seq<Chunk>, score: Score, ids: seq<int>, i: nat)
    requires InRankOrder(chunks, score, ids) && i < |ids|
    ensures |Above(chunks, score, ids, ids[i])| == i
  {
    var first := Members(ids[..i]);
    forall x | x in first
      ensures x in ids && Outranks(chunks, score, x, ids[i])
    {
      var l :| 0 <= l < i && ids[..i][l] == x;
    }
    forall x | x in ids && Outranks(chunks, score, x, ids[i])
      ensures x in first
    {
      var j :| 0 <= j < |ids| && ids[j] == x;
      assert j < i;
      assert ids[..i][j] == x;
    }
    assert Above(chunks, score, ids, ids[i]) == first;
    assert forall j, k :: 0 <= j < k < i ==> ids[..i][j] != ids[..i][k] by {
      assert forall j, k :: 0 <= j < k < |ids| ==> Outranks(chunks, score, ids[j], ids[k]);
    }
    DistinctCount(ids[..i]);
  }

  function Members(ids: seq<int>): set<int> {
    set x | x in ids
  }

  lemma {:induction false} DistinctCount(ids: seq<int>)
    requires forall j, k :: 0 <= j < k < |ids| ==> ids[j] != ids[k]
    ensures |Members(ids)| == |ids|
    decreases |ids|
  {
    if ids == [] {
      assert Members(ids) == {};
    } else {
      var n := |ids| - 1;
      DistinctCount(ids[..n]);
      assert ids == ids[..n] + [ids[n]];
      assert Members(ids) == Members(ids[..n]) + {ids[n]};
    }
  }

  lemma {:induction false} FilteredInOrder(t: Tables, score: Score, ranked: seq<int>, access: Access, now: int)
    requires InRankOrder(t.chunks, score, ranked)
    ensures InRankOrder(t.chunks, score, Filtered(t, ranked, access, now))
    decreases |ranked|
  {
    hide Visible, Outranks;
    if ranked != [] {
      var n := |ranked| - 1;
      var before := Filtered(t, ranked[..n], access, now);
      assert InRankOrder(t.chunks, score, ranked[..n]);
      FilteredInOrder(t, score, ranked[..n], access, now);
      FilteredIsVisible(t, ranked[..n], access, now);
      forall i | 0 <= i < |before|
        ensures Outranks(t.chunks, score, before[i], ranked[n])
      {
        assert before[i] in before;
        var l :| 0 <= l < n && ranked[..n][l] == before[i];
        assert Outranks(t.chunks, score, ranked[l], ranked[n]);
      }
    }
  }

  lemma PrefixInOrder(chunks: seq<Chunk>, score: Score, ids: seq<int>, n: nat)
    requires InRankOrder(chunks, score, ids) && n <= |ids|
    ensures InRankOrder(chunks, score, ids[..n])
  {
    hide Outranks;
  }

  /** A prefix of a list in rank order holds exactly those with fewer than so many above them. */
  lemma FirstExact(chunks: seq<Chunk>, score: Score, ids: seq<int>, n: nat, id: int)
    requires InRankOrder(chunks, score, ids)
    ensures id in FirstOf(ids, n) <==> id in ids && |Above(chunks, score, ids, id)| < n
  {
    hide InRankOrder, Above;
    if id in ids {
      var i :| 0 <= i < |ids| && ids[i] == id;
      PlaceIsCount(chunks, score, ids, i);
      if |ids| > n {
        if i < n {
          assert ids[..n][i] == id;
        } else if id in ids[..n] {
          var j :| 0 <= j < n && ids[..n][j] == id;
          PlaceIsCount(chunks, score, ids, j);
        }
      }
    }
  }

  /** The length of the Python slice. */
  function SliceLength(length: nat, k: int): nat {
    if k == 0 then (if length < 12 then length else 12)
    else if k > 0 then (if length < 4 * k then length else 4 * k)
    else (if length + 4 * k > 0 then length + 4 * k else 0)
  }

  lemma ShortlistIs(ranked: seq<int>, k: int)
    ensures Shortlist(ranked, k) == ranked[..SliceLength(|ranked|, k)]
  {
  }

  /** MAIN: an id is returned exactly when it is on the shortlist, the reader may read it now, and fewer than k (at
      least one) readable ids of the shortlist outrank it; the shortlist is the slice of the ranking. The result is
      in rank order. */
  lemma RetrievedExactly(t: Tables, ns: string, score: Score, k: int, reader: Access, now: int, id: int)
    requires reader != UnknownAccess
    ensures var ranked := Ranked(t.chunks, ns, score);
            var short := ranked[..SliceLength(|ranked|, k)];
            var out := FirstOf(Filtered(t, Shortlist(ranked, k), reader, now), Most(k));
            var rivals := set x | x in short && Readable(t, x, reader, now) && Outranks(t.chunks, score, x, id);
            && InRankOrder(t.chunks, score, out)
            && (id in out <==> id in short && Readable(t, id, reader, now) && |rivals| < if k <= 1 then 1 else k)
  {
    hide Ranked, Visible, Readable, Filtered, Outranks;
    var ranked := Ranked(t.chunks, ns, score);
    var short := ranked[..SliceLength(|ranked|, k)];
    ShortlistIs(ranked, k);
    RankedIs(t.chunks, ns, score);
    PrefixInOrder(t.chunks, score, ranked, |short|);
    FilteredInOrder(t, score, short, reader, now);
    FilteredIsVisible(t, short, reader, now);
    var hits := Filtered(t, short, reader, now);
    forall x
      ensures Visible(t, x, reader, now) <==> Readable(t, x, reader, now)
    {
      VisibleExact(t, x, reader, now);
    }
    var rivals := set x | x in short && Readable(t, x, reader, now) && Outranks(t.chunks, score, x, id);
    assert Above(t.chunks, score, hits, id) == rivals;
    FirstExact(t.chunks, score, hits, Most(k), id);
    PrefixInOrder(t.chunks, score, hits, if |hits| <= Most(k) then |hits| else Most(k));
    assert hits[..|hits|] == hits;
    if id in hits {
      var i :| 0 <= i < |hits| && hits[i] == id;
      PlaceIsCount(t.chunks, score, hits, i);
    }
  }
}
