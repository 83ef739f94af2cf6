/** core/segments.py: replicated record segments, the segment store and recovery. */
module Segments {
  import opened Wrappers
  import opened Witness
  import opened WitnessLog
  import opened Ranges
  import R = Replication

  const MAX_SEGMENT_RECORDS := 512

  /** The hash over the canonical record list is the list itself. */
  datatype SegmentBody = SegmentBody(kind: string, node: NodeId, start: int, end: int,
                                     prevHash: R.RecordHash, segmentHash: seq<Entry>, ts: int)

  datatype SegmentEnv = SegmentEnv(body: SegmentBody, records: seq<Entry>, pub: Key, sig: Signature<SegmentBody>)

  function MakeSegment(chain: seq<Entry>, key: Key, start: int, end: int, ts: int): Option<SegmentEnv> {
    if !(0 <= start < end <= |chain|) || end - start > MAX_SEGMENT_RECORDS then None
    else
      var records := chain[start..end];
      var body := SegmentBody("WITNESS_SEGMENT", NodeOf(key), start, end, records[0].body.prev, records, ts);
      Some(SegmentEnv(body, records, key, SignedBy(key, body)))
  }

  /** A record that belongs at `index` of the origin's chain, as far as it can be told offline. */
  predicate Authentic(e: Entry, index: int, key: Key) {
    e.body.index == index && e.body.node == NodeOf(key) && e.thisHash == HashOf(e.body)
    && e.sig == SignedBy(key, e.thisHash)
  }

  function RunningPrev(env: SegmentEnv, off: nat): R.RecordHash
    requires off <= |env.records|
  {
    if off == 0 then env.body.prevHash else env.records[off - 1].thisHash
  }

  predicate HeaderValid(env: SegmentEnv) {
    && env.body.kind == "WITNESS_SEGMENT"
    && NodeOf(env.pub) == env.body.node
    && env.sig == SignedBy(env.pub, env.body)
    && 0 <= env.body.start < env.body.end
    && |env.records| == env.body.end - env.body.start
    && env.records == env.body.segmentHash
    && (env.body.start == 0 ==> env.body.prevHash == Genesis)
  }

  predicate ValidSegment(env: SegmentEnv) {
    && HeaderValid(env)
    && forall off :: 0 <= off < |env.records| ==>
         Authentic(env.records[off], env.body.start + off, env.pub)
         && env.records[off].body.prev == RunningPrev(env, off)
  }

  method VerifySegment(env: SegmentEnv) returns (ok: bool)
    ensures ok <==> ValidSegment(env)
  {
    hide Authentic, HeaderValid;
    if !HeaderValid(env) {
      return false;
    }
    var prev := env.body.prevHash;
    for off := 0 to |env.records|
      invariant prev == RunningPrev(env, off)
      invariant forall o :: 0 <= o < off ==>
                  Authentic(env.records[o], env.body.start + o, env.pub)
                  && env.records[o].body.prev == RunningPrev(env, o)
    {
      var rec := env.records[off];
      if !Authentic(rec, env.body.start + off, env.pub) || rec.body.prev != prev {
        return false;
      }
      prev := rec.thisHash;
    }
    ok := true;
  }

  /** Everything an honest node serves verifies. */
  lemma MadeSegmentsVerify(chain: seq<Entry>, key: Key, start: int, end: int, ts: int)
    requires Sound(chain, key) && forall i :: 0 <= i < |chain| ==> chain[i].body.node == NodeOf(key)
    requires 0 <= start < end <= |chain| && end - start <= MAX_SEGMENT_RECORDS
    ensures MakeSegment(chain, key, start, end, ts).Some? && ValidSegment(MakeSegment(chain, key, start, end, ts).value)
  {
    var env := MakeSegment(chain, key, start, end, ts).value;
    forall off | 0 <= off < |env.records|
      ensures Authentic(env.records[off], env.body.start + off, env.pub)
      ensures env.records[off].body.prev == RunningPrev(env, off)
    {
      assert LinkSound(chain, start + off, key);
    }
    assert LinkSound(chain, start, key);
  }

  /** A segment signed by a key in its own node's name, over these records. */
  function SignSegment(key: Key, start: int, prev: R.RecordHash, records: seq<Entry>, ts: int): SegmentEnv {
    var body := SegmentBody("WITNESS_SEGMENT", NodeOf(key), start, start + |records|, prev, records, ts);
    SegmentEnv(body, records, key, SignedBy(key, body))
  }

  /** The record a key signs at an index, after the record of the given hash. */
  function SignRecord(key: Key, index: int, prev: R.RecordHash, content: Content): Entry {
    var body := Body(index, prev, NodeOf(key), content);
    Record(body, HashOf(body), SignedBy(key, HashOf(body)))
  }

  /** Record `off` is one the segment's key signed at its index, after the record before it. */
  ghost predicate SignedAt(env: SegmentEnv, off: nat)
    requires off < |env.records|
  {
    var rs, b := env.records, env.body;
    var prev := if off == 0 then b.prevHash else rs[off - 1].thisHash;
    rs[off] == SignRecord(env.pub, b.start + off, prev, rs[off].body.content)
  }

  /** The segments that verify are exactly those a key signs in its own node's name over a non-empty range of records
      that it signed too, each at its index and naming its predecessor, from genesis at index 0. */
  lemma SegmentValidIff(env: SegmentEnv)
    ensures ValidSegment(env) <==>
            var b, rs := env.body, env.records;
            && b.start >= 0 && rs != [] && env == SignSegment(env.pub, b.start, b.prevHash, rs, b.ts)
            && (b.start == 0 ==> b.prevHash == Genesis)
            && forall off :: 0 <= off < |rs| ==> SignedAt(env, off)
  {
    HeaderValidIff(env);
    hide HeaderValid, Authentic, SignSegment, SignedAt;
    forall off | 0 <= off < |env.records|
      ensures SignedAt(env, off) <==>
              Authentic(env.records[off], env.body.start + off, env.pub)
              && env.records[off].body.prev == RunningPrev(env, off)
    {
      SignedAtIff(env, off);
    }
    if forall off :: 0 <= off < |env.records| ==> SignedAt(env, off) {
      forall off | 0 <= off < |env.records|
        ensures Authentic(env.records[off], env.body.start + off, env.pub)
        ensures env.records[off].body.prev == RunningPrev(env, off)
      {
        assert SignedAt(env, off);
      }
    }
  }

  lemma HeaderValidIff(env: SegmentEnv)
    ensures HeaderValid(env) <==>
            var b, rs := env.body, env.records;
            && b.start >= 0 && rs != [] && env == SignSegment(env.pub, b.start, b.prevHash, rs, b.ts)
            && (b.start == 0 ==> b.prevHash == Genesis)
  {
  }

  lemma SignedAtIff(env: SegmentEnv, off: nat)
    requires off < |env.records|
    ensures SignedAt(env, off) <==>
            Authentic(env.records[off], env.body.start + off, env.pub)
            && env.records[off].body.prev == RunningPrev(env, off)
  {
  }

  // ----- The store -----

  type HeldMap = map<int, Entry>

  datatype SegmentDivergence = SegmentDivergence(index: int, recordA: Entry, recordB: Entry, offered: SegmentEnv)

  datatype Live = Live(records: map<NodeId, HeldMap>, diverged: map<NodeId, seq<SegmentDivergence>>)

  datatype JournalLine = SegmentLine(env: SegmentEnv) | DivergenceLine(origin: NodeId, evidence: SegmentDivergence)

  const EMPTY := Live(map[], map[])

  function Held(live: Live, origin: NodeId): HeldMap {
    if origin in live.records then live.records[origin] else map[]
  }

  function EvidenceAgainst(live: Live, origin: NodeId): seq<SegmentDivergence> {
    if origin in live.diverged then live.diverged[origin] else []
  }

  predicate Clashes(held: HeldMap, e: Entry) {
    e.body.index in held && held[e.body.index].thisHash != e.thisHash
  }

  /** The first of the first n records that contradicts a held one. */
  function FirstClash(held: HeldMap, rs: seq<Entry>, n: nat): (at: Option<nat>)
    requires n <= |rs|
    ensures at.Some? ==> at.value < n && Clashes(held, rs[at.value])
    ensures at.None? <==> forall i :: 0 <= i < n ==> !Clashes(held, rs[i])
  {
    if n == 0 then None
    else
      var before := FirstClash(held, rs, n - 1);
      if before.Some? then before else if Clashes(held, rs[n - 1]) then Some(n - 1) else None
  }

  /** `_hold`: later entries overwrite earlier ones. */
  function HoldAll(held: HeldMap, rs: seq<Entry>): HeldMap {
    if rs == [] then held else HoldAll(held, rs[..|rs| - 1])[rs[|rs| - 1].body.index := rs[|rs| - 1]]
  }

  function HoldSegment(live: Live, env: SegmentEnv): Live {
    live.(records := live.records[env.body.node := HoldAll(Held(live, env.body.node), env.records)])
  }

  function AddEvidence(live: Live, origin: NodeId, e: SegmentDivergence): Live {
    live.(diverged := live.diverged[origin := EvidenceAgainst(live, origin) + [e]])
  }

  datatype Verdict = Rejected | Diverged | Duplicate | Stored

  function Judge(live: Live, env: SegmentEnv): Verdict {
    var held := Held(live, env.body.node);
    if !ValidSegment(env) then Rejected
    else if FirstClash(held, env.records, |env.records|).Some? then Diverged
    else if forall i :: 0 <= i < |env.records| ==> env.records[i].body.index in held then Duplicate
    else Stored
  }

  function ClashEvidence(held: HeldMap, env: SegmentEnv): SegmentDivergence
    requires FirstClash(held, env.records, |env.records|).Some?
  {
    var rec := env.records[FirstClash(held, env.records, |env.records|).value];
    SegmentDivergence(rec.body.index, held[rec.body.index], rec, env)
  }

  function AcceptLive(live: Live, env: SegmentEnv): Live {
    match Judge(live, env)
    case Stored => HoldSegment(live, env)
    case Diverged => AddEvidence(live, env.body.node, ClashEvidence(Held(live, env.body.node), env))
    case _ => live
  }

  function AcceptLines(live: Live, env: SegmentEnv): seq<JournalLine> {
    match Judge(live, env)
    case Stored => [SegmentLine(env)]
    case Diverged => [DivergenceLine(env.body.node, ClashEvidence(Held(live, env.body.node), env))]
    case _ => []
  }

  /** The record offered at this place has another hash than the one held at its index. */
  ghost predicate ClashesAt(live: Live, env: SegmentEnv, i: int) {
    var held := Held(live, env.body.node);
    0 <= i < |env.records| && env.body.start + i in held && held[env.body.start + i].thisHash != env.records[i].thisHash
  }

  /** What is recorded against the origin of a segment: the held and the offered record, inside what was offered. */
  function EvidenceAt(live: Live, env: SegmentEnv, i: int): (e: SegmentDivergence)
    requires 0 <= i < |env.records| && env.body.start + i in Held(live, env.body.node)
  {
    SegmentDivergence(env.body.start + i, Held(live, env.body.node)[env.body.start + i], env.records[i], env)
  }

  ghost predicate AccusesAt(live: Live, env: SegmentEnv, i: int) {
    && ClashesAt(live, env, i)
    && var e := EvidenceAt(live, env, i);
       EvidenceAgainst(AcceptLive(live, env), env.body.node) == EvidenceAgainst(live, env.body.node) + [e]
  }

  /** MAIN: a segment is judged divergent exactly when it is valid and contradicts a held record; the evidence is the
      held and the offered record at the first such index. */
  lemma DivergenceExact(live: Live, env: SegmentEnv) returns (i: int)
    ensures Judge(live, env) == Diverged <==> ValidSegment(env) && ClashesAt(live, env, i)
    ensures Judge(live, env) == Diverged ==> AccusesAt(live, env, i)
    ensures ValidSegment(env) ==> forall j :: ClashesAt(live, env, j) ==> i <= j && ClashesAt(live, env, i)
  {
    i := -1;
    if ValidSegment(env) {
      IndexedByPlace(env);
      hide ValidSegment, ClashesAt, FirstClash, HoldAll;
      i := FirstClashAt(live, env);
    }
  }

  lemma FirstClashAt(live: Live, env: SegmentEnv) returns (i: int)
    requires forall k :: 0 <= k < |env.records| ==> env.records[k].body.index == env.body.start + k
    ensures var at := FirstClash(Held(live, env.body.node), env.records, |env.records|);
            && (at.Some? <==> ClashesAt(live, env, i))
            && (at.Some? ==> at.value == i && ClashEvidence(Held(live, env.body.node), env) == EvidenceAt(live, env, i))
    ensures forall j :: ClashesAt(live, env, j) ==> i <= j && ClashesAt(live, env, i)
  {
    var held, rs := Held(live, env.body.node), env.records;
    FirstClashIsFirst(held, rs, |rs|);
    var at := FirstClash(held, rs, |rs|);
    assert forall k :: 0 <= k < |rs| ==> (Clashes(held, rs[k]) <==> ClashesAt(live, env, k));
    i := if at.Some? then at.value else -1;
  }

  lemma IndexedByPlace(env: SegmentEnv)
    requires ValidSegment(env)
    ensures forall i :: 0 <= i < |env.records| ==> env.records[i].body.index == env.body.start + i
  {
    hide HeaderValid;
  }

  lemma {:induction false} FirstClashIsFirst(held: HeldMap, rs: seq<Entry>, n: nat)
    requires n <= |rs|
    ensures var at := FirstClash(held, rs, n); at.Some? ==> forall j :: 0 <= j < at.value ==> !Clashes(held, rs[j])
    decreases n
  {
    if n > 0 {
      FirstClashIsFirst(held, rs, n - 1);
    }
  }

  /** The accept loop: count unseen records, stop at the first contradiction. */
  method Scan(held: HeldMap, rs: seq<Entry>) returns (unseen: nat, clash: Option<nat>)
    ensures clash == FirstClash(held, rs, |rs|)
    ensures clash.None? ==> (unseen == 0 <==> forall j :: 0 <= j < |rs| ==> rs[j].body.index in held)
  {
    unseen := 0;
    for i := 0 to |rs|
      invariant FirstClash(held, rs, i).None?
      invariant unseen == 0 <==> forall j :: 0 <= j < i ==> rs[j].body.index in held
    {
      if rs[i].body.index !in held {
        unseen := unseen + 1;
      } else if held[rs[i].body.index].thisHash != rs[i].thisHash {
        ClashStays(held, rs, i);
        return unseen, Some(i);
      }
    }
    clash := None;
  }

  class SegmentStore {
    var live: Live
    var journal: seq<JournalLine>

    constructor ()
      ensures live == EMPTY && journal == []
    {
      live, journal := EMPTY, [];
    }

    /** `diskOk` is the answer of the durable write, which raises on failure after memory moved. */
    method Accept(env: SegmentEnv, diskOk: bool) returns (verdict: Verdict)
      modifies this
      ensures verdict == Judge(old(live), env) && live == AcceptLive(old(live), env)
      ensures journal == old(journal) + (if diskOk then AcceptLines(old(live), env) else [])
    {
      hide FirstClash, ValidSegment, HoldAll;
      var ok := VerifySegment(env);
      if !ok {
        return Rejected;
      }
      var origin := env.body.node;
      var held := Held(live, origin);
      var unseen, clash := Scan(held, env.records);
      if clash.Some? {
        var rec := env.records[clash.value];
        var e := SegmentDivergence(rec.body.index, held[rec.body.index], rec, env);
        live := AddEvidence(live, origin, e);
        if diskOk {
          journal := journal + [DivergenceLine(origin, e)];
        }
        return Diverged;
      }
      if unseen == 0 {
        return Duplicate;
      }
      live := HoldSegment(live, env);
      if diskOk {
        journal := journal + [SegmentLine(env)];
      }
      verdict := Stored;
    }

    method NextGap(origin: NodeId, count: int) returns (gap: Option<Range>)
      ensures gap.None? <==> forall x :: !Lacking(x, Held(live, origin).Keys, count)
      ensures gap.Some? ==>
                0 <= gap.value.lo < gap.value.hi <= count && gap.value.hi - gap.value.lo <= MAX_SEGMENT_RECORDS
      ensures gap.Some? ==> forall x :: gap.value.lo <= x < gap.value.hi ==> Lacking(x, Held(live, origin).Keys, count)
      ensures gap.Some? ==> forall x :: Lacking(x, Held(live, origin).Keys, count) ==> gap.value.lo <= x
      ensures gap.Some? ==>
                || gap.value.hi - gap.value.lo == MAX_SEGMENT_RECORDS
                || !Lacking(gap.value.hi, Held(live, origin).Keys, count)
    {
      var gaps := Missing(Held(live, origin).Keys, count);
      if gaps == [] {
        return None;
      }
      var g := Range(gaps[0].lo, Min(gaps[0].hi, gaps[0].lo + MAX_SEGMENT_RECORDS));
      assert InRange(gaps[0].lo, gaps[0]) && InRange(gaps[0].hi - 1, gaps[0]);
      assert InSome(gaps[0].lo, gaps) && InSome(gaps[0].hi - 1, gaps);
      forall x | g.lo <= x < g.hi
        ensures Lacking(x, Held(live, origin).Keys, count)
      {
        assert InRange(x, gaps[0]);
        assert InSome(x, gaps);
      }
      assert !InSome(gaps[0].hi, gaps);
      gap := Some(g);
    }

    /** The catch-up exchange: ask for the next gap, serve it from the origin's chain, accept.  What is asked for is
        each missing record once, in order. */
    method CatchUp(chain: seq<Entry>, key: Key, count: nat) returns (asked: seq<Range>)
      requires Sound(chain, key) && forall i :: 0 <= i < |chain| ==> chain[i].body.node == NodeOf(key)
      requires count <= |chain| && HoldsPartOf(live, key, chain)
      modifies this
      ensures HoldsPartOf(live, key, chain) && forall x :: !Lacking(x, Held(live, NodeOf(key)).Keys, count)
      ensures live.diverged == old(live.diverged)
      ensures |asked| <= |LackingSet(Held(old(live), NodeOf(key)).Keys, count)|
      ensures Ordered(asked, 0)
      ensures forall x :: InSome(x, asked) <==> Lacking(x, Held(old(live), NodeOf(key)).Keys, count)
    {
      asked := [];
      var gap := NextGap(NodeOf(key), count);
      while gap.Some?
        invariant HoldsPartOf(live, key, chain) && live.diverged == old(live.diverged)
        invariant gap.None? <==> forall x :: !Lacking(x, Held(live, NodeOf(key)).Keys, count)
        invariant gap.Some? ==>
                    0 <= gap.value.lo < gap.value.hi <= count && gap.value.hi - gap.value.lo <= MAX_SEGMENT_RECORDS
        invariant gap.Some? ==> Lacking(gap.value.lo, Held(live, NodeOf(key)).Keys, count)
        invariant gap.Some? ==> AllLacking(gap.value, Held(live, NodeOf(key)).Keys, count)
        invariant Asked(asked, Held(old(live), NodeOf(key)).Keys, Held(live, NodeOf(key)).Keys, count)
        invariant |asked| + |LackingSet(Held(live, NodeOf(key)).Keys, count)|
               <= |LackingSet(Held(old(live), NodeOf(key)).Keys, count)|
        decreases |LackingSet(Held(live, NodeOf(key)).Keys, count)|
      {
        var g := gap.value;
        ghost var was := live;
        MadeSegmentsVerify(chain, key, g.lo, g.hi, 0);
        var seg := MakeSegment(chain, key, g.lo, g.hi, 0).value;
        var verdict := Accept(seg, true);
        HonestSegmentFits(was, key, chain, seg);
        GapShrinks(was, key, chain, g, seg, count);
        OneMoreAsked(asked, Held(old(live), NodeOf(key)).Keys, Held(was, NodeOf(key)).Keys,
                     Held(live, NodeOf(key)).Keys, count, g);
        asked := asked + [g];
        gap := NextGap(NodeOf(key), count);
      }
    }
  }

  ghost predicate AllLacking(r: Range, keys: set<int>, count: int) {
    && (forall x :: r.lo <= x < r.hi ==> Lacking(x, keys, count))
    && forall x :: Lacking(x, keys, count) ==> r.lo <= x
  }

  /** What was asked for is in order, below everything still missing, and is what has stopped being missing. */
  ghost predicate Asked(asked: seq<Range>, before: set<int>, now: set<int>, count: int) {
    && Ordered(asked, 0)
    && (forall x, i :: 0 <= i < |asked| && Lacking(x, now, count) ==> asked[i].hi <= x)
    && forall x :: Lacking(x, before, count) <==> InSome(x, asked) || Lacking(x, now, count)
  }

  lemma OneMoreAsked(asked: seq<Range>, before: set<int>, was: set<int>, now: set<int>, count: int, g: Range)
    requires Asked(asked, before, was, count) && g.lo < g.hi && AllLacking(g, was, count)
    requires forall x :: x in now <==> x in was || g.lo <= x < g.hi
    ensures Asked(asked + [g], before, now, count)
  {
    AddLast(asked, g);
    var after := asked + [g];
    assert Lacking(g.lo, was, count);
    hide InSome;
    forall x | Lacking(x, now, count)
      ensures Lacking(x, was, count) && g.hi <= x
    {
    }
  }

  lemma {:induction false} ClashStays(held: HeldMap, rs: seq<Entry>, i: nat)
    requires i < |rs| && FirstClash(held, rs, i).None? && Clashes(held, rs[i])
    ensures FirstClash(held, rs, |rs|) == Some(i)
  {
    var n := i + 1;
    assert FirstClash(held, rs, n) == Some(i);
    while n < |rs|
      invariant i < n <= |rs| && FirstClash(held, rs, n) == Some(i)
    {
      n := n + 1;
    }
  }

  // ----- What a store holds -----

  /** Every held record is authentic for its origin and index. */
  ghost predicate AllAuthentic(live: Live) {
    forall o: NodeId, i :: i in Held(live, o) ==> i >= 0 && Authentic(Held(live, o)[i], i, o.key)
  }

  ghost predicate HoldsPartOf(live: Live, key: Key, chain: seq<Entry>) {
    forall i :: i in Held(live, NodeOf(key)) ==> 0 <= i < |chain| && Held(live, NodeOf(key))[i] == chain[i]
  }

  /** Holding consecutive records adds exactly their indices. */
  lemma {:induction false} HoldAllContents(held: HeldMap, rs: seq<Entry>, start: int, x: int)
    requires forall off :: 0 <= off < |rs| ==> rs[off].body.index == start + off
    ensures x in HoldAll(held, rs) <==> x in held || start <= x < start + |rs|
    ensures x in HoldAll(held, rs) ==>
              HoldAll(held, rs)[x] == if start <= x < start + |rs| then rs[x - start] else held[x]
    decreases |rs|
  {
    if rs != [] {
      HoldAllContents(held, rs[..|rs| - 1], start, x);
    }
  }

  lemma StoredHeld(live: Live, env: SegmentEnv)
    requires Judge(live, env) == Stored
    ensures Held(AcceptLive(live, env), env.body.node) == HoldAll(Held(live, env.body.node), env.records)
    ensures AcceptLive(live, env).diverged == live.diverged
  {
    hide Judge, HoldAll;
  }

  lemma StoredIsValid(live: Live, env: SegmentEnv)
    requires Judge(live, env) in {Stored, Duplicate}
    ensures ValidSegment(env)
    ensures Judge(live, env) == Duplicate ==> AcceptLive(live, env) == live
                                              && forall i :: 0 <= i < |env.records| ==>
                                                   env.records[i].body.index in Held(live, env.body.node)
  {
    hide ValidSegment, FirstClash;
  }

  lemma AcceptKeepsAuthentic(live: Live, env: SegmentEnv)
    requires AllAuthentic(live)
    ensures AllAuthentic(AcceptLive(live, env))
  {
    hide HoldAll, FirstClash, Authentic;
    var after := AcceptLive(live, env);
    forall o: NodeId, i | i in Held(after, o)
      ensures i >= 0 && Authentic(Held(after, o)[i], i, o.key)
    {
      if Judge(live, env) == Stored && o == env.body.node {
        SegmentIndices(env);
        HoldAllContents(Held(live, o), env.records, env.body.start, i);
      } else {
        assert Held(after, o) == Held(live, o);
      }
    }
  }

  lemma SegmentIndices(env: SegmentEnv)
    requires ValidSegment(env)
    ensures forall off :: 0 <= off < |env.records| ==> env.records[off].body.index == env.body.start + off
    ensures 0 <= env.body.start < env.body.end && |env.records| == env.body.end - env.body.start
    ensures env.body.node == NodeOf(env.pub)
  {
  }

  /** A segment of the chain never contradicts a store that holds part of the chain. */
  lemma HonestSegmentClashesNowhere(live: Live, key: Key, chain: seq<Entry>, seg: SegmentEnv)
    requires HoldsPartOf(live, key, chain) && ValidSegment(seg) && seg.body.node == NodeOf(key)
    requires seg.body.end <= |chain| && seg.records == chain[seg.body.start..seg.body.end]
    ensures Judge(live, seg) in {Stored, Duplicate}
  {
    hide ValidSegment, HoldAll;
    SegmentIndices(seg);
    assert forall i :: 0 <= i < |seg.records| ==> !Clashes(Held(live, NodeOf(key)), seg.records[i]);
  }

  lemma HonestSegmentFits(live: Live, key: Key, chain: seq<Entry>, seg: SegmentEnv)
    requires HoldsPartOf(live, key, chain) && ValidSegment(seg) && seg.body.node == NodeOf(key)
    requires seg.body.end <= |chain| && seg.records == chain[seg.body.start..seg.body.end]
    ensures HoldsPartOf(AcceptLive(live, seg), key, chain) && AcceptLive(live, seg).diverged == live.diverged
    ensures forall x :: x in Held(AcceptLive(live, seg), NodeOf(key)) <==>
              x in Held(live, NodeOf(key)) || seg.body.start <= x < seg.body.end
  {
    HonestSegmentClashesNowhere(live, key, chain, seg);
    hide HoldAll, ValidSegment, FirstClash;
    forall x {
      HonestIndex(live, key, chain, seg, x);
    }
  }

  lemma HonestIndex(live: Live, key: Key, chain: seq<Entry>, seg: SegmentEnv, x: int)
    requires HoldsPartOf(live, key, chain) && ValidSegment(seg) && seg.body.node == NodeOf(key)
    requires seg.body.end <= |chain| && seg.records == chain[seg.body.start..seg.body.end]
    requires Judge(live, seg) in {Stored, Duplicate}
    ensures var held, after := Held(live, NodeOf(key)), Held(AcceptLive(live, seg), NodeOf(key));
            && (x in after <==> x in held || seg.body.start <= x < seg.body.end)
            && (x in after ==> 0 <= x < |chain| && after[x] == chain[x])
  {
    hide HoldAll, ValidSegment, Judge, AcceptLive;
    SegmentIndices(seg);
    if Judge(live, seg) == Stored {
      StoredHeld(live, seg);
      HoldAllContents(Held(live, NodeOf(key)), seg.records, seg.body.start, x);
    } else {
      StoredIsValid(live, seg);
      if seg.body.start <= x < seg.body.end {
        assert seg.records[x - seg.body.start].body.index == x;
      }
    }
  }

  ghost function LackingSet(keys: set<int>, count: nat): set<int> {
    set x | 0 <= x < count && x !in keys
  }

  lemma GapShrinks(live: Live, key: Key, chain: seq<Entry>, g: Range, seg: SegmentEnv, count: nat)
    requires HoldsPartOf(live, key, chain) && ValidSegment(seg) && seg.body.node == NodeOf(key)
    requires seg.body.start == g.lo && seg.body.end == g.hi <= |chain| && seg.records == chain[g.lo..g.hi]
    requires Lacking(g.lo, Held(live, NodeOf(key)).Keys, count)
    ensures |LackingSet(Held(AcceptLive(live, seg), NodeOf(key)).Keys, count)|
          < |LackingSet(Held(live, NodeOf(key)).Keys, count)|
  {
    HonestSegmentFits(live, key, chain, seg);
    var before := LackingSet(Held(live, NodeOf(key)).Keys, count);
    var after := LackingSet(Held(AcceptLive(live, seg), NodeOf(key)).Keys, count);
    assert g.lo in before && g.lo !in after && after <= before;
    SmallerSet(after, before - {g.lo});
  }

  lemma {:induction false} SmallerSet<T>(a: set<T>, b: set<T>)
    requires a <= b
    ensures |a| <= |b|
  {
    assert b == a + (b - a);
  }
}
