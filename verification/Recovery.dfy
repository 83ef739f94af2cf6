/** Whole runs of the segment store, its restart, and recovery against a trusted root. */
module Recovery {
  import opened Wrappers
  import opened MerkleTree
  import opened Witness
  import opened WitnessLog
  import opened Ranges
  import opened Segments
  import R = Replication

  // ----- Runs -----

  function LiveAfter(envs: seq<SegmentEnv>): Live {
    if envs == [] then EMPTY else AcceptLive(LiveAfter(envs[..|envs| - 1]), envs[|envs| - 1])
  }

  function JournalAfter(envs: seq<SegmentEnv>): seq<JournalLine> {
    if envs == [] then []
    else JournalAfter(envs[..|envs| - 1]) + AcceptLines(LiveAfter(envs[..|envs| - 1]), envs[|envs| - 1])
  }

  /** The origin signs records of one append-only chain only. */
  ghost predicate OriginHonest(env: SegmentEnv, key: Key, chain: seq<Entry>) {
    ValidSegment(env) && env.pub == key ==>
      env.body.end <= |chain| && env.records == chain[env.body.start..env.body.end]
  }

  lemma {:induction false} RunsHoldAuthentic(envs: seq<SegmentEnv>)
    ensures AllAuthentic(LiveAfter(envs))
    decreases |envs|
  {
    if envs != [] {
      RunsHoldAuthentic(envs[..|envs| - 1]);
      AcceptKeepsAuthentic(LiveAfter(envs[..|envs| - 1]), envs[|envs| - 1]);
    }
  }

  lemma ForeignSegmentIrrelevant(live: Live, env: SegmentEnv, origin: NodeId)
    requires env.body.node != origin || !ValidSegment(env)
    ensures Held(AcceptLive(live, env), origin) == Held(live, origin)
    ensures EvidenceAgainst(AcceptLive(live, env), origin) == EvidenceAgainst(live, origin)
  {
    hide ValidSegment, HoldAll, FirstClash;
  }

  /** MAIN: an honest origin is never accused and what is held for it is part of its chain,
      whatever arrives, in whatever order. */
  lemma {:induction false} NoFalseDivergence(envs: seq<SegmentEnv>, key: Key, chain: seq<Entry>)
    requires forall e :: e in envs ==> OriginHonest(e, key, chain)
    ensures EvidenceAgainst(LiveAfter(envs), NodeOf(key)) == [] && HoldsPartOf(LiveAfter(envs), key, chain)
    decreases |envs|
  {
    if envs != [] {
      var n := |envs| - 1;
      var live, env := LiveAfter(envs[..n]), envs[n];
      NoFalseDivergence(envs[..n], key, chain);
      assert env in envs;
      if ValidSegment(env) && env.body.node == NodeOf(key) {
        HonestSegmentFits(live, key, chain, env);
      } else {
        ForeignSegmentIrrelevant(live, env, NodeOf(key));
      }
    }
  }

  /** The segment is the origin's and spans index x. */
  predicate Delivers(env: SegmentEnv, key: Key, x: int) {
    ValidSegment(env) && env.body.node == NodeOf(key) && env.body.start <= x < env.body.end
  }

  ghost predicate Delivered(envs: seq<SegmentEnv>, key: Key, x: int) {
    exists e :: e in envs && Delivers(e, key, x)
  }

  lemma {:induction false} HeldIffDelivered(envs: seq<SegmentEnv>, key: Key, chain: seq<Entry>, x: int)
    requires forall e :: e in envs ==> OriginHonest(e, key, chain)
    ensures x in Held(LiveAfter(envs), NodeOf(key)) <==> Delivered(envs, key, x)
    decreases |envs|
  {
    hide ValidSegment, AcceptLive;
    if envs != [] {
      var n := |envs| - 1;
      var before, env := envs[..n], envs[n];
      assert forall e :: e in envs <==> e in before || e == env;
      HeldIffDelivered(before, key, chain, x);
      LastDelivery(before, env, key, chain, x);
    }
  }

  lemma LastDelivery(before: seq<SegmentEnv>, env: SegmentEnv, key: Key, chain: seq<Entry>, x: int)
    requires OriginHonest(env, key, chain) && forall e :: e in before ==> OriginHonest(e, key, chain)
    ensures var live := LiveAfter(before);
            x in Held(AcceptLive(live, env), NodeOf(key)) <==> x in Held(live, NodeOf(key)) || Delivers(env, key, x)
  {
    hide AcceptLive, LiveAfter;
    NoFalseDivergence(before, key, chain);
    if ValidSegment(env) && env.body.node == NodeOf(key) {
      HonestSegmentFits(LiveAfter(before), key, chain, env);
    } else {
      ForeignSegmentIrrelevant(LiveAfter(before), env, NodeOf(key));
    }
  }

  // ----- Restart -----

  function ReloadLine(live: Live, line: JournalLine): Option<Live> {
    match line
    case SegmentLine(env) => if ValidSegment(env) then Some(HoldSegment(live, env)) else None
    case DivergenceLine(origin, e) => Some(AddEvidence(live, origin, e))
  }

  function Reload(journal: seq<JournalLine>): Option<Live> {
    if journal == [] then Some(EMPTY)
    else
      var n := |journal| - 1;
      var before := Reload(journal[..n]);
      if before.None? then None else ReloadLine(before.value, journal[n])
  }

  ghost predicate Synced(live: Live, journal: seq<JournalLine>) {
    Reload(journal) == Some(live)
  }

  lemma AcceptKeepsSync(live: Live, journal: seq<JournalLine>, env: SegmentEnv)
    requires Synced(live, journal)
    ensures Synced(AcceptLive(live, env), journal + AcceptLines(live, env))
  {
    hide ValidSegment, HoldAll, FirstClash;
    var lines := AcceptLines(live, env);
    if lines == [] {
      assert journal + lines == journal;
    } else {
      assert (journal + lines)[..|journal|] == journal;
    }
  }

  /** MAIN: the journal of any run reloads without refusing and rebuilds the live store. */
  lemma {:induction false} RestartRebuilds(envs: seq<SegmentEnv>)
    ensures Synced(LiveAfter(envs), JournalAfter(envs))
    decreases |envs|
  {
    if envs != [] {
      var n := |envs| - 1;
      RestartRebuilds(envs[..n]);
      AcceptKeepsSync(LiveAfter(envs[..n]), JournalAfter(envs[..n]), envs[n]);
    }
  }

  lemma StoredIsHeld(live: Live, env: SegmentEnv, i: nat)
    requires Judge(live, env) == Stored && i < |env.records|
    ensures var after := Held(AcceptLive(live, env), env.body.node);
            env.records[i].body.index in after && after[env.records[i].body.index] == env.records[i]
  {
    hide ValidSegment, HoldAll, Judge, AcceptLive;
    StoredIsValid(live, env);
    SegmentIndices(env);
    StoredHeld(live, env);
    HoldAllContents(Held(live, env.body.node), env.records, env.body.start, env.body.start + i);
  }

  /** A stored segment is new, and once stored it is a duplicate. */
  lemma StoredMoves(live: Live, env: SegmentEnv)
    requires Judge(live, env) == Stored
    ensures AcceptLive(live, env) != live
    ensures Judge(AcceptLive(live, env), env) == Duplicate
  {
    hide ValidSegment, HoldAll, AcceptLive;
    var after := Held(AcceptLive(live, env), env.body.node);
    forall i | 0 <= i < |env.records|
      ensures env.records[i].body.index in after && !Clashes(after, env.records[i])
    {
      StoredIsHeld(live, env, i);
    }
  }

  // ----- A write that fails -----

  function Continue(live: Live, ds: seq<SegmentEnv>): Live {
    if ds == [] then live else AcceptLive(Continue(live, ds[..|ds| - 1]), ds[|ds| - 1])
  }

  /** What is held stays held, under the same hashes. */
  ghost predicate KeepsHashes(held: HeldMap, later: HeldMap) {
    forall x :: x in held ==> x in later && later[x].thisHash == held[x].thisHash
  }

  lemma StoredKeepsHash(live: Live, env: SegmentEnv, x: int)
    requires Judge(live, env) == Stored && x in Held(live, env.body.node)
    ensures var after := Held(AcceptLive(live, env), env.body.node);
            x in after && after[x].thisHash == Held(live, env.body.node)[x].thisHash
  {
    hide ValidSegment, HoldAll, AcceptLive;
    StoredIsValid(live, env);
    SegmentIndices(env);
    StoredHeld(live, env);
    var held := Held(live, env.body.node);
    HoldAllContents(held, env.records, env.body.start, x);
    if env.body.start <= x < env.body.end {
      assert !Clashes(held, env.records[x - env.body.start]);
    }
  }

  lemma AcceptKeepsHashes(live: Live, env: SegmentEnv, origin: NodeId)
    ensures KeepsHashes(Held(live, origin), Held(AcceptLive(live, env), origin))
  {
    hide ValidSegment, HoldAll, FirstClash;
    if env.body.node == origin && Judge(live, env) == Stored {
      hide AcceptLive, Judge;
      forall x | x in Held(live, origin)
        ensures var after := Held(AcceptLive(live, env), origin);
                x in after && after[x].thisHash == Held(live, origin)[x].thisHash
      {
        StoredKeepsHash(live, env, x);
      }
    }
  }

  lemma {:induction false} RunKeepsHashes(live: Live, ds: seq<SegmentEnv>, origin: NodeId)
    ensures KeepsHashes(Held(live, origin), Held(Continue(live, ds), origin))
    decreases |ds|
  {
    hide AcceptLive, Held;
    if ds != [] {
      RunKeepsHashes(live, ds[..|ds| - 1], origin);
      AcceptKeepsHashes(Continue(live, ds[..|ds| - 1]), ds[|ds| - 1], origin);
    }
  }

  lemma HeldIsDuplicate(live: Live, later: Live, env: SegmentEnv)
    requires Judge(live, env) == Duplicate && KeepsHashes(Held(live, env.body.node), Held(later, env.body.node))
    ensures Judge(later, env) == Duplicate
  {
    hide ValidSegment;
    var held, after := Held(live, env.body.node), Held(later, env.body.node);
    forall i | 0 <= i < |env.records|
      ensures env.records[i].body.index in after && !Clashes(after, env.records[i])
    {
      assert env.records[i].body.index in held && !Clashes(held, env.records[i]);
    }
  }

  /** Every record is held, under its own hash. */
  predicate AllHeld(held: HeldMap, rs: seq<Entry>) {
    forall i :: 0 <= i < |rs| ==> rs[i].body.index in held && held[rs[i].body.index].thisHash == rs[i].thisHash
  }

  lemma NothingToWriteExact(live: Live, env: SegmentEnv)
    ensures AcceptLines(live, env) == [] <==> !ValidSegment(env) || AllHeld(Held(live, env.body.node), env.records)
  {
    hide ValidSegment;
    var held := Held(live, env.body.node);
    assert AllHeld(held, env.records) <==>
           && (forall i :: 0 <= i < |env.records| ==> !Clashes(held, env.records[i]))
           && (forall i :: 0 <= i < |env.records| ==> env.records[i].body.index in held);
  }

  /** MAIN: when the durable write fails, memory and journal agree exactly if the segment is
      invalid or all its records are held; and a segment that was new is then refused as a
      duplicate after whatever else is delivered, so no retry ever persists it. */
  lemma FailedWriteLosesSync(live: Live, journal: seq<JournalLine>, env: SegmentEnv, ds: seq<SegmentEnv>)
    requires Synced(live, journal)
    ensures Synced(AcceptLive(live, env), journal) <==>
            !ValidSegment(env) || AllHeld(Held(live, env.body.node), env.records)
    ensures Judge(live, env) == Stored ==>
              && Judge(Continue(AcceptLive(live, env), ds), env) == Duplicate
              && AcceptLines(Continue(AcceptLive(live, env), ds), env) == []
  {
    NothingToWriteExact(live, env);
    hide ValidSegment, HoldAll, FirstClash, AllHeld;
    match Judge(live, env) {
      case Stored =>
        StoredMoves(live, env);
        RunKeepsHashes(AcceptLive(live, env), ds, env.body.node);
        HeldIsDuplicate(AcceptLive(live, env), Continue(AcceptLive(live, env), ds), env);
      case Diverged =>
        assert |EvidenceAgainst(AcceptLive(live, env), env.body.node)| == |EvidenceAgainst(live, env.body.node)| + 1;
      case _ =>
    }
  }

  /** The first segment a fresh store is given, with a write that fails: memory holds it, a restart does not, and
      sending it again changes nothing. */
  lemma FailedSegmentExample(chain: seq<Entry>, key: Key, ts: int, ds: seq<SegmentEnv>)
    requires Sound(chain, key) && chain != [] && forall i :: 0 <= i < |chain| ==> chain[i].body.node == NodeOf(key)
    ensures MakeSegment(chain, key, 0, 1, ts).Some?
    ensures var env := MakeSegment(chain, key, 0, 1, ts).value;
            && Synced(EMPTY, []) && Judge(EMPTY, env) == Stored
            && !Synced(AcceptLive(EMPTY, env), []) && Judge(Continue(AcceptLive(EMPTY, env), ds), env) == Duplicate
  {
    MadeSegmentsVerify(chain, key, 0, 1, ts);
    var env := MakeSegment(chain, key, 0, 1, ts).value;
    assert Held(EMPTY, env.body.node) == map[];
    SegmentIndices(env);
    hide ValidSegment, MakeSegment;
    assert FirstClash(map[], env.records, 1).None?;
    assert env.records[0].body.index !in Held(EMPTY, env.body.node);
    FailedWriteLosesSync(EMPTY, [], env, ds);
  }

  // ----- Recovery -----

  datatype Outcome =
    | Recovered(records: seq<Entry>)
    | RootInvalid | OtherOrigin | LegacyRoot
    | Gaps(gaps: seq<Range>)
    | BrokenSeam(index: nat)
    | RootMismatch | HeadMismatch

  predicate Covers(held: HeldMap, count: int) {
    forall i :: 0 <= i < count ==> i in held
  }

  function Assembled(held: HeldMap, count: nat): (rs: seq<Entry>)
    requires Covers(held, count)
    ensures |rs| == count && forall i :: 0 <= i < count ==> rs[i] == held[i]
  {
    seq(count, i requires 0 <= i < count => held[i])
  }

  predicate SeamsHold(rs: seq<Entry>, n: nat)
    requires n <= |rs|
  {
    forall i :: 0 <= i < n ==> rs[i].body.prev == HeadOf(rs[..i])
  }

  /** The loop over the assembled records with its running predecessor hash. */
  method FirstBrokenSeam(rs: seq<Entry>) returns (at: Option<nat>)
    ensures at.None? <==> SeamsHold(rs, |rs|)
    ensures at.Some? ==> at.value < |rs| && SeamsHold(rs, at.value) && rs[at.value].body.prev != HeadOf(rs[..at.value])
  {
    var prev: R.RecordHash := Genesis;
    for i := 0 to |rs|
      invariant prev == HeadOf(rs[..i]) && SeamsHold(rs, i)
    {
      if rs[i].body.prev != prev {
        return Some(i);
      }
      prev := rs[i].thisHash;
    }
    at := None;
  }

  /** What recovery succeeds on: a trusted rfc6962 root of this origin, no gap, unbroken seams, and the records' own
      root and head. */
  ghost predicate RecoversFrom(held: HeldMap, origin: NodeId, trusted: R.RootEnv) {
    && R.VerifySignedRoot(trusted) && trusted.body.node == origin && trusted.body.alg == R.Rfc6962
    && Covers(held, trusted.body.count)
    && var rs := Assembled(held, trusted.body.count);
    && SeamsHold(rs, |rs|) && Mth(R.LeavesOf(rs)) == trusted.body.root && HeadOf(rs) == trusted.body.head
  }

  lemma CountIsNatural(trusted: R.RootEnv)
    requires R.VerifySignedRoot(trusted)
    ensures trusted.body.count >= 0
  {
  }

  predicate Trusted(origin: NodeId, trusted: R.RootEnv) {
    R.VerifySignedRoot(trusted) && trusted.body.node == origin && trusted.body.alg == R.Rfc6962
  }

  /** Each answer, and exactly when it is given: the root first, then gaps, then seams, then the root and head of what
      was assembled. */
  ghost predicate IsAnswer(out: Outcome, held: HeldMap, origin: NodeId, trusted: R.RootEnv) {
    && (out.RootInvalid? <==> !R.VerifySignedRoot(trusted))
    && (out.OtherOrigin? <==> R.VerifySignedRoot(trusted) && trusted.body.node != origin)
    && (out.LegacyRoot? <==>
        R.VerifySignedRoot(trusted) && trusted.body.node == origin && trusted.body.alg != R.Rfc6962)
    && (out.Gaps? <==> Trusted(origin, trusted) && exists x :: Lacking(x, held.Keys, trusted.body.count))
    && (out.Gaps? ==>
          Ordered(out.gaps, 1) && forall x :: InSome(x, out.gaps) <==> Lacking(x, held.Keys, trusted.body.count))
    && (Trusted(origin, trusted) && Covers(held, trusted.body.count) ==>
          var rs := Assembled(held, trusted.body.count);
          && (out.BrokenSeam? <==> !SeamsHold(rs, |rs|))
          && (out.BrokenSeam? ==>
                && out.index < |rs| && SeamsHold(rs, out.index)
                && rs[out.index].body.prev != HeadOf(rs[..out.index]))
          && (out.RootMismatch? <==> SeamsHold(rs, |rs|) && Mth(R.LeavesOf(rs)) != trusted.body.root)
          && (out.HeadMismatch? <==>
              SeamsHold(rs, |rs|) && Mth(R.LeavesOf(rs)) == trusted.body.root && HeadOf(rs) != trusted.body.head))
    && (out.Recovered? <==> RecoversFrom(held, origin, trusted))
    && (out.Recovered? ==> out.records == Assembled(held, trusted.body.count))
  }

  method RecoverRecords(held: HeldMap, origin: NodeId, trusted: R.RootEnv) returns (out: Outcome)
    ensures IsAnswer(out, held, origin, trusted)
  {
    hide Mth, SeamsHold, R.VerifySignedRoot;
    if !R.VerifySignedRoot(trusted) {
      return RootInvalid;
    }
    CountIsNatural(trusted);
    if trusted.body.node != origin {
      return OtherOrigin;
    }
    if trusted.body.alg != R.Rfc6962 {
      return LegacyRoot;
    }
    var count := trusted.body.count;
    var gaps := Missing(held.Keys, count);
    if gaps != [] {
      assert InRange(gaps[0].lo, gaps[0]) && InSome(gaps[0].lo, gaps);
      assert Lacking(gaps[0].lo, held.Keys, count) && !Covers(held, count);
      return Gaps(gaps);
    }
    assert forall x :: !InSome(x, gaps);
    forall i | 0 <= i < count
      ensures i in held
    {
      assert !Lacking(i, held.Keys, count);
    }
    var rs := Assembled(held, count);
    out := JudgeAssembled(rs, trusted);
  }

  /** The seams, the root and the head of the assembled records, in that order. */
  method JudgeAssembled(rs: seq<Entry>, trusted: R.RootEnv) returns (out: Outcome)
    ensures out.BrokenSeam? || out.RootMismatch? || out.HeadMismatch? || out.Recovered?
    ensures out.BrokenSeam? <==> !SeamsHold(rs, |rs|)
    ensures out.BrokenSeam? ==>
              && out.index < |rs| && SeamsHold(rs, out.index)
              && rs[out.index].body.prev != HeadOf(rs[..out.index])
    ensures out.RootMismatch? <==> SeamsHold(rs, |rs|) && Mth(R.LeavesOf(rs)) != trusted.body.root
    ensures out.HeadMismatch? <==>
            SeamsHold(rs, |rs|) && Mth(R.LeavesOf(rs)) == trusted.body.root && HeadOf(rs) != trusted.body.head
    ensures out.Recovered? ==> out.records == rs
  {
    hide Mth, SeamsHold;
    var broken := FirstBrokenSeam(rs);
    if broken.Some? {
      return BrokenSeam(broken.value);
    }
    if Mth(R.LeavesOf(rs)) != trusted.body.root {
      return RootMismatch;
    }
    if trusted.body.head != (if rs == [] then Genesis else rs[|rs| - 1].thisHash) {
      return HeadMismatch;
    }
    out := Recovered(rs);
  }

  /** Records with equal hashes under one key are equal. */
  lemma HashFixesRecord(a: Entry, b: Entry, i: int, key: Key)
    requires Authentic(a, i, key) && b.thisHash == HashOf(b.body) && b.sig == SignedBy(key, b.thisHash)
    requires a.thisHash == b.thisHash
    ensures a == b
  {
  }

  /** MAIN: against the origin's own signed root over its first `count` records, recovery
      succeeds exactly when the store holds the origin's records at every index below count,
      and then returns those records. */
  lemma RecoveryExact(live: Live, chain: seq<Entry>, count: nat, key: Key, ts: int)
    requires AllAuthentic(live) && Sound(chain, key) && count <= |chain|
    ensures var held, root := Held(live, NodeOf(key)), R.MakeSignedRoot(chain[..count], key, ts);
            && (RecoversFrom(held, NodeOf(key), root) <==>
                  forall i :: 0 <= i < count ==> i in held && held[i] == chain[i])
            && (RecoversFrom(held, NodeOf(key), root) ==> Assembled(held, count) == chain[..count])
  {
    hide Mth, Authentic;
    var held, root := Held(live, NodeOf(key)), R.MakeSignedRoot(chain[..count], key, ts);
    if RecoversFrom(held, NodeOf(key), root) {
      AssembledMatches(live, chain, count, key);
    }
    if forall i :: 0 <= i < count ==> i in held && held[i] == chain[i] {
      assert Assembled(held, count) == chain[..count];
      SeamsOfSoundChain(chain, count, key);
    }
  }

  /** MAIN: whatever else is delivered, in whatever order, an honest origin's first `count` records are recovered
      against its signed root exactly when every index below count was in some segment of its that arrived. */
  lemma RecoveryAfterAnyRun(envs: seq<SegmentEnv>, chain: seq<Entry>, count: nat, key: Key, ts: int)
    requires Sound(chain, key) && count <= |chain| && forall e :: e in envs ==> OriginHonest(e, key, chain)
    ensures var held, root := Held(LiveAfter(envs), NodeOf(key)), R.MakeSignedRoot(chain[..count], key, ts);
            RecoversFrom(held, NodeOf(key), root) <==>
            forall i :: 0 <= i < count ==> Delivered(envs, key, i)
  {
    hide RecoversFrom, LiveAfter, Delivered, R.MakeSignedRoot, Sound, ValidSegment;
    RunsHoldAuthentic(envs);
    NoFalseDivergence(envs, key, chain);
    RecoveryExact(LiveAfter(envs), chain, count, key, ts);
    forall i | 0 <= i < count
      ensures (i in Held(LiveAfter(envs), NodeOf(key))) <==> Delivered(envs, key, i)
    {
      HeldIffDelivered(envs, key, chain, i);
    }
  }

  /** MAIN: against the origin's own root there are two answers.  The records are recovered, and are the origin's, when
      every index below count was in some segment of its that arrived; otherwise the gaps are named, exactly. */
  lemma AnswerAfterAnyRun(envs: seq<SegmentEnv>, chain: seq<Entry>, count: nat, key: Key, ts: int, out: Outcome)
    requires Sound(chain, key) && count <= |chain| && forall e :: e in envs ==> OriginHonest(e, key, chain)
    requires IsAnswer(out, Held(LiveAfter(envs), NodeOf(key)), NodeOf(key), R.MakeSignedRoot(chain[..count], key, ts))
    ensures out.Recovered? || out.Gaps?
    ensures out.Recovered? <==> forall i :: 0 <= i < count ==> Delivered(envs, key, i)
    ensures out.Recovered? ==> out.records == chain[..count]
    ensures out.Gaps? ==> forall x :: InSome(x, out.gaps) <==> 0 <= x < count && !Delivered(envs, key, x)
  {
    hide LiveAfter, Delivered, Sound, ValidSegment, Mth, SeamsHold, RecoversFrom;
    var held, root := Held(LiveAfter(envs), NodeOf(key)), R.MakeSignedRoot(chain[..count], key, ts);
    R.MadeEnvelopesAreHonest(chain, count, key, 1, ts);
    assert Trusted(NodeOf(key), root) && root.body.count == count;
    hide R.MakeSignedRoot, R.VerifySignedRoot;
    RecoveryAfterAnyRun(envs, chain, count, key, ts);
    RunsHoldAuthentic(envs);
    RecoveryExact(LiveAfter(envs), chain, count, key, ts);
    forall x
      ensures Lacking(x, held.Keys, count) <==> 0 <= x < count && !Delivered(envs, key, x)
    {
      HeldIffDelivered(envs, key, chain, x);
    }
  }

  lemma AssembledMatches(live: Live, chain: seq<Entry>, count: nat, key: Key)
    requires AllAuthentic(live) && Sound(chain, key) && count <= |chain| && Covers(Held(live, NodeOf(key)), count)
    requires Mth(R.LeavesOf(Assembled(Held(live, NodeOf(key)), count))) == Mth(R.LeavesOf(chain[..count]))
    ensures Assembled(Held(live, NodeOf(key)), count) == chain[..count]
  {
    hide Mth;
    var held := Held(live, NodeOf(key));
    var rs := Assembled(held, count);
    MthInjective(R.LeavesOf(rs), R.LeavesOf(chain[..count]));
    forall i | 0 <= i < count
      ensures rs[i] == chain[i]
    {
      assert R.LeavesOf(rs)[i] == R.LeavesOf(chain[..count])[i];
      assert LinkSound(chain, i, key);
      HashFixesRecord(held[i], chain[i], i, key);
    }
  }

  lemma SeamsOfSoundChain(chain: seq<Entry>, count: nat, key: Key)
    requires Sound(chain, key) && count <= |chain|
    ensures SeamsHold(chain[..count], count)
  {
    forall i | 0 <= i < count
      ensures chain[..count][i].body.prev == HeadOf(chain[..count][..i])
    {
      assert LinkSound(chain, i, key) && chain[..count][..i] == chain[..i];
    }
  }
}
