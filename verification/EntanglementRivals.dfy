/** When `judge_divergence` names a rival that embeds a later salt (core/entanglement.py:183-212, 322-396).

    An entry of a beacon carries the signed envelope of its salt and, beside it, unsigned copies of the issuer, the
    index, the head and the hash.  The judge reads the copies. */
module EntanglementRivals {
  import opened Wrappers
  import opened Witness
  import opened Entanglement
  import R = Replication

  // ----- Salts late by their own envelope -----

  /** The entry copies its envelope, in the four fields the judge reads. */
  predicate Repeats(e: SaltEntry) {
    ShowsItsHash(e) && e.issuerIndex == e.envelope.body.issuerIndex && e.issuerHead == e.envelope.body.issuerHead
  }

  /** The entry names its envelope's issuer and shows its envelope's hash. */
  predicate ShowsItsHash(e: SaltEntry) {
    e.issuerNode == e.envelope.body.issuer && e.saltHash == e.envelope.body.saltHash
  }

  /** The salt verifies as its issuer signed it. */
  predicate AsSigned(e: SaltEntry, recs: seq<IssuerRecord>) {
    CheckEntry(EntryOf(e.envelope), recs) == Good
  }

  /** ... and was issued after the checkpoint. */
  predicate IssuedLate(e: SaltEntry, recs: seq<IssuerRecord>, checkpoint: nat) {
    AsSigned(e, recs) && e.envelope.body.issuerIndex > checkpoint
  }

  /** What the issuer's key has signed is what it released. */
  ghost predicate Unforged(salts: set<SaltEntry>, w: World, i: Key) {
    forall e :: e in salts && ValidSalt(e.envelope) && e.envelope.pub == i ==> e.envelope in w.released
  }

  /** No two issuances of the issuer's chain share a hash. */
  ghost predicate SaltsFresh(recs: seq<IssuerRecord>) {
    forall j, k :: 0 <= j < k < |recs| && recs[j].content.SaltIssue? && recs[k].content.SaltIssue? ==>
      recs[j].content.saltHash != recs[k].content.saltHash
  }

  lemma {:induction false} RunsKeepSaltsFresh(steps: seq<Step>, o: NodeId, i: Key)
    requires HonestRun(steps, o, i)
    ensures SaltsFresh(After(steps, i).issuer)
    decreases |steps|
  {
    if steps != [] {
      var n := |steps| - 1;
      HonestPrefix(steps, o, i);
      RunsKeepSaltsFresh(steps[..n], o, i);
      StepKeepsSaltsFresh(After(steps[..n], i), steps[n], o, i);
    }
  }

  lemma HonestPrefix(steps: seq<Step>, o: NodeId, i: Key)
    requires HonestRun(steps, o, i) && steps != []
    ensures HonestRun(steps[..|steps| - 1], o, i)
  {
    hide After, Enabled;
    var n := |steps| - 1;
    forall m | 0 <= m < n
      ensures Enabled(After(steps[..n][..m], i), steps[..n][m], o, i)
    {
      assert steps[..n][..m] == steps[..m];
    }
  }

  lemma StepKeepsSaltsFresh(w: World, s: Step, o: NodeId, i: Key)
    requires SaltsFresh(w.issuer) && Enabled(w, s, o, i)
    ensures SaltsFresh(Take(w, s, i).issuer)
  {
  }

  // ----- One salt -----

  /** A genuine late salt shown under its own hash counts against its record exactly when the entry copies the
      envelope. */
  lemma CountsIffRepeats(e: SaltEntry, recs: seq<IssuerRecord>, checkpoint: nat)
    requires SaltsFresh(recs) && ShowsItsHash(e) && AsSigned(e, recs) && e.envelope.body.issuerIndex >= 0
    ensures CheckEntry(e, recs) == Good && e.issuerIndex > checkpoint <==> Repeats(e) && IssuedLate(e, recs, checkpoint)
  {
    var k := e.envelope.body.issuerIndex;
    if CheckEntry(e, recs) == Good && e.issuerIndex > checkpoint {
      assert recs[e.issuerIndex].content.saltHash == recs[k].content.saltHash;
      assert e.issuerIndex == k;
    }
  }

  /** Written with the index its record has from the end, a genuine late salt still verifies and is late no more. */
  lemma WrappedIndexEscapes(e: SaltEntry, recs: seq<IssuerRecord>, checkpoint: nat)
    requires Repeats(e) && IssuedLate(e, recs, checkpoint)
    ensures var wrapped := e.(issuerIndex := e.issuerIndex - |recs|);
            ShowsItsHash(wrapped) && CheckEntry(wrapped, recs) == Good && wrapped.issuerIndex < 0
  {
  }

  /** Written with an index below the first, it makes the scan of its record raise. */
  lemma LowIndexRaises(e: SaltEntry, recs: seq<IssuerRecord>)
    requires Repeats(e) && AsSigned(e, recs)
    ensures var low := e.(issuerIndex := -|recs| - 1);
            ShowsItsHash(low) && CheckEntry(low, recs) == Crash
  {
  }

  // ----- A rival built from genuine salts -----

  lemma SaltsAreReleased(steps: seq<Step>, o: NodeId, i: Key, salts: set<SaltEntry>, e: SaltEntry)
    requires HonestRun(steps, o, i) && Unforged(salts, After(steps, i), i)
    requires e in salts && ValidSalt(e.envelope) && e.envelope.body.issuer == NodeOf(i)
    ensures e.envelope.body.issuerIndex >= 0
  {
    ReleasedIndicesNatural(steps, i);
  }

  lemma FreshPrefix(recs: seq<IssuerRecord>, all: seq<IssuerRecord>)
    requires recs <= all && SaltsFresh(all)
    ensures SaltsFresh(recs)
  {
    assert forall j :: 0 <= j < |recs| ==> recs[j] == all[j];
  }

  /** Some entry copies its envelope, whose salt is genuine and late. */
  ghost predicate CopiesLateSalt(salts: set<SaltEntry>, recs: seq<IssuerRecord>, checkpoint: nat) {
    exists e :: e in salts && Repeats(e) && IssuedLate(e, recs, checkpoint)
  }

  ghost predicate EmbedsLateSalt(salts: set<SaltEntry>, recs: seq<IssuerRecord>, checkpoint: nat) {
    exists e :: e in salts && IssuedLate(e, recs, checkpoint)
  }

  lemma GenuineLate(steps: seq<Step>, o: NodeId, i: Key, recs: seq<IssuerRecord>, salts: set<SaltEntry>,
                    checkpoint: nat)
    requires HonestRun(steps, o, i) && recs <= After(steps, i).issuer && Unforged(salts, After(steps, i), i)
    requires forall e :: e in salts ==> e.issuerNode == NodeOf(i) && ShowsItsHash(e) && AsSigned(e, recs)
    ensures LateSalt(salts, recs, checkpoint) <==> CopiesLateSalt(salts, recs, checkpoint)
  {
    RunsKeepSaltsFresh(steps, o, i);
    FreshPrefix(recs, After(steps, i).issuer);
    forall e | e in salts
      ensures CheckEntry(e, recs) == Good && e.issuerIndex > checkpoint <==>
              Repeats(e) && IssuedLate(e, recs, checkpoint)
    {
      GenuineIsValid(e, recs);
      SaltsAreReleased(steps, o, i, salts, e);
      CountsIffRepeats(e, recs, checkpoint);
    }
    hide CheckEntry, AsSigned, Repeats, HonestRun, After;
  }

  lemma GenuineIsValid(e: SaltEntry, recs: seq<IssuerRecord>)
    requires AsSigned(e, recs)
    ensures ValidSalt(e.envelope)
  {
  }

  /** A verified entry whose index lies below the first record. */
  ghost predicate IndexTooLow(salts: set<SaltEntry>, recs: seq<IssuerRecord>) {
    exists e :: e in salts && ValidSalt(e.envelope) && e.issuerIndex < -|recs|
  }

  lemma CrashIsLowIndex(salts: set<SaltEntry>, recs: seq<IssuerRecord>)
    ensures Crashes(salts, recs) <==> IndexTooLow(salts, recs)
  {
    hide ValidSalt;
  }

  /** MAIN: beside the true chain, a rival whose salts of this issuer are genuine and shown under their own hashes is
      named exactly when no index lies below the first record and some entry copies the envelope of a late salt. */
  lemma GenuineRivalNamedExactly(steps: seq<Step>, o: NodeId, i: Key, recs: seq<IssuerRecord>,
                                 chain: seq<OriginRecord>, rival: seq<OriginRecord>,
                                 agreed: int, root: Option<R.RootEnv>, v: Verdict)
    requires HonestRun(steps, o, i)
    requires recs <= After(steps, i).issuer && chain <= After(steps, i).origin
    requires root.Some? ==> root.value.body.node == o
    requires IsVerdict(v, chain, rival, NodeOf(i), recs, agreed, root)
    requires var salts := SaltsBelow(rival, agreed, NodeOf(i));
             && Unforged(salts, After(steps, i), i)
             && forall e :: e in salts ==> ShowsItsHash(e) && AsSigned(e, recs)
    ensures v.Cryptographic? ==> v.side == B
    ensures var salts, cp := SaltsBelow(rival, agreed, NodeOf(i)), CheckpointOf(recs, agreed, root);
            v.Cryptographic? <==> cp.Some? && !IndexTooLow(salts, recs) && CopiesLateSalt(salts, recs, cp.value)
  {
    var salts, cp := SaltsBelow(rival, agreed, NodeOf(i)), CheckpointOf(recs, agreed, root);
    assert forall e :: e in salts ==> e.issuerNode == NodeOf(i);
    hide HonestRun, After, IsVerdict, CheckpointOf, Crashes, LateSalt, SaltsBelow, IndexTooLow, CopiesLateSalt,
         Unforged;
    RivalNamedExactly(steps, o, i, recs, chain, rival, agreed, root, v);
    CrashIsLowIndex(salts, recs);
    if cp.Some? {
      GenuineLate(steps, o, i, recs, salts, cp.value);
    }
  }

  // ----- A rival whose entries copy their envelopes -----

  lemma CopiesNeverRaise(steps: seq<Step>, o: NodeId, i: Key, recs: seq<IssuerRecord>, salts: set<SaltEntry>)
    requires HonestRun(steps, o, i) && Unforged(salts, After(steps, i), i)
    requires forall e :: e in salts ==> e.issuerNode == NodeOf(i) && Repeats(e)
    ensures !Crashes(salts, recs)
  {
    forall e | e in salts
      ensures CheckEntry(e, recs) != Crash
    {
      if ValidSalt(e.envelope) {
        SaltsAreReleased(steps, o, i, salts, e);
      }
    }
  }

  lemma CopyChecksAlike(e: SaltEntry, recs: seq<IssuerRecord>)
    requires Repeats(e)
    ensures CheckEntry(e, recs) == CheckEntry(EntryOf(e.envelope), recs)
  {
  }

  lemma CopiesLate(salts: set<SaltEntry>, recs: seq<IssuerRecord>, checkpoint: nat)
    requires forall e :: e in salts ==> Repeats(e)
    ensures LateSalt(salts, recs, checkpoint) <==> EmbedsLateSalt(salts, recs, checkpoint)
  {
    hide CheckEntry;
    forall e | e in salts
      ensures CheckEntry(e, recs) == Good && e.issuerIndex > checkpoint <==> IssuedLate(e, recs, checkpoint)
    {
      CopyChecksAlike(e, recs);
    }
  }

  /** MAIN: a rival every entry of which copies its envelope is named exactly when it embeds a salt issued after the
      checkpoint, by the index its issuer signed. */
  lemma CopyingRivalNamedExactly(steps: seq<Step>, o: NodeId, i: Key, recs: seq<IssuerRecord>,
                                 chain: seq<OriginRecord>, rival: seq<OriginRecord>,
                                 agreed: int, root: Option<R.RootEnv>, v: Verdict)
    requires HonestRun(steps, o, i)
    requires recs <= After(steps, i).issuer && chain <= After(steps, i).origin
    requires root.Some? ==> root.value.body.node == o
    requires IsVerdict(v, chain, rival, NodeOf(i), recs, agreed, root)
    requires var salts := SaltsBelow(rival, agreed, NodeOf(i));
             Unforged(salts, After(steps, i), i) && forall e :: e in salts ==> Repeats(e)
    ensures v.Cryptographic? ==> v.side == B
    ensures var salts, cp := SaltsBelow(rival, agreed, NodeOf(i)), CheckpointOf(recs, agreed, root);
            v.Cryptographic? <==> cp.Some? && EmbedsLateSalt(salts, recs, cp.value)
  {
    var salts, cp := SaltsBelow(rival, agreed, NodeOf(i)), CheckpointOf(recs, agreed, root);
    assert forall e :: e in salts ==> e.issuerNode == NodeOf(i);
    hide HonestRun, After, IsVerdict, CheckpointOf, Crashes, LateSalt, SaltsBelow, EmbedsLateSalt, Unforged, Repeats;
    RivalNamedExactly(steps, o, i, recs, chain, rival, agreed, root, v);
    CopiesNeverRaise(steps, o, i, recs, salts);
    if cp.Some? {
      CopiesLate(salts, recs, cp.value);
    }
  }

  // ----- The three rivals of one run -----

  /** The origin signs its head over one record, the issuer witnesses it, and then gives the origin a salt. */
  function LateSaltSteps(o: NodeId, i: Key, r: R.Root): seq<Step> {
    [OriginAppends(OriginRecord([])), OriginSigns(r), IssuerWitnesses(o, Witnessed(1, r), 9),
     IssuerIssues(o, None, 5, 1, 9, 10, 0)]
  }

  lemma LateSaltWorld(o: NodeId, i: Key, r: R.Root)
    ensures HonestRun(LateSaltSteps(o, i, r), o, i)
    ensures var w := After(LateSaltSteps(o, i, r), i);
            && w.origin == [OriginRecord([])] && w.released == {MakeSalt(i, o, 5, 1, 9, None, 0)}
            && w.issuer == [IssuerRecord(PeerRoot(o, Witnessed(1, r)), 9),
                            IssuerRecord(SaltIssue(o, HashOfSalt(5), None), 10)]
  {
    var steps := LateSaltSteps(o, i, r);
    assert steps[..0] == [] && steps[..1][..0] == [] && steps[..2][..1] == steps[..1] && steps[..3][..2] == steps[..2];
    assert steps[..4] == steps;
    var w0, w1, w2, w3 := After(steps[..0], i), After(steps[..1], i), After(steps[..2], i), After(steps[..3], i);
    assert w1 == Take(w0, steps[0], i);
    assert w2 == Take(w1, steps[1], i);
    assert w3 == Take(w2, steps[2], i);
    assert After(steps, i) == Take(w3, steps[3], i);
    assert Witnessed(1, r) in w2.signed;
    assert Enabled(w0, steps[0], o, i) && Enabled(w1, steps[1], o, i) && Enabled(w2, steps[2], o, i);
    assert Enabled(w3, steps[3], o, i);
  }

  lemma LateSaltCheckpoint(o: NodeId, i: Key, root: R.RootEnv, issuer: seq<IssuerRecord>, index: int)
    requires R.VerifySignedRoot(root) && root.body.node == o && root.body.count == 1
    requires issuer == [IssuerRecord(PeerRoot(o, Witnessed(1, root.body.root)), 9),
                        IssuerRecord(SaltIssue(o, HashOfSalt(5), None), 10)]
    ensures CheckpointOf(issuer, 1, Some(root)) == Some(0)
    ensures var e := EntryOf(MakeSalt(i, o, 5, 1, 9, None, 0)).(issuerIndex := index);
            && (CheckEntry(e, issuer) == Crash <==> index < -2)
            && (CheckEntry(e, issuer) == Good && index > 0 <==> index == 1)
  {
    hide R.VerifySignedRoot;
    assert Witnesses(issuer[0].content, o, 1, root.body.root);
  }

  lemma OnlySalt(e: SaltEntry, i: Key, n: int)
    requires e.issuerNode == NodeOf(i) && n >= 1
    ensures SaltsBelow([OriginRecord([e])], n, NodeOf(i)) == {e}
    ensures SaltsBelow([OriginRecord([])], n, NodeOf(i)) == {}
  {
    var chain := [OriginRecord([e])];
    assert e in chain[0].salts;
    assert e in SaltsBelow(chain, n, NodeOf(i));
    assert forall f :: f in SaltsBelow(chain, n, NodeOf(i)) ==> f == e;
  }

  /** In that run a rival writes the late salt below the agreed count.  It is named at the signed index, 1, and at no
      other: at -1 it passes for an early salt and below -2 the judge raises. */
  lemma OneSaltEveryIndex(o: NodeId, i: Key, root: R.RootEnv, index: int, v: Verdict)
    requires R.VerifySignedRoot(root) && root.body.node == o && root.body.count == 1
    requires var w := After(LateSaltSteps(o, i, root.body.root), i);
             var e := EntryOf(MakeSalt(i, o, 5, 1, 9, None, 0)).(issuerIndex := index);
             IsVerdict(v, w.origin, [OriginRecord([e])], NodeOf(i), w.issuer, 1, Some(root))
    ensures HonestRun(LateSaltSteps(o, i, root.body.root), o, i)
    ensures v.Cryptographic? <==> index == 1
    ensures v.Crashed? <==> index < -2
  {
    var steps := LateSaltSteps(o, i, root.body.root);
    LateSaltWorld(o, i, root.body.root);
    hide After, HonestRun, CheckEntry, CheckpointOf, R.VerifySignedRoot, LateSaltSteps, IsLatest, SaltsBelow;
    var w := After(steps, i);
    LateSaltCheckpoint(o, i, root, w.issuer, index);
    var e := EntryOf(MakeSalt(i, o, 5, 1, 9, None, 0)).(issuerIndex := index);
    assert e.issuerNode == NodeOf(i) && e.issuerIndex == index;
    hide EntryOf, MakeSalt;
    OnlySalt(e, i, 1);
  }

  lemma TwoSaltsVerify(o: NodeId, i: Key)
    ensures var recs := [IssuerRecord(SaltIssue(o, HashOfSalt(5), None), 8),
                         IssuerRecord(SaltIssue(o, HashOfSalt(6), None), 9)];
            && CheckEntry(EntryOf(MakeSalt(i, o, 5, 0, GENESIS_HEAD, None, 0)), recs) == Good
            && CheckEntry(EntryOf(MakeSalt(i, o, 6, 1, 8, None, 0)), recs) == Good
  {
  }

  /** Without an agreed root the one of two one-salt histories whose salt was issued later is the suspect. */
  lemma LaterSaltIsSuspect(a: SaltEntry, b: SaltEntry, i: Key, recs: seq<IssuerRecord>, v: Verdict)
    requires a.issuerNode == b.issuerNode == NodeOf(i)
    requires CheckEntry(a, recs) == CheckEntry(b, recs) == Good
    requires IsVerdict(v, [OriginRecord([a])], [OriginRecord([b])], NodeOf(i), recs, 1, None)
    ensures v == Evidential(if a.issuerIndex > b.issuerIndex then Some(A)
                            else if a.issuerIndex < b.issuerIndex then Some(B) else None)
  {
    hide SaltsBelow, AllGenuine, CheckEntry, Later, LateSalt;
    OnlySalt(a, i, 1);
    OnlySalt(b, i, 1);
    LaterOfTwo(a, b, recs);
    LaterOfTwo(b, a, recs);
    assert !Crashes({a}, recs) && !Crashes({b}, recs);
    match v.suspect
    case Some(A) =>
    case Some(B) =>
    case None =>
  }

  lemma LaterOfTwo(a: SaltEntry, b: SaltEntry, recs: seq<IssuerRecord>)
    requires CheckEntry(a, recs) == CheckEntry(b, recs) == Good
    ensures Later({a}, {b}, recs) <==> a.issuerIndex > b.issuerIndex
  {
    hide CheckEntry;
    assert a in {a} && b in {b};
    LaterByMaximum({a}, {b}, recs, Some(a.issuerIndex), Some(b.issuerIndex));
  }

  /** Two concrete histories: A embeds the salt issued at index 1 and B the one at index 0. */
  lemma SuspectExample(o: NodeId, i: Key, v: Verdict)
    requires var recs := [IssuerRecord(SaltIssue(o, HashOfSalt(5), None), 8),
                          IssuerRecord(SaltIssue(o, HashOfSalt(6), None), 9)];
             var early, late := EntryOf(MakeSalt(i, o, 5, 0, GENESIS_HEAD, None, 0)),
                 EntryOf(MakeSalt(i, o, 6, 1, 8, None, 0));
             IsVerdict(v, [OriginRecord([late])], [OriginRecord([early])], NodeOf(i), recs, 1, None)
    ensures v == Evidential(Some(A))
  {
    hide IsVerdict, CheckEntry;
    var recs := [IssuerRecord(SaltIssue(o, HashOfSalt(5), None), 8),
                 IssuerRecord(SaltIssue(o, HashOfSalt(6), None), 9)];
    TwoSaltsVerify(o, i);
    LaterSaltIsSuspect(EntryOf(MakeSalt(i, o, 6, 1, 8, None, 0)), EntryOf(MakeSalt(i, o, 5, 0, GENESIS_HEAD, None, 0)),
                       i, recs, v);
  }

  // ----- An issuance that is not atomic -----

  /** Another record reaches the issuer's chain between reading the index and appending the issuance. */
  function RacedSteps(o: NodeId): seq<Step> {
    [IssuerAppendsOther(9), IssuerIssues(o, None, 5, 0, GENESIS_HEAD, 10, 0)]
  }

  lemma RacedSaltExample(o: NodeId, i: Key, recs: seq<IssuerRecord>)
    requires After(RacedSteps(o), i).issuer <= recs
    ensures HonestRun(RacedSteps(o), o, i)
    ensures var env := MakeSalt(i, o, 5, 0, GENESIS_HEAD, None, 0);
            env in After(RacedSteps(o), i).released && ValidSalt(env) && CheckEntry(EntryOf(env), recs) != Good
  {
    var steps := RacedSteps(o);
    assert steps[..0] == [] && steps[..1][..0] == [] && steps[..2] == steps;
    var w0, w1 := After(steps[..0], i), After(steps[..1], i);
    assert w1 == Take(w0, steps[0], i) && After(steps, i) == Take(w1, steps[1], i);
    assert Enabled(w0, steps[0], o, i) && Enabled(w1, steps[1], o, i);
    hide Enabled, CheckEntry;
    SaltVerifiesIffAtomic(w1, steps[1], o, i, recs) by {
      assert Enabled(w1, steps[1], o, i);
    }
  }
}
