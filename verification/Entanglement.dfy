/** core/entanglement.py: salts witnessed by a neighbour, and the judgement of two histories. */
module Entanglement {
  import opened Wrappers
  import opened Witness
  import R = Replication

  /** The origin's chain as witnessed elsewhere: a count and the root signed at it. */
  datatype Witnessed = Witnessed(count: int, root: R.Root)

  datatype IssuerContent =
    | PeerRoot(origin: NodeId, seen: Witnessed)
    | SaltIssue(recipient: NodeId, saltHash: SaltHash, cross: Option<Witnessed>)
    | OtherRecord

  datatype IssuerRecord = IssuerRecord(content: IssuerContent, thisHash: nat)

  datatype SaltHash = HashOfSalt(salt: nat)

  datatype SaltBody = SaltBody(kind: string, issuer: NodeId, recipient: NodeId, salt: nat, saltHash: SaltHash,
                               issuerIndex: int, issuerHead: nat, cross: Option<Witnessed>, issuedAt: int)

  datatype SaltEnv = SaltEnv(body: SaltBody, pub: Key, sig: Signature<SaltBody>)

  /** One salt inside a beacon.  Only honest recipients keep its fields equal to the envelope's. */
  datatype SaltEntry = SaltEntry(issuerNode: NodeId, issuerIndex: int, issuerHead: nat, saltHash: SaltHash,
                                 issuedAt: int, cross: Option<Witnessed>, envelope: SaltEnv)

  /** A witness record of the origin, reduced to the salts of its beacon. */
  datatype OriginRecord = OriginRecord(salts: seq<SaltEntry>)

  const GENESIS_HEAD := 0

  function HeadAt(recs: seq<IssuerRecord>): nat {
    if recs == [] then GENESIS_HEAD else recs[|recs| - 1].thisHash
  }

  // ----- Issuing and embedding -----

  predicate ValidSalt(env: SaltEnv) {
    && env.body.kind == "SALT_ISSUE"
    && NodeOf(env.pub) == env.body.issuer
    && HashOfSalt(env.body.salt) == env.body.saltHash
    && env.sig == SignedBy(env.pub, env.body)
  }

  function MakeSalt(key: Key, recipient: NodeId, salt: nat, index: int, head: nat, cross: Option<Witnessed>,
                    at: int): SaltEnv {
    var body := SaltBody("SALT_ISSUE", NodeOf(key), recipient, salt, HashOfSalt(salt), index, head, cross, at);
    SaltEnv(body, key, SignedBy(key, body))
  }

  /** The salts that verify are exactly those a key issues in its own node's name, with the hash of their own salt. */
  lemma SaltValidIff(env: SaltEnv)
    ensures ValidSalt(env) <==>
            var b := env.body;
            env == MakeSalt(env.pub, b.recipient, b.salt, b.issuerIndex, b.issuerHead, b.cross, b.issuedAt)
  {
  }

  function CrossLink(root: Option<R.RootEnv>): Option<Witnessed> {
    if root.Some? then Some(Witnessed(root.value.body.count, root.value.body.root)) else None
  }

  /** The cross-link is refused unless the recipient itself validly signed the root. */
  predicate LinkAllowed(recipient: NodeId, root: Option<R.RootEnv>) {
    root.Some? ==> R.VerifySignedRoot(root.value) && root.value.body.node == recipient
  }

  class SaltBeacon {
    const key: Key
    var records: seq<IssuerRecord>

    constructor (key: Key)
      ensures this.key == key && records == []
    {
      this.key := key;
      records := [];
    }

    /** The issuance is on the issuer's chain before the envelope is released, and the envelope
        binds the chain state just below it. */
    method Issue(recipient: NodeId, root: Option<R.RootEnv>, salt: nat, now: int, thisHash: nat)
      returns (env: Option<SaltEnv>)
      modifies this
      ensures env.Some? <==> LinkAllowed(recipient, root)
      ensures env.None? ==> records == old(records)
      ensures env.Some? ==>
                && env.value == MakeSalt(key, recipient, salt, |old(records)|, HeadAt(old(records)), CrossLink(root),
                                         now)
                && records == old(records) + [IssuerRecord(SaltIssue(recipient, HashOfSalt(salt), CrossLink(root)),
                                                           thisHash)]
    {
      var index, head := |records|, HeadAt(records);
      if root.Some? && (!R.VerifySignedRoot(root.value) || root.value.body.node != recipient) {
        return None;
      }
      var cross := CrossLink(root);
      env := Some(MakeSalt(key, recipient, salt, index, head, cross, now));
      records := records + [IssuerRecord(SaltIssue(recipient, HashOfSalt(salt), cross), thisHash)];
    }
  }

  function EntryOf(env: SaltEnv): SaltEntry {
    var b := env.body;
    SaltEntry(b.issuer, b.issuerIndex, b.issuerHead, b.saltHash, b.issuedAt, b.cross, env)
  }

  // ----- Checking against the issuer's export -----

  datatype Check = Good | Bad | Crash

  /** `verify_beacon_against_issuer` on one entry of this issuer.  A negative index counts from
      the end, and one below -|recs| raises. */
  function CheckEntry(s: SaltEntry, recs: seq<IssuerRecord>): Check {
    var idx := s.issuerIndex;
    if !ValidSalt(s.envelope) || idx >= |recs| then Bad
    else if idx < -|recs| then Crash
    else
      var rec := recs[if idx < 0 then |recs| + idx else idx];
      if !rec.content.SaltIssue? || rec.content.saltHash != s.saltHash then Bad
      else if idx > 0 && s.issuerHead != recs[idx - 1].thisHash then Bad
      else Good
  }

  /** A record that witnesses the origin at `count` or more, with the given root. */
  predicate Witnesses(c: IssuerContent, origin: NodeId, minCount: int, root: R.Root) {
    match c
    case PeerRoot(o, seen) => o == origin && seen.count >= minCount && seen.root == root
    case SaltIssue(o, _, cross) =>
      o == origin && cross.Some? && cross.value.count >= minCount && cross.value.root == root
    case OtherRecord => false
  }

  /** The record shows the origin's chain as witnessed: a peer's root, or the cross-link of a salt issued to it. */
  ghost predicate Shows(c: IssuerContent, origin: NodeId, seen: Witnessed) {
    c == PeerRoot(origin, seen) || (c.SaltIssue? && c.recipient == origin && c.cross == Some(seen))
  }

  /** A record counts as a checkpoint exactly when it shows this root, at the count or a higher one. */
  lemma WitnessesExact(c: IssuerContent, origin: NodeId, minCount: int, root: R.Root)
    ensures Witnesses(c, origin, minCount, root) <==>
            exists seen :: Shows(c, origin, seen) && seen.count >= minCount && seen.root == root
  {
    match c
    case PeerRoot(o, seen) => assert Shows(c, o, seen);
    case SaltIssue(o, _, cross) =>
      if cross.Some? {
        assert Shows(c, o, cross.value);
      }
    case OtherRecord =>
  }

  /** The earliest of the first n records that witnesses the origin's chain at the agreed count. */
  function Earliest(recs: seq<IssuerRecord>, n: nat, origin: NodeId, minCount: int, root: R.Root): (at: Option<nat>)
    requires n <= |recs|
    ensures at.None? <==> forall j :: 0 <= j < n ==> !Witnesses(recs[j].content, origin, minCount, root)
    ensures at.Some? ==> at.value < n && Witnesses(recs[at.value].content, origin, minCount, root)
                         && forall j :: 0 <= j < at.value ==> !Witnesses(recs[j].content, origin, minCount, root)
  {
    if n == 0 then None
    else
      var before := Earliest(recs, n - 1, origin, minCount, root);
      if before.Some? then before
      else if Witnesses(recs[n - 1].content, origin, minCount, root) then Some(n - 1)
      else None
  }

  method FindIssuerCheckpoint(recs: seq<IssuerRecord>, origin: NodeId, minCount: int, root: R.Root)
    returns (at: Option<nat>)
    ensures at == Earliest(recs, |recs|, origin, minCount, root)
  {
    for i := 0 to |recs|
      invariant Earliest(recs, i, origin, minCount, root).None?
    {
      if Witnesses(recs[i].content, origin, minCount, root) {
        return Some(i);
      }
    }
    at := None;
  }

  // ----- The judgement -----

  /** Where a Python slice [:n] ends; a negative bound counts from the end. */
  function Cut(length: nat, n: int): nat {
    if n >= 0 then n else if length + n >= 0 then length + n else 0
  }

  /** This issuer's salts in the records [:n] of a history. */
  function SaltsBelow(chain: seq<OriginRecord>, n: int, issuer: NodeId): set<SaltEntry> {
    set p, e | 0 <= p < |chain| && p < Cut(|chain|, n) && e in chain[p].salts && e.issuerNode == issuer :: e
  }

  function SaltsIn(salts: seq<SaltEntry>, issuer: NodeId): set<SaltEntry> {
    set e | e in salts && e.issuerNode == issuer
  }

  /** A count below zero leaves out that many records at the end, and all of them when there are no more. */
  lemma NegativeCut(chain: seq<OriginRecord>, k: int, issuer: NodeId)
    requires k > 0
    ensures SaltsBelow(chain, -k, issuer) ==
            if k <= |chain| then SaltsBelow(chain[..|chain| - k], |chain|, issuer) else {}
  {
    if k <= |chain| {
      var kept := chain[..|chain| - k];
      assert forall p :: 0 <= p < |kept| ==> kept[p] == chain[p];
      SameSalts(chain, -k, kept, |chain|, issuer);
    }
  }

  lemma SameSalts(a: seq<OriginRecord>, m: int, b: seq<OriginRecord>, n: int, issuer: NodeId)
    requires b <= a && Cut(|a|, m) == |b| <= Cut(|b|, n)
    ensures SaltsBelow(a, m, issuer) == SaltsBelow(b, n, issuer)
  {
    hide Cut;
    forall e | e in SaltsBelow(a, m, issuer)
      ensures e in SaltsBelow(b, n, issuer)
    {
      var p :| 0 <= p < |a| && p < Cut(|a|, m) && e in a[p].salts && e.issuerNode == issuer;
      assert b[p] == a[p];
    }
    forall e | e in SaltsBelow(b, n, issuer)
      ensures e in SaltsBelow(a, m, issuer)
    {
      var p :| 0 <= p < |b| && p < Cut(|b|, n) && e in b[p].salts && e.issuerNode == issuer;
      assert a[p] == b[p];
    }
  }

  ghost predicate Crashes(salts: set<SaltEntry>, recs: seq<IssuerRecord>) {
    exists e :: e in salts && CheckEntry(e, recs) == Crash
  }

  /** A verified salt issued after the checkpoint. */
  ghost predicate LateSalt(salts: set<SaltEntry>, recs: seq<IssuerRecord>, checkpoint: nat) {
    exists e :: e in salts && CheckEntry(e, recs) == Good && e.issuerIndex > checkpoint
  }

  /** The highest issuer index among the verified salts. */
  ghost predicate IsLatest(best: Option<int>, salts: set<SaltEntry>, recs: seq<IssuerRecord>) {
    && (forall e :: e in salts && CheckEntry(e, recs) == Good ==> best.Some? && e.issuerIndex <= best.value)
    && (best.Some? ==> exists e :: e in salts && CheckEntry(e, recs) == Good && e.issuerIndex == best.value)
  }

  datatype Finding = Finding(record: nat, salt: SaltEntry)

  /** The finding points at a verified salt of this issuer, later than the checkpoint, in a record below the agreed
      count. */
  predicate Genuine(f: Finding, chain: seq<OriginRecord>, agreed: int, issuer: NodeId, recs: seq<IssuerRecord>,
                    checkpoint: Option<nat>) {
    && f.record < |chain| && f.record < Cut(|chain|, agreed) && f.salt in chain[f.record].salts
    && IsLate(f.salt, issuer, recs, checkpoint)
  }

  /** The findings are the genuine ones of the first p records and no others. */
  ghost predicate AllGenuine(fs: seq<Finding>, chain: seq<OriginRecord>, p: nat, agreed: int, issuer: NodeId,
                             recs: seq<IssuerRecord>, checkpoint: Option<nat>) {
    forall f :: f in fs <==> f.record < p && Genuine(f, chain, agreed, issuer, recs, checkpoint)
  }

  /** The findings follow the records, all of which are below p. */
  ghost predicate InOrder(fs: seq<Finding>, p: nat) {
    && (forall i :: 0 <= i < |fs| ==> fs[i].record < p)
    && forall i, j :: 0 <= i < j < |fs| ==> fs[i].record <= fs[j].record
  }

  predicate IsLate(s: SaltEntry, issuer: NodeId, recs: seq<IssuerRecord>, checkpoint: Option<nat>) {
    s.issuerNode == issuer && CheckEntry(s, recs) == Good && checkpoint.Some? && s.issuerIndex > checkpoint.value
  }

  ghost predicate Summarizes(salts: set<SaltEntry>, recs: seq<IssuerRecord>, checkpoint: Option<nat>,
                             best: Option<int>, proven: seq<Finding>) {
    && !Crashes(salts, recs)
    && IsLatest(best, salts, recs)
    && (proven != [] <==> checkpoint.Some? && LateSalt(salts, recs, checkpoint.value))
  }

  /** The scan of one record's beacon, continuing a summary of the records before it. */
  method ScanRecord(salts: seq<SaltEntry>, p: nat, issuer: NodeId, recs: seq<IssuerRecord>, checkpoint: Option<nat>,
                    best0: Option<int>, proven0: seq<Finding>, ghost below: set<SaltEntry>)
    returns (crashed: bool, best: Option<int>, proven: seq<Finding>)
    requires Summarizes(below, recs, checkpoint, best0, proven0) && InOrder(proven0, p)
    ensures InOrder(proven, p + 1)
    ensures crashed <==> Crashes(below + SaltsIn(salts, issuer), recs)
    ensures !crashed ==> Summarizes(below + SaltsIn(salts, issuer), recs, checkpoint, best, proven)
    ensures !crashed ==>
              forall f :: f in proven <==>
                f in proven0 || (f.record == p && f.salt in salts && IsLate(f.salt, issuer, recs, checkpoint))
  {
    hide CheckEntry;
    best, proven := best0, proven0;
    ghost var done := below;
    for j := 0 to |salts|
      invariant done == below + SaltsIn(salts[..j], issuer)
      invariant Summarizes(done, recs, checkpoint, best, proven) && InOrder(proven, p + 1)
      invariant forall f :: f in proven <==>
                  f in proven0 || (f.record == p && f.salt in salts[..j] && IsLate(f.salt, issuer, recs, checkpoint))
    {
      var s := salts[j];
      assert salts[..j + 1] == salts[..j] + [s];
      if s.issuerNode == issuer {
        var check := CheckEntry(s, recs);
        if check == Crash {
          assert s in SaltsIn(salts, issuer);
          return true, best, proven;
        }
        ghost var b0, p0 := best, proven;
        if check == Good {
          if best.None? || s.issuerIndex > best.value {
            best := Some(s.issuerIndex);
          }
          if checkpoint.Some? && s.issuerIndex > checkpoint.value {
            proven := proven + [Finding(p, s)];
          }
        }
        OneMoreSalt(done, s, recs, checkpoint, b0, p0, best, proven);
        done := done + {s};
      }
    }
    assert salts[..|salts|] == salts;
    crashed := false;
  }

  /** The scan of one history; None when an index raises. */
  method Scan(chain: seq<OriginRecord>, agreed: int, issuer: NodeId, recs: seq<IssuerRecord>, checkpoint: Option<nat>)
    returns (result: Option<(Option<int>, seq<Finding>)>)
    ensures result.None? <==> Crashes(SaltsBelow(chain, agreed, issuer), recs)
    ensures result.Some? ==>
              Summarizes(SaltsBelow(chain, agreed, issuer), recs, checkpoint, result.value.0, result.value.1)
    ensures result.Some? ==> AllGenuine(result.value.1, chain, |chain|, agreed, issuer, recs, checkpoint)
    ensures result.Some? ==> InOrder(result.value.1, |chain|)
  {
    hide CheckEntry, IsLate;
    var best: Option<int>, proven: seq<Finding> := None, [];
    assert Summarizes(SaltsBelow(chain, 0, issuer), recs, checkpoint, best, proven);
    assert AllGenuine(proven, chain, 0, agreed, issuer, recs, checkpoint);
    hide AllGenuine, Summarizes, SaltsBelow, SaltsIn, Crashes, Cut;
    var n := if |chain| < Cut(|chain|, agreed) then |chain| else Cut(|chain|, agreed);
    for p := 0 to n
      invariant Summarizes(SaltsBelow(chain, p, issuer), recs, checkpoint, best, proven)
      invariant AllGenuine(proven, chain, p, agreed, issuer, recs, checkpoint) && InOrder(proven, p)
    {
      ghost var below, found := SaltsBelow(chain, p, issuer), proven;
      var crashed;
      crashed, best, proven := ScanRecord(chain[p].salts, p, issuer, recs, checkpoint, best, proven, below);
      SaltsOneMore(chain, p, agreed, issuer);
      if crashed {
        CrashSpreads(SaltsBelow(chain, p + 1, issuer), SaltsBelow(chain, agreed, issuer), recs);
        return None;
      }
      FindingsStayGenuine(found, proven, chain, agreed, issuer, recs, checkpoint, p);
    }
    AllRecordsSearched(proven, chain, n, agreed, issuer, recs, checkpoint);
    assert InOrder(proven, |chain|);
    SaltsWithinCut(chain, n, agreed, issuer);
    SummaryMeansNoCrash(SaltsBelow(chain, agreed, issuer), recs, checkpoint, best, proven);
    result := Some((best, proven));
  }

  lemma SaltsOneMore(chain: seq<OriginRecord>, p: nat, agreed: int, issuer: NodeId)
    requires p < |chain| && p < Cut(|chain|, agreed)
    ensures SaltsBelow(chain, p + 1, issuer) == SaltsBelow(chain, p, issuer) + SaltsIn(chain[p].salts, issuer)
    ensures SaltsBelow(chain, p + 1, issuer) <= SaltsBelow(chain, agreed, issuer)
  {
  }

  lemma FindingsStayGenuine(before: seq<Finding>, after: seq<Finding>, chain: seq<OriginRecord>, agreed: int,
                            issuer: NodeId, recs: seq<IssuerRecord>, checkpoint: Option<nat>, p: nat)
    requires AllGenuine(before, chain, p, agreed, issuer, recs, checkpoint) && p < |chain| && p < Cut(|chain|, agreed)
    requires forall f :: f in after <==>
               f in before || (f.record == p && f.salt in chain[p].salts && IsLate(f.salt, issuer, recs, checkpoint))
    ensures AllGenuine(after, chain, p + 1, agreed, issuer, recs, checkpoint)
  {
    hide IsLate;
  }

  lemma AllRecordsSearched(fs: seq<Finding>, chain: seq<OriginRecord>, n: nat, agreed: int, issuer: NodeId,
                           recs: seq<IssuerRecord>, checkpoint: Option<nat>)
    requires n == if |chain| < Cut(|chain|, agreed) then |chain| else Cut(|chain|, agreed)
    requires AllGenuine(fs, chain, n, agreed, issuer, recs, checkpoint)
    ensures AllGenuine(fs, chain, |chain|, agreed, issuer, recs, checkpoint)
  {
    hide IsLate, Cut;
  }

  lemma CrashSpreads(some: set<SaltEntry>, all: set<SaltEntry>, recs: seq<IssuerRecord>)
    requires some <= all && Crashes(some, recs)
    ensures Crashes(all, recs)
  {
  }

  lemma SaltsWithinCut(chain: seq<OriginRecord>, n: nat, agreed: int, issuer: NodeId)
    requires n == if |chain| < Cut(|chain|, agreed) then |chain| else Cut(|chain|, agreed)
    ensures SaltsBelow(chain, n, issuer) == SaltsBelow(chain, agreed, issuer)
  {
  }

  lemma SummaryMeansNoCrash(salts: set<SaltEntry>, recs: seq<IssuerRecord>, checkpoint: Option<nat>,
                            best: Option<int>, proven: seq<Finding>)
    requires Summarizes(salts, recs, checkpoint, best, proven)
    ensures !Crashes(salts, recs)
  {
  }

  lemma OneMoreSalt(done: set<SaltEntry>, s: SaltEntry, recs: seq<IssuerRecord>, checkpoint: Option<nat>,
                    b0: Option<int>, p0: seq<Finding>, best: Option<int>, proven: seq<Finding>)
    requires Summarizes(done, recs, checkpoint, b0, p0) && CheckEntry(s, recs) != Crash
    requires best ==
             if CheckEntry(s, recs) == Good && (b0.None? || s.issuerIndex > b0.value) then Some(s.issuerIndex) else b0
    requires if CheckEntry(s, recs) == Good && checkpoint.Some? && s.issuerIndex > checkpoint.value then proven != []
             else proven == p0
    ensures Summarizes(done + {s}, recs, checkpoint, best, proven)
  {
    hide CheckEntry;
    if best.Some? {
      if best == b0 {
        var e :| e in done && CheckEntry(e, recs) == Good && e.issuerIndex == b0.value;
        assert e in done + {s};
      } else {
        assert s in done + {s};
      }
    }
    if checkpoint.Some? {
      if LateSalt(done, recs, checkpoint.value) {
        var e :| e in done && CheckEntry(e, recs) == Good && e.issuerIndex > checkpoint.value;
        assert e in done + {s};
      } else if proven != [] {
        assert s in done + {s};
      }
    }
  }

  datatype Side = A | B

  datatype Verdict =
    | Crashed
    | Cryptographic(side: Side, proof: seq<Finding>)
    | Evidential(suspect: Option<Side>)

  /** The checkpoint the judge works with: only from a valid root signed at the agreed count. */
  function CheckpointOf(recs: seq<IssuerRecord>, agreed: int, root: Option<R.RootEnv>): Option<nat> {
    if root.Some? && R.VerifySignedRoot(root.value) && root.value.body.count == agreed
    then Earliest(recs, |recs|, root.value.body.node, agreed, root.value.body.root)
    else None
  }

  /** Both histories embed verified salts, and some salt of the first was issued after every one of the second. */
  ghost predicate Later(a: set<SaltEntry>, b: set<SaltEntry>, recs: seq<IssuerRecord>) {
    && (exists f :: f in b && CheckEntry(f, recs) == Good)
    && exists e :: e in a && CheckEntry(e, recs) == Good
                   && forall f :: f in b && CheckEntry(f, recs) == Good ==> f.issuerIndex < e.issuerIndex
  }

  lemma LaterByMaximum(a: set<SaltEntry>, b: set<SaltEntry>, recs: seq<IssuerRecord>, x: Option<int>, y: Option<int>)
    requires IsLatest(x, a, recs) && IsLatest(y, b, recs)
    ensures Later(a, b, recs) <==> x.Some? && y.Some? && x.value > y.value
  {
    hide CheckEntry;
    if x.Some? && y.Some? && x.value > y.value {
      var e :| e in a && CheckEntry(e, recs) == Good && e.issuerIndex == x.value;
      assert forall f :: f in b && CheckEntry(f, recs) == Good ==> f.issuerIndex < e.issuerIndex;
    }
    if Later(a, b, recs) {
      var f :| f in b && CheckEntry(f, recs) == Good && f.issuerIndex == y.value;
    }
  }

  /** What the judge may answer about two histories; the findings are named in the order of the records. */
  ghost predicate IsVerdict(v: Verdict, chainA: seq<OriginRecord>, chainB: seq<OriginRecord>, issuer: NodeId,
                            recs: seq<IssuerRecord>,
                            agreed: int, root: Option<R.RootEnv>) {
    var a, b, cp := SaltsBelow(chainA, agreed, issuer), SaltsBelow(chainB, agreed, issuer),
        CheckpointOf(recs, agreed, root);
    && (v.Crashed? <==> Crashes(a, recs) || Crashes(b, recs))
    && (v.Cryptographic? <==> !v.Crashed? && cp.Some? && LateSalt(a, recs, cp.value) != LateSalt(b, recs, cp.value))
    && (v.Cryptographic? ==> (v.side == A <==> LateSalt(a, recs, cp.value)) && v.proof != [])
    && (v.Cryptographic? ==>
          var named := if v.side == A then chainA else chainB;
          AllGenuine(v.proof, named, |named|, agreed, issuer, recs, cp) && InOrder(v.proof, |named|))
    && (v.Evidential? ==>
          (v.suspect == Some(A) <==> Later(a, b, recs)) && (v.suspect == Some(B) <==> Later(b, a, recs)))
  }

  method JudgeDivergence(chainA: seq<OriginRecord>, chainB: seq<OriginRecord>, issuer: NodeId, recs: seq<IssuerRecord>,
                         agreed: int, root: Option<R.RootEnv>) returns (v: Verdict)
    ensures IsVerdict(v, chainA, chainB, issuer, recs, agreed, root)
  {
    hide CheckEntry, SaltsBelow, Later, IsLatest, AllGenuine;
    var cp: Option<nat> := None;
    if root.Some? && R.VerifySignedRoot(root.value) && root.value.body.count == agreed {
      cp := FindIssuerCheckpoint(recs, root.value.body.node, agreed, root.value.body.root);
    }
    var ra := Scan(chainA, agreed, issuer, recs, cp);
    if ra.None? {
      return Crashed;
    }
    var rb := Scan(chainB, agreed, issuer, recs, cp);
    if rb.None? {
      return Crashed;
    }
    var (aMax, aProof) := ra.value;
    var (bMax, bProof) := rb.value;
    if cp.Some? && (aProof != [] || bProof != []) && !(aProof != [] && bProof != []) {
      return Cryptographic(if aProof != [] then A else B, if aProof != [] then aProof else bProof);
    }
    var suspect: Option<Side> := None;
    if aMax.Some? && bMax.Some? && aMax.value != bMax.value {
      suspect := Some(if aMax.value > bMax.value then A else B);
    }
    LaterByMaximum(SaltsBelow(chainA, agreed, issuer), SaltsBelow(chainB, agreed, issuer), recs, aMax, bMax);
    LaterByMaximum(SaltsBelow(chainB, agreed, issuer), SaltsBelow(chainA, agreed, issuer), recs, bMax, aMax);
    v := Evidential(suspect);
  }

  // ----- The protocol: every interleaving of an honest origin and an honest issuer -----

  /** The two chains, the roots the origin has signed and the salts the issuer has released.
      Everything else (delays, losses, other nodes) is in the choice of steps. */
  datatype World = World(origin: seq<OriginRecord>, issuer: seq<IssuerRecord>, signed: set<Witnessed>,
                         released: set<SaltEnv>)

  datatype Step =
    | OriginAppends(rec: OriginRecord)
    | OriginSigns(root: R.Root)
    | IssuerWitnesses(peer: NodeId, seen: Witnessed, hash: nat)
    | IssuerIssues(recipient: NodeId, cross: Option<Witnessed>, salt: nat, readIndex: nat, readHead: nat, hash: nat,
                   at: int)
    | IssuerAppendsOther(hash: nat)

  /** Honesty: the origin embeds only salts released to the network, with the fields of their
      envelopes; the issuer witnesses an origin root only if the origin signed it, and draws
      fresh salts.  The index an issuance carries may have been read earlier than it appends. */
  ghost predicate Enabled(w: World, s: Step, o: NodeId, i: Key) {
    match s
    case OriginAppends(rec) =>
      forall e :: e in rec.salts && e.issuerNode == NodeOf(i) ==> exists env :: env in w.released && e == EntryOf(env)
    case OriginSigns(_) => true
    case IssuerWitnesses(peer, seen, _) => peer == o ==> seen in w.signed
    case IssuerIssues(recipient, cross, salt, readIndex, _, _, _) =>
      && (recipient == o && cross.Some? ==> cross.value in w.signed)
      && readIndex <= |w.issuer|
      && forall k :: 0 <= k < |w.issuer| && w.issuer[k].content.SaltIssue? ==>
           w.issuer[k].content.saltHash != HashOfSalt(salt)
    case IssuerAppendsOther(_) => true
  }

  function Take(w: World, s: Step, i: Key): World {
    match s
    case OriginAppends(rec) => w.(origin := w.origin + [rec])
    case OriginSigns(root) => w.(signed := w.signed + {Witnessed(|w.origin|, root)})
    case IssuerWitnesses(peer, seen, hash) => w.(issuer := w.issuer + [IssuerRecord(PeerRoot(peer, seen), hash)])
    case IssuerIssues(recipient, cross, salt, readIndex, readHead, hash, at) =>
      w.(issuer := w.issuer + [IssuerRecord(SaltIssue(recipient, HashOfSalt(salt), cross), hash)],
         released := w.released + {MakeSalt(i, recipient, salt, readIndex, readHead, cross, at)})
    case IssuerAppendsOther(hash) => w.(issuer := w.issuer + [IssuerRecord(OtherRecord, hash)])
  }

  function After(steps: seq<Step>, i: Key): World {
    if steps == [] then World([], [], {}, {}) else Take(After(steps[..|steps| - 1], i), steps[|steps| - 1], i)
  }

  ghost predicate HonestRun(steps: seq<Step>, o: NodeId, i: Key) {
    forall n :: 0 <= n < |steps| ==> Enabled(After(steps[..n], i), steps[n], o, i)
  }

  /** A root that verifies in the origin's name was signed by the origin. */
  ghost predicate RootUnforged(w: World, root: Option<R.RootEnv>, o: NodeId) {
    root.Some? && R.VerifySignedRoot(root.value) && root.value.body.node == o ==>
      Witnessed(root.value.body.count, root.value.body.root) in w.signed
  }

  /** MAIN: a call of `issue` that nothing overtakes is a step of the protocol.  The honesty it needs of its cross-link
      comes from its own check that the recipient signed the root. */
  lemma IssueIsAStep(w: World, o: NodeId, i: Key, recipient: NodeId, root: Option<R.RootEnv>, salt: nat, now: int,
                     hash: nat)
    requires LinkAllowed(recipient, root) && RootUnforged(w, root, o)
    requires forall k :: 0 <= k < |w.issuer| && w.issuer[k].content.SaltIssue? ==>
               w.issuer[k].content.saltHash != HashOfSalt(salt)
    ensures var cross := if root.None? then None else Some(Witnessed(root.value.body.count, root.value.body.root));
            var s := IssuerIssues(recipient, cross, salt, |w.issuer|, HeadAt(w.issuer), hash, now);
            && Enabled(w, s, o, i)
            && Take(w, s, i).issuer ==
               w.issuer + [IssuerRecord(SaltIssue(recipient, HashOfSalt(salt), CrossLink(root)), hash)]
            && MakeSalt(i, recipient, salt, |w.issuer|, HeadAt(w.issuer), CrossLink(root), now)
               in Take(w, s, i).released
  {
    hide R.VerifySignedRoot;
  }

  /** `issue` reads its index before it appends.  A salt verifies against every later export of the issuer's
      chain exactly when nothing was appended in between. */
  lemma SaltVerifiesIffAtomic(w: World, s: Step, o: NodeId, i: Key, recs: seq<IssuerRecord>)
    requires s.IssuerIssues? && Enabled(w, s, o, i) && Take(w, s, i).issuer <= recs
    ensures var env := MakeSalt(i, s.recipient, s.salt, s.readIndex, s.readHead, s.cross, s.at);
            && env in Take(w, s, i).released
            && (CheckEntry(EntryOf(env), recs) == Good <==>
                s.readIndex == |w.issuer| && (s.readIndex > 0 ==> s.readHead == HeadAt(w.issuer)))
  {
    var at := Take(w, s, i).issuer;
    assert recs[..|at|] == at;
    assert recs[s.readIndex] == at[s.readIndex];
    if s.readIndex > 0 {
      assert recs[s.readIndex - 1] == at[s.readIndex - 1];
    }
  }

  /** What an issuer record says it has seen of the origin. */
  function SeenOf(c: IssuerContent, o: NodeId): Option<Witnessed> {
    match c
    case PeerRoot(p, seen) => if p == o then Some(seen) else None
    case SaltIssue(p, _, cross) => if p == o then cross else None
    case OtherRecord => None
  }

  ghost predicate Witnessing(w: World, o: NodeId) {
    && (forall x :: x in w.signed ==> x.count <= |w.origin|)
    && (forall q :: 0 <= q < |w.issuer| && SeenOf(w.issuer[q].content, o).Some? ==>
          SeenOf(w.issuer[q].content, o).value in w.signed)
  }

  predicate Issues(r: IssuerRecord, h: SaltHash) {
    r.content.SaltIssue? && r.content.saltHash == h
  }

  /** Every salt of this issuer that is out in the world has its issuance on the issuer's chain. */
  ghost predicate SaltsOnChain(w: World, i: Key) {
    && (forall env :: env in w.released ==>
          exists k :: 0 <= k < |w.issuer| && Issues(w.issuer[k], env.body.saltHash))
    && (forall p, e :: 0 <= p < |w.origin| && e in w.origin[p].salts && e.issuerNode == NodeOf(i) ==>
          exists env :: env in w.released && e == EntryOf(env))
  }

  /** The key invariant: a record of the origin embedding the salt issued at k sits at or above
      every count of the origin that the issuer had witnessed before k. */
  ghost predicate SaltsAboveWitnessed(w: World, o: NodeId, i: Key) {
    forall p, e, k, q ::
      && 0 <= p < |w.origin| && e in w.origin[p].salts && e.issuerNode == NodeOf(i)
      && 0 <= q < k < |w.issuer| && Issues(w.issuer[k], e.saltHash)
      && SeenOf(w.issuer[q].content, o).Some?
      ==> SeenOf(w.issuer[q].content, o).value.count <= p
  }

  ghost predicate Invariant(w: World, o: NodeId, i: Key) {
    Witnessing(w, o) && SaltsOnChain(w, i) && SaltsAboveWitnessed(w, o, i)
  }

  lemma StepKeepsWitnessing(w: World, s: Step, o: NodeId, i: Key)
    requires Witnessing(w, o) && Enabled(w, s, o, i)
    ensures Witnessing(Take(w, s, i), o)
  {
  }

  lemma StepKeepsSaltsOnChain(w: World, s: Step, o: NodeId, i: Key)
    requires SaltsOnChain(w, i) && Enabled(w, s, o, i)
    ensures SaltsOnChain(Take(w, s, i), i)
  {
    var t := Take(w, s, i);
    forall env | env in t.released
      ensures exists k :: 0 <= k < |t.issuer| && Issues(t.issuer[k], env.body.saltHash)
    {
      if env in w.released {
        var k :| 0 <= k < |w.issuer| && Issues(w.issuer[k], env.body.saltHash);
        assert t.issuer[k] == w.issuer[k];
      } else {
        assert Issues(t.issuer[|w.issuer|], env.body.saltHash);
      }
    }
    forall p, e | 0 <= p < |t.origin| && e in t.origin[p].salts && e.issuerNode == NodeOf(i)
      ensures exists env :: env in t.released && e == EntryOf(env)
    {
      if p < |w.origin| {
        assert e in w.origin[p].salts;
      }
      var env :| env in w.released && e == EntryOf(env);
      assert env in t.released;
    }
  }

  /** A salt already embedded was issued before: a fresh issuance cannot be its record. */
  lemma EmbeddedWasIssued(w: World, s: Step, o: NodeId, i: Key, p: nat, e: SaltEntry, k: nat)
    requires SaltsOnChain(w, i) && Enabled(w, s, o, i)
    requires p < |w.origin| && e in w.origin[p].salts && e.issuerNode == NodeOf(i)
    requires k < |Take(w, s, i).issuer| && Issues(Take(w, s, i).issuer[k], e.saltHash)
    ensures k < |w.issuer| && Issues(w.issuer[k], e.saltHash)
  {
    var env :| env in w.released && e == EntryOf(env);
    var k0 :| 0 <= k0 < |w.issuer| && Issues(w.issuer[k0], env.body.saltHash);
    assert w.issuer[k0].content.SaltIssue? && w.issuer[k0].content.saltHash == e.saltHash;
  }

  /** What the issuer had witnessed before is at most the origin's length. */
  lemma WitnessedIsBelow(w: World, o: NodeId, q: nat)
    requires Witnessing(w, o) && q < |w.issuer| && SeenOf(w.issuer[q].content, o).Some?
    ensures SeenOf(w.issuer[q].content, o).value.count <= |w.origin|
  {
  }

  lemma OneSaltStaysAbove(w: World, s: Step, o: NodeId, i: Key, p: nat, e: SaltEntry, k: nat, q: nat)
    requires Invariant(w, o, i) && Enabled(w, s, o, i)
    requires var t := Take(w, s, i);
             && p < |t.origin| && e in t.origin[p].salts && e.issuerNode == NodeOf(i)
             && q < k < |t.issuer| && Issues(t.issuer[k], e.saltHash) && SeenOf(t.issuer[q].content, o).Some?
    ensures SeenOf(Take(w, s, i).issuer[q].content, o).value.count <= p
  {
    var t := Take(w, s, i);
    assert q < |w.issuer| && t.issuer[q] == w.issuer[q];
    if p < |w.origin| {
      assert t.origin[p] == w.origin[p];
      EmbeddedWasIssued(w, s, o, i, p, e, k);
      hide Enabled, Take, SaltsOnChain, Witnessing, SeenOf;
    } else {
      WitnessedIsBelow(w, o, q);
    }
  }

  lemma StepKeepsSaltsAbove(w: World, s: Step, o: NodeId, i: Key)
    requires Invariant(w, o, i) && Enabled(w, s, o, i)
    ensures SaltsAboveWitnessed(Take(w, s, i), o, i)
  {
    hide Invariant, Enabled, Take, SeenOf;
    var t := Take(w, s, i);
    forall p, e, k, q |
      && 0 <= p < |t.origin| && e in t.origin[p].salts && e.issuerNode == NodeOf(i)
      && 0 <= q < k < |t.issuer| && Issues(t.issuer[k], e.saltHash) && SeenOf(t.issuer[q].content, o).Some?
      ensures SeenOf(t.issuer[q].content, o).value.count <= p
    {
      OneSaltStaysAbove(w, s, o, i, p, e, k, q);
    }
  }

  lemma {:induction false} RunsKeepInvariant(steps: seq<Step>, o: NodeId, i: Key)
    requires HonestRun(steps, o, i)
    ensures Invariant(After(steps, i), o, i)
    decreases |steps|
  {
    if steps != [] {
      var n := |steps| - 1;
      forall m | 0 <= m < n
        ensures Enabled(After(steps[..n][..m], i), steps[..n][m], o, i)
      {
        assert steps[..n][..m] == steps[..m];
      }
      RunsKeepInvariant(steps[..n], o, i);
      var w := After(steps[..n], i);
      StepKeepsWitnessing(w, steps[n], o, i);
      StepKeepsSaltsOnChain(w, steps[n], o, i);
      StepKeepsSaltsAbove(w, steps[n], o, i);
    }
  }

  /** A verified salt of the true chain later than a witness sits at or above the witnessed count. */
  lemma LateSaltSitsAbove(w: World, o: NodeId, i: Key, recs: seq<IssuerRecord>, p: nat, e: SaltEntry, q: nat)
    requires Invariant(w, o, i) && recs <= w.issuer && p < |w.origin| && e in w.origin[p].salts
    requires e.issuerNode == NodeOf(i)
    requires CheckEntry(e, recs) == Good && q < e.issuerIndex
    ensures q < |recs| && (SeenOf(recs[q].content, o).Some? ==> SeenOf(recs[q].content, o).value.count <= p)
  {
    var k := e.issuerIndex;
    assert w.issuer[k] == recs[k] && w.issuer[q] == recs[q];
  }

  /** MAIN: after any run, against any export of the issuer's chain and for any root signed in
      the origin's name, no verified salt of the origin's true chain below the agreed count is
      later than the checkpoint. */
  lemma TrueChainNeverLate(steps: seq<Step>, o: NodeId, i: Key, recs: seq<IssuerRecord>, chain: seq<OriginRecord>,
                           agreed: int, root: Option<R.RootEnv>)
    requires HonestRun(steps, o, i)
    requires recs <= After(steps, i).issuer && chain <= After(steps, i).origin
    requires root.Some? ==> root.value.body.node == o
    ensures CheckpointOf(recs, agreed, root).Some? ==>
              !LateSalt(SaltsBelow(chain, agreed, NodeOf(i)), recs, CheckpointOf(recs, agreed, root).value)
  {
    var w := After(steps, i);
    RunsKeepInvariant(steps, o, i);
    var cp := CheckpointOf(recs, agreed, root);
    if cp.Some? {
      forall e | e in SaltsBelow(chain, agreed, NodeOf(i)) && CheckEntry(e, recs) == Good
        ensures e.issuerIndex <= cp.value
      {
        var p :| 0 <= p < |chain| && p < Cut(|chain|, agreed) && e in chain[p].salts && e.issuerNode == NodeOf(i);
        assert chain[p] == w.origin[p];
        if e.issuerIndex > cp.value {
          LateSaltSitsAbove(w, o, i, recs, p, e, cp.value);
          assert false;
        }
      }
    }
  }

  /** The scan of the true chain never raises: honest indices are non-negative. */
  lemma TrueChainNeverCrashes(steps: seq<Step>, o: NodeId, i: Key, recs: seq<IssuerRecord>, chain: seq<OriginRecord>,
                              agreed: int)
    requires HonestRun(steps, o, i) && chain <= After(steps, i).origin
    ensures !Crashes(SaltsBelow(chain, agreed, NodeOf(i)), recs)
  {
    var w := After(steps, i);
    RunsKeepInvariant(steps, o, i);
    ReleasedIndicesNatural(steps, i);
    forall e | e in SaltsBelow(chain, agreed, NodeOf(i))
      ensures CheckEntry(e, recs) != Crash
    {
      var p :| 0 <= p < |chain| && p < Cut(|chain|, agreed) && e in chain[p].salts && e.issuerNode == NodeOf(i);
      assert chain[p] == w.origin[p];
      var env :| env in w.released && e == EntryOf(env);
    }
  }

  /** MAIN: the judgement beside the true chain.  A cryptographic verdict never names the true
      chain, and it names the rival exactly when there is a checkpoint, no salt of the rival below
      the agreed count makes the scan raise, and one of them verifies at an index after the checkpoint. */
  lemma RivalNamedExactly(steps: seq<Step>, o: NodeId, i: Key, recs: seq<IssuerRecord>,
                          chain: seq<OriginRecord>, rival: seq<OriginRecord>,
                          agreed: int, root: Option<R.RootEnv>, v: Verdict)
    requires HonestRun(steps, o, i)
    requires recs <= After(steps, i).issuer && chain <= After(steps, i).origin
    requires root.Some? ==> root.value.body.node == o
    requires IsVerdict(v, chain, rival, NodeOf(i), recs, agreed, root)
    ensures v.Cryptographic? ==> v.side == B
    ensures var salts, cp := SaltsBelow(rival, agreed, NodeOf(i)), CheckpointOf(recs, agreed, root);
            v.Cryptographic? <==> cp.Some? && !Crashes(salts, recs) && LateSalt(salts, recs, cp.value)
  {
    hide After, HonestRun, SaltsBelow, CheckpointOf, LateSalt, Crashes, IsLatest;
    TrueChainNeverLate(steps, o, i, recs, chain, agreed, root);
    TrueChainNeverCrashes(steps, o, i, recs, chain, agreed);
  }

  lemma {:induction false} ReleasedIndicesNatural(steps: seq<Step>, i: Key)
    ensures forall env :: env in After(steps, i).released ==> env.body.issuerIndex >= 0
    decreases |steps|
  {
    if steps != [] {
      ReleasedIndicesNatural(steps[..|steps| - 1], i);
    }
  }

  // ----- The agreed root must be the origin's own -----

  /** Another node's root is witnessed, then the origin is given a salt and embeds it. */
  function ForeignSteps(o: NodeId, i: Key, x: NodeId, r: R.Root): seq<Step> {
    [IssuerWitnesses(x, Witnessed(1, r), 9), IssuerIssues(o, None, 5, 1, 9, 10, 0),
     OriginAppends(OriginRecord([EntryOf(MakeSalt(i, o, 5, 1, 9, None, 0))]))]
  }

  lemma ForeignWorld(o: NodeId, i: Key, x: NodeId, r: R.Root)
    requires x != o
    ensures HonestRun(ForeignSteps(o, i, x, r), o, i)
    ensures var w := After(ForeignSteps(o, i, x, r), i);
            && w.origin == [OriginRecord([EntryOf(MakeSalt(i, o, 5, 1, 9, None, 0))])]
            && w.issuer == [IssuerRecord(PeerRoot(x, Witnessed(1, r)), 9),
                            IssuerRecord(SaltIssue(o, HashOfSalt(5), None), 10)]
  {
    var steps := ForeignSteps(o, i, x, r);
    assert steps[..0] == [] && steps[..1][..0] == [] && steps[..2][..1] == steps[..1] && steps[..3] == steps;
    var w0, w1, w2 := After(steps[..0], i), After(steps[..1], i), After(steps[..2], i);
    assert w1 == Take(w0, steps[0], i);
    assert w2 == Take(w1, steps[1], i);
    assert After(steps, i) == Take(w2, steps[2], i);
    assert MakeSalt(i, o, 5, 1, 9, None, 0) in w2.released;
    assert Enabled(w0, steps[0], o, i) && Enabled(w1, steps[1], o, i) && Enabled(w2, steps[2], o, i);
  }

  lemma ForeignCheckpoint(o: NodeId, i: Key, x: Key, root: R.RootEnv, issuer: seq<IssuerRecord>)
    requires R.VerifySignedRoot(root) && root.body.node == NodeOf(x) && root.body.count == 1
    requires issuer == [IssuerRecord(PeerRoot(NodeOf(x), Witnessed(1, root.body.root)), 9),
                        IssuerRecord(SaltIssue(o, HashOfSalt(5), None), 10)]
    ensures CheckpointOf(issuer, 1, Some(root)) == Some(0)
    ensures CheckEntry(EntryOf(MakeSalt(i, o, 5, 1, 9, None, 0)), issuer) == Good
  {
    hide R.VerifySignedRoot;
    assert Witnesses(issuer[0].content, NodeOf(x), 1, root.body.root);
  }

  /** The judge does not compare the agreed root's node with the histories.  For every node X
      other than the origin there is an honest run in which a root X validly signed makes the
      true chain the one named: the demand root.node == origin above cannot be dropped. */
  lemma ForeignRootNamesTrueChain(o: NodeId, i: Key, x: Key, root: R.RootEnv, v: Verdict)
    requires NodeOf(x) != o && R.VerifySignedRoot(root) && root.body.node == NodeOf(x) && root.body.count == 1
    requires var w := After(ForeignSteps(o, i, NodeOf(x), root.body.root), i);
             IsVerdict(v, w.origin, [], NodeOf(i), w.issuer, 1, Some(root))
    ensures HonestRun(ForeignSteps(o, i, NodeOf(x), root.body.root), o, i)
    ensures v.Cryptographic? && v.side == A
  {
    hide After, HonestRun, CheckEntry, CheckpointOf, R.VerifySignedRoot, ForeignSteps, IsLatest, Genuine;
    ForeignWorld(o, i, NodeOf(x), root.body.root);
    var w := After(ForeignSteps(o, i, NodeOf(x), root.body.root), i);
    ForeignCheckpoint(o, i, x, root, w.issuer);
    var e := EntryOf(MakeSalt(i, o, 5, 1, 9, None, 0));
    assert e in w.origin[0].salts && e.issuerNode == NodeOf(i) && e.issuerIndex == 1;
    hide EntryOf, MakeSalt;
    var none: seq<OriginRecord> := [];
    assert SaltsBelow(none, 1, NodeOf(i)) == {};
    assert e in SaltsBelow(w.origin, 1, NodeOf(i));
    assert forall f :: f in SaltsBelow(w.origin, 1, NodeOf(i)) ==> f == e;
  }
}
