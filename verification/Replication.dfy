/** core/replication.py: signed roots, signed consistency claims and the replica store. */
module Replication {
  import opened Wrappers
  import opened MerkleTree
  import opened MerkleVerify
  import opened LegacyMerkle
  import opened Witness
  import opened WitnessLog
  import opened Ranges

  /** Leaves of the replicated tree are record hashes. */
  type RecordHash = Hash<Content>
  type Root = Digest<RecordHash>

  /** `OtherAlg` covers the v1 envelopes, which name no algorithm, and anything else. */
  datatype RootAlg = Rfc6962 | OtherAlg(name: nat)

  datatype RootBody = RootBody(kind: string, node: NodeId, count: int, head: RecordHash, root: Root, alg: RootAlg,
                               ts: int)

  datatype ConsistencyBody = ConsistencyBody(kind: string, node: NodeId, oldCount: int, oldRoot: Root,
                                             newCount: int, newRoot: Root, proof: seq<Root>, ts: int)

  /** What a key signs; the two constructors are the two signing domains. */
  datatype Message = RootMessage(root: RootBody) | ConsistencyMessage(claim: ConsistencyBody)

  datatype RootEnv = RootEnv(body: RootBody, pub: Key, sig: Signature<Message>)

  datatype ConsistencyEnv = ConsistencyEnv(body: ConsistencyBody, pub: Key, sig: Signature<Message>)

  function LeavesOf(records: seq<Entry>): (leaves: seq<RecordHash>)
    ensures |leaves| == |records| && forall i :: 0 <= i < |records| ==> leaves[i] == records[i].thisHash
  {
    seq(|records|, i requires 0 <= i < |records| => records[i].thisHash)
  }

  function MakeSignedRoot(records: seq<Entry>, key: Key, ts: int): RootEnv {
    var body := RootBody("WITNESS_ROOT", NodeOf(key), |records|, HeadOf(records), Mth(LeavesOf(records)), Rfc6962, ts);
    RootEnv(body, key, SignedBy(key, RootMessage(body)))
  }

  predicate VerifySignedRoot(env: RootEnv) {
    && env.body.kind == "WITNESS_ROOT"
    && NodeOf(env.pub) == env.body.node
    && env.body.count >= 0
    && env.sig == SignedBy(env.pub, RootMessage(env.body))
  }

  function MakeConsistency(records: seq<Entry>, key: Key, oldCount: int, ts: int): Option<ConsistencyEnv> {
    var leaves := LeavesOf(records);
    if !(0 < oldCount <= |leaves|) then None
    else
      var body := ConsistencyBody("WITNESS_CONSISTENCY", NodeOf(key), oldCount, Mth(leaves[..oldCount]),
                                  |leaves|, Mth(leaves), ConsistencyProof(leaves, oldCount), ts);
      Some(ConsistencyEnv(body, key, SignedBy(key, ConsistencyMessage(body))))
  }

  datatype Status = Consistent | Inconsistent | Rejected

  /** A claim compared with the signed root pinned at one end of it. */
  function CheckPin(pin: Option<RootEnv>, node: NodeId, count: int, root: Root): Status {
    if pin.None? then Consistent
    else if pin.value.body.node != node || pin.value.body.alg != Rfc6962 then Rejected
    else if pin.value.body.count != count || pin.value.body.root != root then Inconsistent
    else Consistent
  }

  predicate ClaimReadable(env: ConsistencyEnv) {
    && env.body.kind == "WITNESS_CONSISTENCY"
    && NodeOf(env.pub) == env.body.node
    && env.sig == SignedBy(env.pub, ConsistencyMessage(env.body))
    && 0 < env.body.oldCount <= env.body.newCount
  }

  function ClaimStatus(env: ConsistencyEnv, oldPin: Option<RootEnv>, newPin: Option<RootEnv>): Status {
    var b := env.body;
    if !ClaimReadable(env) then Rejected
    else if CheckPin(oldPin, b.node, b.oldCount, b.oldRoot) != Consistent
    then CheckPin(oldPin, b.node, b.oldCount, b.oldRoot)
    else if CheckPin(newPin, b.node, b.newCount, b.newRoot) != Consistent
    then CheckPin(newPin, b.node, b.newCount, b.newRoot)
    else if AcceptsConsistency(b.oldCount, b.newCount, b.oldRoot, b.newRoot, b.proof) then Consistent
    else Inconsistent
  }

  method VerifyConsistencyEnvelope(env: ConsistencyEnv, oldPin: Option<RootEnv>, newPin: Option<RootEnv>)
    returns (status: Status)
    ensures status == ClaimStatus(env, oldPin, newPin)
  {
    var b := env.body;
    if !ClaimReadable(env) {
      return Rejected;
    }
    status := CheckPin(oldPin, b.node, b.oldCount, b.oldRoot);
    if status != Consistent {
      return;
    }
    status := CheckPin(newPin, b.node, b.newCount, b.newRoot);
    if status != Consistent {
      return;
    }
    var ok := VerifyConsistency(b.oldCount, b.newCount, b.oldRoot, b.newRoot, b.proof);
    status := if ok then Consistent else Inconsistent;
  }

  // ----- The store -----

  datatype Evidence =
    | Divergence(heldEnv: RootEnv, offered: RootEnv)
    | Inconsistency(claim: ConsistencyEnv, pinnedOld: Option<RootEnv>, pinnedNew: Option<RootEnv>)

  datatype JournalLine =
    | RootLine(env: RootEnv)
    | VerifiedLine(claim: ConsistencyEnv)
    | EvidenceLine(origin: NodeId, evidence: Evidence)

  /** The four dictionaries of a ReplicaStore. */
  datatype Live = Live(roots: map<NodeId, map<int, RootEnv>>, diverged: map<NodeId, seq<Evidence>>,
                       prefix: map<NodeId, int>, pairs: map<NodeId, set<(int, int)>>)

  const EMPTY := Live(map[], map[], map[], map[])

  function Held(live: Live, origin: NodeId): map<int, RootEnv> {
    if origin in live.roots then live.roots[origin] else map[]
  }

  function EvidenceAgainst(live: Live, origin: NodeId): seq<Evidence> {
    if origin in live.diverged then live.diverged[origin] else []
  }

  function PairsOf(live: Live, origin: NodeId): set<(int, int)> {
    if origin in live.pairs then live.pairs[origin] else {}
  }

  function PrefixOf(live: Live, origin: NodeId): int {
    if origin in live.prefix then live.prefix[origin] else 0
  }

  function Pin(live: Live, origin: NodeId, count: int): Option<RootEnv> {
    if count in Held(live, origin) then Some(Held(live, origin)[count]) else None
  }

  function HoldRoot(live: Live, env: RootEnv): Live {
    live.(roots := live.roots[env.body.node := Held(live, env.body.node)[env.body.count := env]])
  }

  function AddEvidence(live: Live, origin: NodeId, e: Evidence): Live {
    live.(diverged := live.diverged[origin := EvidenceAgainst(live, origin) + [e]])
  }

  function MarkVerified(live: Live, b: ConsistencyBody): Live {
    live.(prefix := live.prefix[b.node := Max(PrefixOf(live, b.node), b.oldCount)],
          pairs := live.pairs[b.node := PairsOf(live, b.node) + {(b.oldCount, b.newCount)}])
  }

  datatype Verdict = BadRoot | Duplicate | Upgraded | Diverged | Stale | Stored

  function Judge(live: Live, env: RootEnv): Verdict {
    var held := Held(live, env.body.node);
    var count := env.body.count;
    if !VerifySignedRoot(env) then BadRoot
    else if count in held then
      if held[count].body.root == env.body.root then Duplicate
      else if held[count].body.alg != env.body.alg then Upgraded
      else Diverged
    else if exists c :: c in held && count < c then Stale
    else Stored
  }

  function AcceptLive(live: Live, env: RootEnv): Live {
    match Judge(live, env)
    case Upgraded | Stored => HoldRoot(live, env)
    case Diverged => AddEvidence(live, env.body.node, Divergence(Held(live, env.body.node)[env.body.count], env))
    case _ => live
  }

  function AcceptLines(live: Live, env: RootEnv): seq<JournalLine> {
    match Judge(live, env)
    case Upgraded | Stored => [RootLine(env)]
    case Diverged => [EvidenceLine(env.body.node, Divergence(Held(live, env.body.node)[env.body.count], env))]
    case _ => []
  }

  function ClaimVerdict(live: Live, env: ConsistencyEnv): Status {
    var b := env.body;
    ClaimStatus(env, Pin(live, b.node, b.oldCount), Pin(live, b.node, b.newCount))
  }

  function ClaimEvidence(live: Live, env: ConsistencyEnv): Evidence {
    var b := env.body;
    Inconsistency(env, Pin(live, b.node, b.oldCount), Pin(live, b.node, b.newCount))
  }

  function RecordLive(live: Live, env: ConsistencyEnv): Live {
    match ClaimVerdict(live, env)
    case Consistent => MarkVerified(live, env.body)
    case Inconsistent => AddEvidence(live, env.body.node, ClaimEvidence(live, env))
    case Rejected => live
  }

  function RecordLines(live: Live, env: ConsistencyEnv): seq<JournalLine> {
    match ClaimVerdict(live, env)
    case Consistent => [VerifiedLine(env)]
    case Inconsistent => [EvidenceLine(env.body.node, ClaimEvidence(live, env))]
    case Rejected => []
  }

  /** Reloading one journal line; None refuses the boot. */
  function ReloadLine(live: Live, line: JournalLine): Option<Live> {
    match line
    case RootLine(env) => if VerifySignedRoot(env) then Some(HoldRoot(live, env)) else None
    case VerifiedLine(claim) =>
      if ClaimStatus(claim, None, None) == Consistent then Some(MarkVerified(live, claim.body)) else None
    case EvidenceLine(origin, e) => Some(AddEvidence(live, origin, e))
  }

  function Reload(journal: seq<JournalLine>): Option<Live> {
    if journal == [] then Some(EMPTY)
    else
      var n := |journal| - 1;
      var before := Reload(journal[..n]);
      if before.None? then None else ReloadLine(before.value, journal[n])
  }

  /** `path` is given; `diskOk` is the answer of the durable write, which raises on failure
      after the dictionaries have been updated. */
  class ReplicaStore {
    var live: Live
    var journal: seq<JournalLine>

    constructor ()
      ensures live == EMPTY && journal == []
    {
      live, journal := EMPTY, [];
    }

    method Persist(line: JournalLine, diskOk: bool)
      modifies this`journal
      ensures journal == old(journal) + (if diskOk then [line] else [])
    {
      if diskOk {
        journal := journal + [line];
      }
    }

    method Accept(env: RootEnv, diskOk: bool) returns (verdict: Verdict)
      modifies this
      ensures verdict == Judge(old(live), env) && live == AcceptLive(old(live), env)
      ensures journal == old(journal) + (if diskOk then AcceptLines(old(live), env) else [])
    {
      if !VerifySignedRoot(env) {
        return BadRoot;
      }
      var origin, count := env.body.node, env.body.count;
      var held := Held(live, origin);
      if count in held {
        if held[count].body.root == env.body.root {
          return Duplicate;
        }
        if held[count].body.alg != env.body.alg {
          live := HoldRoot(live, env);
          Persist(RootLine(env), diskOk);
          return Upgraded;
        }
        var e := Divergence(held[count], env);
        live := AddEvidence(live, origin, e);
        Persist(EvidenceLine(origin, e), diskOk);
        return Diverged;
      }
      if exists c :: c in held && count < c {
        return Stale;
      }
      live := HoldRoot(live, env);
      Persist(RootLine(env), diskOk);
      verdict := Stored;
    }

    method RecordConsistency(env: ConsistencyEnv, diskOk: bool) returns (status: Status)
      modifies this
      ensures status == ClaimVerdict(old(live), env) && live == RecordLive(old(live), env)
      ensures journal == old(journal) + (if diskOk then RecordLines(old(live), env) else [])
    {
      var b := env.body;
      var oldPin, newPin := Pin(live, b.node, b.oldCount), Pin(live, b.node, b.newCount);
      status := VerifyConsistencyEnvelope(env, oldPin, newPin);
      if status == Consistent {
        live := MarkVerified(live, b);
        Persist(VerifiedLine(env), diskOk);
      } else if status == Inconsistent {
        var e := Inconsistency(env, oldPin, newPin);
        live := AddEvidence(live, b.node, e);
        Persist(EvidenceLine(b.node, e), diskOk);
      }
    }
  }

  /** The reload loop of the constructor. */
  method Restart(journal: seq<JournalLine>) returns (live: Option<Live>)
    ensures live == Reload(journal)
  {
    var l := EMPTY;
    for i := 0 to |journal|
      invariant Reload(journal[..i]) == Some(l)
    {
      assert journal[..i + 1][..i] == journal[..i];
      var next := ReloadLine(l, journal[i]);
      if next.None? {
        ReloadStaysRefused(journal, i + 1);
        return None;
      }
      l := next.value;
    }
    assert journal[..|journal|] == journal;
    live := Some(l);
  }

  lemma {:induction false} ReloadStaysRefused(journal: seq<JournalLine>, n: nat)
    requires n <= |journal| && Reload(journal[..n]).None?
    ensures Reload(journal).None?
    decreases |journal|
  {
    if n == |journal| {
      assert journal[..n] == journal;
    } else {
      var k := |journal| - 1;
      assert journal[..k][..n] == journal[..n];
      ReloadStaysRefused(journal[..k], n);
    }
  }

  // ----- Runs -----

  datatype Delivery = DeliverRoot(env: RootEnv) | DeliverClaim(claim: ConsistencyEnv)

  function LiveStep(live: Live, d: Delivery): Live {
    match d
    case DeliverRoot(env) => AcceptLive(live, env)
    case DeliverClaim(c) => RecordLive(live, c)
  }

  function LinesFor(live: Live, d: Delivery): seq<JournalLine> {
    match d
    case DeliverRoot(env) => AcceptLines(live, env)
    case DeliverClaim(c) => RecordLines(live, c)
  }

  function LiveAfter(ds: seq<Delivery>): Live {
    if ds == [] then EMPTY else LiveStep(LiveAfter(ds[..|ds| - 1]), ds[|ds| - 1])
  }

  function JournalAfter(ds: seq<Delivery>): seq<JournalLine> {
    if ds == [] then []
    else JournalAfter(ds[..|ds| - 1]) + LinesFor(LiveAfter(ds[..|ds| - 1]), ds[|ds| - 1])
  }

  // ----- No false accusation -----

  /** A root body an honest origin with the final chain `chain` may have signed: a v2 or a v1
      head of some prefix. */
  ghost predicate HonestRoot(b: RootBody, chain: seq<Entry>) {
    && 0 <= b.count <= |chain|
    && (b.alg == Rfc6962 ==> b.root == Mth(LeavesOf(chain)[..b.count]))
    && (b.alg != Rfc6962 ==> b.alg == OtherAlg(0) && b.root == LegacyRoot(LeavesOf(chain)[..b.count]))
  }

  ghost predicate HonestClaim(b: ConsistencyBody, chain: seq<Entry>) {
    var leaves := LeavesOf(chain);
    && 0 < b.oldCount <= b.newCount <= |chain|
    && b.oldRoot == Mth(leaves[..b.oldCount]) && b.newRoot == Mth(leaves[..b.newCount])
    && b.proof == ConsistencyProof(leaves[..b.newCount], b.oldCount)
  }

  /** Under ideal signatures, an envelope that verifies for the origin was signed by it. */
  ghost predicate OriginHonest(d: Delivery, key: Key, chain: seq<Entry>) {
    match d
    case DeliverRoot(env) => env.sig == SignedBy(key, RootMessage(env.body)) ==> HonestRoot(env.body, chain)
    case DeliverClaim(c) => c.sig == SignedBy(key, ConsistencyMessage(c.body)) ==> HonestClaim(c.body, chain)
  }

  /** The envelopes the node actually makes are honest in this sense, at every chain length. */
  lemma MadeEnvelopesAreHonest(chain: seq<Entry>, n: nat, key: Key, oldCount: int, ts: int)
    requires n <= |chain|
    ensures VerifySignedRoot(MakeSignedRoot(chain[..n], key, ts))
    ensures HonestRoot(MakeSignedRoot(chain[..n], key, ts).body, chain)
    ensures var made := MakeConsistency(chain[..n], key, oldCount, ts);
            (made.Some? <==> 0 < oldCount <= n)
            && (made.Some? ==> HonestClaim(made.value.body, chain) && ClaimStatus(made.value, None, None) == Consistent)
  {
    var leaves := LeavesOf(chain[..n]);
    assert leaves == LeavesOf(chain)[..n];
    if 0 < oldCount <= n {
      assert leaves[..oldCount] == LeavesOf(chain)[..oldCount];
      ConsistencyComplete(leaves, oldCount);
    }
  }

  ghost predicate HonestlyHeld(live: Live, key: Key, chain: seq<Entry>) {
    && (forall c :: c in Held(live, NodeOf(key)) ==>
          var b := Held(live, NodeOf(key))[c].body; b.count == c && b.node == NodeOf(key) && HonestRoot(b, chain))
    && EvidenceAgainst(live, NodeOf(key)) == []
  }

  lemma HonestClaimIsConsistent(live: Live, key: Key, chain: seq<Entry>, c: ConsistencyEnv)
    requires HonestlyHeld(live, key, chain) && c.body.node == NodeOf(key)
    requires OriginHonest(DeliverClaim(c), key, chain)
    ensures ClaimVerdict(live, c) != Inconsistent
  {
    hide Mth, LegacyRoot, ConsistencyProof, AcceptsConsistency;
    if ClaimReadable(c) {
      var b := c.body;
      var d := LeavesOf(chain)[..b.newCount];
      assert d[..b.oldCount] == LeavesOf(chain)[..b.oldCount];
      ConsistencyComplete(d, b.oldCount);
    }
  }

  lemma HonestRootAccusesNobody(live: Live, key: Key, chain: seq<Entry>, env: RootEnv)
    requires HonestlyHeld(live, key, chain) && OriginHonest(DeliverRoot(env), key, chain)
    ensures HonestlyHeld(AcceptLive(live, env), key, chain)
  {
    hide Mth, LegacyRoot;
    if env.body.node == NodeOf(key) {
      assert Judge(live, env) != Diverged;
    }
  }

  lemma HonestClaimAccusesNobody(live: Live, key: Key, chain: seq<Entry>, c: ConsistencyEnv)
    requires HonestlyHeld(live, key, chain) && OriginHonest(DeliverClaim(c), key, chain)
    ensures HonestlyHeld(RecordLive(live, c), key, chain)
  {
    hide HonestRoot, HonestClaim, ClaimStatus;
    if c.body.node == NodeOf(key) {
      HonestClaimIsConsistent(live, key, chain, c);
    }
    assert Held(RecordLive(live, c), NodeOf(key)) == Held(live, NodeOf(key));
  }

  lemma DeliveryAccusesNoHonestOrigin(live: Live, key: Key, chain: seq<Entry>, d: Delivery)
    requires HonestlyHeld(live, key, chain) && OriginHonest(d, key, chain)
    ensures HonestlyHeld(LiveStep(live, d), key, chain)
  {
    match d {
      case DeliverRoot(env) =>
        HonestRootAccusesNobody(live, key, chain, env);
      case DeliverClaim(c) =>
        HonestClaimAccusesNobody(live, key, chain, c);
    }
  }

  /** MAIN: an origin that signs only heads and claims of one append-only chain is never
      accused, under any order, loss, duplication and mixing with other origins' traffic. */
  lemma {:induction false} NoFalseAccusation(ds: seq<Delivery>, key: Key, chain: seq<Entry>)
    requires forall d :: d in ds ==> OriginHonest(d, key, chain)
    ensures EvidenceAgainst(LiveAfter(ds), NodeOf(key)) == [] && HonestlyHeld(LiveAfter(ds), key, chain)
    decreases |ds|
  {
    if ds != [] {
      var n := |ds| - 1;
      NoFalseAccusation(ds[..n], key, chain);
      assert ds[n] in ds;
      DeliveryAccusesNoHonestOrigin(LiveAfter(ds[..n]), key, chain, ds[n]);
    }
  }

  // ----- Composition of consistency results -----

  /** The roots held at a and b are joined by a verified RFC 6962 proof. */
  ghost predicate Linked(live: Live, origin: NodeId, a: int, b: int) {
    var held := Held(live, origin);
    && a in held && b in held && held[a].body.alg == Rfc6962 && held[b].body.alg == Rfc6962
    && 0 < a <= b && exists proof :: AcceptsConsistency(a, b, held[a].body.root, held[b].body.root, proof)
  }

  /** A claim found consistent while both its counts are held links the held roots. */
  lemma ConsistentResultLinks(live: Live, c: ConsistencyEnv)
    requires ClaimVerdict(live, c) == Consistent
    requires c.body.oldCount in Held(live, c.body.node) && c.body.newCount in Held(live, c.body.node)
    ensures Linked(RecordLive(live, c), c.body.node, c.body.oldCount, c.body.newCount)
  {
    var b := c.body;
    var held := Held(live, b.node);
    assert AcceptsConsistency(b.oldCount, b.newCount, held[b.oldCount].body.root, held[b.newCount].body.root, b.proof);
  }

  /** A verified root that differs from the one held at count n in root and in algorithm. */
  predicate ChangesAlgorithm(live: Live, d: Delivery, origin: NodeId, n: int) {
    && d.DeliverRoot? && VerifySignedRoot(d.env) && d.env.body.node == origin && d.env.body.count == n
    && n in Held(live, origin)
    && Held(live, origin)[n].body.root != d.env.body.root && Held(live, origin)[n].body.alg != d.env.body.alg
  }

  lemma LinkUnderAccept(live: Live, origin: NodeId, a: int, b: int, env: RootEnv)
    requires Linked(live, origin, a, b)
    ensures Linked(AcceptLive(live, env), origin, a, b) <==>
            !ChangesAlgorithm(live, DeliverRoot(env), origin, a) && !ChangesAlgorithm(live, DeliverRoot(env), origin, b)
  {
    hide AcceptsConsistency, VerifySignedRoot;
    var held, after := Held(live, origin), Held(AcceptLive(live, env), origin);
    if env.body.node == origin && env.body.count in {a, b} && Judge(live, env) == Upgraded {
      assert after[env.body.count].body.alg != Rfc6962;
    } else {
      assert after[a] == held[a] && after[b] == held[b];
      var proof :| AcceptsConsistency(a, b, held[a].body.root, held[b].body.root, proof);
      assert AcceptsConsistency(a, b, after[a].body.root, after[b].body.root, proof);
    }
  }

  /** MAIN: a delivery keeps a link exactly when it is not an algorithm change at one of its ends. */
  lemma LinkKeptUnlessUpgraded(live: Live, origin: NodeId, a: int, b: int, d: Delivery)
    requires Linked(live, origin, a, b)
    ensures Linked(LiveStep(live, d), origin, a, b) <==>
            !ChangesAlgorithm(live, d, origin, a) && !ChangesAlgorithm(live, d, origin, b)
  {
    hide AcceptsConsistency, ClaimStatus, VerifySignedRoot;
    match d {
      case DeliverRoot(env) =>
        LinkUnderAccept(live, origin, a, b, env);
      case DeliverClaim(c) =>
        assert Held(RecordLive(live, c), origin) == Held(live, origin);
    }
  }

  /** MAIN: links compose.  If the newest root of a linked sequence of checkpoints is the head
      of a list, every earlier held root is the head of that list's prefix. */
  lemma {:induction false} LinksCompose(live: Live, origin: NodeId, counts: seq<int>, newest: seq<RecordHash>)
    requires |counts| > 0
    requires forall i :: 0 <= i < |counts| - 1 ==> Linked(live, origin, counts[i], counts[i + 1])
    requires counts[|counts| - 1] in Held(live, origin) && counts[|counts| - 1] == |newest|
    requires Held(live, origin)[|newest|].body.root == Mth(newest)
    ensures 0 <= counts[0] <= |newest| && counts[0] in Held(live, origin)
    ensures Held(live, origin)[counts[0]].body.root == Mth(newest[..counts[0]])
    decreases |counts|
  {
    hide Mth, AcceptsConsistency;
    if |counts| == 1 {
      assert newest[..|newest|] == newest;
    } else {
      assert counts[1..][|counts| - 2] == counts[|counts| - 1];
      forall i | 0 <= i < |counts| - 2
        ensures Linked(live, origin, counts[1..][i], counts[1..][i + 1])
      {
        assert Linked(live, origin, counts[i + 1], counts[i + 2]);
      }
      LinksCompose(live, origin, counts[1..], newest);
      var a, b := counts[0], counts[1];
      var held := Held(live, origin);
      assert Linked(live, origin, a, b);
      var proof :| AcceptsConsistency(a, b, held[a].body.root, held[b].body.root, proof);
      ConsistencyExact(a, newest[..b], held[a].body.root, proof);
      assert newest[..b][..a] == newest[..a];
    }
  }

  /** ... so the first and the last tree of the sequence are a prefix pair. */
  lemma LinkedTreesArePrefixes(live: Live, origin: NodeId, counts: seq<int>, first: seq<RecordHash>,
                               newest: seq<RecordHash>)
    requires |counts| > 0 && counts[0] == |first| && counts[|counts| - 1] == |newest|
    requires forall i :: 0 <= i < |counts| - 1 ==> Linked(live, origin, counts[i], counts[i + 1])
    requires |first| in Held(live, origin) && Held(live, origin)[|first|].body.root == Mth(first)
    requires |newest| in Held(live, origin) && Held(live, origin)[|newest|].body.root == Mth(newest)
    ensures first <= newest
  {
    LinksCompose(live, origin, counts, newest);
    MthInjective(first, newest[..|first|]);
  }

  /** Recorded pairs alone do not compose: an origin that flips the algorithm at a held count
      and back installs any other root there; nothing is recorded against it and the pair
      stays marked as verified. */
  lemma AlgorithmFlipSwapsRoot(live: Live, key: Key, flip: RootBody, back: RootBody)
    requires flip.kind == back.kind == "WITNESS_ROOT" && flip.node == back.node == NodeOf(key)
    requires flip.count == back.count >= 0
    requires back.count in Held(live, NodeOf(key))
    requires Held(live, NodeOf(key))[back.count].body.alg == back.alg != flip.alg
    requires flip.root != back.root && flip.root != Held(live, NodeOf(key))[back.count].body.root
    ensures var first := RootEnv(flip, key, SignedBy(key, RootMessage(flip)));
            var second := RootEnv(back, key, SignedBy(key, RootMessage(back)));
            var after := AcceptLive(AcceptLive(live, first), second);
            && Pin(after, NodeOf(key), back.count) == Some(second)
            && after.diverged == live.diverged && after.pairs == live.pairs
  {
  }

  // ----- Restart -----

  ghost predicate Synced(live: Live, journal: seq<JournalLine>) {
    Reload(journal) == Some(live)
  }

  lemma ReloadOneMore(journal: seq<JournalLine>, line: JournalLine)
    requires Reload(journal).Some?
    ensures Reload(journal + [line]) == ReloadLine(Reload(journal).value, line)
  {
    assert (journal + [line])[..|journal|] == journal;
  }

  /** Consistency against pins implies consistency without them, which is what reload checks. */
  lemma PinnedImpliesUnpinned(c: ConsistencyEnv, oldPin: Option<RootEnv>, newPin: Option<RootEnv>)
    requires ClaimStatus(c, oldPin, newPin) == Consistent
    ensures ClaimStatus(c, None, None) == Consistent
  {
  }

  lemma DeliveryKeepsSync(live: Live, journal: seq<JournalLine>, d: Delivery)
    requires Synced(live, journal)
    ensures Synced(LiveStep(live, d), journal + LinesFor(live, d))
  {
    hide Reload, ClaimStatus, VerifySignedRoot;
    var lines := LinesFor(live, d);
    if lines == [] {
      assert journal + lines == journal;
    } else {
      ReloadOneMore(journal, lines[0]);
    }
    if d.DeliverClaim? && ClaimVerdict(live, d.claim) == Consistent {
      var b := d.claim.body;
      PinnedImpliesUnpinned(d.claim, Pin(live, b.node, b.oldCount), Pin(live, b.node, b.newCount));
    }
  }

  /** MAIN: replaying the journal of any run never refuses the boot and rebuilds the live store. */
  lemma {:induction false} RestartRebuilds(ds: seq<Delivery>)
    ensures Synced(LiveAfter(ds), JournalAfter(ds))
    decreases |ds|
  {
    if ds != [] {
      var n := |ds| - 1;
      RestartRebuilds(ds[..n]);
      DeliveryKeepsSync(LiveAfter(ds[..n]), JournalAfter(ds[..n]), ds[n]);
    }
  }

  /** Marked pairs never reach past the verified prefix. */
  ghost predicate PrefixCoversPairs(live: Live) {
    forall o: NodeId, a: int, b: int :: (a, b) in PairsOf(live, o) ==> a <= PrefixOf(live, o) && o in live.prefix
  }

  lemma LineCoversPairs(live: Live, line: JournalLine)
    requires PrefixCoversPairs(live) && ReloadLine(live, line).Some?
    ensures PrefixCoversPairs(ReloadLine(live, line).value)
  {
    hide ClaimStatus;
    var after := ReloadLine(live, line).value;
    forall o: NodeId, a: int, b: int | (a, b) in PairsOf(after, o)
      ensures a <= PrefixOf(after, o) && o in after.prefix
    {
      if (a, b) in PairsOf(live, o) {
        assert a <= PrefixOf(live, o);
      }
    }
  }

  lemma {:induction false} ReloadCoversPairs(journal: seq<JournalLine>)
    requires Reload(journal).Some?
    ensures PrefixCoversPairs(Reload(journal).value)
    decreases |journal|
  {
    if journal == [] {
      assert forall o: NodeId :: PairsOf(EMPTY, o) == {};
    } else {
      var n := |journal| - 1;
      ReloadCoversPairs(journal[..n]);
      LineCoversPairs(Reload(journal[..n]).value, journal[n]);
    }
  }

  /** A pinned root of another node or algorithm, which a claim cannot be held against. */
  predicate Foreign(pin: Option<RootEnv>, node: NodeId) {
    pin.Some? && (pin.value.body.node != node || pin.value.body.alg != Rfc6962)
  }

  predicate Agrees(pin: Option<RootEnv>, count: int, root: Root) {
    pin.None? || (pin.value.body.count == count && pin.value.body.root == root)
  }

  /** The deliveries that leave nothing to write: a root that does not verify, is held already, or is not held and below
      one that is; a claim that cannot be read, or is pinned to a root it cannot be held against. */
  predicate NothingToWrite(live: Live, d: Delivery) {
    match d
    case DeliverRoot(env) =>
      var held, count := Held(live, env.body.node), env.body.count;
      || !VerifySignedRoot(env)
      || (count in held && held[count].body.root == env.body.root)
      || (count !in held && exists c :: c in held && count < c)
    case DeliverClaim(c) =>
      var b := c.body;
      var oldPin, newPin := Pin(live, b.node, b.oldCount), Pin(live, b.node, b.newCount);
      || !ClaimReadable(c) || Foreign(oldPin, b.node)
      || (Agrees(oldPin, b.oldCount, b.oldRoot) && Foreign(newPin, b.node))
  }

  lemma NothingToWriteExact(live: Live, d: Delivery)
    ensures NothingToWrite(live, d) <==> LinesFor(live, d) == []
  {
    hide VerifySignedRoot, AcceptsConsistency, ClaimReadable;
  }

  /** A consistent claim over a pair that is recorded already. */
  predicate Repeats(live: Live, d: Delivery) {
    && d.DeliverClaim? && ClaimVerdict(live, d.claim) == Consistent
    && (d.claim.body.oldCount, d.claim.body.newCount) in PairsOf(live, d.claim.body.node)
  }

  /** MAIN: when the durable write fails the dictionaries have already moved, so restart and
      memory agree after the call exactly when the delivery left nothing new to write. */
  lemma FailedWriteLosesSync(live: Live, journal: seq<JournalLine>, d: Delivery)
    requires Synced(live, journal)
    ensures Synced(LiveStep(live, d), journal) <==> NothingToWrite(live, d) || Repeats(live, d)
  {
    ReloadCoversPairs(journal);
    NothingToWriteExact(live, d);
    hide NothingToWrite, PrefixCoversPairs, ClaimVerdict;
    match d {
      case DeliverRoot(env) => AcceptMoves(live, env);
      case DeliverClaim(c) => RecordMoves(live, c);
    }
  }

  /** The first root a fresh store is given, with a write that fails: memory holds it and a restart does not. */
  lemma FailedRootExample(records: seq<Entry>, key: Key, ts: int)
    ensures var d := DeliverRoot(MakeSignedRoot(records, key, ts));
            && Synced(EMPTY, []) && Judge(EMPTY, d.env) == Stored
            && |records| in Held(LiveStep(EMPTY, d), NodeOf(key)) && !Synced(LiveStep(EMPTY, d), [])
  {
    hide Mth;
    var d := DeliverRoot(MakeSignedRoot(records, key, ts));
    assert Held(EMPTY, NodeOf(key)) == map[] && !NothingToWrite(EMPTY, d);
    FailedWriteLosesSync(EMPTY, [], d);
  }

  lemma AcceptMoves(live: Live, env: RootEnv)
    ensures AcceptLive(live, env) == live <==> AcceptLines(live, env) == []
  {
    hide VerifySignedRoot;
    var o, after := env.body.node, AcceptLive(live, env);
    match Judge(live, env) {
      case Diverged => assert |EvidenceAgainst(after, o)| == |EvidenceAgainst(live, o)| + 1;
      case Stored | Upgraded => assert Pin(after, o, env.body.count) == Some(env) != Pin(live, o, env.body.count);
      case _ =>
    }
  }

  lemma RecordMoves(live: Live, c: ConsistencyEnv)
    requires PrefixCoversPairs(live)
    ensures RecordLive(live, c) == live <==>
            || RecordLines(live, c) == []
            || (ClaimVerdict(live, c) == Consistent && (c.body.oldCount, c.body.newCount) in PairsOf(live, c.body.node))
  {
    hide ClaimStatus;
    var o, p, after := c.body.node, (c.body.oldCount, c.body.newCount), RecordLive(live, c);
    match ClaimVerdict(live, c) {
      case Inconsistent => assert |EvidenceAgainst(after, o)| == |EvidenceAgainst(live, o)| + 1;
      case Consistent =>
        assert p in PairsOf(after, o);
        if p in PairsOf(live, o) {
          assert PairsOf(live, o) + {p} == PairsOf(live, o);
          assert after == live;
        }
      case Rejected =>
    }
  }

  // ----- Equivocation -----

  function Continue(live: Live, ds: seq<Delivery>): Live {
    if ds == [] then live else LiveStep(Continue(live, ds[..|ds| - 1]), ds[|ds| - 1])
  }

  /** The root of this body is held, under its algorithm. */
  predicate HoldsRoot(live: Live, b: RootBody) {
    var held := Held(live, b.node);
    b.count in held && held[b.count].body.root == b.root && held[b.count].body.alg == b.alg
  }

  /** The delivery does not change the algorithm at the count of the body. */
  predicate KeepsAlgorithm(d: Delivery, b: RootBody) {
    d.DeliverRoot? && d.env.body.node == b.node && d.env.body.count == b.count && VerifySignedRoot(d.env) ==>
      d.env.body.alg == b.alg
  }

  lemma RootStaysHeld(live: Live, d: Delivery, b: RootBody)
    requires HoldsRoot(live, b) && KeepsAlgorithm(d, b)
    ensures HoldsRoot(LiveStep(live, d), b)
  {
    hide VerifySignedRoot, ClaimStatus;
  }

  lemma EvidenceStays(live: Live, d: Delivery, origin: NodeId)
    ensures EvidenceAgainst(live, origin) <= EvidenceAgainst(LiveStep(live, d), origin)
  {
    hide VerifySignedRoot, ClaimStatus;
  }

  lemma {:induction false} RunKeepsRoot(live: Live, ds: seq<Delivery>, b: RootBody)
    requires HoldsRoot(live, b) && forall d :: d in ds ==> KeepsAlgorithm(d, b)
    ensures HoldsRoot(Continue(live, ds), b)
    decreases |ds|
  {
    hide HoldsRoot, KeepsAlgorithm, LiveStep;
    if ds != [] {
      RunKeepsRoot(live, ds[..|ds| - 1], b);
      RootStaysHeld(Continue(live, ds[..|ds| - 1]), ds[|ds| - 1], b);
    }
  }

  lemma {:induction false} RunKeepsEvidence(live: Live, ds: seq<Delivery>, origin: NodeId)
    ensures EvidenceAgainst(live, origin) <= EvidenceAgainst(Continue(live, ds), origin)
    decreases |ds|
  {
    hide LiveStep, EvidenceAgainst;
    if ds != [] {
      RunKeepsEvidence(live, ds[..|ds| - 1], origin);
      EvidenceStays(Continue(live, ds[..|ds| - 1]), ds[|ds| - 1], origin);
    }
  }

  /** A different signed root at a held count is kept as evidence if and only if its algorithm is the held one;
      otherwise it takes the held root's place. */
  lemma RivalRootRecorded(live: Live, rival: RootEnv)
    requires VerifySignedRoot(rival) && rival.body.count in Held(live, rival.body.node)
    requires Held(live, rival.body.node)[rival.body.count].body.root != rival.body.root
    ensures var origin, kept := rival.body.node, Held(live, rival.body.node)[rival.body.count];
            var after := AcceptLive(live, rival);
            if kept.body.alg == rival.body.alg
            then
              && EvidenceAgainst(after, origin) == EvidenceAgainst(live, origin) + [Divergence(kept, rival)]
              && Pin(after, origin, rival.body.count) == Some(kept)
            else
              && EvidenceAgainst(after, origin) == EvidenceAgainst(live, origin)
              && Pin(after, origin, rival.body.count) == Some(rival)
  {
    hide VerifySignedRoot;
  }

  /** MAIN: once a root is held, a different root signed at its count is evidence from its delivery on, through
      everything delivered in between and afterwards, unless the algorithm was changed at that count first. */
  lemma EquivocationCaught(live: Live, b: RootBody, between: seq<Delivery>, rival: RootEnv, rest: seq<Delivery>)
    requires HoldsRoot(live, b) && forall d :: d in between ==> KeepsAlgorithm(d, b)
    requires VerifySignedRoot(rival) && rival.body.node == b.node && rival.body.count == b.count
    requires rival.body.alg == b.alg && rival.body.root != b.root
    ensures var after := Continue(AcceptLive(Continue(live, between), rival), rest);
            exists kept :: Divergence(kept, rival) in EvidenceAgainst(after, b.node) && kept.body.root == b.root
  {
    RunKeepsRoot(live, between, b);
    var mid := Continue(live, between);
    RivalRootRecorded(mid, rival);
    hide VerifySignedRoot, Continue, AcceptLive, EvidenceAgainst;
    RunKeepsEvidence(AcceptLive(mid, rival), rest, b.node);
    var found := EvidenceAgainst(AcceptLive(mid, rival), b.node);
    var last := Divergence(Held(mid, b.node)[b.count], rival);
    assert last == found[|found| - 1];
    assert last in EvidenceAgainst(Continue(AcceptLive(mid, rival), rest), b.node);
  }
}
