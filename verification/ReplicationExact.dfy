/** What the replica store holds, answers and accuses after any run, in terms of what was delivered to it
    (core/replication.py:64-212, 277-347). */
module ReplicationExact {
  import opened Wrappers
  import opened MerkleTree
  import opened MerkleVerify
  import opened Witness
  import opened Replication

  // ----- Envelopes -----

  /** A root signed by a key in its own node's name. */
  function SignRoot(key: Key, count: nat, head: RecordHash, root: Root, alg: RootAlg, ts: int): RootEnv {
    var body := RootBody("WITNESS_ROOT", NodeOf(key), count, head, root, alg, ts);
    RootEnv(body, key, SignedBy(key, RootMessage(body)))
  }

  function SignClaim(key: Key, oldCount: int, oldRoot: Root, newCount: int, newRoot: Root, proof: seq<Root>, ts: int):
    ConsistencyEnv {
    var body := ConsistencyBody("WITNESS_CONSISTENCY", NodeOf(key), oldCount, oldRoot, newCount, newRoot, proof, ts);
    ConsistencyEnv(body, key, SignedBy(key, ConsistencyMessage(body)))
  }

  /** The roots that verify are exactly those some key signs as roots in its own node's name; a body signed as anything
      else, by another key or under another kind, is refused. */
  lemma RootVerifiesIff(env: RootEnv)
    ensures VerifySignedRoot(env) <==>
            var b := env.body;
            b.count >= 0 && env == SignRoot(env.pub, b.count, b.head, b.root, b.alg, b.ts)
  {
  }

  /** The claims that can be read are exactly those some key signs as claims in its own node's name over ordered,
      positive counts. */
  lemma ClaimReadableIff(env: ConsistencyEnv)
    ensures ClaimStatus(env, None, None) == Rejected <==>
            var b := env.body;
            !(0 < b.oldCount <= b.newCount
              && env == SignClaim(env.pub, b.oldCount, b.oldRoot, b.newCount, b.newRoot, b.proof, b.ts))
  {
    hide AcceptsConsistency;
  }

  // ----- Which counts are held -----

  /** Delivery i is a root the origin signed at this count. */
  ghost predicate Arrives(ds: seq<Delivery>, i: int, origin: NodeId, count: int) {
    && 0 <= i < |ds| && ds[i].DeliverRoot?
    && var env := ds[i].env; VerifySignedRoot(env) && env.body.node == origin && env.body.count == count
  }

  /** ... and none of the origin's roots before it was over more records. */
  ghost predicate Leads(ds: seq<Delivery>, i: int, origin: NodeId, count: int) {
    Arrives(ds, i, origin, count) && forall j, c :: j < i && Arrives(ds, j, origin, c) ==> c <= count
  }

  ghost predicate NoneAbove(held: map<int, RootEnv>, c: int) {
    forall x :: x in held ==> x <= c
  }

  lemma HeldAfterStep(live: Live, d: Delivery, origin: NodeId, c: int)
    ensures c in Held(LiveStep(live, d), origin) <==>
            || c in Held(live, origin)
            || (&& d.DeliverRoot? && VerifySignedRoot(d.env) && d.env.body.node == origin && d.env.body.count == c
                && NoneAbove(Held(live, origin), c))
  {
    hide VerifySignedRoot, ClaimStatus;
    if d.DeliverRoot? {
      var before, after := Held(live, origin), Held(LiveStep(live, d), origin);
      assert c in before ==> c in after;
    }
  }

  /** Every root that arrived is below one that is held. */
  lemma {:induction false} ArrivalIsCovered(ds: seq<Delivery>, i: int, origin: NodeId, c: int) returns (top: int)
    requires Arrives(ds, i, origin, c)
    ensures top in Held(LiveAfter(ds), origin) && c <= top
    decreases |ds|
  {
    hide VerifySignedRoot, LiveStep, Held;
    var n := |ds| - 1;
    var before := LiveAfter(ds[..n]);
    if i < n {
      assert ds[..n][i] == ds[i];
      top := ArrivalIsCovered(ds[..n], i, origin, c);
    } else if x :| x in Held(before, origin) && x > c {
      top := x;
    } else {
      top := c;
    }
    HeldAfterStep(before, ds[n], origin, top);
  }

  lemma LeadsInPrefix(ds: seq<Delivery>, i: int, origin: NodeId, c: int)
    requires 0 <= i < |ds| - 1
    ensures Leads(ds[..|ds| - 1], i, origin, c) <==> Leads(ds, i, origin, c)
  {
    hide VerifySignedRoot;
    var init := ds[..|ds| - 1];
    assert forall j, x :: j <= i ==> (Arrives(init, j, origin, x) <==> Arrives(ds, j, origin, x));
  }

  /** The last delivery leads exactly when nothing held is over more records. */
  lemma LastLeads(ds: seq<Delivery>, init: seq<Delivery>, origin: NodeId, c: int)
    requires ds != [] && init == ds[..|ds| - 1] && Arrives(ds, |ds| - 1, origin, c)
    requires forall x :: x in Held(LiveAfter(init), origin) ==> exists i :: Leads(init, i, origin, x)
    ensures Leads(ds, |ds| - 1, origin, c) <==> NoneAbove(Held(LiveAfter(init), origin), c)
  {
    hide VerifySignedRoot, LiveAfter, Held;
    var n := |ds| - 1;
    var held := Held(LiveAfter(init), origin);
    if NoneAbove(held, c) {
      forall j, x | j < n && Arrives(ds, j, origin, x)
        ensures x <= c
      {
        assert init[j] == ds[j] && Arrives(init, j, origin, x);
        var top := ArrivalIsCovered(init, j, origin, x);
      }
      assert Leads(ds, n, origin, c);
    }
    if Leads(ds, n, origin, c) {
      forall x | x in held
        ensures x <= c
      {
        var i :| Leads(init, i, origin, x);
        assert Arrives(init, i, origin, x) && Arrives(ds, i, origin, x);
      }
    }
  }

  lemma LedInPrefix(ds: seq<Delivery>, init: seq<Delivery>, origin: NodeId, c: int)
    requires ds != [] && init == ds[..|ds| - 1]
    ensures (exists i :: Leads(ds, i, origin, c)) <==>
            (exists i :: Leads(init, i, origin, c)) || Leads(ds, |ds| - 1, origin, c)
  {
    hide VerifySignedRoot;
    if i :| Leads(ds, i, origin, c) && i < |ds| - 1 {
      LeadsInPrefix(ds, i, origin, c);
    }
    if i :| Leads(init, i, origin, c) {
      LeadsInPrefix(ds, i, origin, c);
    }
  }

  /** MAIN: after any run a count is held exactly when some root signed at it was delivered before any root of that
      origin over more records. */
  lemma {:induction false} HeldIffLed(ds: seq<Delivery>, origin: NodeId, c: int)
    ensures c in Held(LiveAfter(ds), origin) <==> exists i :: Leads(ds, i, origin, c)
    decreases |ds|
  {
    hide VerifySignedRoot, Held, LiveStep;
    if ds == [] {
      assert c !in Held(EMPTY, origin) by {
        NothingHeldAtFirst(origin, c);
      }
    } else {
      var n := |ds| - 1;
      var init := ds[..n];
      var before := LiveAfter(init);
      forall x
        ensures x in Held(before, origin) <==> exists i :: Leads(init, i, origin, x)
      {
        HeldIffLed(init, origin, x);
      }
      HeldAfterStep(before, ds[n], origin, c);
      LedInPrefix(ds, init, origin, c);
      if Arrives(ds, n, origin, c) {
        LastLeads(ds, init, origin, c);
      }
    }
  }

  lemma NothingHeldAtFirst(origin: NodeId, c: int)
    ensures c !in Held(EMPTY, origin)
  {
  }

  // ----- What is held -----

  /** Every held root is a signed one, filed under its own node and count. */
  ghost predicate Filed(live: Live) {
    forall o: NodeId, c: int :: c in Held(live, o) ==>
      var env := Held(live, o)[c]; VerifySignedRoot(env) && env.body.node == o && env.body.count == c
  }

  lemma HeldEntryAfter(live: Live, d: Delivery, o: NodeId, c: int)
    requires c in Held(LiveStep(live, d), o)
    ensures || Pin(LiveStep(live, d), o, c) == Pin(live, o, c)
            || (&& d.DeliverRoot? && VerifySignedRoot(d.env) && d.env.body.node == o && d.env.body.count == c
                && Held(LiveStep(live, d), o)[c] == d.env)
  {
    hide VerifySignedRoot, ClaimStatus;
    match d {
      case DeliverRoot(env) =>
      case DeliverClaim(claim) => assert RecordLive(live, claim).roots == live.roots;
    }
  }

  lemma StepKeepsFiled(live: Live, d: Delivery)
    requires Filed(live)
    ensures Filed(LiveStep(live, d))
  {
    hide VerifySignedRoot, LiveStep, Held;
    var after := LiveStep(live, d);
    forall o: NodeId, c: int | c in Held(after, o)
      ensures var env := Held(after, o)[c]; VerifySignedRoot(env) && env.body.node == o && env.body.count == c
    {
      HeldEntryAfter(live, d, o, c);
    }
  }

  lemma {:induction false} RunsStayFiled(ds: seq<Delivery>)
    ensures Filed(LiveAfter(ds))
    decreases |ds|
  {
    hide LiveStep, VerifySignedRoot;
    if ds != [] {
      RunsStayFiled(ds[..|ds| - 1]);
      hide Filed;
      StepKeepsFiled(LiveAfter(ds[..|ds| - 1]), ds[|ds| - 1]);
    }
  }

  // ----- Claims against a held root -----

  /** MAIN: when the root held at a claim's newer count is the head of a list, the claim is consistent exactly when it
      states that head, the head of the list's prefix and the prover's path, and a root held at the older count agrees.
      Any other readable claim is kept as evidence, together with the roots it was held against. */
  lemma FalseClaimCaught(live: Live, c: ConsistencyEnv, d: seq<RecordHash>)
    requires Filed(live) && ClaimReadable(c)
    requires c.body.newCount in Held(live, c.body.node) && |d| == c.body.newCount
    requires var top := Held(live, c.body.node)[|d|]; top.body.alg == Rfc6962 && top.body.root == Mth(d)
    requires c.body.oldCount in Held(live, c.body.node) ==>
               Held(live, c.body.node)[c.body.oldCount].body.alg == Rfc6962
    ensures var b, held, after := c.body, Held(live, c.body.node), RecordLive(live, c);
            var truth := Mth(d[..b.oldCount]);
            var good := && b.newRoot == Mth(d) && b.oldRoot == truth && b.proof == ConsistencyProof(d, b.oldCount)
                        && (b.oldCount in held ==> held[b.oldCount].body.root == truth);
            && (ClaimVerdict(live, c) == Consistent <==> good)
            && (good ==> (b.oldCount, b.newCount) in PairsOf(after, b.node)
                         && EvidenceAgainst(after, b.node) == EvidenceAgainst(live, b.node))
            && (!good ==> EvidenceAgainst(after, b.node) ==
                          EvidenceAgainst(live, b.node)
                          + [Inconsistency(c, Pin(live, b.node, b.oldCount), Some(held[|d|]))])
  {
    var b, held := c.body, Held(live, c.body.node);
    ConsistencyExact(b.oldCount, d, b.oldRoot, b.proof);
    assert held[|d|].body.node == b.node && held[|d|].body.count == |d|;
    hide Mth, ConsistencyProof, AcceptsConsistency, VerifySignedRoot;
    ClaimVerdictByPins(live, c);
  }

  /** The verdict on a readable claim whose pinned roots can be compared with it. */
  lemma ClaimVerdictByPins(live: Live, c: ConsistencyEnv)
    requires Filed(live) && ClaimReadable(c)
    requires var held := Held(live, c.body.node);
             && (c.body.oldCount in held ==> held[c.body.oldCount].body.alg == Rfc6962)
             && (c.body.newCount in held ==> held[c.body.newCount].body.alg == Rfc6962)
    ensures var b, held := c.body, Held(live, c.body.node);
            ClaimVerdict(live, c) ==
            if (&& (b.oldCount in held ==> held[b.oldCount].body.root == b.oldRoot)
                && (b.newCount in held ==> held[b.newCount].body.root == b.newRoot)
                && AcceptsConsistency(b.oldCount, b.newCount, b.oldRoot, b.newRoot, b.proof))
            then Consistent else Inconsistent
  {
    hide AcceptsConsistency, VerifySignedRoot;
  }

  // ----- Who is accused -----

  /** The delivery contradicts what is held: another root under the held algorithm, or a readable claim that some root
      it can be compared with, or its own proof, refutes. */
  ghost predicate Contradicts(live: Live, d: Delivery, origin: NodeId) {
    var held := Held(live, origin);
    match d
    case DeliverRoot(env) =>
      var b := env.body;
      && VerifySignedRoot(env) && b.node == origin && b.count in held
      && held[b.count].body.root != b.root && held[b.count].body.alg == b.alg
    case DeliverClaim(c) =>
      var b := c.body;
      && ClaimReadable(c) && b.node == origin
      && (b.oldCount in held ==> held[b.oldCount].body.alg == Rfc6962)
      && (|| (b.oldCount in held && held[b.oldCount].body.root != b.oldRoot)
          || (&& (b.newCount in held ==> held[b.newCount].body.alg == Rfc6962)
              && (|| (b.newCount in held && held[b.newCount].body.root != b.newRoot)
                  || !AcceptsConsistency(b.oldCount, b.newCount, b.oldRoot, b.newRoot, b.proof))))
  }

  lemma AccusedByStep(live: Live, d: Delivery, origin: NodeId)
    requires Filed(live)
    ensures |EvidenceAgainst(LiveStep(live, d), origin)| ==
            |EvidenceAgainst(live, origin)| + (if Contradicts(live, d, origin) then 1 else 0)
  {
    hide Contradicts, AcceptLive, RecordLive, Filed;
    match d {
      case DeliverRoot(env) => AccusedByRoot(live, env, origin);
      case DeliverClaim(c) => AccusedByClaim(live, c, origin);
    }
  }

  lemma AccusedByRoot(live: Live, env: RootEnv, origin: NodeId)
    ensures |EvidenceAgainst(AcceptLive(live, env), origin)| ==
            |EvidenceAgainst(live, origin)| + (if Contradicts(live, DeliverRoot(env), origin) then 1 else 0)
  {
    hide VerifySignedRoot;
  }

  lemma AccusedByClaim(live: Live, c: ConsistencyEnv, origin: NodeId)
    requires Filed(live)
    ensures |EvidenceAgainst(RecordLive(live, c), origin)| ==
            |EvidenceAgainst(live, origin)| + (if Contradicts(live, DeliverClaim(c), origin) then 1 else 0)
  {
    hide AcceptsConsistency, VerifySignedRoot, ClaimReadable;
  }

  /** How many deliveries of a run contradicted what was held when they came. */
  ghost function Contradictions(ds: seq<Delivery>, origin: NodeId): nat {
    if ds == [] then 0
    else
      var n := |ds| - 1;
      Contradictions(ds[..n], origin) + if Contradicts(LiveAfter(ds[..n]), ds[n], origin) then 1 else 0
  }

  /** MAIN: there is one piece of evidence for each contradiction delivered, and no other. */
  lemma {:induction false} OneEvidencePerContradiction(ds: seq<Delivery>, origin: NodeId)
    ensures |EvidenceAgainst(LiveAfter(ds), origin)| == Contradictions(ds, origin)
    decreases |ds|
  {
    hide LiveStep, Contradicts, Filed;
    if ds != [] {
      var n := |ds| - 1;
      OneEvidencePerContradiction(ds[..n], origin);
      RunsStayFiled(ds[..n]);
      hide EvidenceAgainst;
      AccusedByStep(LiveAfter(ds[..n]), ds[n], origin);
    }
  }

  // ----- The verified prefix -----

  /** The prefix is the largest older count of a recorded pair, and 0 with none. */
  ghost predicate PrefixIsMaximum(live: Live, origin: NodeId) {
    var pairs, prefix := PairsOf(live, origin), PrefixOf(live, origin);
    && (forall a, b :: (a, b) in pairs ==> 0 < a <= prefix)
    && (pairs == {} ==> prefix == 0)
    && (pairs != {} ==> exists b :: (prefix, b) in pairs)
  }

  lemma StepKeepsPrefix(live: Live, d: Delivery, origin: NodeId)
    requires PrefixIsMaximum(live, origin)
    ensures PrefixIsMaximum(LiveStep(live, d), origin)
  {
    hide VerifySignedRoot, AcceptsConsistency;
    if d.DeliverClaim? && d.claim.body.node == origin && ClaimVerdict(live, d.claim) == Consistent {
      MarkKeepsPrefix(live, d.claim.body);
    } else {
      var after := LiveStep(live, d);
      assert PairsOf(after, origin) == PairsOf(live, origin) && PrefixOf(after, origin) == PrefixOf(live, origin);
    }
  }

  lemma MarkKeepsPrefix(live: Live, b: ConsistencyBody)
    requires PrefixIsMaximum(live, b.node) && 0 < b.oldCount
    ensures PrefixIsMaximum(MarkVerified(live, b), b.node)
  {
    var before, after := PairsOf(live, b.node), PairsOf(MarkVerified(live, b), b.node);
    assert after == before + {(b.oldCount, b.newCount)};
    var p := PrefixOf(live, b.node);
    assert (b.oldCount, b.newCount) in after;
    if p > b.oldCount {
      var x :| (p, x) in before;
      assert (p, x) in after;
    }
  }

  /** MAIN: after any run the verified prefix is the largest older count of a recorded pair. */
  lemma {:induction false} PrefixExact(ds: seq<Delivery>, origin: NodeId)
    ensures PrefixIsMaximum(LiveAfter(ds), origin)
    decreases |ds|
  {
    hide LiveStep;
    if ds != [] {
      PrefixExact(ds[..|ds| - 1], origin);
      hide PrefixIsMaximum;
      StepKeepsPrefix(LiveAfter(ds[..|ds| - 1]), ds[|ds| - 1], origin);
    }
  }
}
