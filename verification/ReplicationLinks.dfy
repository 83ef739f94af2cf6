/** Whether asking for the newest link only is enough (core/replication.py:326-369, node/daemon.py:795-808). */
module ReplicationLinks {
  import opened Wrappers
  import opened MerkleTree
  import opened MerkleVerify
  import opened Witness
  import opened WitnessLog
  import opened Replication
  import opened ReplicationRuns

  // ----- Links, asked for and recorded -----

  /** Nothing is asked for. */
  ghost predicate NothingWanted(live: Live, origin: NodeId) {
    forall p, n :: !Wants(live, origin, p, n)
  }

  /** Every neighbouring pair of held checkpoints has its link. */
  ghost predicate AllLinksRecorded(live: Live, origin: NodeId) {
    forall p, n :: Adjacent(Provable(live, origin), p, n) ==> (p, n) in PairsOf(live, origin)
  }

  /** Every neighbouring pair but the newest has its link. */
  ghost predicate OlderLinksRecorded(live: Live, origin: NodeId) {
    forall p, n :: Adjacent(Provable(live, origin), p, n) && !Newest(Provable(live, origin), n) ==>
      (p, n) in PairsOf(live, origin)
  }

  lemma AllIsOlderAndNewest(live: Live, origin: NodeId)
    ensures AllLinksRecorded(live, origin) <==> OlderLinksRecorded(live, origin) && NothingWanted(live, origin)
  {
    hide Provable, PairsOf, Adjacent, Newest;
    if OlderLinksRecorded(live, origin) && NothingWanted(live, origin) {
      forall p, n | Adjacent(Provable(live, origin), p, n)
        ensures (p, n) in PairsOf(live, origin)
      {
        assert !Wants(live, origin, p, n);
      }
    }
  }

  /** A root of the origin that goes on top of everything held. */
  predicate GoesOnTop(live: Live, d: Delivery, origin: NodeId) {
    && d.DeliverRoot? && VerifySignedRoot(d.env) && d.env.body.node == origin
    && forall c :: c in Held(live, origin) ==> c < d.env.body.count
  }

  /** Everything held for the origin is under the consistency-provable algorithm. */
  ghost predicate AllProvable(live: Live, origin: NodeId) {
    forall c :: c in Held(live, origin) ==> Held(live, origin)[c].body.alg == Rfc6962
  }

  /** The delivery brings no root of another algorithm. */
  predicate Only6962(d: Delivery, origin: NodeId) {
    d.DeliverRoot? && VerifySignedRoot(d.env) && d.env.body.node == origin ==> d.env.body.alg == Rfc6962
  }

  ghost predicate ProvableRun(ds: seq<Delivery>, origin: NodeId) {
    forall d :: d in ds ==> Only6962(d, origin)
  }

  /** Delivery k is a claim over (p, n) found consistent then, whether or not those counts were held. */
  predicate ClaimsPair(ds: seq<Delivery>, k: int, origin: NodeId, p: int, n: int) {
    && 0 <= k < |ds| && ds[k].DeliverClaim? && Covers(ds[k].claim, origin, p, n)
    && ClaimVerdict(LiveAfter(ds[..k]), ds[k].claim) == Consistent
  }

  predicate Covers(c: ConsistencyEnv, origin: NodeId, p: int, n: int) {
    c.body.node == origin && c.body.oldCount == p && c.body.newCount == n
  }

  lemma OneDelivery(live: Live, d: Delivery, origin: NodeId, p: int, n: int)
    ensures (p, n) in PairsOf(LiveStep(live, d), origin) <==>
            || (p, n) in PairsOf(live, origin)
            || (d.DeliverClaim? && Covers(d.claim, origin, p, n) && ClaimVerdict(live, d.claim) == Consistent)
  {
    hide ClaimVerdict, VerifySignedRoot;
  }

  /** A link is recorded exactly when some claim over it was consistent when it came. */
  lemma {:induction false} RecordedIffClaimed(ds: seq<Delivery>, origin: NodeId, p: int, n: int)
    ensures (p, n) in PairsOf(LiveAfter(ds), origin) <==> exists k :: ClaimsPair(ds, k, origin, p, n)
    decreases |ds|
  {
    hide ClaimVerdict, LiveStep, PairsOf, Covers;
    if ds == [] {
      NoPairs(origin);
    } else {
      var m := |ds| - 1;
      RecordedIffClaimed(ds[..m], origin, p, n);
      OneDelivery(LiveAfter(ds[..m]), ds[m], origin, p, n);
      ClaimsOneMore(ds, origin, p, n);
    }
  }

  lemma ClaimsOneMore(ds: seq<Delivery>, origin: NodeId, p: int, n: int)
    requires ds != []
    ensures var init := ds[..|ds| - 1];
            (exists k :: ClaimsPair(ds, k, origin, p, n)) <==>
            (exists k :: ClaimsPair(init, k, origin, p, n)) || ClaimsPair(ds, |ds| - 1, origin, p, n)
  {
    hide ClaimVerdict, LiveAfter, Covers;
    var m := |ds| - 1;
    forall k | 0 <= k < m
      ensures ClaimsPair(ds[..m], k, origin, p, n) <==> ClaimsPair(ds, k, origin, p, n)
    {
      assert ds[..m][..k] == ds[..k];
    }
  }

  lemma NoPairs(origin: NodeId)
    ensures PairsOf(EMPTY, origin) == {}
  {
  }

  /** A link recorded by now and not by delivery j was claimed at j or later. */
  lemma ClaimedSince(ds: seq<Delivery>, j: nat, origin: NodeId, p: int, n: int) returns (k: int)
    requires j <= |ds| && (p, n) in PairsOf(LiveAfter(ds), origin) && (p, n) !in PairsOf(LiveAfter(ds[..j]), origin)
    ensures j <= k && ClaimsPair(ds, k, origin, p, n)
  {
    hide ClaimVerdict, LiveAfter, PairsOf, Covers;
    RecordedIffClaimed(ds, origin, p, n);
    RecordedIffClaimed(ds[..j], origin, p, n);
    forall i | 0 <= i < j
      ensures ClaimsPair(ds[..j], i, origin, p, n) <==> ClaimsPair(ds, i, origin, p, n)
    {
      assert ds[..j][..i] == ds[..i];
    }
    k :| ClaimsPair(ds, k, origin, p, n);
  }

  // ----- One delivery -----

  lemma TopRootStep(live: Live, d: Delivery, origin: NodeId)
    requires AllProvable(live, origin) && Only6962(d, origin) && GoesOnTop(live, d, origin)
    ensures AllProvable(LiveStep(live, d), origin)
    ensures Provable(LiveStep(live, d), origin) == Provable(live, origin) + {d.env.body.count}
    ensures PairsOf(LiveStep(live, d), origin) == PairsOf(live, origin)
  {
    hide VerifySignedRoot, ClaimVerdict;
    var c, after := d.env.body.count, LiveStep(live, d);
    assert Judge(live, d.env) == Stored;
    assert Held(after, origin) == Held(live, origin)[c := d.env];
    assert forall x :: x in Provable(after, origin) <==> x in Provable(live, origin) + {c};
  }

  lemma OtherStep(live: Live, d: Delivery, origin: NodeId)
    requires AllProvable(live, origin) && Only6962(d, origin) && !GoesOnTop(live, d, origin)
    ensures Held(LiveStep(live, d), origin) == Held(live, origin)
  {
    hide VerifySignedRoot, ClaimVerdict;
    if d.DeliverRoot? && d.env.body.node == origin {
      assert Judge(live, d.env) != Upgraded && Judge(live, d.env) != Stored;
    }
  }

  lemma SameHeld(live: Live, after: Live, origin: NodeId)
    requires Held(after, origin) == Held(live, origin)
    ensures Provable(after, origin) == Provable(live, origin)
    ensures AllProvable(live, origin) ==> AllProvable(after, origin)
  {
  }

  /** Roots only go on top, so neighbours stay neighbours. */
  lemma DeliveryKeepsNeighbours(live: Live, d: Delivery, origin: NodeId, p: int, n: int)
    requires AllProvable(live, origin) && Only6962(d, origin)
    ensures AllProvable(LiveStep(live, d), origin)
    ensures Adjacent(Provable(live, origin), p, n) ==> Adjacent(Provable(LiveStep(live, d), origin), p, n)
  {
    hide LiveStep, Only6962;
    if GoesOnTop(live, d, origin) {
      TopRootStep(live, d, origin);
    } else {
      OtherStep(live, d, origin);
      SameHeld(live, LiveStep(live, d), origin);
    }
  }

  lemma {:induction false} NeighboursStay(ds: seq<Delivery>, j: nat, origin: NodeId, p: int, n: int)
    requires ProvableRun(ds, origin) && j <= |ds|
    ensures AllProvable(LiveAfter(ds), origin)
    ensures Adjacent(Provable(LiveAfter(ds[..j]), origin), p, n) ==> Adjacent(Provable(LiveAfter(ds), origin), p, n)
    decreases |ds|
  {
    hide LiveStep, Only6962, Adjacent, Provable;
    if ds == [] {
      assert Held(EMPTY, origin) == map[];
    } else {
      var m := |ds| - 1;
      NeighboursStay(ds[..m], if j <= m then j else m, origin, p, n);
      DeliveryKeepsNeighbours(LiveAfter(ds[..m]), ds[m], origin, p, n);
      if j <= m {
        assert ds[..m][..j] == ds[..j];
      } else {
        assert ds[..j] == ds;
      }
    }
  }

  // ----- Links that lost their place -----

  /** Delivery j puts a root on top while the link (p, n) is asked for. */
  ghost predicate Displaces(ds: seq<Delivery>, j: int, origin: NodeId, p: int, n: int) {
    && 0 <= j < |ds| && GoesOnTop(LiveAfter(ds[..j]), ds[j], origin)
    && Wants(LiveAfter(ds[..j]), origin, p, n)
  }

  /** A claim over it comes later and is consistent then. */
  ghost predicate ClaimedAfter(ds: seq<Delivery>, j: int, origin: NodeId, p: int, n: int) {
    exists k :: j < k && ClaimsPair(ds, k, origin, p, n)
  }

  lemma TopNeighbours(s: set<int>, c: int, p: int, n: int)
    requires (forall x :: x in s ==> x < c) && Adjacent(s + {c}, p, n) && !Newest(s + {c}, n)
    ensures Adjacent(s, p, n)
  {
    assert Newest(s + {c}, c);
  }

  lemma TopDisplaces(live: Live, d: Delivery, origin: NodeId, p: int, n: int)
    requires AllProvable(live, origin) && Only6962(d, origin) && GoesOnTop(live, d, origin)
    requires Adjacent(Provable(LiveStep(live, d), origin), p, n) && !Newest(Provable(LiveStep(live, d), origin), n)
    requires (p, n) !in PairsOf(LiveStep(live, d), origin)
    ensures Adjacent(Provable(live, origin), p, n) && (p, n) !in PairsOf(live, origin)
    ensures Newest(Provable(live, origin), n) ==> Wants(live, origin, p, n)
  {
    hide LiveStep, Only6962, Adjacent, Newest;
    TopRootStep(live, d, origin);
    TopNeighbours(Provable(live, origin), d.env.body.count, p, n);
  }

  /** An older neighbour without its link was displaced while it was asked for. */
  lemma {:induction false} DisplacedWhileWanted(ds: seq<Delivery>, origin: NodeId, p: int, n: int) returns (j: int)
    requires ProvableRun(ds, origin)
    requires Adjacent(Provable(LiveAfter(ds), origin), p, n) && !Newest(Provable(LiveAfter(ds), origin), n)
    requires (p, n) !in PairsOf(LiveAfter(ds), origin)
    ensures Displaces(ds, j, origin, p, n)
    decreases |ds|
  {
    hide LiveStep, Only6962, Adjacent, Newest, PairsOf, Provable;
    if ds == [] {
      EmptyHasNoNeighbours(origin, p, n);
    }
    var m := |ds| - 1;
    var live := LiveAfter(ds[..m]);
    NeighboursStay(ds[..m], 0, origin, p, n);
    if GoesOnTop(live, ds[m], origin) {
      TopDisplaces(live, ds[m], origin, p, n);
      if Newest(Provable(live, origin), n) {
        return m;
      }
    } else {
      OtherStep(live, ds[m], origin);
      SameHeld(live, LiveAfter(ds), origin);
      OneDelivery(live, ds[m], origin, p, n);
    }
    j := DisplacedWhileWanted(ds[..m], origin, p, n);
    assert ds[..m][..j] == ds[..j];
  }

  lemma EmptyHasNoNeighbours(origin: NodeId, p: int, n: int)
    ensures !Adjacent(Provable(EMPTY, origin), p, n)
  {
    assert Held(EMPTY, origin) == map[];
  }

  // ----- When asking is enough -----

  lemma DisplacedMustBeClaimed(ds: seq<Delivery>, origin: NodeId, j: int, p: int, n: int)
    requires ProvableRun(ds, origin) && AllLinksRecorded(LiveAfter(ds), origin) && Displaces(ds, j, origin, p, n)
    ensures ClaimedAfter(ds, j, origin, p, n)
  {
    hide LiveAfter, Adjacent, Newest, Provable, PairsOf, ProvableRun, ClaimVerdict;
    NeighboursStay(ds, j, origin, p, n);
    var k := ClaimedSince(ds, j, origin, p, n);
    assert ds[j].DeliverRoot? && ds[k].DeliverClaim?;
    assert j < k && ClaimsPair(ds, k, origin, p, n);
  }

  lemma ClaimedMeansRecorded(ds: seq<Delivery>, origin: NodeId, p: int, n: int)
    requires ProvableRun(ds, origin) && Adjacent(Provable(LiveAfter(ds), origin), p, n)
    requires NothingWanted(LiveAfter(ds), origin)
    requires forall j :: Displaces(ds, j, origin, p, n) ==> ClaimedAfter(ds, j, origin, p, n)
    ensures (p, n) in PairsOf(LiveAfter(ds), origin)
  {
    hide LiveAfter, Adjacent, Newest, Provable, PairsOf, ProvableRun, ClaimVerdict, Displaces;
    assert !Wants(LiveAfter(ds), origin, p, n);
    if !Newest(Provable(LiveAfter(ds), origin), n) && (p, n) !in PairsOf(LiveAfter(ds), origin) {
      var j := DisplacedWhileWanted(ds, origin, p, n);
      var k :| j < k && ClaimsPair(ds, k, origin, p, n);
      RecordedIffClaimed(ds, origin, p, n);
    }
  }

  /** MAIN: whatever claims are delivered, every neighbouring pair of held checkpoints has its link exactly when none is
      asked for now and each that a newer root displaced was claimed afterwards, consistently. */
  lemma LinksCompleteExactly(ds: seq<Delivery>, origin: NodeId)
    requires ProvableRun(ds, origin)
    ensures AllLinksRecorded(LiveAfter(ds), origin) <==>
            && NothingWanted(LiveAfter(ds), origin)
            && forall j, p, n :: Displaces(ds, j, origin, p, n) ==> ClaimedAfter(ds, j, origin, p, n)
  {
    hide LiveAfter, Adjacent, Newest, Provable, PairsOf, ProvableRun, Displaces, ClaimedAfter;
    if AllLinksRecorded(LiveAfter(ds), origin) {
      forall j, p, n | Displaces(ds, j, origin, p, n)
        ensures ClaimedAfter(ds, j, origin, p, n)
      {
        DisplacedMustBeClaimed(ds, origin, j, p, n);
      }
    } else if && NothingWanted(LiveAfter(ds), origin)
              && forall j, p, n :: Displaces(ds, j, origin, p, n) ==> ClaimedAfter(ds, j, origin, p, n)
    {
      forall p, n | Adjacent(Provable(LiveAfter(ds), origin), p, n)
        ensures (p, n) in PairsOf(LiveAfter(ds), origin)
      {
        ClaimedMeansRecorded(ds, origin, p, n);
      }
    }
  }

  /** No root went on top while a link was still asked for. */
  ghost predicate PromptRun(ds: seq<Delivery>, origin: NodeId) {
    forall j :: 0 <= j < |ds| && GoesOnTop(LiveAfter(ds[..j]), ds[j], origin) ==>
      NothingWanted(LiveAfter(ds[..j]), origin)
  }

  /** In particular: if no root ever went on top while a link was asked for, the links are complete exactly when none is
      asked for now. */
  lemma PromptRunCompletes(ds: seq<Delivery>, origin: NodeId)
    requires ProvableRun(ds, origin) && PromptRun(ds, origin)
    ensures AllLinksRecorded(LiveAfter(ds), origin) <==> NothingWanted(LiveAfter(ds), origin)
  {
    hide LiveAfter, AllLinksRecorded, ProvableRun, ClaimedAfter, Wants;
    forall j, p, n
      ensures !Displaces(ds, j, origin, p, n)
    {
      if 0 <= j < |ds| && GoesOnTop(LiveAfter(ds[..j]), ds[j], origin) {
        assert NothingWanted(LiveAfter(ds[..j]), origin);
      }
    }
    LinksCompleteExactly(ds, origin);
  }

  // ----- What links prove -----

  /** Every neighbouring pair was claimed, consistently, while both its counts were held. */
  ghost predicate LinkedWhileHeld(ds: seq<Delivery>, origin: NodeId) {
    forall p, n :: Adjacent(Provable(LiveAfter(ds), origin), p, n) ==> ClaimedWhileHeld(ds, origin, p, n)
  }

  ghost predicate ClaimedWhileHeld(ds: seq<Delivery>, origin: NodeId, p: int, n: int) {
    exists k :: Recorded(ds, k, origin, p, n)
  }

  lemma {:induction false} Successor(s: set<int>, c: int, n: int) returns (next: int)
    requires c in s && n in s && c < n
    ensures Adjacent(s, c, next) && next <= n
    decreases n - c
  {
    if x :| x in s && c < x < n {
      next := Successor(s, c, x);
    } else {
      next := n;
    }
  }

  lemma {:induction false} LinksReachNewest(live: Live, origin: NodeId, c: int, newest: seq<RecordHash>)
    requires forall p, n :: Adjacent(Provable(live, origin), p, n) ==> Linked(live, origin, p, n)
    requires c in Provable(live, origin) && |newest| in Provable(live, origin) && c <= |newest|
    requires Held(live, origin)[|newest|].body.root == Mth(newest)
    ensures 0 <= c && Held(live, origin)[c].body.root == Mth(newest[..c])
    decreases |newest| - c
  {
    hide Mth, AcceptsConsistency, PairsOf, Adjacent;
    if c == |newest| {
      assert newest[..c] == newest;
    } else {
      var next := Successor(Provable(live, origin), c, |newest|);
      NextIsProvable(Provable(live, origin), c, next);
      LinksReachNewest(live, origin, next, newest);
      assert Linked(live, origin, c, next);
      OneLinkDown(live, origin, c, next, newest);
    }
  }

  lemma NextIsProvable(s: set<int>, c: int, next: int)
    requires Adjacent(s, c, next)
    ensures next in s && c < next
  {
  }

  lemma OneLinkDown(live: Live, origin: NodeId, a: int, b: int, newest: seq<RecordHash>)
    requires Linked(live, origin, a, b) && b <= |newest| && Held(live, origin)[b].body.root == Mth(newest[..b])
    ensures 0 <= a && Held(live, origin)[a].body.root == Mth(newest[..a])
  {
    hide Mth, AcceptsConsistency;
    var held := Held(live, origin);
    var proof :| AcceptsConsistency(a, b, held[a].body.root, held[b].body.root, proof);
    ConsistencyExact(a, newest[..b], held[a].body.root, proof);
    assert newest[..b][..a] == newest[..a];
  }

  lemma ProvableRunSettles(ds: seq<Delivery>, k: int, origin: NodeId, n: int)
    requires ProvableRun(ds, origin)
    ensures SettledAfter(ds, k, origin, n)
  {
    hide VerifySignedRoot;
    forall j | 0 <= j < |ds| && k < j
      ensures StaysRfc6962(ds[j], origin, n)
    {
      assert Only6962(ds[j], origin);
    }
  }

  /** MAIN: the promise holds of every run whose neighbouring pairs were each claimed while held, whatever else was
      claimed: every held checkpoint is the head of a prefix of the newest tree. */
  lemma LinksProvePrefixes(ds: seq<Delivery>, origin: NodeId, c: int, newest: seq<RecordHash>)
    requires ProvableRun(ds, origin) && LinkedWhileHeld(ds, origin)
    requires c in Provable(LiveAfter(ds), origin) && |newest| in Provable(LiveAfter(ds), origin) && c <= |newest|
    requires Held(LiveAfter(ds), origin)[|newest|].body.root == Mth(newest)
    ensures 0 <= c && Held(LiveAfter(ds), origin)[c].body.root == Mth(newest[..c])
  {
    hide LiveAfter, Mth, Linked, Provable, Adjacent, Recorded;
    forall p, n | Adjacent(Provable(LiveAfter(ds), origin), p, n)
      ensures Linked(LiveAfter(ds), origin, p, n)
    {
      assert ClaimedWhileHeld(ds, origin, p, n);
      var k :| Recorded(ds, k, origin, p, n);
      ProvableRunSettles(ds, k, origin, p);
      ProvableRunSettles(ds, k, origin, n);
      RecordedLinkLasts(ds, k, origin, p, n);
    }
    LinksReachNewest(LiveAfter(ds), origin, c, newest);
  }

  /** No claim was accepted before both its counts were held. */
  ghost predicate TimelyRun(ds: seq<Delivery>, origin: NodeId) {
    forall k, p, n :: ClaimsPair(ds, k, origin, p, n) ==> Recorded(ds, k, origin, p, n)
  }

  /** Then complete links are links claimed while held, and prove what the store promises. */
  lemma TimelyLinksAreHeld(ds: seq<Delivery>, origin: NodeId)
    requires TimelyRun(ds, origin)
    ensures AllLinksRecorded(LiveAfter(ds), origin) <==> LinkedWhileHeld(ds, origin)
  {
    hide LiveAfter, Provable, Adjacent, PairsOf, ClaimVerdict;
    forall p, n
      ensures (p, n) in PairsOf(LiveAfter(ds), origin) <==> ClaimedWhileHeld(ds, origin, p, n)
    {
      RecordedIffClaimed(ds, origin, p, n);
      if k :| Recorded(ds, k, origin, p, n) {
        assert ClaimsPair(ds, k, origin, p, n);
      }
    }
  }

  // ----- The origin's own reply -----

  /** MAIN: an honest origin answers a request for (p, n) with a claim from p to the length its chain has by then.  The
      claim is never taken for inconsistent, and it records the link asked for exactly when that length is n. */
  lemma ReplyRecordsAskedIff(live: Live, key: Key, chain: seq<Entry>, p: int, n: int, length: nat, ts: int)
    requires HonestlyHeld(live, key, chain) && Wants(live, NodeOf(key), p, n) && 0 < p <= length <= |chain|
    ensures MakeConsistency(chain[..length], key, p, ts).Some?
    ensures var reply := MakeConsistency(chain[..length], key, p, ts).value;
            && ClaimVerdict(live, reply) != Inconsistent
            && ((p, n) in PairsOf(LiveStep(live, DeliverClaim(reply)), NodeOf(key)) <==> length == n)
  {
    hide AcceptsConsistency, ConsistencyProof, Mth, Adjacent, Newest;
    MadeEnvelopesAreHonest(chain, length, key, p, ts);
    var reply := MakeConsistency(chain[..length], key, p, ts).value;
    assert Covers(reply, NodeOf(key), p, length);
    HonestClaimIsConsistent(live, key, chain, reply);
    if length == n {
      AskedIsNotRejected(live, key, chain, p, n, reply);
    }
    hide MakeConsistency, ClaimVerdict, LiveStep, HonestlyHeld;
    OneDelivery(live, DeliverClaim(reply), NodeOf(key), p, n);
  }

  lemma AskedIsNotRejected(live: Live, key: Key, chain: seq<Entry>, p: int, n: int, reply: ConsistencyEnv)
    requires HonestlyHeld(live, key, chain) && Wants(live, NodeOf(key), p, n)
    requires Covers(reply, NodeOf(key), p, n) && ClaimReadable(reply)
    ensures ClaimVerdict(live, reply) != Rejected
  {
    hide AcceptsConsistency, Mth, HonestRoot;
    WantedIsProvable(live, NodeOf(key), p, n);
  }

  lemma WantedIsProvable(live: Live, origin: NodeId, p: int, n: int)
    requires Wants(live, origin, p, n)
    ensures p in Provable(live, origin) && n in Provable(live, origin)
  {
  }

  // ----- A missed link is never asked for again -----

  lemma ProvableStays(live: Live, d: Delivery, origin: NodeId, m: int)
    requires m in Provable(live, origin) && StaysRfc6962(d, origin, m)
    ensures m in Provable(LiveStep(live, d), origin)
  {
    hide ClaimVerdict, VerifySignedRoot;
  }

  /** Once a newer root is held the link below it is not asked for, whatever is delivered, unless the algorithm of
      the newer root is changed. */
  lemma {:induction false} MissedLinkNeverWanted(live: Live, origin: NodeId, p: int, n: int, m: int, ds: seq<Delivery>)
    requires m in Provable(live, origin) && n < m && forall d :: d in ds ==> StaysRfc6962(d, origin, m)
    ensures m in Provable(Continue(live, ds), origin) && !Wants(Continue(live, ds), origin, p, n)
    decreases |ds|
  {
    hide Provable, StaysRfc6962, LiveStep;
    if ds != [] {
      MissedLinkNeverWanted(live, origin, p, n, m, ds[..|ds| - 1]);
      ProvableStays(Continue(live, ds[..|ds| - 1]), ds[|ds| - 1], origin, m);
    }
  }

  /** A head of `n` records, verified, under the consistency-provable algorithm. */
  predicate HeadAt(env: RootEnv, origin: NodeId, n: int) {
    VerifySignedRoot(env) && env.body.node == origin && env.body.count == n && env.body.alg == Rfc6962
  }

  function Holding(origin: NodeId, roots: map<int, RootEnv>): Live {
    Live(map[origin := roots], map[], map[], map[])
  }

  lemma ThreeRootsHeld(origin: NodeId, a: RootEnv, b: RootEnv, c: RootEnv)
    requires HeadAt(a, origin, 1) && HeadAt(b, origin, 2) && HeadAt(c, origin, 3)
    ensures LiveAfter([DeliverRoot(a)]) == Holding(origin, map[1 := a])
    ensures LiveAfter([DeliverRoot(a), DeliverRoot(b)]) == Holding(origin, map[1 := a, 2 := b])
    ensures LiveAfter([DeliverRoot(a), DeliverRoot(b), DeliverRoot(c)]) == Holding(origin, map[1 := a, 2 := b, 3 := c])
  {
    hide VerifySignedRoot;
    var ds := [DeliverRoot(a), DeliverRoot(b), DeliverRoot(c)];
    assert ds[..1] == [DeliverRoot(a)] && ds[..2] == [DeliverRoot(a), DeliverRoot(b)] && ds[..1][..0] == [];
    assert ds[..2][..1] == ds[..1];
    assert Held(EMPTY, origin) == map[];
    assert LiveStep(EMPTY, DeliverRoot(a)) == Holding(origin, map[1 := a]);
    assert LiveStep(Holding(origin, map[1 := a]), DeliverRoot(b)) == Holding(origin, map[1 := a, 2 := b]);
    var two, three := map[1 := a, 2 := b], map[1 := a, 2 := b, 3 := c];
    assert LiveStep(Holding(origin, two), DeliverRoot(c)) == Holding(origin, three);
  }

  /** Three heads of one honest chain, the link from 1 to 2 not yet sent when the third arrives: the link from 2 to 3
      is asked for and sent, nothing more is asked for, and the link from 1 to 2 is missing. */
  lemma LateLinkExample(a: RootEnv, b: RootEnv, c: RootEnv, link: ConsistencyEnv, origin: NodeId)
    requires HeadAt(a, origin, 1) && HeadAt(b, origin, 2) && HeadAt(c, origin, 3)
    requires ClaimStatus(link, Some(b), Some(c)) == Consistent
    requires link.body.node == origin && link.body.oldCount == 2 && link.body.newCount == 3
    ensures var before := LiveAfter([DeliverRoot(a), DeliverRoot(b), DeliverRoot(c)]);
            var after := LiveStep(before, DeliverClaim(link));
            Wants(before, origin, 2, 3) && NothingWanted(after, origin) && !AllLinksRecorded(after, origin)
  {
    hide VerifySignedRoot, ClaimStatus;
    ThreeRootsHeld(origin, a, b, c);
    var before := LiveAfter([DeliverRoot(a), DeliverRoot(b), DeliverRoot(c)]);
    hide LiveAfter;
    var after := LiveStep(before, DeliverClaim(link));
    var held := map[1 := a, 2 := b, 3 := c];
    assert Held(before, origin) == held && Held(after, origin) == held;
    assert PairsOf(before, origin) == {} && PairsOf(after, origin) == {(2, 3)};
    ThreeProvable(before, origin, held);
    ThreeProvable(after, origin, held);
    hide Provable;
    assert Adjacent(Provable(after, origin), 1, 2);
    forall p, n
      ensures !Wants(after, origin, p, n)
    {
    }
  }

  lemma ThreeProvable(live: Live, origin: NodeId, held: map<int, RootEnv>)
    requires Held(live, origin) == held && held.Keys == {1, 2, 3}
    requires forall c :: c in held ==> held[c].body.alg == Rfc6962
    ensures Provable(live, origin) == {1, 2, 3}
  {
  }

  /** The same three heads, with the link from 1 to 2 arriving after the third head: it is recorded when it comes, and
      the links are complete, although it was displaced while asked for. */
  lemma LateReplyExample(a: RootEnv, b: RootEnv, c: RootEnv, late: ConsistencyEnv, link: ConsistencyEnv, origin: NodeId)
    requires HeadAt(a, origin, 1) && HeadAt(b, origin, 2) && HeadAt(c, origin, 3)
    requires ClaimStatus(late, Some(a), Some(b)) == Consistent && Covers(late, origin, 1, 2)
    requires ClaimStatus(link, Some(b), Some(c)) == Consistent && Covers(link, origin, 2, 3)
    ensures var roots := [DeliverRoot(a), DeliverRoot(b), DeliverRoot(c)];
            var after := LiveStep(LiveStep(LiveAfter(roots), DeliverClaim(late)), DeliverClaim(link));
            Displaces(roots, 2, origin, 1, 2) && AllLinksRecorded(after, origin)
  {
    hide VerifySignedRoot, ClaimStatus;
    var roots := [DeliverRoot(a), DeliverRoot(b), DeliverRoot(c)];
    ThreeRootsHeld(origin, a, b, c);
    assert roots[..2] == [DeliverRoot(a), DeliverRoot(b)];
    var two, three := LiveAfter(roots[..2]), LiveAfter(roots);
    hide LiveAfter;
    SecondIsWanted(two, origin, a, b);
    assert GoesOnTop(two, DeliverRoot(c), origin);
    var one := LiveStep(three, DeliverClaim(late));
    var after := LiveStep(one, DeliverClaim(link));
    var held := map[1 := a, 2 := b, 3 := c];
    assert Held(one, origin) == held && PairsOf(one, origin) == {(1, 2)};
    assert Held(after, origin) == held && PairsOf(after, origin) == {(1, 2), (2, 3)};
    ThreeProvable(after, origin, held);
  }

  lemma SecondIsWanted(two: Live, origin: NodeId, a: RootEnv, b: RootEnv)
    requires two == Holding(origin, map[1 := a, 2 := b]) && HeadAt(a, origin, 1) && HeadAt(b, origin, 2)
    ensures Wants(two, origin, 1, 2)
  {
    hide VerifySignedRoot;
    assert Held(two, origin) == map[1 := a, 2 := b];
    assert forall x :: x in Provable(two, origin) <==> x in {1, 2};
  }

  // ----- Links that cannot be had -----

  lemma ClaimsStartAtOne(live: Live, c: ConsistencyEnv)
    requires ClaimVerdict(live, c) == Consistent
    ensures c.body.oldCount > 0
  {
  }

  /** A head over no records can be held, and in no run is it linked to anything: claims start at one. */
  lemma EmptyHeadStaysUnlinked(ds: seq<Delivery>, origin: NodeId, n: int)
    requires n > 0 && {0, n} <= Provable(LiveAfter(ds), origin)
    ensures !AllLinksRecorded(LiveAfter(ds), origin)
  {
    hide LiveAfter, Provable, Adjacent, PairsOf, ClaimVerdict;
    var next := Successor(Provable(LiveAfter(ds), origin), 0, n);
    RecordedIffClaimed(ds, origin, 0, next);
    forall k
      ensures !ClaimsPair(ds, k, origin, 0, next)
    {
      if 0 <= k < |ds| && ds[k].DeliverClaim? && ClaimVerdict(LiveAfter(ds[..k]), ds[k].claim) == Consistent {
        ClaimsStartAtOne(LiveAfter(ds[..k]), ds[k].claim);
      }
    }
  }

  /** A recorded link is never asked for again, whatever is delivered. */
  lemma {:induction false} RecordedNeverWanted(live: Live, origin: NodeId, p: int, n: int, ds: seq<Delivery>)
    requires (p, n) in PairsOf(live, origin)
    ensures (p, n) in PairsOf(Continue(live, ds), origin) && !Wants(Continue(live, ds), origin, p, n)
    decreases |ds|
  {
    hide PairsOf, LiveStep, Provable;
    if ds != [] {
      RecordedNeverWanted(live, origin, p, n, ds[..|ds| - 1]);
      OneDelivery(Continue(live, ds[..|ds| - 1]), ds[|ds| - 1], origin, p, n);
    }
  }

  /** A claim over counts not held is recorded too.  Through any deliveries after it the link is not asked for; so when
      roots come to those counts that nothing joins, the link between them counts as recorded. */
  lemma UnheldClaimSilences(link: ConsistencyEnv, a: RootEnv, b: RootEnv, first: seq<RecordHash>,
                            second: seq<RecordHash>, ds: seq<Delivery>)
    requires ClaimStatus(link, None, None) == Consistent && link.body.oldCount < link.body.newCount
    requires HeadAt(a, link.body.node, link.body.oldCount) && HeadAt(b, link.body.node, link.body.newCount)
    requires a.body.root == Mth(first) && b.body.root == Mth(second) && |first| == a.body.count
    requires |second| == b.body.count
    requires !(first <= second)
    ensures var origin, marked := link.body.node, LiveStep(EMPTY, DeliverClaim(link));
            var after := LiveStep(LiveStep(marked, DeliverRoot(a)), DeliverRoot(b));
            && !Wants(Continue(marked, ds), origin, link.body.oldCount, link.body.newCount)
            && AllLinksRecorded(after, origin) && NothingWanted(after, origin)
            && !Linked(after, origin, link.body.oldCount, link.body.newCount)
  {
    hide ClaimStatus, VerifySignedRoot, Mth, AcceptsConsistency, Linked, LiveStep, Wants;
    var origin, lo, hi := link.body.node, link.body.oldCount, link.body.newCount;
    var marked := LiveStep(EMPTY, DeliverClaim(link));
    MarkedEarly(link);
    RecordedNeverWanted(marked, origin, lo, hi, ds);
    var one := LiveStep(marked, DeliverRoot(a));
    RootOnTop(marked, a, origin);
    var after := LiveStep(one, DeliverRoot(b));
    RootOnTop(one, b, origin);
    assert Held(after, origin) == map[lo := a, hi := b];
    TwoHeld(after, origin, lo, hi);
    if Linked(after, origin, lo, hi) {
      assert second[..hi] == second;
      OneLinkDown(after, origin, lo, hi, second);
      MthInjective(first, second[..lo]);
    }
  }

  lemma MarkedEarly(link: ConsistencyEnv)
    requires ClaimStatus(link, None, None) == Consistent
    ensures var origin, marked := link.body.node, LiveStep(EMPTY, DeliverClaim(link));
            Held(marked, origin) == map[] && PairsOf(marked, origin) == {(link.body.oldCount, link.body.newCount)}
  {
    hide ClaimStatus;
    assert Held(EMPTY, link.body.node) == map[] && PairsOf(EMPTY, link.body.node) == {};
  }

  lemma RootOnTop(live: Live, env: RootEnv, origin: NodeId)
    requires GoesOnTop(live, DeliverRoot(env), origin)
    ensures var after := LiveStep(live, DeliverRoot(env));
            Held(after, origin) == Held(live, origin)[env.body.count := env]
            && PairsOf(after, origin) == PairsOf(live, origin)
  {
    hide VerifySignedRoot;
    assert Judge(live, env) == Stored;
  }

  lemma TwoHeld(live: Live, origin: NodeId, a: int, b: int)
    requires Held(live, origin).Keys == {a, b} && a < b && (a, b) in PairsOf(live, origin)
    ensures AllLinksRecorded(live, origin) && NothingWanted(live, origin)
  {
    forall p, n | Adjacent(Provable(live, origin), p, n)
      ensures (p, n) in PairsOf(live, origin)
    {
      assert p in {a, b} && n in {a, b};
    }
    AllIsOlderAndNewest(live, origin);
  }
}
