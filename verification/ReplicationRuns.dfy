/** Consistency results over whole runs of the replica store (core/replication.py:277-369). */
module ReplicationRuns {
  import opened Wrappers
  import opened MerkleTree
  import opened MerkleVerify
  import opened Witness
  import opened Ranges
  import opened Replication

  // ----- Results recorded during a run -----

  /** The delivery brings no root of another algorithm to this count. */
  predicate StaysRfc6962(d: Delivery, origin: NodeId, count: int) {
    d.DeliverRoot? && VerifySignedRoot(d.env) && d.env.body.node == origin && d.env.body.count == count
    ==> d.env.body.alg == Rfc6962
  }

  /** Delivery k was found consistent while the roots at both its counts were held. */
  predicate Recorded(ds: seq<Delivery>, k: int, origin: NodeId, a: int, b: int) {
    && 0 <= k < |ds| && ds[k].DeliverClaim?
    && var c := ds[k].claim;
       && c.body.node == origin && c.body.oldCount == a && c.body.newCount == b
       && ClaimVerdict(LiveAfter(ds[..k]), c) == Consistent
       && a in Held(LiveAfter(ds[..k]), origin) && b in Held(LiveAfter(ds[..k]), origin)
  }

  /** No root of another algorithm reaches count n after delivery k. */
  predicate SettledAfter(ds: seq<Delivery>, k: int, origin: NodeId, n: int) {
    forall j :: 0 <= j < |ds| && k < j ==> StaysRfc6962(ds[j], origin, n)
  }

  lemma DeliveryKeepsLink(live: Live, d: Delivery, origin: NodeId, a: int, b: int)
    requires Linked(live, origin, a, b) && StaysRfc6962(d, origin, a) && StaysRfc6962(d, origin, b)
    ensures Linked(LiveStep(live, d), origin, a, b)
  {
    hide AcceptsConsistency;
    LinkKeptUnlessUpgraded(live, origin, a, b, d);
  }

  /** MAIN: a result recorded at any point of a run links the roots held at its end, unless the algorithm was
      changed at one of its counts afterwards. */
  lemma {:induction false} RecordedLinkLasts(ds: seq<Delivery>, k: int, origin: NodeId, a: int, b: int)
    requires Recorded(ds, k, origin, a, b) && SettledAfter(ds, k, origin, a) && SettledAfter(ds, k, origin, b)
    ensures Linked(LiveAfter(ds), origin, a, b)
    decreases |ds|
  {
    hide Linked, ClaimVerdict, Held;
    var n := |ds| - 1;
    var init := ds[..n];
    if k == n {
      ConsistentResultLinks(LiveAfter(init), ds[n].claim);
    } else {
      assert init[..k] == ds[..k] && init[k] == ds[k];
      assert forall j :: 0 <= j < n ==> init[j] == ds[j];
      RecordedLinkLasts(init, k, origin, a, b);
      DeliveryKeepsLink(LiveAfter(init), ds[n], origin, a, b);
    }
  }

  /** MAIN: results recorded at any points of a run compose: the tree at the first count is a prefix of the tree at
      the last. */
  lemma RecordedResultsCompose(ds: seq<Delivery>, origin: NodeId, counts: seq<int>, at: seq<int>,
                               first: seq<RecordHash>, newest: seq<RecordHash>)
    requires |counts| == |at| + 1 && counts[0] == |first| && counts[|at|] == |newest|
    requires forall i :: 0 <= i < |at| ==> Recorded(ds, at[i], origin, counts[i], counts[i + 1])
    requires forall i :: 0 <= i < |at| ==> SettledAfter(ds, at[i], origin, counts[i])
                                           && SettledAfter(ds, at[i], origin, counts[i + 1])
    requires |first| in Held(LiveAfter(ds), origin) && |newest| in Held(LiveAfter(ds), origin)
    requires Held(LiveAfter(ds), origin)[|first|].body.root == Mth(first)
    requires Held(LiveAfter(ds), origin)[|newest|].body.root == Mth(newest)
    ensures first <= newest
  {
    hide LiveAfter, Mth, Recorded, SettledAfter, Linked;
    forall i | 0 <= i < |counts| - 1
      ensures Linked(LiveAfter(ds), origin, counts[i], counts[i + 1])
    {
      RecordedLinkLasts(ds, at[i], origin, counts[i], counts[i + 1]);
    }
    LinkedTreesArePrefixes(LiveAfter(ds), origin, counts, first, newest);
  }

  // ----- Which link is asked for -----

  /** The counts held under the consistency-provable algorithm. */
  function Provable(live: Live, origin: NodeId): set<int> {
    set c | c in Held(live, origin) && Held(live, origin)[c].body.alg == Rfc6962
  }

  predicate Adjacent(s: set<int>, p: int, n: int) {
    p in s && n in s && p < n && forall x :: x in s ==> !(p < x < n)
  }

  predicate Newest(s: set<int>, n: int) {
    forall x :: x in s ==> x <= n
  }

  predicate Wants(live: Live, origin: NodeId, p: int, n: int) {
    Adjacent(Provable(live, origin), p, n) && Newest(Provable(live, origin), n) && (p, n) !in PairsOf(live, origin)
  }

  /** `consistency_wanted`: the newest pair, unless it is recorded already. */
  method ConsistencyWanted(live: Live, origin: NodeId) returns (pair: Option<(int, int)>)
    ensures pair.Some? ==> Wants(live, origin, pair.value.0, pair.value.1)
    ensures pair.None? ==> forall p, n :: !Wants(live, origin, p, n)
  {
    hide Provable, PairsOf;
    var v2 := Sorted(Provable(live, origin));
    if |v2| < 2 {
      assert forall x, y :: x in v2 && y in v2 ==> x == y;
      return None;
    }
    var p, n := v2[|v2| - 2], v2[|v2| - 1];
    LastTwo(v2, Provable(live, origin));
    if (p, n) in PairsOf(live, origin) {
      return None;
    }
    pair := Some((p, n));
  }

  lemma LastTwo(v: seq<int>, s: set<int>)
    requires |v| >= 2 && Increasing(v) && forall x :: x in v <==> x in s
    ensures forall p, n :: Adjacent(s, p, n) && Newest(s, n) <==> p == v[|v| - 2] && n == v[|v| - 1]
  {
    var a, b := v[|v| - 2], v[|v| - 1];
    assert a in s && b in s;
    forall x | x in s
      ensures x <= b && !(a < x < b)
    {
      var i :| 0 <= i < |v| && v[i] == x;
    }
    assert Adjacent(s, a, b) && Newest(s, b);
    forall p, n | Adjacent(s, p, n) && Newest(s, n)
      ensures p == a && n == b
    {
      assert n == b;
    }
  }
}
