/** jjdai/witness.py: the hash-chained, signed, append-only witness log.

    Hashes are free constructors over the bodies they cover, and a signature is the
    fact "this key signed this hash".  Record content is a parameter where it does
    not matter. */
module Witness {

  type Key = nat

  /** canonical_node_id: the node name is a function of the public key alone. */
  datatype NodeId = NodeOf(key: Key)

  datatype Hash<P> = Genesis | HashOf(body: Body<P>)

  /** The signed body of a record. */
  datatype Body<P> = Body(index: int, prev: Hash<P>, node: NodeId, content: P)

  datatype Signature<M> = SignedBy(key: Key, message: M) | Garbage(bits: nat)

  datatype Record<P> = Record(body: Body<P>, thisHash: Hash<P>, sig: Signature<Hash<P>>)

  // ----- Verification -----

  function HeadOf<P>(records: seq<Record<P>>): Hash<P> {
    if records == [] then Genesis else records[|records| - 1].thisHash
  }

  /** Record i of a chain whose earlier records are records[..i]. */
  predicate LinkSound<P(==)>(records: seq<Record<P>>, i: nat, key: Key)
    requires i < |records|
  {
    var r := records[i];
    && r.body.index == i
    && r.body.prev == HeadOf(records[..i])
    && r.thisHash == HashOf(r.body)
    && r.sig == SignedBy(key, r.thisHash)
  }

  predicate Sound<P(==)>(records: seq<Record<P>>, key: Key) {
    forall i :: 0 <= i < |records| ==> LinkSound(records, i, key)
  }

  method VerifyChain<P(==)>(records: seq<Record<P>>, key: Key) returns (ok: bool)
    ensures ok <==> Sound(records, key)
  {
    var prev: Hash<P> := Genesis;
    for i := 0 to |records|
      invariant prev == HeadOf(records[..i])
      invariant forall j :: 0 <= j < i ==> LinkSound(records, j, key)
    {
      var r := records[i];
      var linked := r.body.index == i && r.body.prev == prev;
      if !linked || r.thisHash != HashOf(r.body) || r.sig != SignedBy(key, r.thisHash) {
        assert !LinkSound(records, i, key);
        return false;
      }
      prev := r.thisHash;
    }
    ok := true;
  }

  /** The head re-derived from the bodies alone. */
  function ReplayOf<P>(records: seq<Record<P>>): Hash<P> {
    if records == [] then Genesis
    else HashOf(records[|records| - 1].body.(prev := ReplayOf(records[..|records| - 1])))
  }

  method Replay<P>(records: seq<Record<P>>) returns (head: Hash<P>)
    ensures head == ReplayOf(records)
  {
    head := Genesis;
    for i := 0 to |records|
      invariant head == ReplayOf(records[..i])
    {
      assert records[..i + 1][..i] == records[..i];
      head := HashOf(records[i].body.(prev := head));
    }
    assert records[..|records|] == records;
  }

  lemma SoundPrefix<P>(records: seq<Record<P>>, n: nat, key: Key)
    requires Sound(records, key) && n <= |records|
    ensures Sound(records[..n], key)
  {
    forall i | 0 <= i < n
      ensures LinkSound(records[..n], i, key)
    {
      assert LinkSound(records, i, key) && records[..n][..i] == records[..i];
    }
  }

  lemma SoundExtends<P>(records: seq<Record<P>>, r: Record<P>, key: Key)
    requires Sound(records, key)
    requires r.body.index == |records| && r.body.prev == HeadOf(records) && r.thisHash == HashOf(r.body)
    requires r.sig == SignedBy(key, r.thisHash)
    ensures Sound(records + [r], key)
  {
    var all := records + [r];
    forall i | 0 <= i < |all|
      ensures LinkSound(all, i, key)
    {
      if i < |records| {
        assert LinkSound(records, i, key) && all[..i] == records[..i];
      } else {
        assert all[..i] == records;
      }
    }
  }

  /** MAIN: on a sound chain the offline replay reaches the recorded head. */
  lemma {:induction false} ReplayReachesHead<P>(records: seq<Record<P>>, key: Key)
    requires Sound(records, key)
    ensures ReplayOf(records) == HeadOf(records)
    decreases |records|
  {
    if records != [] {
      var n := |records| - 1;
      SoundPrefix(records, n, key);
      ReplayReachesHead(records[..n], key);
      assert LinkSound(records, n, key);
    }
  }

  lemma OnlyEmptyHeadIsGenesis<P>(records: seq<Record<P>>, key: Key)
    requires Sound(records, key)
    ensures HeadOf(records) == Genesis <==> records == []
  {
    if records != [] {
      assert LinkSound(records, |records| - 1, key);
    }
  }

  /** MAIN: the head hash commits to the whole history: two sound chains with one head carry
      the same bodies, whichever keys signed them. */
  lemma {:induction false} SameHeadSameBodies<P>(a: seq<Record<P>>, b: seq<Record<P>>, keyA: Key, keyB: Key)
    requires Sound(a, keyA) && Sound(b, keyB) && HeadOf(a) == HeadOf(b)
    ensures |a| == |b| && forall i :: 0 <= i < |a| ==> a[i].body == b[i].body
    decreases |a|
  {
    OnlyEmptyHeadIsGenesis(a, keyA);
    OnlyEmptyHeadIsGenesis(b, keyB);
    if a != [] {
      assert LinkSound(a, |a| - 1, keyA);
      assert LinkSound(b, |b| - 1, keyB);
      var n := |a| - 1;
      assert |b| == |a|;
      SoundPrefix(a, n, keyA);
      SoundPrefix(b, n, keyB);
      SameHeadSameBodies(a[..n], b[..n], keyA, keyB);
      forall i | 0 <= i < |a|
        ensures a[i].body == b[i].body
      {
        if i < n {
          assert a[..n][i].body == b[..n][i].body;
        }
      }
    }
  }
}
