/** core/rag_store.py: the chunk table and its namespace roots. */
module RagStore {
  import opened Wrappers
  import opened MerkleTree
  import opened MerkleVerify
  import opened LegacyMerkle

  datatype ContentHash = Sha256(text: string)

  /** A row of the chunk table; its id is its position counted from one. */
  datatype Chunk = Chunk(ns: string, doc: string, text: Option<string>, hash: ContentHash)

  datatype Row = Row(id: nat, hash: ContentHash)

  datatype Proof = Proof(chunk: nat, leaf: ContentHash, path: seq<PathStep<ContentHash>>, root: Digest<ContentHash>)

  /** SELECT id, hash WHERE ns = ? ORDER BY id. */
  function RowsOf(chunks: seq<Chunk>, ns: string): seq<Row> {
    if chunks == [] then []
    else
      var n := |chunks| - 1;
      RowsOf(chunks[..n], ns) + if chunks[n].ns == ns then [Row(n + 1, chunks[n].hash)] else []
  }

  function HashesOf(rows: seq<Row>): (hs: seq<ContentHash>)
    ensures |hs| == |rows| && forall i :: 0 <= i < |rows| ==> hs[i] == rows[i].hash
  {
    seq(|rows|, i requires 0 <= i < |rows| => rows[i].hash)
  }

  function Leaves(chunks: seq<Chunk>, ns: string): seq<ContentHash> {
    HashesOf(RowsOf(chunks, ns))
  }

  function RootOf(chunks: seq<Chunk>, ns: string): Digest<ContentHash> {
    LegacyRoot(Leaves(chunks, ns))
  }

  predicate Holds(chunks: seq<Chunk>, ns: string, id: int) {
    1 <= id <= |chunks| && chunks[id - 1].ns == ns
  }

  /** How many rows of the namespace come before the chunk. */
  function Rank(chunks: seq<Chunk>, ns: string, id: int): nat
    requires Holds(chunks, ns, id)
  {
    |RowsOf(chunks[..id - 1], ns)|
  }

  lemma {:induction false} RowAtRank(chunks: seq<Chunk>, ns: string, id: int)
    requires Holds(chunks, ns, id)
    ensures Rank(chunks, ns, id) < |RowsOf(chunks, ns)|
    ensures RowsOf(chunks, ns)[Rank(chunks, ns, id)] == Row(id, chunks[id - 1].hash)
    decreases |chunks|
  {
    var n := |chunks| - 1;
    if id <= n {
      RowAtRank(chunks[..n], ns, id);
      assert chunks[..n][..id - 1] == chunks[..id - 1];
    }
  }

  /** The rows are the namespace's chunks, each once, in id order. */
  lemma {:induction false} RowsAreTheNamespace(chunks: seq<Chunk>, ns: string)
    ensures forall i :: 0 <= i < |RowsOf(chunks, ns)| ==>
              var r := RowsOf(chunks, ns)[i]; Holds(chunks, ns, r.id) && chunks[r.id - 1].hash == r.hash
    ensures forall i, j :: 0 <= i < j < |RowsOf(chunks, ns)| ==> RowsOf(chunks, ns)[i].id < RowsOf(chunks, ns)[j].id
    ensures forall id :: Holds(chunks, ns, id) ==> Row(id, chunks[id - 1].hash) in RowsOf(chunks, ns)
  {
    if chunks != [] {
      RowsAreTheNamespace(chunks[..|chunks| - 1], ns);
      forall id | Holds(chunks, ns, id)
        ensures Row(id, chunks[id - 1].hash) in RowsOf(chunks, ns)
      {
        RowAtRank(chunks, ns, id);
      }
    }
  }

  function ProofOf(chunks: seq<Chunk>, ns: string, id: int): Option<Proof> {
    if Holds(chunks, ns, id) then
      RowAtRank(chunks, ns, id);
      Some(Proof(id, chunks[id - 1].hash, LegacyPath(Leaves(chunks, ns), Rank(chunks, ns, id)), RootOf(chunks, ns)))
    else None
  }

  /** What verify_proof decides. */
  predicate Proves(p: Proof) {
    Climb(Leaf(p.leaf), p.path) == p.root
  }

  /** Every handed-out proof verifies, against the root of its namespace. */
  lemma ProofVerifies(chunks: seq<Chunk>, ns: string, id: int)
    requires Holds(chunks, ns, id)
    ensures ProofOf(chunks, ns, id).Some? && Proves(ProofOf(chunks, ns, id).value)
    ensures ProofOf(chunks, ns, id).value.root == RootOf(chunks, ns)
  {
    hide LegacyPath, LegacyRoot, RowsOf;
    RowAtRank(chunks, ns, id);
    LegacyComplete(Leaves(chunks, ns), Rank(chunks, ns, id));
  }

  /** Any path whatsoever that verifies against a namespace root ends at a chunk of that namespace. */
  lemma ProvenLeafIsHeld(chunks: seq<Chunk>, ns: string, p: Proof)
    requires Proves(p) && p.root == RootOf(chunks, ns)
    ensures exists id :: Holds(chunks, ns, id) && chunks[id - 1].hash == p.leaf
  {
    hide LegacyRoot, RowsOf, Climb;
    LegacySound(p.leaf, p.path, Leaves(chunks, ns));
    var i :| 0 <= i < |Leaves(chunks, ns)| && Leaves(chunks, ns)[i] == p.leaf;
    RowsAreTheNamespace(chunks, ns);
    assert Holds(chunks, ns, RowsOf(chunks, ns)[i].id);
  }

  // ----- What a tree cannot see -----

  /** The same chunks apart from their text. */
  predicate SameLeaves(a: seq<Chunk>, b: seq<Chunk>) {
    |a| == |b| && forall i :: 0 <= i < |a| ==> a[i].ns == b[i].ns && a[i].hash == b[i].hash
  }

  lemma {:induction false} RowsIgnoreText(a: seq<Chunk>, b: seq<Chunk>, ns: string)
    requires SameLeaves(a, b)
    ensures RowsOf(a, ns) == RowsOf(b, ns)
  {
    if a != [] {
      RowsIgnoreText(a[..|a| - 1], b[..|b| - 1], ns);
    }
  }

  lemma ProofsIgnoreText(a: seq<Chunk>, b: seq<Chunk>, ns: string, id: int)
    requires SameLeaves(a, b)
    ensures RootOf(a, ns) == RootOf(b, ns) && ProofOf(a, ns, id) == ProofOf(b, ns, id)
  {
    hide RowsOf, LegacyPath, LegacyRoot;
    RowsIgnoreText(a, b, ns);
    if Holds(a, ns, id) {
      RowsIgnoreText(a[..id - 1], b[..id - 1], ns);
    }
  }

  /** core/rag_store.py's store object. */
  class Store {
    var chunks: seq<Chunk>

    constructor ()
      ensures chunks == []
    {
      chunks := [];
    }

    method Add(ns: string, doc: string, text: string) returns (id: nat, h: ContentHash)
      modifies this
      ensures chunks == old(chunks) + [Chunk(ns, doc, Some(text), Sha256(text))]
      ensures id == |chunks| && h == Sha256(text)
    {
      h := Sha256(text);
      chunks := chunks + [Chunk(ns, doc, Some(text), h)];
      id := |chunks|;
    }

    method NamespaceRoot(ns: string) returns (root: Digest<ContentHash>)
      ensures root == RootOf(chunks, ns)
    {
      root := MerkleRoot(Leaves(chunks, ns));
    }

    method Prove(ns: string, id: int) returns (p: Option<Proof>)
      ensures p == ProofOf(chunks, ns, id)
    {
      hide RowsOf, LegacyPath, LegacyRoot;
      var rows := RowsOf(chunks, ns);
      RowsAreTheNamespace(chunks, ns);
      if Holds(chunks, ns, id) {
        RowAtRank(chunks, ns, id);
      }
      var i := 0;
      while i < |rows| && rows[i].id != id
        invariant i <= |rows|
        invariant forall j :: 0 <= j < i ==> rows[j].id != id
      {
        i := i + 1;
      }
      if i == |rows| {
        return None;
      }
      assert i == Rank(chunks, ns, id);
      var path := MerkleProof(HashesOf(rows), i);
      var root := MerkleRoot(HashesOf(rows));
      p := Some(Proof(id, rows[i].hash, path, root));
    }
  }
}
