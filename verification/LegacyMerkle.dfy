/** The duplicate-padding tree of jjdai/merkle.py, still used for namespace roots. */
module LegacyMerkle {
  import opened MerkleTree
  import opened MerkleVerify

  /** An odd level repeats its last node. */
  function Padded<B>(level: seq<Digest<B>>): (p: seq<Digest<B>>)
    requires level != []
    ensures |p| % 2 == 0 && |level| <= |p| <= |level| + 1 && level <= p
  {
    if |level| % 2 == 1 then level + [level[|level| - 1]] else level
  }

  function NextLevel<B>(level: seq<Digest<B>>): (up: seq<Digest<B>>)
    requires level != []
    ensures |up| == (|level| + 1) / 2
  {
    var p := Padded(level);
    seq(|p| / 2, i requires 0 <= i < |p| / 2 => Node(p[2 * i], p[2 * i + 1]))
  }

  function RootOfLevel<B>(level: seq<Digest<B>>): Digest<B>
    requires level != []
    decreases |level|
  {
    if |level| == 1 then level[0] else RootOfLevel(NextLevel(level))
  }

  function LeafLevel<B>(leaves: seq<B>): (level: seq<Digest<B>>)
    ensures |level| == |leaves| && forall i :: 0 <= i < |leaves| ==> level[i] == Leaf(leaves[i])
  {
    seq(|leaves|, i requires 0 <= i < |leaves| => Leaf(leaves[i]))
  }

  /** The namespace root; the empty list has the all-zero root. */
  function LegacyRoot<B>(leaves: seq<B>): Digest<B> {
    if leaves == [] then Opaque(0) else RootOfLevel(LeafLevel(leaves))
  }

  function StepAt<B>(level: seq<Digest<B>>, i: nat): PathStep<B>
    requires i < |level|
  {
    if i % 2 == 0 then PathStep(R, Padded(level)[i + 1]) else PathStep(L, Padded(level)[i - 1])
  }

  function PathInLevel<B>(level: seq<Digest<B>>, i: nat): seq<PathStep<B>>
    requires i < |level|
    decreases |level|
  {
    if |level| == 1 then [] else [StepAt(level, i)] + PathInLevel(NextLevel(level), i / 2)
  }

  function LegacyPath<B>(leaves: seq<B>, i: nat): seq<PathStep<B>>
    requires i < |leaves|
  {
    PathInLevel(LeafLevel(leaves), i)
  }

  method MerkleRoot<B>(leaves: seq<B>) returns (root: Digest<B>)
    ensures root == LegacyRoot(leaves)
  {
    if leaves == [] {
      return Opaque(0);
    }
    var level := LeafLevel(leaves);
    while |level| > 1
      invariant level != [] && RootOfLevel(level) == LegacyRoot(leaves)
      decreases |level|
    {
      level := NextLevel(level);
    }
    root := level[0];
  }

  method MerkleProof<B>(leaves: seq<B>, index: nat) returns (proof: seq<PathStep<B>>)
    requires index < |leaves|
    ensures proof == LegacyPath(leaves, index)
  {
    hide NextLevel, StepAt, LeafLevel;
    var level := LeafLevel(leaves);
    var idx: nat := index;
    proof := [];
    while |level| > 1
      invariant idx < |level|
      invariant proof + PathInLevel(level, idx) == LegacyPath(leaves, index)
      decreases |level|
    {
      Associate(proof, [StepAt(level, idx)], PathInLevel(NextLevel(level), idx / 2));
      proof := proof + [StepAt(level, idx)];
      level, idx := NextLevel(level), idx / 2;
    }
  }

  method MerkleVerifyPath<B(==)>(leaf: B, proof: seq<PathStep<B>>, root: Digest<B>) returns (ok: bool)
    ensures ok <==> Climb(Leaf(leaf), proof) == root
  {
    var h := Leaf(leaf);
    for j := 0 to |proof|
      invariant h == Climb(Leaf(leaf), proof[..j])
    {
      assert proof[..j + 1][..j] == proof[..j];
      h := Combine(h, proof[j]);
    }
    assert proof[..|proof|] == proof;
    ok := h == root;
  }

  // ----- Completeness -----

  lemma {:induction false} ClimbFromFront<B>(h: Digest<B>, step: PathStep<B>, rest: seq<PathStep<B>>)
    ensures Climb(h, [step] + rest) == Climb(Combine(h, step), rest)
    decreases |rest|
  {
    var p := [step] + rest;
    if rest == [] {
      assert p[..0] == [];
    } else {
      var t := |rest| - 1;
      ClimbFromFront(h, step, rest[..t]);
      assert p[..|p| - 1] == [step] + rest[..t];
    }
  }

  /** A step of the path leads from node i of a level to node i/2 of the next. */
  lemma StepClimbsOneLevel<B>(level: seq<Digest<B>>, i: nat)
    requires i < |level|
    ensures i / 2 < |NextLevel(level)| && Combine(level[i], StepAt(level, i)) == NextLevel(level)[i / 2]
  {
    if i % 2 == 0 {
      assert i == 2 * (i / 2);
    } else {
      assert i == 2 * (i / 2) + 1;
    }
  }

  lemma {:induction false} PathInLevelClimbs<B>(level: seq<Digest<B>>, i: nat)
    requires i < |level|
    ensures Climb(level[i], PathInLevel(level, i)) == RootOfLevel(level)
    decreases |level|
  {
    if |level| > 1 {
      StepClimbsOneLevel(level, i);
      PathInLevelClimbs(NextLevel(level), i / 2);
      ClimbFromFront(level[i], StepAt(level, i), PathInLevel(NextLevel(level), i / 2));
    }
  }

  /** MAIN: every proof the store hands out verifies against its root. */
  lemma LegacyComplete<B>(leaves: seq<B>, i: nat)
    requires i < |leaves|
    ensures Climb(Leaf(leaves[i]), LegacyPath(leaves, i)) == LegacyRoot(leaves)
  {
    PathInLevelClimbs(LeafLevel(leaves), i);
  }

  // ----- Leaf soundness -----

  /** Some leaf below the digest holds `b`. */
  predicate Carries<B(==)>(d: Digest<B>, b: B) {
    match d
    case Leaf(x) => x == b
    case Node(l, r) => Carries(l, b) || Carries(r, b)
    case _ => false
  }

  lemma {:induction false} ClimbCarries<B>(b: B, h: Digest<B>, proof: seq<PathStep<B>>)
    requires Carries(h, b)
    ensures Carries(Climb(h, proof), b)
    decreases |proof|
  {
    if proof != [] {
      ClimbCarries(b, h, proof[..|proof| - 1]);
    }
  }

  lemma {:induction false} LevelCarries<B>(level: seq<Digest<B>>, b: B)
    requires level != [] && Carries(RootOfLevel(level), b)
    ensures exists i :: 0 <= i < |level| && Carries(level[i], b)
    decreases |level|
  {
    if |level| > 1 {
      hide NextLevel, Carries;
      var up := NextLevel(level);
      LevelCarries(up, b);
      var j :| 0 <= j < |up| && Carries(up[j], b);
      var i := PairCarries(level, j, b);
      assert Carries(level[i], b);
    }
  }

  /** What a node carries, one of the two below it carries. */
  lemma PairCarries<B>(level: seq<Digest<B>>, j: nat, b: B) returns (i: nat)
    requires level != [] && j < |NextLevel(level)| && Carries(NextLevel(level)[j], b)
    ensures i < |level| && Carries(level[i], b)
  {
    var p := Padded(level);
    assert NextLevel(level)[j] == Node(p[2 * j], p[2 * j + 1]);
    if Carries(p[2 * j], b) {
      i := 2 * j;
    } else {
      i := if 2 * j + 1 < |level| then 2 * j + 1 else |level| - 1;
    }
    assert p[2 * j] == level[2 * j] && (!Carries(p[2 * j], b) ==> p[2 * j + 1] == level[i]);
  }

  /** MAIN: no path whatsoever makes a foreign leaf verify against a namespace root. */
  lemma LegacySound<B>(b: B, proof: seq<PathStep<B>>, leaves: seq<B>)
    requires Climb(Leaf(b), proof) == LegacyRoot(leaves)
    ensures b in leaves
  {
    ClimbCarries(b, Leaf(b), proof);
    var level := LeafLevel(leaves);
    LevelCarries(level, b);
    var i :| 0 <= i < |level| && Carries(level[i], b);
  }

  // ----- What the root says about the list -----

  lemma {:induction false} RootOfLevelInjective<B>(a: seq<Digest<B>>, b: seq<Digest<B>>)
    requires a != [] && |a| == |b| && RootOfLevel(a) == RootOfLevel(b)
    ensures a == b
    decreases |a|
  {
    if |a| > 1 {
      var x, y := NextLevel(a), NextLevel(b);
      RootOfLevelInjective(x, y);
      forall i | 0 <= i < |a|
        ensures a[i] == b[i]
      {
        assert x[i / 2] == y[i / 2];
        assert i == 2 * (i / 2) || i == 2 * (i / 2) + 1;
      }
    }
  }

  /** MAIN: at equal counts the root determines the list: equal-count divergence always shows. */
  lemma EqualCountInjective<B>(a: seq<B>, b: seq<B>)
    requires |a| == |b| && LegacyRoot(a) == LegacyRoot(b)
    ensures a == b
  {
    if a != [] {
      var x, y := LeafLevel(a), LeafLevel(b);
      RootOfLevelInjective(x, y);
      assert forall i :: 0 <= i < |a| ==> x[i].data == a[i] && y[i].data == b[i];
    }
  }

  /** At different counts it does not: repeating the last of an odd number of leaves, three or
      more, leaves the root unchanged.  This is why the tree carries no consistency power. */
  lemma PaddingCollides<B>(d: seq<B>)
    requires |d| > 1 && |d| % 2 == 1
    ensures LegacyRoot(d + [d[|d| - 1]]) == LegacyRoot(d)
  {
    var e := d + [d[|d| - 1]];
    assert LeafLevel(e) == Padded(LeafLevel(d));
    assert NextLevel(LeafLevel(e)) == NextLevel(LeafLevel(d));
  }
}
