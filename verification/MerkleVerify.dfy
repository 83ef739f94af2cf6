/** The iterative verifiers of jjdai/merkle.py, and the proof that they accept exactly
    what the recursive provers emit. */
module MerkleVerify {
  import opened MerkleTree

  // ----- Inclusion -----

  function SidesOf<B>(proof: seq<PathStep<B>>): seq<Side> {
    seq(|proof|, i requires 0 <= i < |proof| => proof[i].side)
  }

  function Combine<B>(h: Digest<B>, step: PathStep<B>): Digest<B> {
    if step.side == L then Node(step.sibling, h) else Node(h, step.sibling)
  }

  /** The running hash after climbing a path. */
  function Climb<B>(h: Digest<B>, proof: seq<PathStep<B>>): Digest<B> {
    if proof == [] then h else Combine(Climb(h, proof[..|proof| - 1]), proof[|proof| - 1])
  }

  /** What `mth_verify_inclusion` decides: the path shows the sides that (index, n)
      prescribes and climbs from the leaf to the root. */
  predicate AcceptsInclusion<B(==)>(leaf: B, index: int, n: int, proof: seq<PathStep<B>>, root: Digest<B>) {
    0 <= index < n && SidesOf(proof) == Sides(index, n) && Climb(Leaf(leaf), proof) == root
  }

  /** What one round of either verifier loop sees of the state (fn, sn). */
  lemma {:induction false} NextSide(fn: nat, sn: nat)
    requires fn <= sn
    ensures LoopSides(fn, sn) == [] <==> sn == 0
    ensures sn > 0 ==> LoopSides(fn, sn)[0] == if fn % 2 == 1 || fn == sn then L else R
    ensures sn > 0 && !(fn % 2 == 1 || fn == sn) ==> LoopSides(fn / 2, sn / 2) == LoopSides(fn, sn)[1..]
    decreases sn
  {
    if sn > 0 && fn % 2 == 0 && fn == sn {
      NextSide(fn / 2, sn / 2);
    }
  }

  /** The inner shift loop: skip the levels at which an unpaired last node moves up unchanged. */
  method ShiftToOdd(fn0: nat, sn0: nat) returns (fn: nat, sn: nat)
    requires fn0 <= sn0 && 0 < sn0 && (fn0 % 2 == 1 || fn0 == sn0)
    ensures fn <= sn && |LoopSides(fn0, sn0)| > 0 && LoopSides(fn / 2, sn / 2) == LoopSides(fn0, sn0)[1..]
  {
    fn, sn := fn0, sn0;
    while fn != 0 && fn % 2 == 0
      invariant 0 < fn <= sn && (fn % 2 == 1 || fn == sn)
      invariant LoopSides(fn, sn) == LoopSides(fn0, sn0)
    {
      fn, sn := fn / 2, sn / 2;
    }
  }

  method VerifyInclusion<B(==)>(leaf: B, index: int, n: int, proof: seq<PathStep<B>>, root: Digest<B>)
    returns (ok: bool)
    ensures ok <==> AcceptsInclusion(leaf, index, n, proof, root)
  {
    hide LoopSides, Sides;
    if !(0 <= index < n) {
      return false;
    }
    LoopFollowsRecursion(index, n);
    ghost var want := Sides(index, n);
    var h := Leaf(leaf);
    var fn, sn := index, n - 1;
    for j := 0 to |proof|
      invariant 0 <= fn <= sn && j <= |want|
      invariant h == Climb(Leaf(leaf), proof[..j])
      invariant want[j..] == LoopSides(fn, sn)
      invariant forall t :: 0 <= t < j ==> proof[t].side == want[t]
    {
      var step := proof[j];
      NextSide(fn, sn);
      if sn == 0 {
        assert |SidesOf(proof)| > |want|;
        return false;
      }
      assert SidesOf(proof)[j] == step.side && want[j] == want[j..][0];
      assert want[j + 1..] == want[j..][1..] && proof[..j + 1][..j] == proof[..j];
      if step.side == L {
        if !(fn % 2 == 1 || fn == sn) {
          return false;
        }
        h := Node(step.sibling, h);
        fn, sn := ShiftToOdd(fn, sn);
      } else {
        if fn % 2 == 1 || fn == sn {
          return false;
        }
        h := Node(h, step.sibling);
      }
      fn, sn := fn / 2, sn / 2;
    }
    assert proof[..|proof|] == proof;
    NextSide(fn, sn);
    return sn == 0 && h == root;
  }

  lemma ClimbOneUp<B>(h: Digest<B>, p: seq<PathStep<B>>, step: PathStep<B>)
    ensures Climb(h, p + [step]) == Combine(Climb(h, p), step) && SidesOf(p + [step]) == SidesOf(p) + [step.side]
  {
    assert (p + [step])[..|p|] == p;
  }

  /** Completeness: every audit path climbs to the tree head and shows the prescribed sides. */
  lemma {:induction false} InclusionPathClimbs<B>(d: seq<B>, i: nat)
    requires i < |d|
    ensures SidesOf(Inclusion(d, i)) == Sides(i, |d|) && Climb(Leaf(d[i]), Inclusion(d, i)) == Mth(d)
    decreases |d|
  {
    hide SplitPoint;
    if |d| > 1 {
      hide Climb, SidesOf;
      var k := SplitPoint(|d|);
      if i < k {
        InclusionPathClimbs(d[..k], i);
        ClimbOneUp(Leaf(d[i]), Inclusion(d[..k], i), PathStep(R, Mth(d[k..])));
      } else {
        InclusionPathClimbs(d[k..], i - k);
        ClimbOneUp(Leaf(d[i]), Inclusion(d[k..], i - k), PathStep(L, Mth(d[..k])));
      }
    }
  }

  /** Soundness, with no hypothesis on the path at all: whatever climbs from a leaf to
      the head of `d` is the audit path of one of d's leaves. */
  lemma {:induction false} ClimbFindsLeaf<B>(leaf: B, proof: seq<PathStep<B>>, d: seq<B>) returns (j: nat)
    requires Climb(Leaf(leaf), proof) == Mth(d)
    ensures j < |d| && d[j] == leaf && proof == Inclusion(d, j)
    decreases |proof|
  {
    hide Climb, Mth, Inclusion, SplitPoint;
    if proof == [] {
      LeafIsItsTree(leaf, d);
      j := 0;
    } else {
      var below, step := proof[..|proof| - 1], proof[|proof| - 1];
      var k := ClimbEndsAtRoot(leaf, proof, d);
      assert proof == below + [step];
      if step.side == L {
        var i := ClimbFindsLeaf(leaf, below, d[k..]);
        InclusionOneUp(d, k, k + i);
        assert step == PathStep(L, Mth(d[..k]));
        j := k + i;
      } else {
        j := ClimbFindsLeaf(leaf, below, d[..k]);
        InclusionOneUp(d, k, j);
        assert step == PathStep(R, Mth(d[k..]));
      }
    }
  }

  lemma LeafIsItsTree<B>(leaf: B, d: seq<B>)
    requires Climb(Leaf(leaf), []) == Mth(d)
    ensures |d| == 1 && d[0] == leaf && Inclusion(d, 0) == []
  {
    hide SplitPoint;
  }

  /** The last step of a climb to a head joins its two subtrees. */
  lemma ClimbEndsAtRoot<B>(leaf: B, proof: seq<PathStep<B>>, d: seq<B>) returns (k: nat)
    requires proof != [] && Climb(Leaf(leaf), proof) == Mth(d)
    ensures |d| > 1 && k == SplitPoint(|d|)
    ensures var below, step := Climb(Leaf(leaf), proof[..|proof| - 1]), proof[|proof| - 1];
            if step.side == L then below == Mth(d[k..]) && step.sibling == Mth(d[..k])
            else below == Mth(d[..k]) && step.sibling == Mth(d[k..])
  {
    hide SplitPoint;
    k := SplitPoint(|d|);
  }

  lemma InclusionOneUp<B>(d: seq<B>, k: nat, i: nat)
    requires |d| > 1 && k == SplitPoint(|d|) && i < |d|
    ensures Inclusion(d, i) ==
            if i < k then Inclusion(d[..k], i) + [PathStep(R, Mth(d[k..]))]
            else Inclusion(d[k..], i - k) + [PathStep(L, Mth(d[..k]))]
  {
    hide SplitPoint, Mth;
  }

  lemma {:induction false} SidesInjective(i: nat, j: nat, n: nat)
    requires i < n && j < n && Sides(i, n) == Sides(j, n)
    ensures i == j
    decreases n
  {
    hide SplitPoint;
    if n > 1 {
      var k := SplitPoint(n);
      var a, b := Sides(i, n), Sides(j, n);
      assert a[|a| - 1] == b[|b| - 1];
      if i < k {
        assert Sides(i, k) == a[..|a| - 1] && Sides(j, k) == b[..|b| - 1];
        SidesInjective(i, j, k);
      } else {
        assert Sides(i - k, n - k) == a[..|a| - 1] && Sides(j - k, n - k) == b[..|b| - 1];
        SidesInjective(i - k, j - k, n - k);
      }
    }
  }

  /** MAIN: against the head of `d`, at the true tree size, exactly one path is accepted
      for exactly one leaf at each index. */
  lemma InclusionExact<B>(leaf: B, i: nat, d: seq<B>, proof: seq<PathStep<B>>)
    ensures AcceptsInclusion(leaf, i, |d|, proof, Mth(d)) <==> i < |d| && leaf == d[i] && proof == Inclusion(d, i)
  {
    if AcceptsInclusion(leaf, i, |d|, proof, Mth(d)) {
      var j := ClimbFindsLeaf(leaf, proof, d);
      InclusionPathClimbs(d, j);
      SidesInjective(i, j, |d|);
    } else if i < |d| {
      InclusionPathClimbs(d, i);
    }
  }

  /** MAIN: with any claimed index and size, what is accepted against the head of `d` is the
      audit path of a leaf whose position shows the same sides as the claimed one. */
  lemma InclusionAtAnyClaim<B>(leaf: B, i: nat, n: nat, d: seq<B>, proof: seq<PathStep<B>>)
    ensures AcceptsInclusion(leaf, i, n, proof, Mth(d)) <==>
            && i < n
            && exists j: nat :: j < |d| && Sides(j, |d|) == Sides(i, n) && leaf == d[j] && proof == Inclusion(d, j)
  {
    if AcceptsInclusion(leaf, i, n, proof, Mth(d)) {
      var j := ClimbFindsLeaf(leaf, proof, d);
      InclusionPathClimbs(d, j);
    } else if j: nat :| i < n && j < |d| && Sides(j, |d|) == Sides(i, n) && leaf == d[j] && proof == Inclusion(d, j) {
      InclusionPathClimbs(d, j);
    }
  }

  /** The claimed size is not bound by itself: the path of leaf 2 of 3 is accepted, against
      the same root, for the claim "leaf 1 of 2". */
  lemma InclusionReplaysAtAnotherSize<B>(d: seq<B>)
    requires |d| == 3
    ensures AcceptsInclusion(d[2], 2, 3, Inclusion(d, 2), Mth(d))
    ensures AcceptsInclusion(d[2], 1, 2, Inclusion(d, 2), Mth(d))
  {
    InclusionPathClimbs(d, 2);
    assert SplitPoint(3) == 2 && SplitPoint(2) == 1;
    assert Sides(1, 2) == Sides(0, 1) + [L] && Sides(2, 3) == Sides(0, 1) + [L];
  }

  // ----- Consistency -----

  /** The old head rebuilt from a path (first element, then one element per side). */
  function OldHead<B>(path: seq<Digest<B>>, sides: seq<Side>): Digest<B>
    requires |path| == |sides| + 1
    decreases |sides|
  {
    if sides == [] then path[0]
    else
      var below := OldHead(path[..|sides|], sides[..|sides| - 1]);
      if sides[|sides| - 1] == L then Node(path[|sides|], below) else below
  }

  /** The new head rebuilt from the same path. */
  function NewHead<B>(path: seq<Digest<B>>, sides: seq<Side>): Digest<B>
    requires |path| == |sides| + 1
    decreases |sides|
  {
    if sides == [] then path[0]
    else
      var below := NewHead(path[..|sides|], sides[..|sides| - 1]);
      if sides[|sides| - 1] == L then Node(path[|sides|], below) else Node(below, path[|sides|])
  }

  function FullPath<B>(m: nat, oldRoot: Digest<B>, proof: seq<Digest<B>>): seq<Digest<B>> {
    if IsPowerOfTwo(m) then [oldRoot] + proof else proof
  }

  /** What `verify_consistency` decides. */
  predicate AcceptsConsistency<B(==)>(m: int, n: int, oldRoot: Digest<B>, newRoot: Digest<B>, proof: seq<Digest<B>>) {
    if m == n then proof == [] && oldRoot == newRoot
    else
      && 0 < m < n
      && var path := FullPath(m, oldRoot, proof);
      && |path| == |ConsistencySides(m, n)| + 1
      && OldHead(path, ConsistencySides(m, n)) == oldRoot
      && NewHead(path, ConsistencySides(m, n)) == newRoot
  }

  function BitLength(m: nat): nat {
    if m == 0 then 0 else 1 + BitLength(m / 2)
  }

  function PowerOfTwo(e: nat): nat {
    if e == 0 then 1 else 2 * PowerOfTwo(e - 1)
  }

  /** The source's bit-length test recognises the powers of two. */
  lemma {:induction false} BitLengthTest(m: nat)
    requires m > 0
    ensures m == PowerOfTwo(BitLength(m) - 1) <==> IsPowerOfTwo(m)
  {
    if m > 1 {
      BitLengthTest(m / 2);
      assert PowerOfTwo(BitLength(m) - 1) == 2 * PowerOfTwo(BitLength(m / 2) - 1);
    }
  }

  method ShiftOutOnes(m: nat, n: nat) returns (fn: nat, sn: nat)
    requires 0 < m < n
    ensures fn <= sn && LoopSides(fn, sn) == ConsistencySides(m, n)
  {
    AlignedLoopFollowsRecursion(m, n);
    fn, sn := m - 1, n - 1;
    while fn % 2 == 1
      invariant fn <= sn && AlignedSides(fn, sn) == ConsistencySides(m, n)
      decreases fn
    {
      fn, sn := fn / 2, sn / 2;
    }
  }

  method VerifyConsistency<B(==)>(m: int, n: int, oldRoot: Digest<B>, newRoot: Digest<B>, proof: seq<Digest<B>>)
    returns (ok: bool)
    ensures ok <==> AcceptsConsistency(m, n, oldRoot, newRoot, proof)
  {
    if m == n {
      return proof == [] && oldRoot == newRoot;
    }
    if !(0 < m < n) {
      return false;
    }
    var path := proof;
    BitLengthTest(m);
    if m == PowerOfTwo(BitLength(m) - 1) {
      path := [oldRoot] + path;
    }
    if path == [] {
      return false;
    }
    ok := ReplayPath(m, n, oldRoot, newRoot, path);
  }

  /** The loop of `verify_consistency` over the full path. */
  method ReplayPath<B(==)>(m: nat, n: nat, oldRoot: Digest<B>, newRoot: Digest<B>, path: seq<Digest<B>>)
    returns (ok: bool)
    requires 0 < m < n && path != []
    ensures ok <==> && |path| == |ConsistencySides(m, n)| + 1
                    && OldHead(path, ConsistencySides(m, n)) == oldRoot
                    && NewHead(path, ConsistencySides(m, n)) == newRoot
  {
    hide LoopSides, ConsistencySides;
    ghost var want := ConsistencySides(m, n);
    var fn, sn := ShiftOutOnes(m, n);
    var fr, sr := path[0], path[0];
    for j := 1 to |path|
      invariant 0 <= fn <= sn && j <= |want| + 1
      invariant want[j - 1..] == LoopSides(fn, sn)
      invariant fr == OldHead(path[..j], want[..j - 1]) && sr == NewHead(path[..j], want[..j - 1])
    {
      var c := path[j];
      NextSide(fn, sn);
      if sn == 0 {
        return false;
      }
      assert path[..j + 1][..j] == path[..j] && want[..j][..j - 1] == want[..j - 1];
      assert want[j - 1] == want[j - 1..][0] && want[j..] == want[j - 1..][1..];
      if fn % 2 == 1 || fn == sn {
        fr, sr := Node(c, fr), Node(c, sr);
        fn, sn := ShiftToOdd(fn, sn);
      } else {
        sr := Node(sr, c);
      }
      fn, sn := fn / 2, sn / 2;
    }
    NextSide(fn, sn);
    assert path[..|path|] == path;
    assert sn == 0 ==> want[..|path| - 1] == want;
    return sn == 0 && fr == oldRoot && sr == newRoot;
  }

  /** The source omits the first element exactly when the old root supplies it. */
  lemma {:induction false} CompleteOmitsOldRoot<B>(m: nat, d: seq<B>)
    requires 0 < m <= |d| && (m < |d| || IsPowerOfTwo(m))
    ensures Subproof(m, d, false) == FullPath(m, Mth(d[..m]), Subproof(m, d, true))
    decreases |d|
  {
    hide SplitPoint;
    if m == |d| {
      assert d[..m] == d;
    } else {
      var k := SplitPoint(|d|);
      SplitPointIsPowerOfTwo(|d|);
      if m <= k {
        CompleteOmitsOldRoot(m, d[..k]);
        assert d[..k][..m] == d[..m];
      } else if IsPowerOfTwo(m) {
        PowersOfTwoApart(k, m);
        assert false;
      }
    }
  }

  /** The root step of a consistency path. */
  lemma PathAtRoot<B>(m: nat, d: seq<B>, k: nat)
    requires 0 < m < |d| && k == SplitPoint(|d|)
    ensures m <= k ==>
              Subproof(m, d, false) == Subproof(m, d[..k], false) + [Mth(d[k..])]
              && ConsistencySides(m, |d|) == ConsistencySides(m, k) + [R]
    ensures m > k ==> Subproof(m, d, false) == Subproof(m - k, d[k..], false) + [Mth(d[..k])]
                      && ConsistencySides(m, |d|) == ConsistencySides(m - k, |d| - k) + [L]
  {
    hide SplitPoint;
  }

  /** Adding one element to a path that already rebuilds two heads. */
  lemma HeadsOneUp<B>(path: seq<Digest<B>>, sides: seq<Side>, c: Digest<B>, side: Side)
    requires |path| == |sides| + 1
    ensures OldHead(path + [c], sides + [side]) ==
            if side == L then Node(c, OldHead(path, sides)) else OldHead(path, sides)
    ensures NewHead(path + [c], sides + [side]) ==
            if side == L then Node(c, NewHead(path, sides)) else Node(NewHead(path, sides), c)
  {
    assert (path + [c])[..|sides| + 1] == path && (sides + [side])[..|sides|] == sides;
  }

  /** Completeness: the prover's path rebuilds both heads. */
  lemma {:induction false} ConsistencyPathRebuilds<B>(m: nat, d: seq<B>)
    requires 0 < m <= |d|
    ensures var path, sides := Subproof(m, d, false), ConsistencySides(m, |d|);
            |path| == |sides| + 1 && OldHead(path, sides) == Mth(d[..m]) && NewHead(path, sides) == Mth(d)
    decreases |d|
  {
    hide SplitPoint, OldHead, NewHead, ConsistencySides, Subproof;
    if m == |d| {
      assert d[..m] == d;
      WholePath(d);
    } else {
      var k := SplitPoint(|d|);
      PathAtRoot(m, d, k);
      if m <= k {
        ConsistencyPathRebuilds(m, d[..k]);
        HeadsOneUp(Subproof(m, d[..k], false), ConsistencySides(m, k), Mth(d[k..]), R);
        assert d[..k][..m] == d[..m];
      } else {
        ConsistencyPathRebuilds(m - k, d[k..]);
        HeadsOneUp(Subproof(m - k, d[k..], false), ConsistencySides(m - k, |d| - k), Mth(d[..k]), L);
        MthOfPrefix(d, m);
        assert d[k..][..m - k] == d[k..m];
      }
    }
  }

  lemma WholePath<B>(d: seq<B>)
    requires d != []
    ensures Subproof(|d|, d, false) == [Mth(d)] && ConsistencySides(|d|, |d|) == []
    ensures OldHead([Mth(d)], []) == Mth(d) == NewHead([Mth(d)], [])
  {
  }

  /** Soundness: any path that rebuilds the head of `d` is the prover's path. */
  lemma {:induction false} NewHeadFixesPath<B>(m: nat, d: seq<B>, path: seq<Digest<B>>)
    requires 0 < m <= |d| && |path| == |ConsistencySides(m, |d|)| + 1
    requires NewHead(path, ConsistencySides(m, |d|)) == Mth(d)
    ensures path == Subproof(m, d, false)
    decreases |d|
  {
    hide SplitPoint, ConsistencySides, Subproof, NewHead;
    if m == |d| {
      WholePath(d);
      FirstElement(path);
    } else {
      var k := SplitPoint(|d|);
      var t := |path| - 1;
      PathAtRoot(m, d, k);
      assert path == path[..t] + [path[t]];
      if m <= k {
        HeadsOneUp(path[..t], ConsistencySides(m, k), path[t], R);
        NewHeadFixesPath(m, d[..k], path[..t]);
      } else {
        HeadsOneUp(path[..t], ConsistencySides(m - k, |d| - k), path[t], L);
        NewHeadFixesPath(m - k, d[k..], path[..t]);
      }
    }
  }

  lemma FirstElement<B>(path: seq<Digest<B>>)
    requires |path| == 1
    ensures NewHead(path, []) == path[0]
  {
  }

  /** MAIN: against the head of a list `d`, the verifier accepts an old root and a proof
      exactly when the root is the head of d's first m leaves and the proof is PROOF(m, d). */
  lemma ConsistencyExact<B>(m: nat, d: seq<B>, oldRoot: Digest<B>, proof: seq<Digest<B>>)
    requires m <= |d|
    ensures AcceptsConsistency(m, |d|, oldRoot, Mth(d), proof) <==>
            (m == 0 ==> d == []) && oldRoot == Mth(d[..m]) && proof == (if m == 0 then [] else ConsistencyProof(d, m))
  {
    assert d[..|d|] == d;
    if 0 < m < |d| {
      ConsistencyPathRebuilds(m, d);
      CompleteOmitsOldRoot(m, d);
      if AcceptsConsistency(m, |d|, oldRoot, Mth(d), proof) {
        var path := FullPath(m, oldRoot, proof);
        NewHeadFixesPath(m, d, path);
        if IsPowerOfTwo(m) {
          assert proof == path[1..] && Subproof(m, d, true) == Subproof(m, d, false)[1..];
        }
      }
    }
  }

  /** MAIN: two lists whose heads pass the check are one a prefix of the other. */
  lemma ConsistencySound<B>(a: seq<B>, b: seq<B>, proof: seq<Digest<B>>)
    requires AcceptsConsistency(|a|, |b|, Mth(a), Mth(b), proof)
    ensures a <= b
  {
    ConsistencyExact(|a|, b, Mth(a), proof);
    MthInjective(a, b[..|a|]);
  }

  /** MAIN: the prover is always accepted. */
  lemma ConsistencyComplete<B>(d: seq<B>, m: nat)
    requires 0 < m <= |d|
    ensures AcceptsConsistency(m, |d|, Mth(d[..m]), Mth(d), ConsistencyProof(d, m))
  {
    ConsistencyExact(m, d, Mth(d[..m]), ConsistencyProof(d, m));
  }
}
