/** The RFC 6962 tree of jjdai/merkle.py: tree head, audit paths and consistency
    proofs, with the hash taken as a free constructor. */
module MerkleTree {

  /** A 32-byte digest.  `Leaf` and `Node` are the two domain-separated hashes,
      `EmptyTree` is the hash of the empty string, and `Opaque` stands for every
      other digest-sized value, so that an adversarial proof may carry anything. */
  datatype Digest<B> = Opaque(tag: nat) | EmptyTree | Leaf(data: B) | Node(left: Digest<B>, right: Digest<B>)

  /** On which side of the running hash a sibling sits. */
  datatype Side = L | R

  datatype PathStep<B> = PathStep(side: Side, sibling: Digest<B>)

  // ----- The split point -----

  predicate IsPowerOfTwo(n: nat)
    decreases n
  {
    n == 1 || (n >= 2 && n % 2 == 0 && IsPowerOfTwo(n / 2))
  }

  /** The largest power of two strictly below n, computed level by level. */
  function SplitPoint(n: nat): (k: nat)
    requires n >= 2
    ensures 0 < k < n <= 2 * k
    decreases n
  {
    if n == 2 then 1 else 2 * SplitPoint((n + 1) / 2)
  }

  lemma {:induction false} SplitPointIsPowerOfTwo(n: nat)
    requires n >= 2
    ensures IsPowerOfTwo(SplitPoint(n))
    decreases n
  {
    if n > 2 {
      SplitPointIsPowerOfTwo((n + 1) / 2);
      assert SplitPoint(n) / 2 == SplitPoint((n + 1) / 2);
    }
  }

  /** Two powers of two within a factor of two of one another are equal. */
  lemma {:induction false} PowersOfTwoApart(a: nat, b: nat)
    requires IsPowerOfTwo(a) && IsPowerOfTwo(b) && a < b
    ensures 2 * a <= b
  {
    if a > 1 {
      PowersOfTwoApart(a / 2, b / 2);
    }
  }

  /** The split point is the only power of two in [n/2, n). */
  lemma SplitPointUnique(n: nat, k: nat)
    requires n >= 2 && IsPowerOfTwo(k) && k < n <= 2 * k
    ensures k == SplitPoint(n)
  {
    var s := SplitPoint(n);
    SplitPointIsPowerOfTwo(n);
    if k < s {
      PowersOfTwoApart(k, s);
    } else if s < k {
      PowersOfTwoApart(s, k);
    }
  }

  /** The doubling loop of `_split`. */
  method Split(n: nat) returns (k: nat)
    requires n >= 2
    ensures k == SplitPoint(n)
  {
    k := 1;
    while k * 2 < n
      invariant IsPowerOfTwo(k) && k < n
    {
      assert IsPowerOfTwo((2 * k) / 2);
      k := k * 2;
    }
    SplitPointUnique(n, k);
  }

  // ----- The tree head -----

  function Mth<B>(leaves: seq<B>): Digest<B>
    decreases |leaves|
  {
    if |leaves| == 0 then EmptyTree
    else if |leaves| == 1 then Leaf(leaves[0])
    else
      var k := SplitPoint(|leaves|);
      Node(Mth(leaves[..k]), Mth(leaves[k..]))
  }

  /** The defining equation of section 2.1 of RFC 6962: a perfect left subtree and at most as many leaves beside it. */
  lemma HeadSplits<B>(left: seq<B>, right: seq<B>)
    requires IsPowerOfTwo(|left|) && 0 < |right| <= |left|
    ensures Mth(left + right) == Node(Mth(left), Mth(right))
    ensures Mth<B>([]) == EmptyTree && Mth([right[0]]) == Leaf(right[0])
  {
    SplitPointUnique(|left + right|, |left|);
    assert (left + right)[..|left|] == left && (left + right)[|left|..] == right;
  }

  /** The tree head determines the whole leaf list, its length included. */
  lemma {:induction false} MthInjective<B>(a: seq<B>, b: seq<B>)
    requires Mth(a) == Mth(b)
    ensures a == b
    decreases |a|
  {
    if |a| >= 2 && |b| >= 2 {
      var j, k := SplitPoint(|a|), SplitPoint(|b|);
      MthInjective(a[..j], b[..k]);
      MthInjective(a[j..], b[k..]);
      assert a == a[..j] + a[j..] && b == b[..k] + b[k..];
    }
  }

  /** Two lists that agree on a prefix longer than half the tree share its left subtree. */
  lemma MthOfPrefix<B>(d: seq<B>, m: nat)
    requires |d| >= 2 && SplitPoint(|d|) < m <= |d|
    ensures var k := SplitPoint(|d|);
            m >= 2 && SplitPoint(m) == k && Mth(d[..m]) == Node(Mth(d[..k]), Mth(d[k..m]))
  {
    var k := SplitPoint(|d|);
    SplitPointIsPowerOfTwo(|d|);
    SplitPointUnique(m, k);
    assert d[..m][..k] == d[..k] && d[..m][k..] == d[k..m];
  }

  // ----- The audit path -----

  /** PATH(index, D[n]), leaf first. */
  function Inclusion<B>(leaves: seq<B>, index: nat): seq<PathStep<B>>
    requires index < |leaves|
    decreases |leaves|
  {
    if |leaves| == 1 then []
    else
      var k := SplitPoint(|leaves|);
      if index < k then Inclusion(leaves[..k], index) + [PathStep(R, Mth(leaves[k..]))]
      else Inclusion(leaves[k..], index - k) + [PathStep(L, Mth(leaves[..k]))]
  }

  /** The path of the middle one of three leaves: the left neighbour on its left, then the third leaf on its right. */
  lemma MiddleOfThree<B>(a: B, b: B, c: B)
    ensures Mth([a, b, c]) == Node(Node(Leaf(a), Leaf(b)), Leaf(c))
    ensures Inclusion([a, b, c], 1) == [PathStep(L, Leaf(a)), PathStep(R, Leaf(c))]
  {
    var d := [a, b, c];
    assert SplitPoint(3) == 2 && d[..2] == [a, b] && d[2..] == [c];
    assert SplitPoint(2) == 1 && [a, b][..1] == [a] && [a, b][1..] == [b];
    assert Mth([a, b]) == Node(Leaf(a), Leaf(b)) && Mth([c]) == Leaf(c);
    assert Inclusion([a, b], 1) == [PathStep(L, Leaf(a))];
  }

  // ----- The consistency proof -----

  function Subproof<B>(m: nat, leaves: seq<B>, complete: bool): seq<Digest<B>>
    requires 0 < m <= |leaves|
    decreases |leaves|
  {
    if m == |leaves| then (if complete then [] else [Mth(leaves)])
    else
      var k := SplitPoint(|leaves|);
      if m <= k then Subproof(m, leaves[..k], complete) + [Mth(leaves[k..])]
      else Subproof(m - k, leaves[k..], false) + [Mth(leaves[..k])]
  }

  /** PROOF(m, D[n]). */
  function ConsistencyProof<B>(leaves: seq<B>, m: nat): seq<Digest<B>>
    requires 0 < m <= |leaves|
  {
    if m == |leaves| then [] else Subproof(m, leaves, true)
  }

  // ----- The shape of a path: which sides it must show -----

  /** The sides of the audit path of leaf `i` in a tree of `n` leaves, read off the recursion. */
  function Sides(i: nat, n: nat): seq<Side>
    requires i < n
    decreases n
  {
    if n == 1 then []
    else
      var k := SplitPoint(n);
      if i < k then Sides(i, k) + [R] else Sides(i - k, n - k) + [L]
  }

  /** The sides the bit-shifting loop demands from the state (fn, sn). */
  function LoopSides(fn: nat, sn: nat): seq<Side>
    requires fn <= sn
    decreases sn
  {
    if sn == 0 then []
    else if fn % 2 == 1 then [L] + LoopSides(fn / 2, sn / 2)
    else if fn == sn then LoopSides(fn / 2, sn / 2)
    else [R] + LoopSides(fn / 2, sn / 2)
  }

  /** A tree of n leaves has h = ceil(n/2) nodes one level up. */
  predicate OneLevelUp(n: nat, h: nat) {
    n == 2 * h || n + 1 == 2 * h
  }

  /** An even split point halves with the tree. */
  lemma SplitOneLevelUp(n: nat, h: nat)
    requires n > 2 && OneLevelUp(n, h)
    ensures h >= 2 && SplitPoint(n) == 2 * SplitPoint(h)
  {
    assert h == (n + 1) / 2;
  }

  /** What leaf i of n, in pair p, adds to its path at the bottom level. */
  function BottomSide(i: nat, n: nat, p: nat): seq<Side> {
    if i == 2 * p + 1 then [L] else if i == n - 1 then [] else [R]
  }

  lemma Associate<T>(a: seq<T>, b: seq<T>, c: seq<T>)
    ensures a + (b + c) == (a + b) + c
  {
  }

  /** The root step of an audit path, on the two levels at once. */
  lemma SidesAtRoot(i: nat, n: nat, p: nat, h: nat, q: nat)
    requires i < n && n > 2 && OneLevelUp(n, h) && 2 * p <= i <= 2 * p + 1 && h >= 2 && q == SplitPoint(h)
    ensures p < h
    ensures p < q ==> Sides(i, n) == Sides(i, 2 * q) + [R] && Sides(p, h) == Sides(p, q) + [R]
    ensures q <= p ==> Sides(i, n) == Sides(i - 2 * q, n - 2 * q) + [L] && Sides(p, h) == Sides(p - q, h - q) + [L]
  {
    hide SplitPoint;
    SplitOneLevelUp(n, h);
  }

  /** One level up: the pair holding leaf i is leaf p = i/2 of a tree of h = ceil(n/2) leaves. */
  lemma {:induction false} SidesOneLevelUp(i: nat, n: nat, p: nat, h: nat)
    requires i < n && n >= 2 && OneLevelUp(n, h) && 2 * p <= i <= 2 * p + 1
    ensures p < h && Sides(i, n) == BottomSide(i, n, p) + Sides(p, h)
    decreases n
  {
    hide SplitPoint;
    if n > 2 {
      SplitOneLevelUp(n, h);
      var q := SplitPoint(h);
      SidesAtRoot(i, n, p, h, q);
      if p < q {
        SidesOneLevelUp(i, 2 * q, p, q);
        Associate(BottomSide(i, n, p), Sides(p, q), [R]);
      } else if n - 2 * q >= 2 {
        SidesOneLevelUp(i - 2 * q, n - 2 * q, p - q, h - q);
        Associate(BottomSide(i, n, p), Sides(p - q, h - q), [L]);
      }
    } else {
      assert Sides(p, h) == [] && Sides(i, n) == BottomSide(i, n, p);
    }
  }

  /** The bit-shifting loop demands exactly the sides the recursive prover emits. */
  lemma {:induction false} LoopFollowsRecursion(i: nat, n: nat)
    requires i < n
    ensures LoopSides(i, n - 1) == Sides(i, n)
    decreases n
  {
    hide SplitPoint;
    if n > 1 {
      SidesOneLevelUp(i, n, i / 2, (n + 1) / 2);
      LoopFollowsRecursion(i / 2, (n + 1) / 2);
      assert (n - 1) / 2 == (n + 1) / 2 - 1;
    }
  }

  /** The steps of a consistency path after its first element. */
  function ConsistencySides(m: nat, n: nat): seq<Side>
    requires 0 < m <= n
    decreases n
  {
    if m == n then []
    else
      var k := SplitPoint(n);
      if m <= k then ConsistencySides(m, k) + [R] else ConsistencySides(m - k, n - k) + [L]
  }

  /** For an odd prefix the consistency path starts at the prefix's last leaf. */
  lemma {:induction false} OddPrefixStartsAtLeaf(m: nat, n: nat)
    requires 0 < m < n && m % 2 == 1
    ensures ConsistencySides(m, n) == Sides(m - 1, n)
    decreases n
  {
    var k := SplitPoint(n);
    if m < k {
      OddPrefixStartsAtLeaf(m, k);
    } else if m > k {
      OddPrefixStartsAtLeaf(m - k, n - k);
    }
  }

  /** For an even prefix the path is the one of the tree one level up. */
  lemma {:induction false} EvenPrefixLifts(a: nat, n: nat, h: nat)
    requires 0 < 2 * a < n && OneLevelUp(n, h)
    ensures a < h && ConsistencySides(2 * a, n) == ConsistencySides(a, h)
    decreases n
  {
    hide SplitPoint;
    SplitOneLevelUp(n, h);
    var q := SplitPoint(h);
    if a < q {
      EvenPrefixLifts(a, 2 * q, q);
    } else if a > q {
      EvenPrefixLifts(a - q, n - 2 * q, h - q);
    }
  }

  /** Shifting out the trailing ones of m - 1, as the verifier does before its first step. */
  function AlignedSides(fn: nat, sn: nat): seq<Side>
    requires fn <= sn
    decreases fn
  {
    if fn % 2 == 1 then AlignedSides(fn / 2, sn / 2) else LoopSides(fn, sn)
  }

  lemma {:induction false} AlignedLoopFollowsRecursion(m: nat, n: nat)
    requires 0 < m < n
    ensures AlignedSides(m - 1, n - 1) == ConsistencySides(m, n)
    decreases m
  {
    hide SplitPoint, ConsistencySides, AlignedSides, LoopSides, Sides;
    if m % 2 == 1 {
      OddPrefixStartsAtLeaf(m, n);
      LoopFollowsRecursion(m - 1, n);
      AlignedAtLeaf(m, n);
    } else {
      var a, h := m / 2, (n + 1) / 2;
      EvenPrefixLifts(a, n, h);
      AlignedLoopFollowsRecursion(a, h);
      AlignedLifts(a, n, h);
    }
  }

  lemma AlignedAtLeaf(m: nat, n: nat)
    requires 0 < m < n && m % 2 == 1
    ensures AlignedSides(m - 1, n - 1) == LoopSides(m - 1, n - 1)
  {
    hide LoopSides;
  }

  lemma AlignedLifts(a: nat, n: nat, h: nat)
    requires 0 < 2 * a < n && OneLevelUp(n, h) && 0 < a < h
    ensures AlignedSides(2 * a - 1, n - 1) == AlignedSides(a - 1, h - 1)
  {
    hide LoopSides;
    assert (2 * a - 1) / 2 == a - 1 && (n - 1) / 2 == h - 1;
  }
}
