/**
 The domain-separated Merkle tree over a manifest's chunk addresses: the recursive split of section 2.1
 of RFC 6962, the level-by-level form with promotion, and the explicit-stack form are one tree.
 */
module ChunkTree {
  import opened Common

  /** "DMTAP-PUB-v0/manifest" followed by a zero byte. */
  const DS_MANIFEST: Bytes :=
    [0x44, 0x4d, 0x54, 0x41, 0x50, 0x2d, 0x50, 0x55, 0x42, 0x2d, 0x76, 0x30, 0x2f,
     0x6d, 0x61, 0x6e, 0x69, 0x66, 0x65, 0x73, 0x74, 0x00]

  function LeafInput(a: Addr): Bytes {
    DS_MANIFEST + [0x00] + a
  }

  function NodeInput(left: Digest, right: Digest): Bytes {
    DS_MANIFEST + [0x01] + left + right
  }

  function Leaf(h: Hash, a: Addr): Digest {
    h(LeafInput(a))
  }

  function Node(h: Hash, left: Digest, right: Digest): Digest {
    h(NodeInput(left, right))
  }

  function Leaves(h: Hash, chunks: seq<Addr>): (r: seq<Digest>)
    ensures |r| == |chunks|
    ensures forall i :: 0 <= i < |chunks| ==> r[i] == Leaf(h, chunks[i])
  {
    seq(|chunks|, i requires 0 <= i < |chunks| => Leaf(h, chunks[i]))
  }

  /** The tag byte keeps leaf and node inputs apart, and each kind of input determines its parts. */
  lemma InputsDistinct(a: Addr, b: Addr, l: Digest, r: Digest, l': Digest, r': Digest)
    ensures LeafInput(a) != NodeInput(l, r)
    ensures LeafInput(a) == LeafInput(b) ==> a == b
    ensures NodeInput(l, r) == NodeInput(l', r') ==> l == l' && r == r'
  {
    var n := |DS_MANIFEST|;
    assert LeafInput(a)[n] == 0 && NodeInput(l, r)[n] == 1;
    assert LeafInput(a)[n + 1..] == a && LeafInput(b)[n + 1..] == b;
    assert NodeInput(l, r)[n + 1..n + 33] == l && NodeInput(l', r')[n + 1..n + 33] == l';
    assert NodeInput(l, r)[n + 33..] == r && NodeInput(l', r')[n + 33..] == r';
  }

  // ----- powers of two and the split point -----

  predicate IsPow2(p: nat) {
    p == 1 || (p % 2 == 0 && p > 0 && IsPow2(p / 2))
  }

  lemma {:induction false} Pow2Gap(a: nat, b: nat)
    requires IsPow2(a) && IsPow2(b) && a < b
    ensures 2 * a <= b
  {
    if a != 1 {
      Pow2Gap(a / 2, b / 2);
    }
  }

  /** Where section 2.1 of RFC 6962 splits n leaves. */
  function Split(n: nat): (k: nat)
    requires n >= 2
    ensures IsPow2(k) && k < n <= 2 * k
  {
    if n == 2 then 1 else
      var k := Split((n + 1) / 2);
      assert (2 * k) / 2 == k;
      2 * k
  }

  lemma SplitUnique(n: nat, k: nat)
    requires n >= 2 && IsPow2(k) && k < n <= 2 * k
    ensures k == Split(n)
  {
    hide Split, IsPow2;
    if k < Split(n) {
      Pow2Gap(k, Split(n));
    } else if Split(n) < k {
      Pow2Gap(Split(n), k);
    }
  }

  /** MTH of section 2.1 of RFC 6962, over leaf hashes. */
  function Mth(h: Hash, xs: seq<Digest>): Digest
    requires |xs| > 0
  {
    if |xs| == 1 then xs[0] else
      var k := Split(|xs|);
      Node(h, Mth(h, xs[..k]), Mth(h, xs[k..]))
  }

  lemma MthStep(h: Hash, xs: seq<Digest>)
    requires |xs| >= 2
    ensures var k := Split(|xs|); Mth(h, xs) == Node(h, Mth(h, xs[..k]), Mth(h, xs[k..]))
  {
  }

  lemma MthSmall(h: Hash, xs: seq<Digest>)
    requires 1 <= |xs| <= 2
    ensures Mth(h, xs) == if |xs| == 1 then xs[0] else Node(h, xs[0], xs[1])
  {
  }

  /** Joining a power-of-two block with a no larger block is exactly the split rule. */
  lemma MthJoin(h: Hash, xs: seq<Digest>, ys: seq<Digest>)
    requires IsPow2(|xs|) && 1 <= |ys| <= |xs|
    ensures Mth(h, xs + ys) == Node(h, Mth(h, xs), Mth(h, ys))
  {
    hide Node, Leaf, Mth, Split, IsPow2;
    SplitUnique(|xs + ys|, |xs|);
    MthStep(h, xs + ys);
    assert (xs + ys)[..|xs|] == xs && (xs + ys)[|xs|..] == ys;
  }

  // ----- the level form -----

  /** One level up: pairs combine left to right, an unpaired last node is promoted unchanged. */
  function Reduce(h: Hash, level: seq<Digest>): (r: seq<Digest>)
    ensures |r| == (|level| + 1) / 2
    ensures forall i :: 0 <= i < |r| ==>
      r[i] == if 2 * i + 1 < |level| then Node(h, level[2 * i], level[2 * i + 1]) else level[2 * i]
  {
    seq((|level| + 1) / 2, i requires 0 <= i < (|level| + 1) / 2 =>
      if 2 * i + 1 < |level| then Node(h, level[2 * i], level[2 * i + 1]) else level[2 * i])
  }

  lemma SplitHalves(n: nat)
    requires n > 2
    ensures Split(n) % 2 == 0 && Split(n) >= 2 && Split((n + 1) / 2) == Split(n) / 2
  {
  }

  /** An even cut of a level reduces to a cut of the level above. */
  lemma ReduceCut(h: Hash, xs: seq<Digest>, k: nat)
    requires k % 2 == 0 && k <= |xs|
    ensures Reduce(h, xs)[..k / 2] == Reduce(h, xs[..k])
    ensures Reduce(h, xs)[k / 2..] == Reduce(h, xs[k..])
  {
    hide Reduce;
  }

  /** One level of pairing does not change the root the split rule gives. */
  lemma {:induction false} ReduceKeepsMth(h: Hash, xs: seq<Digest>)
    requires |xs| > 0
    ensures Mth(h, Reduce(h, xs)) == Mth(h, xs)
    decreases |xs|
  {
    hide Node, Leaf, Mth, Split, IsPow2, Reduce;
    if |xs| <= 2 {
      MthSmall(h, xs);
      MthSmall(h, Reduce(h, xs));
      assert |xs| == 1 ==> Reduce(h, xs) == xs;
    } else {
      var k := Split(|xs|);
      SplitHalves(|xs|);
      ReduceCut(h, xs, k);
      ReduceKeepsMth(h, xs[..k]);
      ReduceKeepsMth(h, xs[k..]);
      MthStep(h, xs);
      MthStep(h, Reduce(h, xs));
    }
  }

  /** The public address of a manifest with these chunks. */
  function ManifestRoot(h: Hash, chunks: seq<Addr>): Addr
    requires |chunks| > 0
  {
    [HASH_PREFIX] + Mth(h, Leaves(h, chunks))
  }

  method ReduceLevel(h: Hash, level: seq<Digest>) returns (next: seq<Digest>)
    ensures next == Reduce(h, level)
  {
    hide Reduce;
    next := [];
    var i := 0;
    while i + 1 < |level|
      invariant 0 <= i <= |level| && i % 2 == 0
      invariant next == Reduce(h, level)[..i / 2]
    {
      next := next + [Node(h, level[i], level[i + 1])];
      i := i + 2;
    }
    if i < |level| {
      next := next + [level[i]];
    }
  }

  /** The browser's root: repeated level reduction, for addresses with the supported prefix. It is the split-rule root. */
  method LevelManifestRoot(h: Hash, chunks: seq<Addr>) returns (root: Result<Addr>)
    ensures root.Ok? <==> |chunks| > 0 && forall i :: 0 <= i < |chunks| ==> chunks[i][0] == HASH_PREFIX
    ensures root.Ok? ==> root.value == ManifestRoot(h, chunks)
    ensures root.Err? ==> root.error == MalformedObject
  {
    hide Mth;
    if |chunks| == 0 {
      return Err(MalformedObject);
    }
    var level: seq<Digest> := [];
    for i := 0 to |chunks|
      invariant level == Leaves(h, chunks)[..i]
      invariant forall j :: 0 <= j < i ==> chunks[j][0] == HASH_PREFIX
    {
      if chunks[i][0] != HASH_PREFIX {
        return Err(MalformedObject);
      }
      level := level + [Leaf(h, chunks[i])];
    }
    assert level == Leaves(h, chunks);
    while |level| > 1
      invariant |level| > 0 && Mth(h, level) == Mth(h, Leaves(h, chunks))
      decreases |level|
    {
      ReduceKeepsMth(h, level);
      level := ReduceLevel(h, level);
    }
    MthSmall(h, level);
    root := Ok([HASH_PREFIX] + level[0]);
  }

  // ----- the stack form -----

  datatype Frame = Frame(root: Digest, count: nat)

  /** The stack holds, left to right, the roots of strictly shrinking power-of-two blocks that make up xs[..end]. */
  ghost predicate Stacked(h: Hash, stack: seq<Frame>, xs: seq<Digest>, end: nat)
    requires end <= |xs|
    decreases |stack|
  {
    if |stack| == 0 then end == 0 else
      var f := stack[|stack| - 1];
      && IsBlock(h, f, xs, end)
      && IsPow2(f.count)
      && (|stack| > 1 ==> stack[|stack| - 2].count > f.count)
      && Stacked(h, stack[..|stack| - 1], xs, end - f.count)
  }

  /** The frame is the root of the f.count leaves ending at end. */
  ghost predicate IsBlock(h: Hash, f: Frame, xs: seq<Digest>, end: nat)
    requires end <= |xs|
  {
    0 < f.count <= end && f.root == Mth(h, xs[end - f.count..end])
  }

  /** Extending a block to the left by a power-of-two block at least as large. */
  lemma MergeBlocks(h: Hash, f: Frame, g: Frame, xs: seq<Digest>, end: nat)
    requires end <= |xs| && IsBlock(h, g, xs, end) && IsBlock(h, f, xs, end - g.count)
    requires IsPow2(f.count) && g.count <= f.count
    ensures IsBlock(h, Frame(Node(h, f.root, g.root), f.count + g.count), xs, end)
  {
    hide Node, Leaf, Mth, Split, IsPow2;
    var m := end - g.count;
    assert xs[m - f.count..end] == xs[m - f.count..m] + xs[m..end];
    MthJoin(h, xs[m - f.count..m], xs[m..end]);
  }

  /** What the top of a stack says about the frames below it. */
  lemma StackedTop(h: Hash, stack: seq<Frame>, xs: seq<Digest>, end: nat)
    requires end <= |xs| && |stack| > 0 && Stacked(h, stack, xs, end)
    ensures var f, rest := stack[|stack| - 1], stack[..|stack| - 1];
      && IsBlock(h, f, xs, end) && IsPow2(f.count) && Stacked(h, rest, xs, end - f.count)
      && (|rest| > 0 ==> 2 * f.count <= rest[|rest| - 1].count)
  {
    if |stack| > 1 {
      assert Stacked(h, stack[..|stack| - 1], xs, end - stack[|stack| - 1].count);
      Pow2Gap(stack[|stack| - 1].count, stack[..|stack| - 1][|stack| - 2].count);
    }
  }

  /** The frame f is a complete block to be pushed on the stack, leaving xs[..end] covered. */
  ghost predicate Ready(h: Hash, stack: seq<Frame>, f: Frame, xs: seq<Digest>, end: nat)
    requires end <= |xs|
  {
    && IsBlock(h, f, xs, end) && IsPow2(f.count)
    && Stacked(h, stack, xs, end - f.count)
    && (|stack| > 0 ==> stack[|stack| - 1].count >= f.count)
  }

  lemma LeafReady(h: Hash, stack: seq<Frame>, xs: seq<Digest>, end: nat)
    requires end < |xs| && Stacked(h, stack, xs, end)
    ensures Ready(h, stack, Frame(xs[end], 1), xs, end + 1)
  {
    hide Node, Leaf, Mth, Split, IsPow2;
    assert xs[end..end + 1] == [xs[end]];
    MthSmall(h, xs[end..end + 1]);
    OnePow2(1);
  }

  lemma MergeReady(h: Hash, stack: seq<Frame>, f: Frame, xs: seq<Digest>, end: nat)
    requires end <= |xs| && Ready(h, stack, f, xs, end)
    requires |stack| > 0 && stack[|stack| - 1].count == f.count
    ensures var top := stack[|stack| - 1];
      Ready(h, stack[..|stack| - 1], Frame(Node(h, top.root, f.root), top.count + f.count), xs, end)
  {
    hide Node, Leaf, Mth, Split, IsPow2, Stacked;
    StackedTop(h, stack, xs, end - f.count);
    MergeBlocks(h, stack[|stack| - 1], f, xs, end);
    DoublePow2(f.count);
  }

  lemma OnePow2(p: nat)
    requires p == 1
    ensures IsPow2(p)
  {
  }

  lemma DoublePow2(p: nat)
    requires IsPow2(p)
    ensures IsPow2(p + p)
  {
    assert (p + p) / 2 == p;
  }

  lemma PushReady(h: Hash, stack: seq<Frame>, f: Frame, xs: seq<Digest>, end: nat)
    requires end <= |xs| && Ready(h, stack, f, xs, end)
    requires |stack| > 0 ==> stack[|stack| - 1].count != f.count
    ensures Stacked(h, stack + [f], xs, end)
  {
    hide Node, Leaf, Mth, Split, IsPow2;
    assert (stack + [f])[..|stack|] == stack;
  }

  /** Pushes the next leaf, merging equal blocks from the top of the stack. */
  method PushLeaf(h: Hash, stack0: seq<Frame>, leaf: Digest, ghost xs: seq<Digest>, ghost end: nat)
    returns (stack: seq<Frame>)
    requires end < |xs| && xs[end] == leaf && Stacked(h, stack0, xs, end)
    ensures Stacked(h, stack, xs, end + 1) && |stack| > 0
  {
    hide *;
    var f := Frame(leaf, 1);
    stack := stack0;
    LeafReady(h, stack, xs, end);
    while |stack| > 0 && stack[|stack| - 1].count == f.count
      invariant Ready(h, stack, f, xs, end + 1)
      decreases |stack|
    {
      var top := stack[|stack| - 1];
      MergeReady(h, stack, f, xs, end + 1);
      stack := stack[..|stack| - 1];
      f := Frame(Node(h, top.root, f.root), top.count + f.count);
    }
    PushReady(h, stack, f, xs, end + 1);
    stack := stack + [f];
  }

  lemma WholeBlock(h: Hash, f: Frame, stack: seq<Frame>, xs: seq<Digest>)
    requires IsBlock(h, f, xs, |xs|) && |stack| == 0 && Stacked(h, stack, xs, |xs| - f.count)
    ensures f.root == Mth(h, xs)
  {
    assert xs[0..|xs|] == xs;
  }

  /** Folds the leftover blocks right to left. */
  method FoldStack(h: Hash, stack: seq<Frame>, ghost xs: seq<Digest>) returns (root: Digest)
    requires |stack| > 0 && Stacked(h, stack, xs, |xs|)
    ensures |xs| > 0 && root == Mth(h, xs)
  {
    hide Node, Leaf, Mth, Split, IsPow2, Stacked;
    StackedTop(h, stack, xs, |xs|);
    assert stack[..|stack| - 2 + 1] == stack[..|stack| - 1];
    var acc := stack[|stack| - 1];
    var i := |stack| - 2;
    while i >= 0
      invariant -1 <= i <= |stack| - 2
      invariant IsBlock(h, acc, xs, |xs|) && Stacked(h, stack[..i + 1], xs, |xs| - acc.count)
      invariant i >= 0 ==> acc.count <= stack[i].count
    {
      StackedTop(h, stack[..i + 1], xs, |xs| - acc.count);
      assert stack[..i + 1][..i] == stack[..i] && (i > 0 ==> stack[..i][i - 1] == stack[i - 1]);
      MergeBlocks(h, stack[i], acc, xs, |xs|);
      acc := Frame(Node(h, stack[i].root, acc.root), stack[i].count + acc.count);
      i := i - 1;
    }
    WholeBlock(h, acc, stack[..0], xs);
    root := acc.root;
  }

  /** The relay's root: leaves pushed on a stack of complete blocks, leftovers folded. */
  method MerkleRoot(h: Hash, hashes: seq<Addr>) returns (root: Digest)
    requires |hashes| > 0
    ensures root == Mth(h, Leaves(h, hashes))
  {
    if |hashes| == 1 {
      return Leaf(h, hashes[0]);
    }
    ghost var xs := Leaves(h, hashes);
    var stack: seq<Frame> := [];
    for j := 0 to |hashes|
      invariant Stacked(h, stack, xs, j) && (j > 0 ==> |stack| > 0)
    {
      stack := PushLeaf(h, stack, Leaf(h, hashes[j]), xs, j);
    }
    root := FoldStack(h, stack, xs);
  }
}
