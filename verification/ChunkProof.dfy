/**
 Audit paths over the chunk tree: the path section 2.1.1 of RFC 6962 defines, the loop that builds it level by level,
 and the verifier, whose acceptance is characterised for every claimed count, index, chunk and path.
 */
module ChunkProof {
  import opened Common
  import opened ChunkTree

  const MAX_PROOF_PATH: nat := 40

  /** One element of a path: the sibling, and whether the running node is the left child. */
  datatype Step = Step(onLeft: bool, sibling: Digest)

  function Siblings(steps: seq<Step>): (r: seq<Digest>)
    ensures |r| == |steps| && forall i :: 0 <= i < |r| ==> r[i] == steps[i].sibling
  {
    seq(|steps|, i requires 0 <= i < |steps| => steps[i].sibling)
  }

  function Zip(sides: seq<bool>, path: seq<Digest>): (r: seq<Step>)
    requires |sides| == |path|
    ensures |r| == |path| && forall i :: 0 <= i < |r| ==> r[i] == Step(sides[i], path[i])
  {
    seq(|path|, i requires 0 <= i < |path| => Step(sides[i], path[i]))
  }

  /** PATH(m, D[n]) of section 2.1.1 of RFC 6962, bottom up. */
  function AuditSteps(h: Hash, xs: seq<Digest>, m: nat): seq<Step>
    requires m < |xs|
    decreases |xs|
  {
    if |xs| == 1 then [] else
      var k := Split(|xs|);
      if m < k then AuditSteps(h, xs[..k], m) + [Step(true, Mth(h, xs[k..]))]
      else AuditSteps(h, xs[k..], m - k) + [Step(false, Mth(h, xs[..k]))]
  }

  function AuditPath(h: Hash, chunks: seq<Addr>, m: nat): seq<Digest>
    requires m < |chunks|
  {
    Siblings(AuditSteps(h, Leaves(h, chunks), m))
  }

  /** On which side the node of leaf m sits, bottom up, at each level of an n-leaf tree where it has a sibling. */
  function Sides(n: nat, m: nat): seq<bool>
    requires m < n
    decreases n
  {
    if n == 1 then [] else
      var k := Split(n);
      if m < k then Sides(k, m) + [true] else Sides(n - k, m - k) + [false]
  }

  lemma AuditStepsStep(h: Hash, xs: seq<Digest>, m: nat)
    requires m < |xs| && |xs| >= 2
    ensures var k := Split(|xs|);
      AuditSteps(h, xs, m) ==
        if m < k then AuditSteps(h, xs[..k], m) + [Step(true, Mth(h, xs[k..]))]
        else AuditSteps(h, xs[k..], m - k) + [Step(false, Mth(h, xs[..k]))]
  {
  }

  lemma SidesStep(n: nat, m: nat)
    requires m < n && n >= 2
    ensures var k := Split(n);
      Sides(n, m) == if m < k then Sides(k, m) + [true] else Sides(n - k, m - k) + [false]
  {
  }

  /** The sides depend on the count and the index only. */
  lemma {:induction false} StepSides(h: Hash, xs: seq<Digest>, m: nat)
    requires m < |xs|
    ensures var steps := AuditSteps(h, xs, m);
      && |steps| == |Sides(|xs|, m)|
      && Zip(Sides(|xs|, m), Siblings(steps)) == steps
    decreases |xs|
  {
    hide Mth, Split, IsPow2, Node, Sides, AuditSteps;
    if |xs| == 1 {
      LoneLeaf(h, xs, m);
    } else {
      var k := Split(|xs|);
      AuditStepsStep(h, xs, m);
      SidesStep(|xs|, m);
      if m < k { StepSides(h, xs[..k], m); } else { StepSides(h, xs[k..], m - k); }
      ZipSides(AuditSteps(h, xs, m), Sides(|xs|, m));
    }
  }

  lemma ZipSides(steps: seq<Step>, sides: seq<bool>)
    requires |steps| == |sides| && |steps| > 0
    requires var n := |steps| - 1; Zip(sides[..n], Siblings(steps[..n])) == steps[..n] && steps[n].onLeft == sides[n]
    ensures Zip(sides, Siblings(steps)) == steps
  {
    var n := |steps| - 1;
    forall i | 0 <= i < n
      ensures Zip(sides, Siblings(steps))[i] == steps[i]
    {
      assert Zip(sides[..n], Siblings(steps[..n]))[i] == steps[..n][i];
    }
  }

  lemma LoneLeaf(h: Hash, xs: seq<Digest>, m: nat)
    requires |xs| == 1 && m == 0
    ensures AuditSteps(h, xs, m) == [] && Sides(|xs|, m) == [] && Mth(h, xs) == xs[0]
  {
  }

  /** In one tree, the sides determine the leaf. */
  lemma {:induction false} SidesInjective(n: nat, i: nat, j: nat)
    requires i < n && j < n && Sides(n, i) == Sides(n, j)
    ensures i == j
    decreases n
  {
    hide Split, IsPow2, Sides;
    if n >= 2 {
      var k := Split(n);
      SidesStep(n, i);
      SidesStep(n, j);
      var s, t := Sides(n, i), Sides(n, j);
      assert s[|s| - 1] == t[|t| - 1] && s[..|s| - 1] == t[..|t| - 1];
      if i < k { SidesInjective(k, i, j); } else { SidesInjective(n - k, i - k, j - k); }
    }
  }

  /** A tree of at most 2^d leaves has paths of at most d elements. */
  lemma {:induction false} SidesBound(n: nat, m: nat, d: nat)
    requires m < n <= Pow2(d)
    ensures |Sides(n, m)| <= d
    decreases d
  {
    hide Split, IsPow2, Sides, Pow2;
    if n == 1 {
      LoneLeaf(_ => ZERO, [ZERO], m);
    } else {
      SidesStep(n, m);
      var k := Split(n);
      SplitBelow(n, d);
      if m < k { SidesBound(k, m, d - 1); } else { SidesBound(n - k, m - k, d - 1); }
    }
  }

  function Pow2(d: nat): (p: nat)
    ensures p >= 1
  {
    if d == 0 then 1 else 2 * Pow2(d - 1)
  }

  lemma {:induction false} Pow2IsPow2(d: nat)
    ensures IsPow2(Pow2(d))
  {
    if d > 0 {
      Pow2IsPow2(d - 1);
      DoublePow2(Pow2(d - 1));
    }
  }

  lemma SplitBelow(n: nat, d: nat)
    requires 2 <= n <= Pow2(d)
    ensures d > 0 && Split(n) <= Pow2(d - 1) && n - Split(n) <= Pow2(d - 1)
  {
    hide Split, IsPow2;
    Pow2IsPow2(d - 1);
    if Split(n) > Pow2(d - 1) {
      Pow2Gap(Pow2(d - 1), Split(n));
    }
  }

  // ----- the level form of a path -----

  /** cur xor 1. */
  function Sibling(cur: nat): nat {
    if cur % 2 == 0 then cur + 1 else cur - 1
  }

  /** What one level contributes: nothing when the node is the promoted last one. */
  function OwnStep(level: seq<Digest>, cur: nat): seq<Step>
    requires cur < |level|
  {
    if Sibling(cur) < |level| then [Step(cur % 2 == 0, level[Sibling(cur)])] else []
  }

  function OwnSide(n: nat, cur: nat): seq<bool> {
    if Sibling(cur) < n then [cur % 2 == 0] else []
  }

  /** The level above splits where this one does, with the same roots on either side. */
  lemma AuditStepsAbove(h: Hash, xs: seq<Digest>, m: nat)
    requires m < |xs| && |xs| > 2
    ensures var k := Split(|xs|);
      && k % 2 == 0
      && AuditSteps(h, Reduce(h, xs), m / 2) ==
        if m < k then AuditSteps(h, Reduce(h, xs[..k]), m / 2) + [Step(true, Mth(h, xs[k..]))]
        else AuditSteps(h, Reduce(h, xs[k..]), (m - k) / 2) + [Step(false, Mth(h, xs[..k]))]
  {
    hide Mth, Split, IsPow2, Node, AuditSteps, Reduce;
    var k := Split(|xs|);
    SplitHalves(|xs|);
    ReduceCut(h, xs, k);
    AuditStepsStep(h, Reduce(h, xs), m / 2);
    ReduceKeepsMth(h, xs[..k]);
    ReduceKeepsMth(h, xs[k..]);
    assert m >= k ==> (m - k) / 2 == m / 2 - k / 2;
  }

  /** The path of a leaf is what its own level contributes, then the path of its parent one level up. */
  lemma {:induction false} AuditStepsReduce(h: Hash, xs: seq<Digest>, m: nat)
    requires m < |xs| && |xs| >= 2
    ensures AuditSteps(h, xs, m) == OwnStep(xs, m) + AuditSteps(h, Reduce(h, xs), m / 2)
    decreases |xs|
  {
    hide Mth, Split, IsPow2, Node, AuditSteps, Reduce, OwnStep;
    if |xs| == 2 {
      AuditStepsPair(h, xs, m);
    } else {
      var k := Split(|xs|);
      AuditStepsAbove(h, xs, m);
      AuditStepsStep(h, xs, m);
      OwnStepCut(xs, k, m);
      var ys, i, t;
      if m < k {
        ys, i, t := xs[..k], m, Step(true, Mth(h, xs[k..]));
      } else {
        ys, i, t := xs[k..], m - k, Step(false, Mth(h, xs[..k]));
      }
      if |ys| >= 2 {
        AuditStepsReduce(h, ys, i);
      } else {
        LoneLeaf(h, ys, i);
        LoneLeaf(h, Reduce(h, ys), i / 2);
        OwnStepLone(ys);
      }
      assert AuditSteps(h, ys, i) == OwnStep(xs, m) + AuditSteps(h, Reduce(h, ys), i / 2);
      AppendAssoc(OwnStep(xs, m), AuditSteps(h, Reduce(h, ys), i / 2), t);
    }
  }

  lemma AppendAssoc(a: seq<Step>, b: seq<Step>, t: Step)
    ensures (a + b) + [t] == a + (b + [t])
  {
  }

  lemma OwnStepLone(ys: seq<Digest>)
    requires |ys| == 1
    ensures OwnStep(ys, 0) == []
  {
  }

  /** An even cut does not part siblings. */
  lemma OwnStepCut(xs: seq<Digest>, k: nat, m: nat)
    requires k % 2 == 0 && k <= |xs| && m < |xs|
    ensures OwnStep(xs, m) == if m < k then OwnStep(xs[..k], m) else OwnStep(xs[k..], m - k)
  {
  }

  lemma AuditStepsPair(h: Hash, xs: seq<Digest>, m: nat)
    requires m < |xs| && |xs| == 2
    ensures AuditSteps(h, xs, m) == OwnStep(xs, m) + AuditSteps(h, Reduce(h, xs), m / 2)
  {
    hide Mth, Split, IsPow2, Node, AuditSteps, Reduce;
    AuditStepsStep(h, xs, m);
    MthSmall(h, xs[..1]);
    MthSmall(h, xs[1..]);
    LoneLeaf(h, Reduce(h, xs), 0);
    if m == 0 { LoneLeaf(h, xs[..1], 0); } else { LoneLeaf(h, xs[1..], 0); }
  }

  /** The same for the sides alone, which is all the verifier sees of the tree. */
  lemma SidesReduce(n: nat, m: nat)
    requires m < n && n >= 2
    ensures Sides(n, m) == OwnSide(n, m) + Sides((n + 1) / 2, m / 2)
  {
    hide Mth, Split, IsPow2, Node, AuditSteps, Sides, Reduce;
    var h: Hash := _ => ZERO;
    var xs := seq(n, _ => ZERO);
    AuditStepsReduce(h, xs, m);
    StepSides(h, xs, m);
    StepSides(h, Reduce(h, xs), m / 2);
    var steps, up := AuditSteps(h, xs, m), AuditSteps(h, Reduce(h, xs), m / 2);
    forall i | 0 <= i < |steps|
      ensures Sides(n, m)[i] == (OwnSide(n, m) + Sides((n + 1) / 2, m / 2))[i]
    {
      assert Zip(Sides(n, m), Siblings(steps))[i] == steps[i];
      var j := i - |OwnStep(xs, m)|;
      if j >= 0 {
        assert Zip(Sides((n + 1) / 2, m / 2), Siblings(up))[j] == up[j];
      }
    }
  }

  const ZERO: Digest := seq(DIGEST_LEN, _ => 0)

  /** Builds the audit path of leaf index, level by level. */
  method BuildChunkProof(h: Hash, chunks: seq<Addr>, index: int) returns (path: Result<seq<Digest>>)
    ensures path == if 0 <= index < |chunks| then Ok(AuditPath(h, chunks, index)) else Err(ProofRange)
  {
    hide Mth, Split, IsPow2, Node, AuditSteps, Reduce;
    if |chunks| == 0 || index < 0 || index >= |chunks| {
      return Err(ProofRange);
    }
    var level := Leaves(h, chunks);
    ghost var all := AuditSteps(h, level, index);
    var out: seq<Digest> := [];
    var cur: nat := index;
    while |level| > 1
      invariant cur < |level|
      invariant |out| + |AuditSteps(h, level, cur)| == |all|
      invariant out == Siblings(all)[..|out|]
      invariant all[|out|..] == AuditSteps(h, level, cur)
      decreases |level|
    {
      AuditStepsReduce(h, level, cur);
      ghost var own := OwnStep(level, cur);
      assert all[|out|..][|own|..] == all[|out| + |own|..];
      var sib := Sibling(cur);
      if sib < |level| {
        assert all[|out|..][0] == all[|out|];
        out := out + [level[sib]];
      }
      cur := cur / 2;
      level := ReduceLevel(h, level);
    }
    LoneLeaf(h, level, cur);
    assert out == Siblings(all);
    path := Ok(out);
  }

  // ----- the verifier -----

  function CombineInput(node: Digest, s: Step): Bytes {
    if s.onLeft then NodeInput(node, s.sibling) else NodeInput(s.sibling, node)
  }

  /** The node reached from a starting node along a path, bottom up. */
  function Fold(h: Hash, node: Digest, steps: seq<Step>): Digest
    decreases |steps|
  {
    if |steps| == 0 then node else
      h(CombineInput(Fold(h, node, steps[..|steps| - 1]), steps[|steps| - 1]))
  }

  /** What the verifier accepts: a path with exactly one element per level that has a sibling, folding to the root. */
  ghost predicate Accepts(h: Hash, root: Addr, nChunks: int, index: int, chunk: Bytes, path: seq<Digest>) {
    && 0 <= index < nChunks
    && |path| <= MAX_PROOF_PATH
    && |path| == |Sides(nChunks, index)|
    && root == [HASH_PREFIX] + Fold(h, Leaf(h, HashBytes(h, chunk)), Zip(Sides(nChunks, index), path))
  }

  lemma FoldNext(h: Hash, node: Digest, sides: seq<bool>, path: seq<Digest>, u: nat)
    requires u < |sides| && u < |path|
    ensures Fold(h, node, Zip(sides[..u + 1], path[..u + 1])) ==
            h(CombineInput(Fold(h, node, Zip(sides[..u], path[..u])), Step(sides[u], path[u])))
  {
    hide CombineInput;
    var steps := Zip(sides[..u + 1], path[..u + 1]);
    assert steps[..u] == Zip(sides[..u], path[..u]);
  }

  method VerifyChunkProof(h: Hash, root: Addr, nChunks: int, index: int, chunk: Bytes, path: seq<Digest>)
    returns (r: Result<()>)
    ensures r.Ok? <==> Accepts(h, root, nChunks, index, chunk, path)
    ensures r == Err(ProofRange) <==> !(0 <= index < nChunks)
  {
    hide Split, IsPow2, Sides, Fold, Leaf, Zip;
    if nChunks <= 0 || index < 0 || index >= nChunks {
      return Err(ProofRange);
    }
    if |path| > MAX_PROOF_PATH {
      return Err(ProofInvalid);
    }
    var leaf := Leaf(h, HashBytes(h, chunk));
    var node := leaf;
    ghost var sides := Sides(nChunks, index);
    var cur: nat, levelLen: nat, used := index, nChunks, 0;
    FoldNone(h, leaf, sides, path);
    while levelLen > 1
      invariant cur < levelLen && used <= |path| && used <= |sides|
      invariant sides[used..] == Sides(levelLen, cur)
      invariant node == Fold(h, leaf, Zip(sides[..used], path[..used]))
      decreases levelLen
    {
      SidesReduce(levelLen, cur);
      var sib := Sibling(cur);
      if sib < levelLen {
        assert sides[used..][0] == sides[used];
        if used >= |path| {
          return Err(ProofInvalid);
        }
        FoldNext(h, leaf, sides, path, used);
        assert sides[used..][1..] == sides[used + 1..];
        node := if cur % 2 == 0 then Node(h, node, path[used]) else Node(h, path[used], node);
        used := used + 1;
      }
      cur := cur / 2;
      levelLen := (levelLen + 1) / 2;
    }
    LoneLeaf(h, [leaf], cur);
    assert used == |sides|;
    if used != |path| {
      return Err(ProofInvalid);
    }
    assert sides[..used] == sides && path[..used] == path;
    if [HASH_PREFIX] + node != root {
      return Err(ProofInvalid);
    }
    r := Ok(());
  }

  lemma FoldNone(h: Hash, node: Digest, sides: seq<bool>, path: seq<Digest>)
    ensures Fold(h, node, Zip(sides[..0], path[..0])) == node
  {
  }

  // ----- completeness -----

  /** Folding the audit path of a leaf reaches the root. */
  lemma {:induction false} FoldAudit(h: Hash, xs: seq<Digest>, m: nat)
    requires m < |xs|
    ensures Fold(h, xs[m], AuditSteps(h, xs, m)) == Mth(h, xs)
    decreases |xs|
  {
    hide Split, IsPow2, Mth, AuditSteps, Fold, NodeInput;
    if |xs| == 1 {
      LoneLeaf(h, xs, m);
      FoldStep(h, xs[m], []);
    } else {
      var k := Split(|xs|);
      MthStep(h, xs);
      AuditStepsStep(h, xs, m);
      var steps := AuditSteps(h, xs, m);
      FoldStep(h, xs[m], steps);
      if m < k {
        FoldAudit(h, xs[..k], m);
        assert steps[..|steps| - 1] == AuditSteps(h, xs[..k], m);
      } else {
        FoldAudit(h, xs[k..], m - k);
        assert steps[..|steps| - 1] == AuditSteps(h, xs[k..], m - k);
      }
    }
  }

  lemma FoldStep(h: Hash, node: Digest, steps: seq<Step>)
    ensures Fold(h, node, steps) ==
            if |steps| == 0 then node
            else h(CombineInput(Fold(h, node, steps[..|steps| - 1]), steps[|steps| - 1]))
  {
  }

  // ----- soundness -----

  /** Every byte string hashed while the root of a chunk list is computed. */
  ghost function TreeInputs(h: Hash, chunks: seq<Addr>): set<Bytes>
    requires |chunks| > 0
    decreases |chunks|
  {
    if |chunks| == 1 then {LeafInput(chunks[0])} else
      var k := Split(|chunks|);
      TreeInputs(h, chunks[..k]) + TreeInputs(h, chunks[k..]) + {TreeTop(h, chunks)}
  }

  /** The input whose hash is the root. */
  ghost function TreeTop(h: Hash, chunks: seq<Addr>): Bytes
    requires |chunks| > 0
  {
    if |chunks| == 1 then LeafInput(chunks[0]) else
      var k := Split(|chunks|);
      NodeInput(Mth(h, Leaves(h, chunks[..k])), Mth(h, Leaves(h, chunks[k..])))
  }

  /** Every byte string the verifier hashes after the chunk itself. */
  ghost function FoldInputs(h: Hash, a: Addr, steps: seq<Step>): set<Bytes>
    decreases |steps|
  {
    if |steps| == 0 then {LeafInput(a)} else FoldInputs(h, a, steps[..|steps| - 1]) + {FoldTop(h, a, steps)}
  }

  ghost function FoldTop(h: Hash, a: Addr, steps: seq<Step>): Bytes {
    if |steps| == 0 then LeafInput(a) else
      CombineInput(Fold(h, Leaf(h, a), steps[..|steps| - 1]), steps[|steps| - 1])
  }

  /** Two different inputs, one from each set, with one hash. */
  ghost predicate Collide(h: Hash, xs: set<Bytes>, ys: set<Bytes>) {
    exists x, y :: x in xs && y in ys && x != y && h(x) == h(y)
  }

  lemma CollideAt(h: Hash, xs: set<Bytes>, ys: set<Bytes>, x: Bytes, y: Bytes)
    requires x in xs && y in ys && x != y && h(x) == h(y)
    ensures Collide(h, xs, ys)
  {
  }

  lemma CollideWithin(h: Hash, xs: set<Bytes>, ys: set<Bytes>, xs': set<Bytes>, ys': set<Bytes>)
    requires Collide(h, xs, ys) && xs <= xs' && ys <= ys'
    ensures Collide(h, xs', ys')
  {
    var x, y :| x in xs && y in ys && x != y && h(x) == h(y);
    CollideAt(h, xs', ys', x, y);
  }

  lemma TreeInputsParts(h: Hash, chunks: seq<Addr>)
    requires |chunks| > 1
    ensures var k := Split(|chunks|);
      TreeInputs(h, chunks[..k]) <= TreeInputs(h, chunks) && TreeInputs(h, chunks[k..]) <= TreeInputs(h, chunks)
  {
    hide Split, IsPow2, TreeTop, LeafInput;
  }

  lemma LeavesCut(h: Hash, chunks: seq<Addr>, k: nat)
    requires k <= |chunks|
    ensures Leaves(h, chunks)[..k] == Leaves(h, chunks[..k]) && Leaves(h, chunks)[k..] == Leaves(h, chunks[k..])
  {
    hide Leaves, Leaf;
  }

  lemma TreeTopHashes(h: Hash, chunks: seq<Addr>)
    requires |chunks| > 0
    ensures h(TreeTop(h, chunks)) == Mth(h, Leaves(h, chunks)) && TreeTop(h, chunks) in TreeInputs(h, chunks)
  {
    hide Split, IsPow2, Mth, NodeInput, LeafInput;
    var xs := Leaves(h, chunks);
    if |chunks| == 1 {
      MthSmall(h, xs);
    } else {
      MthStep(h, xs);
      LeavesCut(h, chunks, Split(|chunks|));
    }
  }

  lemma FoldTopHashes(h: Hash, a: Addr, steps: seq<Step>)
    ensures h(FoldTop(h, a, steps)) == Fold(h, Leaf(h, a), steps) && FoldTop(h, a, steps) in FoldInputs(h, a, steps)
  {
    hide CombineInput, LeafInput;
  }

  /** The folded address is entry j and the path is that entry's audit path. */
  ghost predicate Names(h: Hash, chunks: seq<Addr>, a: Addr, steps: seq<Step>, j: int) {
    0 <= j < |chunks| && chunks[j] == a && steps == AuditSteps(h, Leaves(h, chunks), j)
  }

  /** A path that folds to the root is the audit path of some entry, or it exhibits a collision. */
  lemma {:induction false} FoldBinds(h: Hash, chunks: seq<Addr>, a: Addr, steps: seq<Step>)
    requires |chunks| > 0 && Fold(h, Leaf(h, a), steps) == Mth(h, Leaves(h, chunks))
    ensures Collide(h, TreeInputs(h, chunks), FoldInputs(h, a, steps)) || exists j :: Names(h, chunks, a, steps, j)
    decreases |chunks|
  {
    hide Split, IsPow2, Mth, Fold, NodeInput, LeafInput, AuditSteps, Leaf, Leaves, Collide, TreeInputs, FoldInputs;
    TreeTopHashes(h, chunks);
    FoldTopHashes(h, a, steps);
    var x, y := TreeTop(h, chunks), FoldTop(h, a, steps);
    if x != y {
      CollideAt(h, TreeInputs(h, chunks), FoldInputs(h, a, steps), x, y);
    } else {
      if |chunks| == 1 && |steps| == 0 {
        InputsDistinct(chunks[0], a, ZERO, ZERO, ZERO, ZERO);
        LoneLeaf(h, Leaves(h, chunks), 0);
        assert Names(h, chunks, a, steps, 0);
      } else if |chunks| > 1 && |steps| > 0 {
        FoldBindsNode(h, chunks, a, steps);
      } else {
        TopsDiffer(h, chunks, a, steps);
      }
    }
  }

  lemma TopsDiffer(h: Hash, chunks: seq<Addr>, a: Addr, steps: seq<Step>)
    requires |chunks| > 0 && (|chunks| == 1 <==> |steps| > 0)
    ensures TreeTop(h, chunks) != FoldTop(h, a, steps)
  {
    hide Split, IsPow2, Mth, Fold, NodeInput, LeafInput, Leaf;
    if |chunks| == 1 {
      var f, s := Fold(h, Leaf(h, a), steps[..|steps| - 1]), steps[|steps| - 1];
      InputsDistinct(chunks[0], a, f, s.sibling, f, f);
      InputsDistinct(chunks[0], a, s.sibling, f, f, f);
    } else {
      var k := Split(|chunks|);
      var l, r := Mth(h, Leaves(h, chunks[..k])), Mth(h, Leaves(h, chunks[k..]));
      InputsDistinct(a, a, l, r, l, r);
    }
  }

  lemma {:induction false} FoldBindsNode(h: Hash, chunks: seq<Addr>, a: Addr, steps: seq<Step>)
    requires |chunks| > 1 && |steps| > 0 && TreeTop(h, chunks) == FoldTop(h, a, steps)
    ensures Collide(h, TreeInputs(h, chunks), FoldInputs(h, a, steps)) || exists j :: Names(h, chunks, a, steps, j)
    decreases |chunks|, 0
  {
    hide Split, IsPow2, Mth, Fold, NodeInput, LeafInput, AuditSteps, Leaf, Leaves, Collide, TreeInputs;
    var k := Split(|chunks|);
    var l, r := Mth(h, Leaves(h, chunks[..k])), Mth(h, Leaves(h, chunks[k..]));
    var below, s := steps[..|steps| - 1], steps[|steps| - 1];
    var f := Fold(h, Leaf(h, a), below);
    InputsDistinct(a, a, l, r, f, s.sibling);
    InputsDistinct(a, a, l, r, s.sibling, f);
    var part := if s.onLeft then chunks[..k] else chunks[k..];
    FoldBinds(h, part, a, below);
    if Collide(h, TreeInputs(h, part), FoldInputs(h, a, below)) {
      TreeInputsParts(h, chunks);
      CollideWithin(h, TreeInputs(h, part), FoldInputs(h, a, below), TreeInputs(h, chunks), FoldInputs(h, a, steps));
    } else {
      var j :| Names(h, part, a, below, j);
      assert steps == below + [s];
      if s.onLeft { NamesLeft(h, chunks, a, below, j); } else { NamesRight(h, chunks, a, below, j); }
    }
  }

  /** An entry named within one half of the list is named in the whole list. */
  lemma NamesLeft(h: Hash, chunks: seq<Addr>, a: Addr, below: seq<Step>, j: int)
    requires |chunks| > 1 && Names(h, chunks[..Split(|chunks|)], a, below, j)
    ensures Names(h, chunks, a, below + [Step(true, Mth(h, Leaves(h, chunks[Split(|chunks|)..])))], j)
  {
    hide Split, IsPow2, Mth, AuditSteps, Leaf, Leaves;
    LeavesCut(h, chunks, Split(|chunks|));
    AuditStepsStep(h, Leaves(h, chunks), j);
  }

  lemma NamesRight(h: Hash, chunks: seq<Addr>, a: Addr, below: seq<Step>, j: int)
    requires |chunks| > 1 && Names(h, chunks[Split(|chunks|)..], a, below, j)
    ensures Names(h, chunks, a, below + [Step(false, Mth(h, Leaves(h, chunks[..Split(|chunks|)])))], j + Split(|chunks|))
  {
    hide Split, IsPow2, Mth, AuditSteps, Leaf, Leaves;
    LeavesCut(h, chunks, Split(|chunks|));
    AuditStepsStep(h, Leaves(h, chunks), j + Split(|chunks|));
  }

  /** The chunk is entry j, the path is entry j's, and j sits on the same sides as the claimed index. */
  ghost predicate ProvesEntry(h: Hash, chunks: seq<Addr>, nChunks: nat, index: nat, chunk: Bytes, path: seq<Digest>, j: int)
    requires index < nChunks
  {
    && 0 <= j < |chunks|
    && Sides(|chunks|, j) == Sides(nChunks, index)
    && HashBytes(h, chunk) == chunks[j]
    && path == AuditPath(h, chunks, j)
  }

  /** The inputs hashed when a proof of this length for this index and count is verified. */
  ghost function ProofInputs(h: Hash, nChunks: nat, index: nat, chunk: Bytes, path: seq<Digest>): set<Bytes>
    requires index < nChunks && |path| == |Sides(nChunks, index)|
  {
    FoldInputs(h, HashBytes(h, chunk), Zip(Sides(nChunks, index), path))
  }

  lemma RootTail(h: Hash, chunks: seq<Addr>, f: Digest)
    requires |chunks| > 0
    ensures ManifestRoot(h, chunks) == [HASH_PREFIX] + f <==> Mth(h, Leaves(h, chunks)) == f
  {
    hide Split, IsPow2, Mth, Leaves;
    assert ([HASH_PREFIX] + f)[1..] == f && ManifestRoot(h, chunks)[1..] == Mth(h, Leaves(h, chunks));
  }

  /** Whatever count and index are claimed, an accepted chunk is an entry on the claimed sides. */
  lemma AcceptedProves(h: Hash, chunks: seq<Addr>, nChunks: int, index: int, chunk: Bytes, path: seq<Digest>)
    requires |chunks| > 0 && Accepts(h, ManifestRoot(h, chunks), nChunks, index, chunk, path)
    ensures Collide(h, TreeInputs(h, chunks), ProofInputs(h, nChunks, index, chunk, path))
         || exists j :: ProvesEntry(h, chunks, nChunks, index, chunk, path, j)
  {
    hide Split, IsPow2, Mth, ManifestRoot, Fold, AuditSteps, Sides, Leaf, Leaves, Siblings, Zip, TreeInputs, FoldInputs, Collide;
    var a, sides := HashBytes(h, chunk), Sides(nChunks, index);
    var steps, xs := Zip(sides, path), Leaves(h, chunks);
    var f := Fold(h, Leaf(h, a), steps);
    RootTail(h, chunks, f);
    FoldBinds(h, chunks, a, steps);
    if j :| Names(h, chunks, a, steps, j) {
      StepSides(h, xs, j);
      SameZip(sides, path, Sides(|chunks|, j), AuditPath(h, chunks, j));
      assert ProvesEntry(h, chunks, nChunks, index, chunk, path, j);
    }
  }

  lemma SameZip(s: seq<bool>, p: seq<Digest>, s': seq<bool>, p': seq<Digest>)
    requires |s| == |p| && |s'| == |p'| && Zip(s, p) == Zip(s', p')
    ensures s == s' && p == p'
  {
    hide Zip;
    assert forall i :: 0 <= i < |p| ==> Zip(s, p)[i] == Zip(s', p')[i];
  }

  /** Every entry on the claimed sides is accepted, even under a count that is not the tree's. */
  lemma ProvesAccepted(h: Hash, chunks: seq<Addr>, nChunks: nat, index: nat, chunk: Bytes, path: seq<Digest>, j: nat)
    requires index < nChunks && ProvesEntry(h, chunks, nChunks, index, chunk, path, j)
    ensures Accepts(h, ManifestRoot(h, chunks), nChunks, index, chunk, path) <==> |Sides(nChunks, index)| <= 40
  {
    hide Split, IsPow2, Mth, ManifestRoot, Fold, AuditSteps, Sides, Siblings;
    var xs := Leaves(h, chunks);
    StepSides(h, xs, j);
    FoldAudit(h, xs, j);
    RootTail(h, chunks, Mth(h, xs));
  }

  /** With the tree's own count the index is fixed: only entry index is accepted, and only along its own path. */
  lemma TrueCountFixesIndex(h: Hash, chunks: seq<Addr>, index: int, chunk: Bytes, path: seq<Digest>)
    requires |chunks| > 0 && Accepts(h, ManifestRoot(h, chunks), |chunks|, index, chunk, path)
    ensures Collide(h, TreeInputs(h, chunks), ProofInputs(h, |chunks|, index, chunk, path))
         || (HashBytes(h, chunk) == chunks[index] && path == AuditPath(h, chunks, index))
  {
    hide Split, IsPow2, Mth, ManifestRoot, Fold, AuditSteps, Sides, TreeInputs, FoldInputs, AuditPath, Collide;
    AcceptedProves(h, chunks, |chunks|, index, chunk, path);
    if j :| ProvesEntry(h, chunks, |chunks|, index, chunk, path, j) {
      SidesInjective(|chunks|, index, j);
    }
  }

  /** With any count the chunk is some entry of the committed list. */
  lemma AnyCountIsMember(h: Hash, chunks: seq<Addr>, nChunks: int, index: int, chunk: Bytes, path: seq<Digest>)
    requires |chunks| > 0 && Accepts(h, ManifestRoot(h, chunks), nChunks, index, chunk, path)
    ensures Collide(h, TreeInputs(h, chunks), ProofInputs(h, nChunks, index, chunk, path))
         || HashBytes(h, chunk) in chunks
  {
    hide Split, IsPow2, Mth, ManifestRoot, Fold, AuditSteps, Sides, TreeInputs, FoldInputs, AuditPath, Collide;
    AcceptedProves(h, chunks, nChunks, index, chunk, path);
  }

  /** The claimed index is the only leaf of the n-leaf tree on its sides. Decidable from the two counts and the index. */
  ghost predicate IndexFixed(n: nat, nChunks: nat, index: nat)
    requires index < nChunks
  {
    forall j :: 0 <= j < n && Sides(n, j) == Sides(nChunks, index) ==> j == index
  }

  /** A wrong count still fixes the index exactly when no other leaf shares the claimed sides. */
  lemma FixedIndexSound(h: Hash, chunks: seq<Addr>, nChunks: nat, index: nat, chunk: Bytes, path: seq<Digest>)
    requires |chunks| > 0 && index < nChunks && IndexFixed(|chunks|, nChunks, index)
    requires Accepts(h, ManifestRoot(h, chunks), nChunks, index, chunk, path)
    ensures Collide(h, TreeInputs(h, chunks), ProofInputs(h, nChunks, index, chunk, path))
         || (index < |chunks| && HashBytes(h, chunk) == chunks[index])
  {
    hide Split, IsPow2, Mth, ManifestRoot, Fold, AuditSteps, Sides, TreeInputs, FoldInputs, AuditPath, Collide;
    AcceptedProves(h, chunks, nChunks, index, chunk, path);
  }

  /** Otherwise some other entry is accepted under the claimed index. */
  lemma UnfixedIndexMisleads(h: Hash, chunks: seq<Addr>, nChunks: nat, index: nat, blobs: seq<Bytes>)
    requires |chunks| > 0 && index < nChunks && !IndexFixed(|chunks|, nChunks, index)
    requires |Sides(nChunks, index)| <= MAX_PROOF_PATH
    requires |blobs| == |chunks| && forall j :: 0 <= j < |chunks| ==> HashBytes(h, blobs[j]) == chunks[j]
    ensures exists j | 0 <= j < |chunks| && j != index ::
      Accepts(h, ManifestRoot(h, chunks), nChunks, index, blobs[j], AuditPath(h, chunks, j))
  {
    hide Split, IsPow2, Mth, ManifestRoot, Fold, AuditSteps, Sides, AuditPath, Accepts, Leaves;
    var j :| 0 <= j < |chunks| && Sides(|chunks|, j) == Sides(nChunks, index) && j != index;
    ProvesAccepted(h, chunks, nChunks, index, blobs[j], AuditPath(h, chunks, j), j);
  }

  /** Leaf 2 of three and leaf 1 of two sit on the same sides, so a count of two accepts it as chunk 1. */
  lemma ThreeLeavesAsTwo(h: Hash, chunks: seq<Addr>, chunk: Bytes)
    requires |chunks| == 3 && HashBytes(h, chunk) == chunks[2]
    ensures Accepts(h, ManifestRoot(h, chunks), 2, 1, chunk, AuditPath(h, chunks, 2)) && !IndexFixed(3, 2, 1)
  {
    hide Split, IsPow2, Mth, ManifestRoot, Fold, AuditSteps, Sides, AuditPath, Accepts, Leaves;
    SidesOfThree();
    ProvesAccepted(h, chunks, 2, 1, chunk, AuditPath(h, chunks, 2), 2);
  }

  lemma SidesOfThree()
    ensures Sides(3, 2) == Sides(2, 1) == [false]
  {
    assert Split(3) == 2 && Split(2) == 1;
    assert Sides(1, 0) == [];
    assert Sides(3, 2) == Sides(1, 0) + [false];
    assert Sides(2, 1) == Sides(1, 0) + [false];
  }

  /** Equal roots come from equal chunk lists, whatever their lengths, or exhibit a collision. */
  lemma {:induction false} RootBinds(h: Hash, cs: seq<Addr>, ds: seq<Addr>)
    requires |cs| > 0 && |ds| > 0 && Mth(h, Leaves(h, cs)) == Mth(h, Leaves(h, ds))
    ensures cs == ds || Collide(h, TreeInputs(h, cs), TreeInputs(h, ds))
    decreases |cs|
  {
    hide Split, IsPow2, Mth, TreeTop, LeafInput, Leaf, Leaves, Collide, TreeInputs;
    TreeTopHashes(h, cs);
    TreeTopHashes(h, ds);
    var x, y := TreeTop(h, cs), TreeTop(h, ds);
    if x != y {
      CollideAt(h, TreeInputs(h, cs), TreeInputs(h, ds), x, y);
    } else {
      EqualTops(h, cs, ds);
      if |cs| > 1 && |ds| > 1 {
        var k, m := Split(|cs|), Split(|ds|);
        RootBinds(h, cs[..k], ds[..m]);
        RootBinds(h, cs[k..], ds[m..]);
        RootBindsJoin(h, cs, ds);
      }
    }
  }

  lemma RootBindsJoin(h: Hash, cs: seq<Addr>, ds: seq<Addr>)
    requires |cs| > 1 && |ds| > 1
    requires var k, m := Split(|cs|), Split(|ds|);
      && (cs[..k] == ds[..m] || Collide(h, TreeInputs(h, cs[..k]), TreeInputs(h, ds[..m])))
      && (cs[k..] == ds[m..] || Collide(h, TreeInputs(h, cs[k..]), TreeInputs(h, ds[m..])))
    ensures cs == ds || Collide(h, TreeInputs(h, cs), TreeInputs(h, ds))
  {
    hide Split, IsPow2, Collide, TreeInputs;
    var k, m := Split(|cs|), Split(|ds|);
    TreeInputsParts(h, cs);
    TreeInputsParts(h, ds);
    if cs[..k] != ds[..m] {
      CollideWithin(h, TreeInputs(h, cs[..k]), TreeInputs(h, ds[..m]), TreeInputs(h, cs), TreeInputs(h, ds));
    } else if cs[k..] != ds[m..] {
      CollideWithin(h, TreeInputs(h, cs[k..]), TreeInputs(h, ds[m..]), TreeInputs(h, cs), TreeInputs(h, ds));
    } else {
      assert cs == cs[..k] + cs[k..] && ds == ds[..m] + ds[m..];
    }
  }

  /** Trees with one top input have one shape at the top and equal parts below it. */
  lemma EqualTops(h: Hash, cs: seq<Addr>, ds: seq<Addr>)
    requires |cs| > 0 && |ds| > 0 && TreeTop(h, cs) == TreeTop(h, ds)
    ensures |cs| == 1 <==> |ds| == 1
    ensures |cs| == 1 ==> cs == ds
    ensures |cs| > 1 && |ds| > 1 ==>
      var k, m := Split(|cs|), Split(|ds|);
      && Mth(h, Leaves(h, cs[..k])) == Mth(h, Leaves(h, ds[..m]))
      && Mth(h, Leaves(h, cs[k..])) == Mth(h, Leaves(h, ds[m..]))
  {
    hide Split, IsPow2, Mth, NodeInput, LeafInput, Leaf, Leaves, Fold;
    if |cs| == 1 && |ds| > 1 {
      TopsDiffer(h, ds, cs[0], []);
    } else if |ds| == 1 && |cs| > 1 {
      TopsDiffer(h, cs, ds[0], []);
    } else if |cs| == 1 {
      InputsDistinct(cs[0], ds[0], ZERO, ZERO, ZERO, ZERO);
    } else {
      var k, m := Split(|cs|), Split(|ds|);
      InputsDistinct(cs[0], ds[0],
        Mth(h, Leaves(h, cs[..k])), Mth(h, Leaves(h, cs[k..])), Mth(h, Leaves(h, ds[..m])), Mth(h, Leaves(h, ds[m..])));
    }
  }
}
