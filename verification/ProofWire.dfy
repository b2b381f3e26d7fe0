/** The wire form of a chunk proof, and the browser's one-call check of a served chunk. */
module ProofWire {
  import opened Common
  import opened Cbor
  import opened ChunkTree
  import opened ChunkProof

  datatype Proof = Proof(index: nat, path: seq<Digest>)

  /** The canonical array [index, [siblings]]. */
  function EncodeChunkProof(index: nat, path: seq<Digest>): Bytes
    requires index < TWO_TO_64 && |path| < TWO_TO_64
  {
    [0x82] + EncodeHead(MAJOR_UINT, index) + EncodeHead(MAJOR_ARRAY, |path|) + EncodeStrings(path, DIGEST_LEN)
  }

  method WriteChunkProof(index: nat, path: seq<Digest>) returns (out: Bytes)
    requires index < TWO_TO_64 && |path| < TWO_TO_64
    ensures out == EncodeChunkProof(index, path)
  {
    hide EncodeHead, EncodeStrings;
    out := [0x82] + EncodeHead(MAJOR_UINT, index) + EncodeHead(MAJOR_ARRAY, |path|);
    ghost var head := out;
    for i := 0 to |path|
      invariant out + EncodeStrings(path[i..], DIGEST_LEN) == head + EncodeStrings(path, DIGEST_LEN)
    {
      EncodeStringsStep(path[i..], DIGEST_LEN);
      assert path[i..][1..] == path[i + 1..];
      out := out + EncodeHead(MAJOR_BYTES, |path[i]|) + path[i];
    }
    EncodeStringsStep(path[|path|..], DIGEST_LEN);
  }

  lemma EncodeStringsStep(ss: seq<Bytes>, width: nat)
    requires width < TWO_TO_64
    ensures EncodeStrings(ss, width) ==
      if |ss| == 0 then [] else EncodeHead(MAJOR_BYTES, width) + ss[0] + EncodeStrings(ss[1..], width)
  {
  }

  /** The strict decoder. */
  function DecodeChunkProof(b: Bytes): Result<Proof> {
    var outer := ReadHead(b);
    if outer.Err? then Err(outer.error)
    else if outer.value.major != MAJOR_ARRAY || outer.value.arg != 2 then Err(MalformedObject) else
      var b1 := b[outer.value.len..];
      var idx := ReadHead(b1);
      if idx.Err? then Err(idx.error)
      else if idx.value.major != MAJOR_UINT || idx.value.arg > MAX_ITEMS then Err(MalformedObject) else
        var b2 := b1[idx.value.len..];
        var count := ReadHead(b2);
        if count.Err? then Err(count.error)
        else if count.value.major != MAJOR_ARRAY || count.value.arg > MAX_PROOF_PATH then Err(MalformedObject) else
          var path := ParseStrings(b2[count.value.len..], count.value.arg, DIGEST_LEN, None);
          if path.Err? then Err(path.error) else Ok(Proof(idx.value.arg, path.value))
  }

  method ReadChunkProof(b: Bytes) returns (r: Result<Proof>)
    ensures r == DecodeChunkProof(b)
  {
    hide ReadHead, ParseStrings;
    var head := ReadHead(b);
    if head.Err? {
      return Err(head.error);
    }
    if head.value.major != MAJOR_ARRAY || head.value.arg != 2 {
      return Err(MalformedObject);
    }
    var off := head.value.len;
    var idx := ReadHead(b[off..]);
    if idx.Err? {
      return Err(idx.error);
    }
    if idx.value.major != MAJOR_UINT || idx.value.arg > MAX_ITEMS {
      return Err(MalformedObject);
    }
    assert b[off..][idx.value.len..] == b[off + idx.value.len..];
    off := off + idx.value.len;
    var count := ReadHead(b[off..]);
    if count.Err? {
      return Err(count.error);
    }
    if count.value.major != MAJOR_ARRAY || count.value.arg > MAX_PROOF_PATH {
      return Err(MalformedObject);
    }
    assert b[off..][count.value.len..] == b[off + count.value.len..];
    off := off + count.value.len;
    var path := ReadStrings(b, off, count.value.arg, DIGEST_LEN, None);
    if path.Err? {
      return Err(path.error);
    }
    r := Ok(Proof(idx.value.arg, path.value));
  }

  lemma OuterHead()
    ensures EncodeHead(MAJOR_ARRAY, 2) == [0x82]
  {
  }

  lemma DecodeSound(b: Bytes)
    requires DecodeChunkProof(b).Ok?
    ensures var p := DecodeChunkProof(b).value;
      p.index <= MAX_ITEMS && |p.path| <= MAX_PROOF_PATH && b == EncodeChunkProof(p.index, p.path)
  {
    hide ReadHead, EncodeHead, ParseStrings, EncodeStrings;
    var outer := ReadHead(b).value;
    var b1 := b[outer.len..];
    var idx := ReadHead(b1).value;
    var b2 := b1[idx.len..];
    var count := ReadHead(b2).value;
    var b3 := b2[count.len..];
    HeadCanonical(b);
    HeadCanonical(b1);
    HeadCanonical(b2);
    OuterHead();
    StringsSound(b3, count.arg, DIGEST_LEN, None);
    var h1, h2 := EncodeHead(MAJOR_UINT, idx.arg), EncodeHead(MAJOR_ARRAY, count.arg);
    assert b == [0x82] + b1 by { assert b == b[..outer.len] + b1; }
    assert b1 == h1 + b2 by { assert b1 == b1[..idx.len] + b2; }
    assert b2 == h2 + b3 by { assert b2 == b2[..count.len] + b3; }
    FourParts([0x82], h1, h2, b3);
  }

  lemma FourParts(a: Bytes, b: Bytes, c: Bytes, d: Bytes)
    ensures a + (b + (c + d)) == a + b + c + d
  {
  }

  lemma DecodeComplete(index: nat, path: seq<Digest>)
    requires index <= MAX_ITEMS && |path| <= MAX_PROOF_PATH
    ensures DecodeChunkProof(EncodeChunkProof(index, path)) == Ok(Proof(index, path))
  {
    hide ReadHead, EncodeHead, ParseStrings, EncodeStrings;
    var e1, e2, ss := EncodeHead(MAJOR_UINT, index), EncodeHead(MAJOR_ARRAY, |path|), EncodeStrings(path, DIGEST_LEN);
    var b := EncodeChunkProof(index, path);
    FourParts([0x82], e1, e2, ss);
    OuterHead();
    HeadRoundTrip(MAJOR_ARRAY, 2, e1 + (e2 + ss));
    HeadRoundTrip(MAJOR_UINT, index, e2 + ss);
    HeadRoundTrip(MAJOR_ARRAY, |path|, ss);
    assert b[1..] == e1 + (e2 + ss) && (e1 + (e2 + ss))[|e1|..] == e2 + ss && (e2 + ss)[|e2|..] == ss;
    StringsComplete(path, DIGEST_LEN, None);
  }

  /** The decoder accepts exactly the encodings within its limits, so no two bodies mean one proof. */
  lemma ProofBodyExact(b: Bytes, index: nat, path: seq<Digest>)
    ensures DecodeChunkProof(b) == Ok(Proof(index, path)) <==>
      index <= MAX_ITEMS && |path| <= MAX_PROOF_PATH && b == EncodeChunkProof(index, path)
  {
    hide DecodeChunkProof, EncodeChunkProof;
    if DecodeChunkProof(b) == Ok(Proof(index, path)) {
      DecodeSound(b);
    }
    if index <= MAX_ITEMS && |path| <= MAX_PROOF_PATH {
      DecodeComplete(index, path);
    }
  }

  /** What the browser's one-call check accepts. */
  ghost predicate ResponseAccepted(h: Hash, root: Addr, nChunks: int, index: int, chunk: Bytes, body: Bytes) {
    var p := DecodeChunkProof(body);
    p.Ok? && p.value.index == index && root[0] == HASH_PREFIX && Accepts(h, root, nChunks, index, chunk, p.value.path)
  }

  /** Decodes the body, checks that it answers the requested index, and verifies the chunk. */
  method VerifyChunkResponse(h: Hash, root: Addr, nChunks: int, index: int, chunk: Bytes, body: Bytes)
    returns (r: Result<Bytes>)
    ensures r == Ok(chunk) || r.Err?
    ensures r.Ok? <==> ResponseAccepted(h, root, nChunks, index, chunk, body)
  {
    hide DecodeChunkProof, Accepts;
    var p := ReadChunkProof(body);
    if p.Err? {
      return Err(p.error);
    }
    if p.value.index != index {
      return Err(ProofInvalid);
    }
    if root[0] != HASH_PREFIX {
      return Err(MalformedObject);
    }
    var v := VerifyChunkProof(h, root, nChunks, index, chunk, p.value.path);
    r := if v.Ok? then Ok(chunk) else Err(v.error);
  }

  /** A list of at most 2^d entries has paths of at most d elements; a manifest's has at most 2^20. */
  lemma PathBound(h: Hash, chunks: seq<Addr>, index: nat)
    requires index < |chunks| <= MAX_ITEMS
    ensures |AuditPath(h, chunks, index)| == |Sides(|chunks|, index)| <= 20
    ensures forall d :: |chunks| <= Pow2(d) ==> |AuditPath(h, chunks, index)| <= d
  {
    hide AuditSteps, Sides, Split, Mth, Pow2;
    StepSides(h, Leaves(h, chunks), index);
    forall d | |chunks| <= Pow2(d)
      ensures |AuditPath(h, chunks, index)| <= d
    {
      SidesBound(|chunks|, index, d);
    }
    Pow2Of20();
    SidesBound(|chunks|, index, 20);
  }

  lemma Pow2Of20()
    ensures Pow2(20) == MAX_ITEMS
  {
    assert Pow2(4) == 16;
    assert Pow2(8) == 16 * Pow2(4);
    assert Pow2(12) == 16 * Pow2(8);
    assert Pow2(16) == 16 * Pow2(12);
    assert Pow2(20) == 16 * Pow2(16);
  }

  /** The body the proof endpoint serves for one chunk. */
  ghost function ServedBody(h: Hash, chunks: seq<Addr>, index: nat): Bytes
    requires index < |chunks| <= MAX_ITEMS
  {
    PathBound(h, chunks, index);
    EncodeChunkProof(index, AuditPath(h, chunks, index))
  }

  /** The served body decodes to the audit path, and with any bytes of that address it is accepted. */
  lemma ResponseComplete(h: Hash, chunks: seq<Addr>, index: nat, chunk: Bytes)
    requires index < |chunks| <= MAX_ITEMS && HashBytes(h, chunk) == chunks[index]
    ensures DecodeChunkProof(ServedBody(h, chunks, index)) == Ok(Proof(index, AuditPath(h, chunks, index)))
    ensures ResponseAccepted(h, ManifestRoot(h, chunks), |chunks|, index, chunk, ServedBody(h, chunks, index))
  {
    hide DecodeChunkProof, EncodeChunkProof, Accepts, AuditPath, Sides;
    var path := AuditPath(h, chunks, index);
    PathBound(h, chunks, index);
    DecodeComplete(index, path);
    ProvesAccepted(h, chunks, |chunks|, index, chunk, path, index);
  }

  /**
   For the true root and count, an accepted response carries the requested entry, and its body is the one the
   endpoint serves, byte for byte; otherwise it exhibits a collision.
   */
  lemma ResponseSound(h: Hash, chunks: seq<Addr>, index: nat, chunk: Bytes, body: Bytes)
    requires index < |chunks| <= MAX_ITEMS
    requires ResponseAccepted(h, ManifestRoot(h, chunks), |chunks|, index, chunk, body)
    ensures (HashBytes(h, chunk) == chunks[index] && body == ServedBody(h, chunks, index))
         || Collide(h, TreeInputs(h, chunks), ProofInputs(h, |chunks|, index, chunk, DecodeChunkProof(body).value.path))
  {
    hide DecodeChunkProof, EncodeChunkProof, AuditPath, Sides, Collide, TreeInputs, ProofInputs, ManifestRoot, Fold;
    TrueCountFixesIndex(h, chunks, index, chunk, DecodeChunkProof(body).value.path);
    DecodeSound(body);
  }
}
