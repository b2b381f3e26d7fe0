/**
 The verification gate: announces and chunks by the hash of their bytes, manifests by the root of the chunk list they
 carry. An accepted manifest is shown to be one of the canonical encodings of its chunk list, and nothing else.
 */
module Manifest {
  import opened Common
  import opened Cbor
  import opened ChunkTree
  import opened ChunkProof
  import opened ProofWire

  const KEY_ID: nat := 1
  const KEY_SIZE: nat := 2
  const KEY_CHUNK_SZ: nat := 3
  const KEY_CHUNKS: nat := 4
  const KEY_FORBIDDEN: nat := 5
  const KEY_SUITE: nat := 6
  const KEY_EXTENSION_FLOOR: nat := 64

  // ----- fields -----

  /** A non-empty array of addresses with the supported prefix. */
  function ParseAddrArray(b: Bytes): (r: Result<seq<Addr>>)
    ensures r.Ok? ==> |r.value| > 0
  {
    var head := ReadHead(b);
    if head.Err? then Err(head.error)
    else if head.value.major != MAJOR_ARRAY || head.value.arg == 0 || head.value.arg > MAX_ITEMS then Err(MalformedObject)
    else
      var addrs := ParseStrings(b[head.value.len..], head.value.arg, ADDR_LEN, Some(HASH_PREFIX));
      if addrs.Err? then Err(addrs.error) else Ok(addrs.value)
  }

  predicate ChunkList(chunks: seq<Addr>) {
    0 < |chunks| <= MAX_ITEMS && ValidStrings(chunks, ADDR_LEN, Some(HASH_PREFIX))
  }

  function EncodeAddrArray(chunks: seq<Addr>): Bytes
    requires |chunks| <= MAX_ITEMS
  {
    EncodeHead(MAJOR_ARRAY, |chunks|) + EncodeStrings(chunks, ADDR_LEN)
  }

  /** The array reader accepts exactly the encodings of chunk lists. */
  lemma AddrArrayExact(b: Bytes, chunks: seq<Addr>)
    ensures ParseAddrArray(b) == Ok(chunks) <==> ChunkList(chunks) && b == EncodeAddrArray(chunks)
  {
    hide ReadHead, EncodeHead, ParseStrings, EncodeStrings, ValidStrings;
    if ParseAddrArray(b) == Ok(chunks) {
      var hd := ReadHead(b).value;
      HeadCanonical(b);
      StringsSound(b[hd.len..], hd.arg, ADDR_LEN, Some(HASH_PREFIX));
      assert b == b[..hd.len] + b[hd.len..];
    }
    if ChunkList(chunks) && b == EncodeAddrArray(chunks) {
      HeadRoundTrip(MAJOR_ARRAY, |chunks|, EncodeStrings(chunks, ADDR_LEN));
      StringsComplete(chunks, ADDR_LEN, Some(HASH_PREFIX));
      assert b[|EncodeHead(MAJOR_ARRAY, |chunks|)|..] == EncodeStrings(chunks, ADDR_LEN);
    }
  }

  method ReadAddrArray(b: Bytes) returns (r: Result<seq<Addr>>)
    ensures r == ParseAddrArray(b)
  {
    hide ReadHead, ParseStrings;
    var head := ReadHead(b);
    if head.Err? {
      return Err(head.error);
    }
    if head.value.major != MAJOR_ARRAY || head.value.arg == 0 || head.value.arg > MAX_ITEMS {
      return Err(MalformedObject);
    }
    var addrs := ReadStrings(b, head.value.len, head.value.arg, ADDR_LEN, Some(HASH_PREFIX));
    if addrs.Err? {
      return Err(addrs.error);
    }
    r := Ok(addrs.value);
  }

  /** An unsigned integer below limit, and nothing after it. */
  function RequireUintField(val: Bytes, limit: nat): Result<nat> {
    var head := ReadHead(val);
    if head.Err? then Err(head.error)
    else if head.value.major != MAJOR_UINT || head.value.len != |val| || head.value.arg >= limit then Err(MalformedObject)
    else Ok(head.value.arg)
  }

  lemma UintFieldExact(val: Bytes, limit: nat, v: nat)
    requires limit <= TWO_TO_64
    ensures RequireUintField(val, limit) == Ok(v) <==> v < limit && val == EncodeHead(MAJOR_UINT, v)
  {
    hide ReadHead, EncodeHead;
    if RequireUintField(val, limit) == Ok(v) {
      HeadCanonical(val);
      assert val[..|val|] == val;
    }
    if v < limit && val == EncodeHead(MAJOR_UINT, v) {
      HeadRoundTrip(MAJOR_UINT, v, []);
      assert EncodeHead(MAJOR_UINT, v) + [] == EncodeHead(MAJOR_UINT, v);
    }
  }

  /** The manifest's own address field. */
  function ParseIdField(val: Bytes): Result<Addr> {
    var head := ReadHead(val);
    if head.Err? then Err(head.error)
    else if head.value.major != MAJOR_BYTES || head.value.arg != ADDR_LEN || |val| != head.value.len + ADDR_LEN
    then Err(MalformedObject)
    else Ok(val[head.value.len..])
  }

  function EncodeIdField(a: Addr): Bytes {
    EncodeHead(MAJOR_BYTES, ADDR_LEN) + a
  }

  lemma IdFieldExact(val: Bytes, a: Addr)
    ensures ParseIdField(val) == Ok(a) <==> val == EncodeIdField(a)
  {
    hide ReadHead, EncodeHead;
    if ParseIdField(val) == Ok(a) {
      HeadCanonical(val);
      var n := ReadHead(val).value.len;
      assert val == val[..n] + val[n..];
    }
    if val == EncodeIdField(a) {
      HeadRoundTrip(MAJOR_BYTES, ADDR_LEN, a);
      assert val[|EncodeHead(MAJOR_BYTES, ADDR_LEN)|..] == a;
    }
  }

  // ----- the field loop -----

  /** What the loop over a manifest's entries has seen. */
  datatype Fields = Fields(id: Option<Addr>, chunks: Option<seq<Addr>>, size: bool, chunkSz: bool, suite: bool) {
    predicate Complete() {
      id.Some? && chunks.Some? && size && chunkSz && suite
    }
  }

  const NO_FIELDS: Fields := Fields(None, None, false, false, false)

  /** The effect of one entry. */
  function Field(f: Fields, e: Entry): Result<Fields> {
    if e.key == KEY_FORBIDDEN then Err(ManifestKeyPresent)
    else if e.key == KEY_ID then
      var v := ParseIdField(e.val);
      if v.Err? then Err(v.error) else Ok(f.(id := Some(v.value)))
    else if e.key == KEY_CHUNKS then
      var v := ParseAddrArray(e.val);
      if v.Err? then Err(v.error) else Ok(f.(chunks := Some(v.value)))
    else if e.key == KEY_SIZE then
      var v := RequireUintField(e.val, TWO_TO_64);
      if v.Err? then Err(v.error) else Ok(f.(size := true))
    else if e.key == KEY_CHUNK_SZ then
      var v := RequireUintField(e.val, 0x1_0000_0000);
      if v.Err? then Err(v.error) else Ok(f.(chunkSz := true))
    else if e.key == KEY_SUITE then Ok(f.(suite := true))
    else if e.key < KEY_EXTENSION_FLOOR then Err(MalformedObject)
    else Ok(f)
  }

  function FieldsOf(es: seq<Entry>): (r: Result<Fields>)
    ensures r.Ok? && r.value.chunks.Some? ==> |r.value.chunks.value| > 0
  {
    if |es| == 0 then Ok(NO_FIELDS) else
      var f := FieldsOf(es[..|es| - 1]);
      if f.Err? then f else Field(f.value, es[|es| - 1])
  }

  /** The chunk list of a manifest fetched by this address, once everything about it has been checked. */
  function VerifiedChunks(h: Hash, want: Addr, body: Bytes): Result<seq<Addr>> {
    var es := ParseUintKeyedMap(body);
    if es.Err? then Err(es.error) else
      var f := FieldsOf(es.value);
      if f.Err? then Err(f.error)
      else if !f.value.Complete() then Err(MalformedObject)
      else if ManifestRoot(h, f.value.chunks.value) != want then Err(AddrMismatch)
      else if f.value.id.value != want then Err(AddrMismatch)
      else Ok(f.value.chunks.value)
  }

  method VerifiedManifestChunks(h: Hash, want: Addr, body: Bytes) returns (r: Result<seq<Addr>>)
    ensures r == VerifiedChunks(h, want, body)
  {
    hide ParseUintKeyedMap, Mth, ParseAddrArray, ParseIdField, RequireUintField;
    var es := ReadUintKeyedMap(body);
    if es.Err? {
      return Err(es.error);
    }
    var entries := es.value;
    var f := NO_FIELDS;
    for i := 0 to |entries|
      invariant FieldsOf(entries[..i]) == Ok(f)
    {
      var e := entries[i];
      assert entries[..i + 1][..i] == entries[..i];
      var next := ReadField(f, e);
      if next.Err? {
        FieldsFail(entries, i + 1);
        return Err(next.error);
      }
      f := next.value;
    }
    assert entries[..|entries|] == entries;
    if !f.Complete() {
      return Err(MalformedObject);
    }
    var root := MerkleRoot(h, f.chunks.value);
    if [HASH_PREFIX] + root != want || f.id.value != want {
      return Err(AddrMismatch);
    }
    r := Ok(f.chunks.value);
  }

  /** The switch on one entry, with the array reader's loop. */
  method ReadField(f: Fields, e: Entry) returns (r: Result<Fields>)
    ensures r == Field(f, e)
  {
    hide ParseAddrArray, ParseIdField, RequireUintField;
    if e.key == KEY_FORBIDDEN {
      return Err(ManifestKeyPresent);
    }
    r := Ok(f);
    if e.key == KEY_ID {
      var v := ParseIdField(e.val);
      r := if v.Err? then Err(v.error) else Ok(f.(id := Some(v.value)));
    } else if e.key == KEY_CHUNKS {
      var v := ReadAddrArray(e.val);
      r := if v.Err? then Err(v.error) else Ok(f.(chunks := Some(v.value)));
    } else if e.key == KEY_SIZE {
      var v := RequireUintField(e.val, TWO_TO_64);
      r := if v.Err? then Err(v.error) else Ok(f.(size := true));
    } else if e.key == KEY_CHUNK_SZ {
      var v := RequireUintField(e.val, 0x1_0000_0000);
      r := if v.Err? then Err(v.error) else Ok(f.(chunkSz := true));
    } else if e.key == KEY_SUITE {
      r := Ok(f.(suite := true));
    } else if e.key < KEY_EXTENSION_FLOOR {
      r := Err(MalformedObject);
    }
  }

  /** The first entry that fails decides. */
  lemma {:induction false} FieldsFail(es: seq<Entry>, n: nat)
    requires n <= |es| && FieldsOf(es[..n]).Err?
    ensures FieldsOf(es) == FieldsOf(es[..n])
    decreases |es| - n
  {
    hide Field;
    if n < |es| {
      assert es[..n + 1][..n] == es[..n];
      FieldsFail(es, n + 1);
    } else {
      assert es[..n] == es;
    }
  }

  // ----- the canonical form -----

  /** The parts of a manifest that its address does not cover. */
  datatype Parts = Parts(size: nat, chunkSz: nat, suite: Bytes, ext: seq<Entry>)

  predicate ValidParts(p: Parts) {
    && p.size < TWO_TO_64 && p.chunkSz < 0x1_0000_0000
    && SkipValue(p.suite, 1) == Ok(|p.suite|)
    && ValidEntries(p.ext, Some(KEY_EXTENSION_FLOOR - 1)) && |p.ext| + 5 <= MAX_ITEMS
  }

  function ManifestEntries(want: Addr, chunks: seq<Addr>, p: Parts): seq<Entry>
    requires ChunkList(chunks) && ValidParts(p)
  {
    [Entry(KEY_ID, EncodeIdField(want)), Entry(KEY_SIZE, EncodeHead(MAJOR_UINT, p.size)),
     Entry(KEY_CHUNK_SZ, EncodeHead(MAJOR_UINT, p.chunkSz)), Entry(KEY_CHUNKS, EncodeAddrArray(chunks)),
     Entry(KEY_SUITE, p.suite)] + p.ext
  }

  lemma UintScans(v: nat)
    requires v < TWO_TO_64
    ensures SkipValue(EncodeHead(MAJOR_UINT, v), 1) == Ok(|EncodeHead(MAJOR_UINT, v)|)
  {
    hide SkipValue, EncodeHead;
    var it := Plain(MAJOR_UINT, v);
    SkipComplete(it, 1, []);
    assert EncodeItem(it, 1) + [] == EncodeHead(MAJOR_UINT, v);
  }

  lemma IdScans(a: Addr)
    ensures SkipValue(EncodeIdField(a), 1) == Ok(|EncodeIdField(a)|)
  {
    hide SkipValue, EncodeHead;
    var it := Str(MAJOR_BYTES, a);
    SkipComplete(it, 1, []);
    assert EncodeItem(it, 1) + [] == EncodeIdField(a);
  }

  /** A string array is an array value of byte-string values. */
  function StringItems(ss: seq<Bytes>): (r: seq<Item>)
    ensures |r| == |ss| && forall i :: 0 <= i < |r| ==> r[i] == Str(MAJOR_BYTES, ss[i])
  {
    seq(|ss|, i requires 0 <= i < |ss| => Str(MAJOR_BYTES, ss[i]))
  }

  lemma {:induction false} StringItemsEncode(ss: seq<Bytes>, width: nat, depth: nat)
    requires width < TWO_TO_64 && depth <= MAX_DEPTH && forall i :: 0 <= i < |ss| ==> |ss[i]| == width
    ensures EncodeItems(StringItems(ss), depth) == EncodeStrings(ss, width)
  {
    hide EncodeHead;
    if |ss| > 0 {
      StringItemsEncode(ss[1..], width, depth);
      assert StringItems(ss)[1..] == StringItems(ss[1..]);
    }
  }

  lemma ChunksScan(chunks: seq<Addr>)
    requires |chunks| <= MAX_ITEMS
    ensures SkipValue(EncodeAddrArray(chunks), 1) == Ok(|EncodeAddrArray(chunks)|)
  {
    hide SkipValue, EncodeHead, EncodeItems, EncodeStrings;
    var it := Arr(StringItems(chunks));
    StringItemsEncode(chunks, ADDR_LEN, 2);
    SkipComplete(it, 1, []);
    assert EncodeItem(it, 1) + [] == EncodeAddrArray(chunks);
  }

  lemma ManifestEntriesValid(want: Addr, chunks: seq<Addr>, p: Parts)
    requires ChunkList(chunks) && ValidParts(p)
    ensures ValidEntries(ManifestEntries(want, chunks, p), None)
  {
    hide SkipValue, EncodeHead, EncodeIdField, EncodeAddrArray, ValidEntries, EncodeEntries;
    IdScans(want);
    UintScans(p.size);
    UintScans(p.chunkSz);
    ChunksScan(chunks);
    var e1, e2 := Entry(KEY_ID, EncodeIdField(want)), Entry(KEY_SIZE, EncodeHead(MAJOR_UINT, p.size));
    var e3, e4 := Entry(KEY_CHUNK_SZ, EncodeHead(MAJOR_UINT, p.chunkSz)), Entry(KEY_CHUNKS, EncodeAddrArray(chunks));
    var e5 := Entry(KEY_SUITE, p.suite);
    LowerPrev(p.ext, KEY_EXTENSION_FLOOR - 1, KEY_SUITE);
    ConsEntries(e5, p.ext, Some(KEY_CHUNKS));
    ConsEntries(e4, [e5] + p.ext, Some(KEY_CHUNK_SZ));
    ConsEntries(e3, [e4] + ([e5] + p.ext), Some(KEY_SIZE));
    ConsEntries(e2, [e3] + ([e4] + ([e5] + p.ext)), Some(KEY_ID));
    ConsEntries(e1, [e2] + ([e3] + ([e4] + ([e5] + p.ext))), None);
    assert ManifestEntries(want, chunks, p) == [e1] + ([e2] + ([e3] + ([e4] + ([e5] + p.ext))));
  }

  lemma LowerPrev(es: seq<Entry>, prev: nat, lower: nat)
    requires ValidEntries(es, Some(prev)) && lower <= prev
    ensures ValidEntries(es, Some(lower))
  {
    hide SkipValue;
  }

  /** The manifest of a chunk list, for given uncovered parts. */
  function EncodeManifest(want: Addr, chunks: seq<Addr>, p: Parts): Bytes
    requires ChunkList(chunks) && ValidParts(p)
  {
    ManifestEntriesValid(want, chunks, p);
    EncodeMap(ManifestEntries(want, chunks, p))
  }

  lemma {:induction false} EntriesSorted(es: seq<Entry>, prev: Option<nat>)
    requires ValidEntries(es, prev)
    ensures forall i, j :: 0 <= i < j < |es| ==> es[i].key < es[j].key
    ensures prev.Some? ==> forall i :: 0 <= i < |es| ==> prev.value < es[i].key
  {
    hide SkipValue;
    if |es| > 0 {
      EntriesSorted(es[1..], Some(es[0].key));
      assert forall i :: 0 < i < |es| ==> es[i] == es[1..][i - 1];
    }
  }

  predicate HasKey(es: seq<Entry>, k: nat) {
    exists i :: 0 <= i < |es| && es[i].key == k
  }

  predicate Known(k: nat) {
    k == KEY_ID || k == KEY_SIZE || k == KEY_CHUNK_SZ || k == KEY_CHUNKS || k == KEY_SUITE || k >= KEY_EXTENSION_FLOOR
  }

  /** Whether the field with this key has been seen. */
  predicate Present(f: Fields, k: nat) {
    (k == KEY_ID && f.id.Some?) || (k == KEY_SIZE && f.size) || (k == KEY_CHUNK_SZ && f.chunkSz)
    || (k == KEY_CHUNKS && f.chunks.Some?) || (k == KEY_SUITE && f.suite)
  }

  lemma FieldEffect(f: Fields, e: Entry, k: nat)
    requires Field(f, e).Ok?
    ensures Known(e.key) && (Present(Field(f, e).value, k) ==> Present(f, k) || e.key == k)
  {
    hide ParseIdField, ParseAddrArray, RequireUintField;
  }

  lemma {:induction false} FieldsSound(es: seq<Entry>, k: nat)
    requires FieldsOf(es).Ok?
    ensures forall i :: 0 <= i < |es| ==> Known(es[i].key)
    ensures Present(FieldsOf(es).value, k) ==> HasKey(es, k)
  {
    hide Field, Known;
    if |es| > 0 {
      var front, last := es[..|es| - 1], es[|es| - 1];
      FieldsSound(front, k);
      FieldEffect(FieldsOf(front).value, last, k);
      assert forall i :: 0 <= i < |front| ==> es[i] == front[i];
    }
  }

  /** Where the next known key of a sorted list must stand. */
  lemma NextKey(es: seq<Entry>, i: nat, prev: int, k: nat)
    requires forall a, b :: 0 <= a < b < |es| ==> es[a].key < es[b].key
    requires forall a :: 0 <= a < |es| ==> Known(es[a].key)
    requires HasKey(es, k) && i <= |es| && prev < k && (if i == 0 then prev == -1 else es[i - 1].key == prev)
    requires forall x: nat :: prev < x < k ==> !Known(x)
    ensures i < |es| && es[i].key == k
  {
    hide Known;
    var j :| 0 <= j < |es| && es[j].key == k;
    assert i <= j && Known(es[i].key);
  }

  /** Complete accepted entries are the five fixed fields in order and then extensions. */
  lemma KeyShape(es: seq<Entry>)
    requires ValidEntries(es, None) && FieldsOf(es).Ok? && FieldsOf(es).value.Complete()
    ensures |es| >= 5 && es[0].key == KEY_ID && es[1].key == KEY_SIZE && es[2].key == KEY_CHUNK_SZ
    ensures es[3].key == KEY_CHUNKS && es[4].key == KEY_SUITE
    ensures forall i :: 5 <= i < |es| ==> es[i].key >= KEY_EXTENSION_FLOOR
  {
    hide FieldsOf, ValidEntries, HasKey;
    EntriesSorted(es, None);
    FieldsSound(es, KEY_ID);
    FieldsSound(es, KEY_SIZE);
    FieldsSound(es, KEY_CHUNK_SZ);
    FieldsSound(es, KEY_CHUNKS);
    FieldsSound(es, KEY_SUITE);
    NextKey(es, 0, -1, KEY_ID);
    NextKey(es, 1, KEY_ID, KEY_SIZE);
    NextKey(es, 2, KEY_SIZE, KEY_CHUNK_SZ);
    NextKey(es, 3, KEY_CHUNK_SZ, KEY_CHUNKS);
    NextKey(es, 4, KEY_CHUNKS, KEY_SUITE);
  }

  /** Extensions leave the field loop's state alone. */
  lemma {:induction false} ExtensionsKeep(es: seq<Entry>, n: nat)
    requires n <= |es| && forall i :: n <= i < |es| ==> es[i].key >= KEY_EXTENSION_FLOOR
    ensures FieldsOf(es) == FieldsOf(es[..n])
    decreases |es|
  {
    if n == |es| {
      assert es[..n] == es;
    } else {
      var front := es[..|es| - 1];
      ExtensionsKeep(front, n);
      assert front[..n] == es[..n];
    }
  }

  predicate FixedKeys(es: seq<Entry>) {
    && |es| >= 5 && es[0].key == KEY_ID && es[1].key == KEY_SIZE && es[2].key == KEY_CHUNK_SZ
    && es[3].key == KEY_CHUNKS && es[4].key == KEY_SUITE
  }

  lemma FieldsStep(es: seq<Entry>, n: nat)
    requires n < |es|
    ensures FieldsOf(es[..n + 1]) ==
      if FieldsOf(es[..n]).Err? then FieldsOf(es[..n]) else Field(FieldsOf(es[..n]).value, es[n])
  {
    hide Field;
    assert es[..n + 1][..n] == es[..n];
  }

  /** The loop over the five fixed fields succeeds exactly when each of them parses. */
  lemma FirstFive(es: seq<Entry>, a: Addr, cs: seq<Addr>)
    requires FixedKeys(es)
    ensures FieldsOf(es[..5]) == Ok(Fields(Some(a), Some(cs), true, true, true)) <==>
      && ParseIdField(es[0].val) == Ok(a) && RequireUintField(es[1].val, TWO_TO_64).Ok?
      && RequireUintField(es[2].val, 0x1_0000_0000).Ok? && ParseAddrArray(es[3].val) == Ok(cs)
  {
    hide ParseIdField, ParseAddrArray, RequireUintField, FieldsOf;
    NoFieldsYet(es[..0]);
    FieldsStep(es, 0);
    FieldsStep(es, 1);
    FieldsStep(es, 2);
    FieldsStep(es, 3);
    FieldsStep(es, 4);
  }

  lemma NoFieldsYet(es: seq<Entry>)
    requires |es| == 0
    ensures FieldsOf(es) == Ok(NO_FIELDS)
  {
  }

  /** The uncovered parts of entries in canonical shape. */
  ghost function PartsOf(es: seq<Entry>): Parts
    requires FixedKeys(es)
  {
    Parts(RequireUintField(es[1].val, TWO_TO_64).GetOr(0), RequireUintField(es[2].val, 0x1_0000_0000).GetOr(0), es[4].val, es[5..])
  }

  lemma {:induction false} EntriesTail(es: seq<Entry>, prev: Option<nat>, n: nat)
    requires ValidEntries(es, prev) && 0 < n <= |es|
    ensures ValidEntries(es[n..], Some(es[n - 1].key)) && SkipValue(es[n - 1].val, 1) == Ok(|es[n - 1].val|)
    decreases n
  {
    hide SkipValue;
    if n > 1 {
      EntriesTail(es[1..], Some(es[0].key), n - 1);
      assert es[1..][n - 1..] == es[n..];
    }
  }

  lemma RaisePrev(es: seq<Entry>, prev: nat, higher: nat)
    requires ValidEntries(es, Some(prev)) && (|es| > 0 ==> higher < es[0].key)
    ensures ValidEntries(es, Some(higher))
  {
    hide SkipValue;
  }

  lemma CanonicalEntries(es: seq<Entry>, want: Addr, chunks: seq<Addr>)
    requires |es| <= MAX_ITEMS && ValidEntries(es, None) && FieldsOf(es).Ok? && FieldsOf(es).value.Complete()
    requires FieldsOf(es).value.id == Some(want) && FieldsOf(es).value.chunks == Some(chunks)
    ensures ChunkList(chunks) && FixedKeys(es) && ValidParts(PartsOf(es))
    ensures es == ManifestEntries(want, chunks, PartsOf(es))
  {
    hide ParseIdField, ParseAddrArray, RequireUintField, FieldsOf, ValidEntries, SkipValue, ValidStrings;
    hide EncodeHead, EncodeIdField, EncodeAddrArray, ManifestEntries;
    KeyShape(es);
    ExtensionsKeep(es, 5);
    FirstFive(es, want, chunks);
    var p := PartsOf(es);
    IdFieldExact(es[0].val, want);
    UintFieldExact(es[1].val, TWO_TO_64, p.size);
    UintFieldExact(es[2].val, 0x1_0000_0000, p.chunkSz);
    AddrArrayExact(es[3].val, chunks);
    EntriesTail(es, None, 5);
    RaisePrev(es[5..], KEY_SUITE, KEY_EXTENSION_FLOOR - 1);
    FiveAndRest(es, want, chunks, p);
  }

  lemma FiveAndRest(es: seq<Entry>, want: Addr, chunks: seq<Addr>, p: Parts)
    requires FixedKeys(es) && ChunkList(chunks) && ValidParts(p) && es[0].val == EncodeIdField(want)
    requires es[1].val == EncodeHead(MAJOR_UINT, p.size) && es[2].val == EncodeHead(MAJOR_UINT, p.chunkSz)
    requires es[3].val == EncodeAddrArray(chunks) && es[4].val == p.suite && es[5..] == p.ext
    ensures es == ManifestEntries(want, chunks, p)
  {
    hide EncodeHead, EncodeIdField, EncodeAddrArray, ChunkList, ValidParts;
    assert es == [es[0], es[1], es[2], es[3], es[4]] + es[5..];
  }

  /**
   A manifest is accepted at an address, with a chunk list, exactly when the address is the root of the list and the
   bytes are the canonical encoding of the list with some uncovered parts.
   */
  lemma ManifestExact(h: Hash, want: Addr, body: Bytes, chunks: seq<Addr>)
    ensures VerifiedChunks(h, want, body) == Ok(chunks) <==>
      && ChunkList(chunks) && want == ManifestRoot(h, chunks)
      && exists p :: ValidParts(p) && body == EncodeManifest(want, chunks, p)
  {
    hide ParseUintKeyedMap, EncodeMap, ManifestEntries, ManifestRoot, FieldsOf, ValidEntries, ValidStrings, ValidParts;
    if VerifiedChunks(h, want, body) == Ok(chunks) {
      var es := ParseUintKeyedMap(body).value;
      MapExact(body, es);
      CanonicalEntries(es, want, chunks);
      assert body == EncodeManifest(want, chunks, PartsOf(es));
    }
    if ChunkList(chunks) && want == ManifestRoot(h, chunks)
      && exists p :: ValidParts(p) && body == EncodeManifest(want, chunks, p) {
      var p :| ValidParts(p) && body == EncodeManifest(want, chunks, p);
      ManifestAccepted(h, want, chunks, p);
    }
  }

  lemma ManifestAccepted(h: Hash, want: Addr, chunks: seq<Addr>, p: Parts)
    requires ChunkList(chunks) && ValidParts(p) && want == ManifestRoot(h, chunks)
    ensures VerifiedChunks(h, want, EncodeManifest(want, chunks, p)) == Ok(chunks)
  {
    hide VerifiedChunks, ChunkList, ValidParts, EncodeManifest, ManifestRoot;
    ManifestFetched(h, want, want, chunks, p);
  }

  /** A well-formed manifest is accepted exactly under the address that is both its root and its own id; any other is a mismatch. */
  lemma ManifestFetched(h: Hash, want: Addr, id: Addr, chunks: seq<Addr>, p: Parts)
    requires ChunkList(chunks) && ValidParts(p)
    ensures VerifiedChunks(h, want, EncodeManifest(id, chunks, p)) ==
      if ManifestRoot(h, chunks) == want && id == want then Ok(chunks) else Err(AddrMismatch)
  {
    hide ParseUintKeyedMap, EncodeMap, ManifestRoot, FieldsOf, ValidEntries, ChunkList, SkipValue;
    hide ParseIdField, ParseAddrArray, RequireUintField, EncodeHead, EncodeIdField, EncodeAddrArray;
    var es := ManifestEntries(id, chunks, p);
    ManifestEntriesValid(id, chunks, p);
    MapExact(EncodeManifest(id, chunks, p), es);
    EntriesSorted(p.ext, Some(KEY_EXTENSION_FLOOR - 1));
    ExtensionsKeep(es, 5);
    IdFieldExact(es[0].val, id);
    UintFieldExact(es[1].val, TWO_TO_64, p.size);
    UintFieldExact(es[2].val, 0x1_0000_0000, p.chunkSz);
    AddrArrayExact(es[3].val, chunks);
    FirstFive(es, id, chunks);
  }

  /** A key field is rejected on sight, by its own name, once the entries before it are in order. */
  lemma KeyFieldRejected(h: Hash, want: Addr, body: Bytes, i: nat)
    requires ParseUintKeyedMap(body).Ok? && i < |ParseUintKeyedMap(body).value|
    requires var es := ParseUintKeyedMap(body).value; FieldsOf(es[..i]).Ok? && es[i].key == 5
    ensures VerifiedChunks(h, want, body) == Err(ManifestKeyPresent)
  {
    hide ParseUintKeyedMap, FieldsOf, ManifestRoot;
    var es := ParseUintKeyedMap(body).value;
    FieldsStep(es, i);
    FieldsFail(es, i + 1);
  }

  /** Two bodies of one chunk list are the same bytes exactly when their uncovered parts agree. */
  lemma PartsDecideBytes(want: Addr, chunks: seq<Addr>, p: Parts, q: Parts)
    requires ChunkList(chunks) && ValidParts(p) && ValidParts(q)
    ensures EncodeManifest(want, chunks, p) == EncodeManifest(want, chunks, q) <==> p == q
  {
    hide ParseUintKeyedMap, EncodeMap, ValidEntries, ChunkList, EncodeHead, EncodeIdField, EncodeAddrArray, SkipValue;
    hide RequireUintField;
    var b := EncodeManifest(want, chunks, p);
    if b == EncodeManifest(want, chunks, q) {
      var es, fs := ManifestEntries(want, chunks, p), ManifestEntries(want, chunks, q);
      ManifestEntriesValid(want, chunks, p);
      ManifestEntriesValid(want, chunks, q);
      MapExact(b, es);
      MapExact(b, fs);
      UintFieldExact(es[1].val, TWO_TO_64, p.size);
      UintFieldExact(fs[1].val, TWO_TO_64, q.size);
      UintFieldExact(es[2].val, 0x1_0000_0000, p.chunkSz);
      UintFieldExact(fs[2].val, 0x1_0000_0000, q.chunkSz);
      assert es[4] == fs[4] && es[5..] == p.ext && fs[5..] == q.ext;
    }
  }

  // ----- the gate -----

  datatype Kind = Announce | ManifestKind | Chunk

  /** Whether these bytes may be stored or served under this kind and address. */
  function Verify(h: Hash, kind: Kind, want: Addr, body: Bytes): Result<()> {
    if kind == ManifestKind then
      var r := VerifiedChunks(h, want, body);
      if r.Err? then Err(r.error) else Ok(())
    else if HashBytes(h, body) != want then Err(AddrMismatch)
    else Ok(())
  }

  /** What an address promises: a manifest is a canonical encoding of a list with that root, anything else has that hash. */
  ghost predicate Genuine(h: Hash, kind: Kind, want: Addr, body: Bytes) {
    if kind == ManifestKind then exists chunks, p :: Encodes(h, want, body, chunks, p) else HashBytes(h, body) == want
  }

  ghost predicate Encodes(h: Hash, want: Addr, body: Bytes, chunks: seq<Addr>, p: Parts) {
    ChunkList(chunks) && ValidParts(p) && want == ManifestRoot(h, chunks) && body == EncodeManifest(want, chunks, p)
  }

  /** The gate lets through exactly what is genuine, of every kind. */
  lemma VerifyExact(h: Hash, kind: Kind, want: Addr, body: Bytes)
    ensures Verify(h, kind, want, body).Ok? <==> Genuine(h, kind, want, body)
    ensures kind != ManifestKind && Verify(h, kind, want, body).Err? ==> Verify(h, kind, want, body).error == AddrMismatch
  {
    hide VerifiedChunks, ChunkList, ValidParts, ManifestRoot, EncodeManifest;
    if kind == ManifestKind {
      if VerifiedChunks(h, want, body).Ok? {
        var chunks := VerifiedChunks(h, want, body).value;
        ManifestExact(h, want, body, chunks);
        var p :| ValidParts(p) && body == EncodeManifest(want, chunks, p);
        assert Encodes(h, want, body, chunks, p);
      }
      if Genuine(h, kind, want, body) {
        var chunks, p :| Encodes(h, want, body, chunks, p);
        ManifestExact(h, want, body, chunks);
      }
    }
  }

  /** An address fixes the chunk list: two manifests accepted at it carry the same list, or exhibit a collision. */
  lemma AddressBindsChunks(h: Hash, want: Addr, body: Bytes, body': Bytes)
    requires VerifiedChunks(h, want, body).Ok? && VerifiedChunks(h, want, body').Ok?
    ensures var cs, ds := VerifiedChunks(h, want, body).value, VerifiedChunks(h, want, body').value;
      |cs| > 0 && |ds| > 0 && (cs == ds || Collide(h, TreeInputs(h, cs), TreeInputs(h, ds)))
  {
    hide VerifiedChunks, ManifestRoot, Mth, Collide, TreeInputs, ValidStrings;
    var cs, ds := VerifiedChunks(h, want, body).value, VerifiedChunks(h, want, body').value;
    ManifestExact(h, want, body, cs);
    ManifestExact(h, want, body', ds);
    RootTail(h, cs, Mth(h, Leaves(h, cs)));
    RootTail(h, ds, Mth(h, Leaves(h, cs)));
    RootBinds(h, cs, ds);
  }

  /** An address does not fix the bytes: every chunk list has manifests of different bytes accepted at its root. */
  lemma AddressDoesNotBindBytes(h: Hash, chunks: seq<Addr>, p: Parts, size: nat)
    requires ChunkList(chunks) && ValidParts(p) && size < TWO_TO_64 && size != p.size
    ensures var want, q := ManifestRoot(h, chunks), p.(size := size);
      && ValidParts(q)
      && EncodeManifest(want, chunks, p) != EncodeManifest(want, chunks, q)
      && Verify(h, ManifestKind, want, EncodeManifest(want, chunks, p)) == Ok(())
      && Verify(h, ManifestKind, want, EncodeManifest(want, chunks, q)) == Ok(())
  {
    hide VerifiedChunks, ManifestRoot, EncodeManifest, ValidEntries, SkipValue, ValidStrings;
    var want, q := ManifestRoot(h, chunks), p.(size := size);
    ManifestAccepted(h, want, chunks, p);
    ManifestAccepted(h, want, chunks, q);
    PartsDecideBytes(want, chunks, p, q);
  }

  /**
   From an accepted manifest to an accepted chunk: every index has a path of logarithmic length, at most 20, the served body
   decodes to it unchanged, and with any bytes of that chunk's address the response is accepted at the same root.
   */
  lemma AcceptedManifestServes(h: Hash, want: Addr, body: Bytes, index: nat, chunk: Bytes)
    requires VerifiedChunks(h, want, body).Ok? && index < |VerifiedChunks(h, want, body).value|
    requires HashBytes(h, chunk) == VerifiedChunks(h, want, body).value[index]
    ensures var cs := VerifiedChunks(h, want, body).value;
      && |cs| <= MAX_ITEMS
      && |AuditPath(h, cs, index)| <= 20
      && (forall d :: |cs| <= Pow2(d) ==> |AuditPath(h, cs, index)| <= d)
      && DecodeChunkProof(ServedBody(h, cs, index)) == Ok(Proof(index, AuditPath(h, cs, index)))
      && ResponseAccepted(h, want, |cs|, index, chunk, ServedBody(h, cs, index))
  {
    hide Pow2, VerifiedChunks, ManifestRoot, ValidStrings, AuditPath, DecodeChunkProof, ResponseAccepted, ServedBody;
    var cs := VerifiedChunks(h, want, body).value;
    ManifestExact(h, want, body, cs);
    PathBound(h, cs, index);
    ResponseComplete(h, cs, index, chunk);
  }
}
