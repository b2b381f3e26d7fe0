/**
 The strict CBOR reader: heads, the value scanner, integer-keyed maps and arrays of fixed-width byte strings.
 Each reader is shown to accept exactly the deterministic encodings of what it returns
 (sections 3 and 4.2.1 of RFC 8949).
 */
module Cbor {
  import opened Common

  const MAJOR_UINT: nat := 0
  const MAJOR_BYTES: nat := 2
  const MAJOR_ARRAY: nat := 4
  const MAJOR_MAP: nat := 5

  const MAX_DEPTH: nat := 16
  const MAX_ITEMS: nat := 0x10_0000

  // ----- big-endian integers -----

  function BigEndian(b: Bytes): nat {
    if |b| == 0 then 0 else 256 * BigEndian(b[..|b| - 1]) + b[|b| - 1]
  }

  function ToBytes(v: nat, width: nat): (b: Bytes)
    ensures |b| == width
  {
    if width == 0 then [] else ToBytes(v / 256, width - 1) + [v % 256]
  }

  function Pow256(width: nat): nat {
    if width == 0 then 1 else 256 * Pow256(width - 1)
  }

  lemma {:induction false} ToBytesBack(v: nat, width: nat)
    requires v < Pow256(width)
    ensures BigEndian(ToBytes(v, width)) == v
  {
    if width > 0 {
      ToBytesBack(v / 256, width - 1);
      assert ToBytes(v, width)[..width - 1] == ToBytes(v / 256, width - 1);
    }
  }

  lemma {:induction false} BigEndianBack(b: Bytes)
    ensures BigEndian(b) < Pow256(|b|) && ToBytes(BigEndian(b), |b|) == b
  {
    if |b| > 0 {
      var front := b[..|b| - 1];
      BigEndianBack(front);
      assert BigEndian(b) / 256 == BigEndian(front);
      assert b == front + [b[|b| - 1]];
    }
  }

  // ----- heads -----

  /** A decoded head: major type, argument, and the number of bytes it took. */
  datatype Head = Head(major: nat, arg: nat, len: nat)

  /** How many argument bytes follow an initial byte with this additional information. */
  function Width(ai: nat): nat
    requires 24 <= ai <= 27
  {
    if ai == 24 then 1 else if ai == 25 then 2 else if ai == 26 then 4 else 8
  }

  /** The largest argument a shorter head could have carried. */
  function Floor(ai: nat): nat
    requires 24 <= ai <= 27
  {
    if ai == 24 then 23 else if ai == 25 then 0xff else if ai == 26 then 0xffff else 0xffff_ffff
  }

  /** Reads one head; truncated, non-minimal, reserved and indefinite-length heads are errors. */
  function ReadHead(b: Bytes): (r: Result<Head>)
    ensures r.Ok? ==> 1 <= r.value.len <= |b| && r.value.major < 8
  {
    if |b| == 0 then Err(MalformedObject) else
      var major, ai := b[0] / 32, b[0] % 32;
      if ai < 24 then Ok(Head(major, ai, 1))
      else if ai > 27 || |b| < 1 + Width(ai) then Err(MalformedObject) else
        var v := BigEndian(b[1..1 + Width(ai)]);
        if v <= Floor(ai) then Err(MalformedObject) else Ok(Head(major, v, 1 + Width(ai)))
  }

  /** The additional information of the minimal head for an argument that needs more than the initial byte. */
  function MinimalAi(v: nat): (ai: nat)
    requires 24 <= v < TWO_TO_64
    ensures 24 <= ai <= 27
  {
    if v <= 0xff then 24 else if v <= 0xffff then 25 else if v <= 0xffff_ffff then 26 else 27
  }

  /** The minimal-length head for a major type and argument. */
  function EncodeHead(major: nat, v: nat): (b: Bytes)
    requires major < 8 && v < TWO_TO_64
    ensures 1 <= |b| <= 9
  {
    if v < 24 then [major * 32 + v]
    else [major * 32 + MinimalAi(v)] + ToBytes(v, Width(MinimalAi(v)))
  }

  lemma Pow256Values()
    ensures Pow256(1) == 0x100 && Pow256(2) == 0x1_0000 && Pow256(4) == 0x1_0000_0000 && Pow256(8) == TWO_TO_64
  {
    assert Pow256(0) == 1;
    assert Pow256(3) == 256 * Pow256(2);
    assert Pow256(5) == 256 * Pow256(4);
    assert Pow256(6) == 256 * Pow256(5);
    assert Pow256(7) == 256 * Pow256(6);
  }

  /** Reading back an encoded head, whatever follows it. */
  lemma HeadRoundTrip(major: nat, v: nat, rest: Bytes)
    requires major < 8 && v < TWO_TO_64
    ensures ReadHead(EncodeHead(major, v) + rest) == Ok(Head(major, v, |EncodeHead(major, v)|))
  {
    hide BigEndian, ToBytes, Pow256;
    var e := EncodeHead(major, v);
    var b := e + rest;
    if v >= 24 {
      var ai := MinimalAi(v);
      Pow256Values();
      ToBytesBack(v, Width(ai));
      assert b[0] == major * 32 + ai;
      assert b[1..1 + Width(ai)] == ToBytes(v, Width(ai));
    } else {
      assert b[0] == major * 32 + v;
    }
  }

  /** An accepted head is the minimal encoding of what it decodes to. */
  lemma HeadCanonical(b: Bytes)
    requires ReadHead(b).Ok?
    ensures var hd := ReadHead(b).value;
      && hd.arg < TWO_TO_64
      && |EncodeHead(hd.major, hd.arg)| == hd.len
      && b[..hd.len] == EncodeHead(hd.major, hd.arg)
  {
    hide BigEndian, ToBytes, Pow256;
    var ai := b[0] % 32;
    if ai >= 24 {
      var tail := b[1..1 + Width(ai)];
      Pow256Values();
      BigEndianBack(tail);
      assert MinimalAi(BigEndian(tail)) == ai;
      assert b[..1 + Width(ai)] == [b[0]] + tail;
    }
  }

  // ----- values -----

  /** The values the scanner recognises. A map keeps the argument of its head beside its flattened children. */
  datatype Item =
    | Plain(major: nat, arg: nat)
    | Str(major: nat, payload: Bytes)
    | Arr(items: seq<Item>)
    | Map(arg: nat, items: seq<Item>)
    | Tag(arg: nat, item: Item)

  /** How many children a container head announces: for a map, twice the argument in 64-bit arithmetic. */
  function ItemCount(major: nat, arg: nat): nat {
    if major == MAJOR_MAP then (arg * 2) % TWO_TO_64 else arg
  }

  /** A value the scanner accepts at this depth. */
  predicate WellFormed(it: Item, depth: nat) {
    depth <= MAX_DEPTH &&
    match it
    case Plain(m, v) => (m == 0 || m == 1 || m == 7) && v < TWO_TO_64
    case Str(m, p) => (m == 2 || m == 3) && |p| < TWO_TO_64
    case Arr(items) => |items| <= MAX_ITEMS && forall i :: 0 <= i < |items| ==> WellFormed(items[i], depth + 1)
    case Map(v, items) =>
      && v < TWO_TO_64 && |items| == ItemCount(MAJOR_MAP, v) && |items| <= MAX_ITEMS
      && forall i :: 0 <= i < |items| ==> WellFormed(items[i], depth + 1)
    case Tag(v, inner) => v < TWO_TO_64 && WellFormed(inner, depth + 1)
  }

  function EncodeItem(it: Item, ghost depth: nat): Bytes
    requires WellFormed(it, depth)
    decreases it, 0
  {
    match it
    case Plain(m, v) => EncodeHead(m, v)
    case Str(m, p) => EncodeHead(m, |p|) + p
    case Arr(items) => EncodeHead(MAJOR_ARRAY, |items|) + EncodeItems(items, depth + 1)
    case Map(v, items) => EncodeHead(MAJOR_MAP, v) + EncodeItems(items, depth + 1)
    case Tag(v, inner) => EncodeHead(6, v) + EncodeItem(inner, depth + 1)
  }

  function EncodeItems(items: seq<Item>, ghost depth: nat): Bytes
    requires forall i :: 0 <= i < |items| ==> WellFormed(items[i], depth)
    decreases items, 1
  {
    if |items| == 0 then [] else EncodeItem(items[0], depth) + EncodeItems(items[1..], depth)
  }

  function Below(depth: nat): nat {
    if depth > MAX_DEPTH then 0 else 1 + MAX_DEPTH - depth
  }

  function Plus(n: nat, r: Result<nat>): Result<nat> {
    match r
    case Err(e) => Err(e)
    case Ok(m) => Ok(n + m)
  }

  /** The length of the one value at the front of b. */
  function SkipValue(b: Bytes, depth: nat): (r: Result<nat>)
    ensures r.Ok? ==> 1 <= r.value <= |b|
    decreases Below(depth), 0
  {
    if depth > MAX_DEPTH then Err(MalformedObject) else
      match ReadHead(b)
      case Err(e) => Err(e)
      case Ok(hd) =>
        Plus(hd.len, SkipBody(hd.major, hd.arg, b[hd.len..], depth))
  }

  /** What follows the head of a value. */
  function SkipBody(major: nat, arg: nat, b: Bytes, depth: nat): (r: Result<nat>)
    requires depth <= MAX_DEPTH
    ensures r.Ok? ==> r.value <= |b|
    decreases Below(depth + 1), TWO_TO_64
  {
    if major <= 1 || major == 7 then Ok(0)
    else if major <= 3 then (if arg > |b| then Err(MalformedObject) else Ok(arg))
    else if major == 6 then SkipValue(b, depth + 1)
    else if ItemCount(major, arg) > MAX_ITEMS then Err(MalformedObject)
    else SkipItems(b, ItemCount(major, arg), depth + 1)
  }

  /** The total length of the next count values. */
  function SkipItems(b: Bytes, count: nat, depth: nat): (r: Result<nat>)
    requires count <= MAX_ITEMS
    ensures r.Ok? ==> r.value <= |b|
    decreases Below(depth), count + 1
  {
    if count == 0 then Ok(0) else
      match SkipValue(b, depth)
      case Err(e) => Err(e)
      case Ok(n) => Plus(n, SkipItems(b[n..], count - 1, depth))
  }

  lemma SkipHead(major: nat, v: nat, body: Bytes, depth: nat)
    requires major < 8 && v < TWO_TO_64 && depth <= MAX_DEPTH
    ensures SkipValue(EncodeHead(major, v) + body, depth) ==
      Plus(|EncodeHead(major, v)|, SkipBody(major, v, body, depth))
  {
    hide ReadHead, EncodeHead, SkipBody, SkipItems;
    HeadRoundTrip(major, v, body);
    assert (EncodeHead(major, v) + body)[|EncodeHead(major, v)|..] == body;
  }

  lemma SkipFirst(first: Bytes, tail: Bytes, count: nat, depth: nat)
    requires 0 < count <= MAX_ITEMS && SkipValue(first + tail, depth) == Ok(|first|)
    ensures SkipItems(first + tail, count, depth) == Plus(|first|, SkipItems(tail, count - 1, depth))
  {
    hide SkipValue;
    assert (first + tail)[|first|..] == tail;
  }

  /** A well-formed value is skipped to its end, whatever follows. */
  lemma {:induction false} SkipComplete(it: Item, depth: nat, rest: Bytes)
    requires WellFormed(it, depth)
    ensures SkipValue(EncodeItem(it, depth) + rest, depth) == Ok(|EncodeItem(it, depth)|)
    decreases it, 0
  {
    hide ReadHead, EncodeHead, SkipItems, SkipValue, EncodeItems;
    match it
    case Plain(m, v) =>
      SkipHead(m, v, rest, depth);
    case Str(m, p) =>
      SkipHead(m, |p|, p + rest, depth);
      assert EncodeItem(it, depth) + rest == EncodeHead(m, |p|) + (p + rest);
    case Arr(items) =>
      SkipItemsComplete(items, depth + 1, rest);
      SkipHead(MAJOR_ARRAY, |items|, EncodeItems(items, depth + 1) + rest, depth);
      Assoc(EncodeHead(MAJOR_ARRAY, |items|), EncodeItems(items, depth + 1), rest);
    case Map(v, items) =>
      SkipItemsComplete(items, depth + 1, rest);
      SkipHead(MAJOR_MAP, v, EncodeItems(items, depth + 1) + rest, depth);
      Assoc(EncodeHead(MAJOR_MAP, v), EncodeItems(items, depth + 1), rest);
    case Tag(v, inner) =>
      SkipComplete(inner, depth + 1, rest);
      SkipHead(6, v, EncodeItem(inner, depth + 1) + rest, depth);
      Assoc(EncodeHead(6, v), EncodeItem(inner, depth + 1), rest);
  }

  lemma {:induction false} SkipItemsComplete(items: seq<Item>, depth: nat, rest: Bytes)
    requires |items| <= MAX_ITEMS && forall i :: 0 <= i < |items| ==> WellFormed(items[i], depth)
    ensures SkipItems(EncodeItems(items, depth) + rest, |items|, depth) == Ok(|EncodeItems(items, depth)|)
    decreases items, 1
  {
    hide SkipValue, SkipItems, EncodeItem;
    if |items| == 0 {
      SkipNone(EncodeItems(items, depth) + rest, depth);
    } else {
      var e, tail := EncodeItem(items[0], depth), EncodeItems(items[1..], depth);
      SkipComplete(items[0], depth, tail + rest);
      SkipItemsComplete(items[1..], depth, rest);
      SkipFirst(e, tail + rest, |items|, depth);
      Assoc(e, tail, rest);
    }
  }

  lemma SkipNone(b: Bytes, depth: nat)
    ensures SkipItems(b, 0, depth) == Ok(0)
  {
  }

  lemma Assoc(a: Bytes, b: Bytes, c: Bytes)
    ensures (a + b) + c == a + (b + c)
  {
  }

  /** The value at the front of b, when there is one. */
  lemma {:induction false} SkipSound(b: Bytes, depth: nat) returns (it: Item)
    requires SkipValue(b, depth).Ok?
    ensures WellFormed(it, depth) && EncodeItem(it, depth) == b[..SkipValue(b, depth).value]
    decreases Below(depth), 0
  {
    hide ReadHead, EncodeHead, SkipItems, EncodeItems;
    var hd := ReadHead(b).value;
    HeadCanonical(b);
    var body := b[hd.len..];
    var n := SkipBody(hd.major, hd.arg, body, depth).value;
    assert b[..hd.len + n] == EncodeHead(hd.major, hd.arg) + body[..n];
    if hd.major <= 1 || hd.major == 7 {
      it := Plain(hd.major, hd.arg);
    } else if hd.major <= 3 {
      it := Str(hd.major, body[..n]);
    } else if hd.major == 6 {
      var inner := SkipSound(body, depth + 1);
      it := Tag(hd.arg, inner);
    } else {
      var items := SkipItemsSound(body, ItemCount(hd.major, hd.arg), depth + 1);
      it := if hd.major == MAJOR_MAP then Map(hd.arg, items) else Arr(items);
    }
  }

  lemma {:induction false} SkipItemsSound(b: Bytes, count: nat, depth: nat) returns (items: seq<Item>)
    requires count <= MAX_ITEMS && SkipItems(b, count, depth).Ok?
    ensures |items| == count && forall i :: 0 <= i < |items| ==> WellFormed(items[i], depth)
    ensures EncodeItems(items, depth) == b[..SkipItems(b, count, depth).value]
    decreases Below(depth), count + 1
  {
    hide SkipValue, EncodeItem;
    if count == 0 {
      items := [];
    } else {
      var n := SkipValue(b, depth).value;
      var m := SkipItems(b[n..], count - 1, depth).value;
      var it := SkipSound(b, depth);
      var rest := SkipItemsSound(b[n..], count - 1, depth);
      items := [it] + rest;
      assert items[1..] == rest;
      assert b[..n + m] == b[..n] + b[n..][..m];
    }
  }

  /** The scanner accepts exactly the encodings of well-formed values, and stops where they stop. */
  lemma SkipExact(b: Bytes, depth: nat, n: nat)
    ensures SkipValue(b, depth) == Ok(n) <==>
      n <= |b| && exists it :: WellFormed(it, depth) && EncodeItem(it, depth) == b[..n]
  {
    hide SkipValue, EncodeItem, WellFormed;
    if SkipValue(b, depth) == Ok(n) {
      var it := SkipSound(b, depth);
    }
    if n <= |b| && exists it :: WellFormed(it, depth) && EncodeItem(it, depth) == b[..n] {
      var it :| WellFormed(it, depth) && EncodeItem(it, depth) == b[..n];
      SkipComplete(it, depth, b[n..]);
      assert b[..n] + b[n..] == b;
    }
  }

  /** The length depends only on the bytes it covers. */
  lemma SkipExtends(v: Bytes, depth: nat, rest: Bytes)
    requires SkipValue(v, depth) == Ok(|v|)
    ensures SkipValue(v + rest, depth) == Ok(|v|)
  {
    hide SkipValue, EncodeItem, WellFormed;
    var it := SkipSound(v, depth);
    assert v[..|v|] == v;
    SkipComplete(it, depth, rest);
  }

  /** A map head may announce 2^63 pairs and still be taken for an empty map: the doubled count wraps. */
  lemma WrappedMapIsEmpty(depth: nat, rest: Bytes)
    requires depth <= MAX_DEPTH
    ensures SkipValue(EncodeHead(MAJOR_MAP, TWO_TO_64 / 2) + rest, depth) == Ok(9)
  {
    hide ReadHead, EncodeHead, SkipItems, SkipValue;
    SkipHead(MAJOR_MAP, TWO_TO_64 / 2, rest, depth);
    SkipNone(rest, depth + 1);
    WideHead(MAJOR_MAP, TWO_TO_64 / 2);
  }

  lemma WideHead(major: nat, v: nat)
    requires major < 8 && 0x1_0000_0000 <= v < TWO_TO_64
    ensures |EncodeHead(major, v)| == 9
  {
    hide ToBytes;
  }

  /** Every map in a value has two children for each pair its head announces. */
  predicate Paired(it: Item) {
    match it
    case Plain(_, _) => true
    case Str(_, _) => true
    case Arr(items) => forall i :: 0 <= i < |items| ==> Paired(items[i])
    case Map(v, items) => |items| == 2 * v && forall i :: 0 <= i < |items| ==> Paired(items[i])
    case Tag(_, inner) => Paired(inner)
  }

  /** Every map head in a value announces fewer than 2^63 pairs. */
  predicate NarrowMaps(it: Item) {
    match it
    case Plain(_, _) => true
    case Str(_, _) => true
    case Arr(items) => forall i :: 0 <= i < |items| ==> NarrowMaps(items[i])
    case Map(v, items) => v < TWO_TO_64 / 2 && forall i :: 0 <= i < |items| ==> NarrowMaps(items[i])
    case Tag(_, inner) => NarrowMaps(inner)
  }

  /** A value the scanner accepts has all the pairs its maps announce exactly when no map head in it is wide enough to wrap. */
  lemma {:induction false} PairedExact(it: Item, depth: nat)
    requires WellFormed(it, depth)
    ensures Paired(it) <==> NarrowMaps(it)
    decreases it
  {
    match it
    case Plain(_, _) =>
    case Str(_, _) =>
    case Arr(items) =>
      forall i | 0 <= i < |items|
        ensures Paired(items[i]) <==> NarrowMaps(items[i])
      {
        PairedExact(items[i], depth + 1);
      }
    case Map(v, items) =>
      forall i | 0 <= i < |items|
        ensures Paired(items[i]) <==> NarrowMaps(items[i])
      {
        PairedExact(items[i], depth + 1);
      }
    case Tag(_, inner) =>
      PairedExact(inner, depth + 1);
  }

  /** What the scanner skips is such a value, with its pairs complete exactly when none of its map heads wraps. */
  lemma SkipPaired(b: Bytes, depth: nat) returns (it: Item)
    requires SkipValue(b, depth).Ok?
    ensures WellFormed(it, depth) && EncodeItem(it, depth) == b[..SkipValue(b, depth).value]
    ensures Paired(it) <==> NarrowMaps(it)
  {
    hide SkipValue, EncodeItem, WellFormed;
    it := SkipSound(b, depth);
    PairedExact(it, depth);
  }

  /** The scanner as the source runs it: recursive, with an offset loop over a container's children. */
  method ScanValue(b: Bytes, depth: nat) returns (r: Result<nat>)
    ensures r == SkipValue(b, depth)
    decreases Below(depth)
  {
    hide ReadHead, SkipItems, SkipValue;
    SkipValueStep(b, depth);
    if depth > MAX_DEPTH {
      return Err(MalformedObject);
    }
    var head := ReadHead(b);
    if head.Err? {
      return Err(head.error);
    }
    var hd := head.value;
    if hd.major <= 1 || hd.major == 7 {
      return Ok(hd.len);
    }
    if hd.major <= 3 {
      return if hd.arg > |b| - hd.len then Err(MalformedObject) else Ok(hd.len + hd.arg);
    }
    if hd.major == 6 {
      var m := ScanValue(b[hd.len..], depth + 1);
      return Plus(hd.len, m);
    }
    var items := ItemCount(hd.major, hd.arg);
    if items > MAX_ITEMS {
      return Err(MalformedObject);
    }
    var off := hd.len;
    for i := 0 to items
      invariant hd.len <= off <= |b|
      invariant SkipItems(b[hd.len..], items, depth + 1) == Plus(off - hd.len, SkipItems(b[off..], items - i, depth + 1))
    {
      SkipItemsStep(b[off..], items - i, depth + 1);
      var m := ScanValue(b[off..], depth + 1);
      if m.Err? {
        return Err(m.error);
      }
      assert b[off..][m.value..] == b[off + m.value..];
      off := off + m.value;
    }
    SkipNone(b[off..], depth + 1);
    r := Ok(off);
  }

  lemma SkipValueStep(b: Bytes, depth: nat)
    ensures SkipValue(b, depth) ==
      if depth > MAX_DEPTH then Err(MalformedObject) else
        if ReadHead(b).Err? then Err(ReadHead(b).error) else
          var hd := ReadHead(b).value;
          Plus(hd.len, SkipBody(hd.major, hd.arg, b[hd.len..], depth))
  {
  }

  lemma SkipItemsStep(b: Bytes, count: nat, depth: nat)
    requires 0 < count <= MAX_ITEMS
    ensures SkipItems(b, count, depth) ==
      match SkipValue(b, depth)
      case Err(e) => Err(e)
      case Ok(n) => Plus(n, SkipItems(b[n..], count - 1, depth))
  {
  }

  // ----- integer-keyed maps -----

  /** One key of a map with its value left as an unparsed span. */
  datatype Entry = Entry(key: nat, val: Bytes)

  /** The next count entries, which must use up b; keys strictly above prev, if there is one. */
  function ParseEntries(b: Bytes, count: nat, prev: Option<nat>): Result<seq<Entry>>
    decreases count
  {
    if count == 0 then (if |b| == 0 then Ok([]) else Err(MalformedObject)) else
      match ReadHead(b)
      case Err(e) => Err(e)
      case Ok(hd) =>
        if hd.major != MAJOR_UINT || (prev.Some? && hd.arg <= prev.value) then Err(MalformedObject) else
          match SkipValue(b[hd.len..], 1)
          case Err(e) => Err(e)
          case Ok(n) =>
            match ParseEntries(b[hd.len + n..], count - 1, Some(hd.arg))
            case Err(e) => Err(e)
            case Ok(rest) => Ok([Entry(hd.arg, b[hd.len..hd.len + n])] + rest)
  }

  /** A complete map with unsigned integer keys. */
  function ParseUintKeyedMap(b: Bytes): Result<seq<Entry>> {
    match ReadHead(b)
    case Err(e) => Err(e)
    case Ok(hd) =>
      if hd.major != MAJOR_MAP || hd.arg > MAX_ITEMS then Err(MalformedObject)
      else ParseEntries(b[hd.len..], hd.arg, None)
  }

  /** Strictly increasing 64-bit keys, each value exactly one scanned value. */
  predicate ValidEntries(es: seq<Entry>, prev: Option<nat>) {
    |es| == 0 ||
    (&& (prev.Some? ==> prev.value < es[0].key)
     && es[0].key < TWO_TO_64
     && SkipValue(es[0].val, 1) == Ok(|es[0].val|)
     && ValidEntries(es[1..], Some(es[0].key)))
  }

  function EncodeEntries(es: seq<Entry>, ghost prev: Option<nat>): Bytes
    requires ValidEntries(es, prev)
  {
    if |es| == 0 then []
    else EncodeHead(MAJOR_UINT, es[0].key) + es[0].val + EncodeEntries(es[1..], Some(es[0].key))
  }

  function EncodeMap(es: seq<Entry>): Bytes
    requires |es| <= MAX_ITEMS && ValidEntries(es, None)
  {
    EncodeHead(MAJOR_MAP, |es|) + EncodeEntries(es, None)
  }

  lemma {:induction false} EntriesSound(b: Bytes, count: nat, prev: Option<nat>)
    requires ParseEntries(b, count, prev).Ok?
    ensures var es := ParseEntries(b, count, prev).value;
      |es| == count && ValidEntries(es, prev) && b == EncodeEntries(es, prev)
    decreases count
  {
    hide ReadHead, EncodeHead, SkipValue, ParseEntries, ValidEntries, EncodeEntries;
    ParseEntriesStep(b, count, prev);
    if count == 0 {
      NoEntries(prev);
    } else {
      var hd := ReadHead(b).value;
      HeadCanonical(b);
      var n := SkipValue(b[hd.len..], 1).value;
      var val, tail := b[hd.len..hd.len + n], b[hd.len + n..];
      SpanAlone(b[hd.len..], 1);
      assert b[hd.len..][..n] == val;
      EntriesSound(tail, count - 1, Some(hd.arg));
      ConsEntries(Entry(hd.arg, val), ParseEntries(tail, count - 1, Some(hd.arg)).value, prev);
      assert b == b[..hd.len] + val + tail;
    }
  }

  lemma NoEntries(prev: Option<nat>)
    ensures ValidEntries([], prev) && EncodeEntries([], prev) == []
  {
  }

  lemma ConsEntries(e: Entry, es: seq<Entry>, prev: Option<nat>)
    requires e.key < TWO_TO_64 && (prev.Some? ==> prev.value < e.key) && SkipValue(e.val, 1) == Ok(|e.val|)
    requires ValidEntries(es, Some(e.key))
    ensures ValidEntries([e] + es, prev)
    ensures EncodeEntries([e] + es, prev) == EncodeHead(MAJOR_UINT, e.key) + e.val + EncodeEntries(es, Some(e.key))
  {
    hide EncodeHead, SkipValue;
    assert ([e] + es)[1..] == es;
  }

  /** A span cut off at its end still scans to its end. */
  lemma SpanAlone(b: Bytes, depth: nat)
    requires SkipValue(b, depth).Ok?
    ensures var n := SkipValue(b, depth).value; SkipValue(b[..n], depth) == Ok(n)
  {
    hide SkipValue, EncodeItem, WellFormed;
    var n := SkipValue(b, depth).value;
    var it := SkipSound(b, depth);
    SkipComplete(it, depth, []);
    assert b[..n] + [] == b[..n];
  }

  lemma {:induction false} EntriesComplete(es: seq<Entry>, prev: Option<nat>)
    requires ValidEntries(es, prev)
    ensures ParseEntries(EncodeEntries(es, prev), |es|, prev) == Ok(es)
  {
    hide ReadHead, EncodeHead, SkipValue, ParseEntries, EncodeEntries;
    ParseEntriesStep(EncodeEntries(es, prev), |es|, prev);
    if |es| == 0 {
      NoEntries(prev);
    } else {
      var e := es[0];
      assert es == [e] + es[1..];
      ConsEntries(e, es[1..], prev);
      EntryAtFront(e, EncodeEntries(es[1..], Some(e.key)));
      EntriesComplete(es[1..], Some(e.key));
    }
  }

  lemma EntryAtFront(e: Entry, tail: Bytes)
    requires e.key < TWO_TO_64 && SkipValue(e.val, 1) == Ok(|e.val|)
    ensures var b, n := EncodeHead(MAJOR_UINT, e.key) + e.val + tail, |EncodeHead(MAJOR_UINT, e.key)|;
      && ReadHead(b) == Ok(Head(MAJOR_UINT, e.key, n))
      && SkipValue(b[n..], 1) == Ok(|e.val|)
      && b[n..n + |e.val|] == e.val && b[n + |e.val|..] == tail
  {
    hide ReadHead, EncodeHead, SkipValue;
    var head := EncodeHead(MAJOR_UINT, e.key);
    Assoc(head, e.val, tail);
    HeadRoundTrip(MAJOR_UINT, e.key, e.val + tail);
    SkipExtends(e.val, 1, tail);
    assert (head + (e.val + tail))[|head|..] == e.val + tail;
  }

  /** The map reader accepts exactly the deterministic encodings, and returns the entries they encode. */
  lemma MapExact(b: Bytes, es: seq<Entry>)
    ensures ParseUintKeyedMap(b) == Ok(es) <==> |es| <= MAX_ITEMS && ValidEntries(es, None) && b == EncodeMap(es)
  {
    hide ReadHead, EncodeHead, ParseEntries, EncodeEntries, ValidEntries;
    if ParseUintKeyedMap(b) == Ok(es) {
      var hd := ReadHead(b).value;
      HeadCanonical(b);
      EntriesSound(b[hd.len..], hd.arg, None);
      assert b == b[..hd.len] + b[hd.len..];
    }
    if |es| <= MAX_ITEMS && ValidEntries(es, None) && b == EncodeMap(es) {
      HeadRoundTrip(MAJOR_MAP, |es|, EncodeEntries(es, None));
      EntriesComplete(es, None);
      assert b[|EncodeHead(MAJOR_MAP, |es|)|..] == EncodeEntries(es, None);
    }
  }

  method ReadUintKeyedMap(b: Bytes) returns (r: Result<seq<Entry>>)
    ensures r == ParseUintKeyedMap(b)
  {
    hide ReadHead, SkipValue, ParseEntries;
    var head := ReadHead(b);
    if head.Err? {
      return Err(head.error);
    }
    if head.value.major != MAJOR_MAP || head.value.arg > MAX_ITEMS {
      return Err(MalformedObject);
    }
    var count := head.value.arg;
    var out: seq<Entry> := [];
    var off: nat, prev: nat := head.value.len, 0;
    ghost var goal := ParseEntries(b[off..], count, None);
    PrependNone(goal);
    for i := 0 to count
      invariant off <= |b|
      invariant goal == Prepend(out, ParseEntries(b[off..], count - i, if i == 0 then None else Some(prev)))
    {
      ParseEntriesStep(b[off..], count - i, if i == 0 then None else Some(prev));
      var kh := ReadHead(b[off..]);
      if kh.Err? {
        return Err(kh.error);
      }
      if kh.value.major != MAJOR_UINT || (i > 0 && kh.value.arg <= prev) {
        return Err(MalformedObject);
      }
      prev := kh.value.arg;
      assert b[off..][kh.value.len..] == b[off + kh.value.len..];
      ghost var rest := b[off..];
      off := off + kh.value.len;
      var vn := ScanValue(b[off..], 1);
      if vn.Err? {
        return Err(vn.error);
      }
      assert rest[kh.value.len..kh.value.len + vn.value] == b[off..off + vn.value];
      assert rest[kh.value.len + vn.value..] == b[off + vn.value..];
      ghost var e := Entry(prev, b[off..off + vn.value]);
      PrependTwice(out, [e], ParseEntries(b[off + vn.value..], count - i - 1, Some(prev)));
      out := out + [Entry(prev, b[off..off + vn.value])];
      off := off + vn.value;
    }
    ParseEntriesStep(b[off..], 0, if count == 0 then None else Some(prev));
    assert out + [] == out;
    r := if off != |b| then Err(MalformedObject) else Ok(out);
  }

  function Prepend<T>(front: seq<T>, r: Result<seq<T>>): Result<seq<T>> {
    match r
    case Err(e) => Err(e)
    case Ok(rest) => Ok(front + rest)
  }

  lemma PrependNone<T>(r: Result<seq<T>>)
    ensures Prepend([], r) == r
  {
    if r.Ok? {
      assert [] + r.value == r.value;
    }
  }

  lemma PrependTwice<T>(a: seq<T>, b: seq<T>, r: Result<seq<T>>)
    ensures Prepend(a, Prepend(b, r)) == Prepend(a + b, r)
  {
    if r.Ok? {
      assert a + (b + r.value) == (a + b) + r.value;
    }
  }

  lemma ParseEntriesStep(b: Bytes, count: nat, prev: Option<nat>)
    ensures ParseEntries(b, count, prev) ==
      if count == 0 then (if |b| == 0 then Ok([]) else Err(MalformedObject)) else
        match ReadHead(b)
        case Err(e) => Err(e)
        case Ok(hd) =>
          if hd.major != MAJOR_UINT || (prev.Some? && hd.arg <= prev.value) then Err(MalformedObject) else
            match SkipValue(b[hd.len..], 1)
            case Err(e) => Err(e)
            case Ok(n) =>
              Prepend([Entry(hd.arg, b[hd.len..hd.len + n])], ParseEntries(b[hd.len + n..], count - 1, Some(hd.arg)))
  {
    hide ReadHead, SkipValue;
  }

  // ----- arrays of fixed-width byte strings -----

  /** The next count byte strings of this width, which must use up b; each starting with prefix, if one is given. */
  function ParseStrings(b: Bytes, count: nat, width: nat, prefix: Option<Byte>): (r: Result<seq<Bytes>>)
    requires width > 0
    ensures r.Ok? ==> |r.value| == count && forall i :: 0 <= i < |r.value| ==> |r.value[i]| == width
    decreases count
  {
    if count == 0 then (if |b| == 0 then Ok([]) else Err(MalformedObject)) else
      match ReadHead(b)
      case Err(e) => Err(e)
      case Ok(hd) =>
        if hd.major != MAJOR_BYTES || hd.arg != width || |b| - hd.len < width then Err(MalformedObject)
        else if prefix.Some? && b[hd.len] != prefix.value then Err(BadAddr)
        else Prepend([b[hd.len..hd.len + width]], ParseStrings(b[hd.len + width..], count - 1, width, prefix))
  }

  predicate ValidStrings(ss: seq<Bytes>, width: nat, prefix: Option<Byte>) {
    forall i :: 0 <= i < |ss| ==> |ss[i]| == width && (prefix.Some? && width > 0 ==> ss[i][0] == prefix.value)
  }

  function EncodeStrings(ss: seq<Bytes>, width: nat): Bytes
    requires width < TWO_TO_64
  {
    if |ss| == 0 then [] else EncodeHead(MAJOR_BYTES, width) + ss[0] + EncodeStrings(ss[1..], width)
  }

  lemma {:induction false} StringsSound(b: Bytes, count: nat, width: nat, prefix: Option<Byte>)
    requires 0 < width < TWO_TO_64 && ParseStrings(b, count, width, prefix).Ok?
    ensures var ss := ParseStrings(b, count, width, prefix).value;
      |ss| == count && ValidStrings(ss, width, prefix) && b == EncodeStrings(ss, width)
    decreases count
  {
    hide ReadHead, EncodeHead, ParseStrings, ValidStrings, EncodeStrings;
    ParseStringsStep(b, count, width, prefix);
    if count == 0 {
      NoStrings(width, prefix);
    } else {
      var hd := ReadHead(b).value;
      HeadCanonical(b);
      var s, tail := b[hd.len..hd.len + width], b[hd.len + width..];
      StringsSound(tail, count - 1, width, prefix);
      ConsStrings(s, ParseStrings(tail, count - 1, width, prefix).value, width, prefix);
      assert b == b[..hd.len] + s + tail;
    }
  }

  lemma NoStrings(width: nat, prefix: Option<Byte>)
    requires width < TWO_TO_64
    ensures ValidStrings([], width, prefix) && EncodeStrings([], width) == []
  {
  }

  lemma ConsStrings(s: Bytes, ss: seq<Bytes>, width: nat, prefix: Option<Byte>)
    requires 0 < width < TWO_TO_64 && ValidStrings(ss, width, prefix)
    requires |s| == width && (prefix.Some? ==> s[0] == prefix.value)
    ensures ValidStrings([s] + ss, width, prefix)
    ensures EncodeStrings([s] + ss, width) == EncodeHead(MAJOR_BYTES, width) + s + EncodeStrings(ss, width)
  {
    hide EncodeHead;
    assert ([s] + ss)[1..] == ss;
  }

  lemma {:induction false} StringsComplete(ss: seq<Bytes>, width: nat, prefix: Option<Byte>)
    requires 0 < width < TWO_TO_64 && ValidStrings(ss, width, prefix)
    ensures ParseStrings(EncodeStrings(ss, width), |ss|, width, prefix) == Ok(ss)
  {
    hide ReadHead, EncodeHead;
    if |ss| > 0 {
      var head, s, tail := EncodeHead(MAJOR_BYTES, width), ss[0], EncodeStrings(ss[1..], width);
      var b := EncodeStrings(ss, width);
      assert b == head + (s + tail);
      HeadRoundTrip(MAJOR_BYTES, width, s + tail);
      assert b[|head| + width..] == tail && b[|head|..|head| + width] == s;
      StringsComplete(ss[1..], width, prefix);
      assert [s] + ss[1..] == ss;
    }
  }

  /** The loop both array readers run over their elements, from offset off to the end of b. */
  method ReadStrings(b: Bytes, start: nat, count: nat, width: nat, prefix: Option<Byte>) returns (r: Result<seq<Bytes>>)
    requires start <= |b| && width > 0
    ensures r == ParseStrings(b[start..], count, width, prefix)
  {
    hide ReadHead, ParseStrings;
    var out: seq<Bytes> := [];
    var off := start;
    ghost var goal := ParseStrings(b[off..], count, width, prefix);
    PrependNone(goal);
    for i := 0 to count
      invariant off <= |b| && goal == Prepend(out, ParseStrings(b[off..], count - i, width, prefix))
    {
      ParseStringsStep(b[off..], count - i, width, prefix);
      var head := ReadHead(b[off..]);
      if head.Err? {
        return Err(head.error);
      }
      ghost var rest := b[off..];
      off := off + head.value.len;
      if head.value.major != MAJOR_BYTES || head.value.arg != width || |b| - off < width {
        return Err(MalformedObject);
      }
      if prefix.Some? && b[off] != prefix.value {
        return Err(BadAddr);
      }
      assert rest[head.value.len..head.value.len + width] == b[off..off + width];
      assert rest[head.value.len + width..] == b[off + width..];
      PrependTwice(out, [b[off..off + width]], ParseStrings(b[off + width..], count - i - 1, width, prefix));
      out := out + [b[off..off + width]];
      off := off + width;
    }
    ParseStringsStep(b[off..], 0, width, prefix);
    assert out + [] == out;
    r := if off != |b| then Err(MalformedObject) else Ok(out);
  }

  lemma ParseStringsStep(b: Bytes, count: nat, width: nat, prefix: Option<Byte>)
    requires width > 0
    ensures ParseStrings(b, count, width, prefix) ==
      if count == 0 then (if |b| == 0 then Ok([]) else Err(MalformedObject)) else
        match ReadHead(b)
        case Err(e) => Err(e)
        case Ok(hd) =>
          if hd.major != MAJOR_BYTES || hd.arg != width || |b| - hd.len < width then Err(MalformedObject)
          else if prefix.Some? && b[hd.len] != prefix.value then Err(BadAddr)
          else Prepend([b[hd.len..hd.len + width]], ParseStrings(b[hd.len + width..], count - 1, width, prefix))
  {
    hide ReadHead;
  }
}
