/**
 The state of the durable pin store and what a restart makes of a disk: records, unique-byte accounting, the index
 document, and the reconciliation that load performs.
 */
module PinModel {
  import opened Common
  import opened Manifest

  /** A store key: an object's kind and address. A root read from an index may also be any other name. */
  datatype Key = Key(kind: Kind, addr: Addr) | Odd(name: string)

  /** The gate for an object filed under a key. */
  function VerifyKey(h: Hash, k: Key, body: Bytes): Result<()> {
    if k.Odd? then Err(BadAddr) else Verify(h, k.kind, k.addr, body)
  }

  ghost predicate GenuineUnder(h: Hash, k: Key, body: Bytes) {
    k.Key? && Genuine(h, k.kind, k.addr, body)
  }

  lemma VerifyKeyExact(h: Hash, k: Key, body: Bytes)
    ensures VerifyKey(h, k, body).Ok? <==> GenuineUnder(h, k, body)
  {
    hide Verify, Genuine;
    if k.Key? {
      VerifyExact(h, k.kind, k.addr, body);
    }
  }

  /** One pin: its root, its owner, and every object it retains. */
  datatype Rec = Rec(root: Key, owner: string, objects: seq<Key>, bytes: nat, created: int)

  /** A record as read from the index. A root without kind or address, and an object that is not well-formed, read as None. */
  datatype DiskRec = DiskRec(root: Option<Key>, owner: string, objects: seq<Option<Key>>, bytes: nat, created: int)

  datatype Index = NoIndex | Unusable | Doc(recs: seq<DiskRec>)

  /** Limits; a value of zero or less switches a limit off. */
  datatype Config = Config(h: Hash, maxBytes: int, maxPinBytes: int, maxObjBytes: int, maxPins: int)

  /** The store's maps and counter, and the disk beside them. */
  datatype State = State(
    pins: map<Key, Rec>,
    objects: map<Key, nat>,
    verified: set<Key>,
    pending: map<Key, nat>,
    bytes: int,
    files: map<Key, Bytes>,
    index: Index)

  // ----- references -----

  ghost function Referenced(pins: map<Key, Rec>): set<Key> {
    set k, o | k in pins && o in pins[k].objects :: o
  }

  lemma ReferencedBy(pins: map<Key, Rec>, k: Key, o: Key)
    requires k in pins && o in pins[k].objects
    ensures o in Referenced(pins)
  {
  }

  lemma ReferencedWith(pins: map<Key, Rec>, k: Key, r: Rec)
    requires k !in pins
    ensures Referenced(pins[k := r]) == Referenced(pins) + (set o | o in r.objects)
  {
    var more := pins[k := r];
    forall o | o in Referenced(pins) + (set o | o in r.objects)
      ensures o in Referenced(more)
    {
      if o in r.objects {
        ReferencedBy(more, k, o);
      } else {
        var j :| j in pins && o in pins[j].objects;
        ReferencedBy(more, j, o);
      }
    }
  }

  /** The objects nothing retains: named by no pin and claimed by no pin in flight. */
  ghost function Dead(pins: map<Key, Rec>, pending: map<Key, nat>, objects: map<Key, nat>): set<Key> {
    objects.Keys - Referenced(pins) - pending.Keys
  }

  // ----- the index document -----

  function SomeKeys(ks: seq<Key>): (r: seq<Option<Key>>)
    ensures |r| == |ks| && forall i :: 0 <= i < |ks| ==> r[i] == Some(ks[i])
  {
    seq(|ks|, i requires 0 <= i < |ks| => Some(ks[i]))
  }

  function ToDisk(r: Rec): DiskRec {
    DiskRec(Some(r.root), r.owner, SomeKeys(r.objects), r.bytes, r.created)
  }

  predicate UniqueRoots(recs: seq<DiskRec>) {
    forall i, j :: 0 <= i < j < |recs| && recs[i].root.Some? ==> recs[i].root != recs[j].root
  }

  /** A document that lists each pin once, and nothing else; the order is left open. */
  ghost predicate Written(recs: seq<DiskRec>, pins: map<Key, Rec>) {
    && UniqueRoots(recs)
    && (forall i :: 0 <= i < |recs| ==>
      recs[i].root.Some? && recs[i].root.value in pins && recs[i] == ToDisk(pins[recs[i].root.value]))
    && (forall k :: k in pins ==> ToDisk(pins[k]) in recs)
  }

  predicate Listed(index: Index, r: Rec) {
    index.Doc? && ToDisk(r) in index.recs
  }

  // ----- load -----

  /** A record with a root and at least one object, all of its objects well-formed keys of files that exist. */
  predicate Complete(d: DiskRec, files: map<Key, Bytes>) {
    && d.root.Some? && |d.objects| > 0
    && forall i :: 0 <= i < |d.objects| ==> d.objects[i].Some? && d.objects[i].value in files
  }

  function FromDisk(d: DiskRec): (r: Rec)
    requires d.root.Some? && forall i :: 0 <= i < |d.objects| ==> d.objects[i].Some?
    ensures |r.objects| == |d.objects| && forall i :: 0 <= i < |d.objects| ==> r.objects[i] == d.objects[i].value
  {
    Rec(d.root.value, d.owner,
      seq(|d.objects|, i requires 0 <= i < |d.objects| => d.objects[i].value), d.bytes, d.created)
  }

  lemma FromToDisk(r: Rec)
    ensures FromDisk(ToDisk(r)) == r
  {
    assert FromDisk(ToDisk(r)).objects == r.objects;
  }

  /** The pins load keeps: a later complete record replaces an earlier one with the same root. */
  function LoadedPins(recs: seq<DiskRec>, files: map<Key, Bytes>): map<Key, Rec> {
    if |recs| == 0 then map[] else
      var front, d := LoadedPins(recs[..|recs| - 1], files), recs[|recs| - 1];
      if Complete(d, files) then front[d.root.value := FromDisk(d)] else front
  }

  /** The objects load retains: all objects of all complete records. */
  function LoadedKeys(recs: seq<DiskRec>, files: map<Key, Bytes>): (r: set<Key>)
    ensures r <= files.Keys
  {
    if |recs| == 0 then {} else
      var front, d := LoadedKeys(recs[..|recs| - 1], files), recs[|recs| - 1];
      if Complete(d, files) then front + (set o | o in FromDisk(d).objects) else front
  }

  function SizesOn(keys: set<Key>, files: map<Key, Bytes>): map<Key, nat>
    requires keys <= files.Keys
  {
    map k | k in keys :: |files[k]|
  }

  /** A later complete record has the same root. */
  ghost predicate Superseded(recs: seq<DiskRec>, files: map<Key, Bytes>, i: nat)
    requires i < |recs|
  {
    exists j :: i < j < |recs| && Complete(recs[j], files) && recs[j].root == recs[i].root
  }

  /** The record a loaded pin comes from. */
  ghost predicate Source(recs: seq<DiskRec>, files: map<Key, Bytes>, r: Rec, i: int) {
    0 <= i < |recs| && Complete(recs[i], files) && !Superseded(recs, files, i) && FromDisk(recs[i]) == r
  }

  /** Every loaded pin is the last complete record of its root, and each of its objects is retained. */
  lemma {:induction false} LoadedPinsHold(recs: seq<DiskRec>, files: map<Key, Bytes>, k: Key)
    requires k in LoadedPins(recs, files)
    ensures var r := LoadedPins(recs, files)[k];
      && r.root == k && |r.objects| > 0
      && (forall o :: o in r.objects ==> o in LoadedKeys(recs, files))
      && (exists i :: Source(recs, files, r, i))
    decreases |recs|
  {
    var n := |recs| - 1;
    var front, d := recs[..n], recs[n];
    var r := LoadedPins(recs, files)[k];
    if Complete(d, files) && d.root.value == k {
      assert Source(recs, files, r, n);
    } else {
      LoadedPinsHold(front, files, k);
      var i :| Source(front, files, r, i);
      SourceStays(recs, files, r, i);
    }
  }

  lemma SourceStays(recs: seq<DiskRec>, files: map<Key, Bytes>, r: Rec, i: nat)
    requires |recs| > 0
    requires var n := |recs| - 1; Source(recs[..n], files, r, i) && (Complete(recs[n], files) ==> recs[n].root.value != r.root)
    ensures Source(recs, files, r, i)
  {
    var n := |recs| - 1;
    var front := recs[..n];
    assert recs[i] == front[i];
    forall j | i < j < |recs| && Complete(recs[j], files)
      ensures recs[j].root != recs[i].root
    {
      assert j < n ==> recs[j] == front[j];
    }
  }

  /** The last complete record of a root is loaded as it stands. */
  lemma {:induction false} LoadKeeps(recs: seq<DiskRec>, files: map<Key, Bytes>, i: nat)
    requires i < |recs| && Complete(recs[i], files) && !Superseded(recs, files, i)
    ensures var r := FromDisk(recs[i]); r.root in LoadedPins(recs, files) && LoadedPins(recs, files)[r.root] == r
    decreases |recs|
  {
    var n := |recs| - 1;
    if i < n {
      var front := recs[..n];
      assert front[i] == recs[i];
      forall j | i < j < |front| && Complete(front[j], files)
        ensures front[j].root != front[i].root
      {
        assert front[j] == recs[j];
      }
      LoadKeeps(front, files, i);
    }
  }

  lemma {:induction false} LoadedKeysFrom(recs: seq<DiskRec>, files: map<Key, Bytes>, o: Key)
    requires o in LoadedKeys(recs, files)
    ensures exists i :: 0 <= i < |recs| && Complete(recs[i], files) && o in FromDisk(recs[i]).objects
    decreases |recs|
  {
    var n := |recs| - 1;
    if !(Complete(recs[n], files) && o in FromDisk(recs[n]).objects) {
      LoadedKeysFrom(recs[..n], files, o);
      var i :| 0 <= i < n && Complete(recs[..n][i], files) && o in FromDisk(recs[..n][i]).objects;
      assert recs[i] == recs[..n][i];
    }
  }

  /** An object some kept record names. */
  ghost predicate StillNamed(recs: seq<DiskRec>, files: map<Key, Bytes>, o: Key) {
    exists j :: 0 <= j < |recs| && Complete(recs[j], files) && !Superseded(recs, files, j) && o in FromDisk(recs[j]).objects
  }

  lemma StillNamedExact(recs: seq<DiskRec>, files: map<Key, Bytes>, o: Key)
    ensures StillNamed(recs, files, o) <==> o in Referenced(LoadedPins(recs, files))
    ensures StillNamed(recs, files, o) ==> o in LoadedKeys(recs, files)
  {
    hide LoadedKeys, LoadedPins, Superseded;
    var pins := LoadedPins(recs, files);
    if StillNamed(recs, files, o) {
      var j :| 0 <= j < |recs| && Complete(recs[j], files) && !Superseded(recs, files, j) && o in FromDisk(recs[j]).objects;
      LoadKeeps(recs, files, j);
      LoadedPinsHold(recs, files, FromDisk(recs[j]).root);
      ReferencedBy(pins, FromDisk(recs[j]).root, o);
    }
    if o in Referenced(pins) {
      var k :| k in pins && o in pins[k].objects;
      LoadedPinsHold(recs, files, k);
      var i :| Source(recs, files, pins[k], i);
    }
  }

  /** Load retains exactly what its pins name if and only if no superseded record names an object no kept record names. */
  lemma LoadedKeysReferencedIff(recs: seq<DiskRec>, files: map<Key, Bytes>)
    ensures LoadedKeys(recs, files) == Referenced(LoadedPins(recs, files)) <==>
      forall i, o :: 0 <= i < |recs| && Complete(recs[i], files) && Superseded(recs, files, i) && o in FromDisk(recs[i]).objects
        ==> StillNamed(recs, files, o)
  {
    hide LoadedKeys, LoadedPins, Superseded, StillNamed, Referenced;
    forall o
      ensures StillNamed(recs, files, o) <==> o in Referenced(LoadedPins(recs, files))
      ensures StillNamed(recs, files, o) ==> o in LoadedKeys(recs, files)
    {
      StillNamedExact(recs, files, o);
    }
    forall i, o | 0 <= i < |recs| && Complete(recs[i], files) && o in FromDisk(recs[i]).objects
      ensures o in LoadedKeys(recs, files)
    {
      CompleteKept(recs, files, i, o);
    }
    forall o | o in LoadedKeys(recs, files)
      ensures exists i | 0 <= i < |recs| && Complete(recs[i], files) && o in FromDisk(recs[i]).objects ::
        Superseded(recs, files, i) || StillNamed(recs, files, o)
    {
      LoadedKeysFrom(recs, files, o);
      var i :| 0 <= i < |recs| && Complete(recs[i], files) && o in FromDisk(recs[i]).objects;
      NamedUnlessSuperseded(recs, files, i, o);
    }
  }

  lemma NamedUnlessSuperseded(recs: seq<DiskRec>, files: map<Key, Bytes>, i: nat, o: Key)
    requires i < |recs| && Complete(recs[i], files) && o in FromDisk(recs[i]).objects
    ensures Superseded(recs, files, i) || StillNamed(recs, files, o)
  {
    hide Superseded;
  }

  lemma {:induction false} CompleteKept(recs: seq<DiskRec>, files: map<Key, Bytes>, i: nat, o: Key)
    requires i < |recs| && Complete(recs[i], files) && o in FromDisk(recs[i]).objects
    ensures o in LoadedKeys(recs, files)
    decreases |recs|
  {
    var n := |recs| - 1;
    if i < n {
      assert recs[..n][i] == recs[i];
      CompleteKept(recs[..n], files, i, o);
    }
  }

  /** The documents the store itself writes name each root once, so load retains exactly what their pins name. */
  lemma UniqueRootsReferenced(recs: seq<DiskRec>, files: map<Key, Bytes>)
    requires UniqueRoots(recs)
    ensures LoadedKeys(recs, files) == Referenced(LoadedPins(recs, files))
  {
    hide LoadedKeys, LoadedPins, StillNamed, Referenced;
    LoadedKeysReferencedIff(recs, files);
  }

  /** A document with two complete records for one root keeps the objects of the one it drops. */
  lemma DuplicateRootLeaks(root: Key, x: Key, y: Key, body: Bytes)
    requires x != y
    ensures var files := map[x := body, y := body];
      var recs := [DiskRec(Some(root), "", [Some(x)], 0, 0), DiskRec(Some(root), "", [Some(y)], 0, 0)];
      x in LoadedKeys(recs, files) && x !in Referenced(LoadedPins(recs, files))
  {
    var files := map[x := body, y := body];
    var a, b := DiskRec(Some(root), "", [Some(x)], 0, 0), DiskRec(Some(root), "", [Some(y)], 0, 0);
    var recs := [a, b];
    assert recs[..1] == [a] && [a][..0] == [];
    assert Complete(a, files) && Complete(b, files);
    assert FromDisk(a).objects == [x] && FromDisk(b).objects == [y];
    assert LoadedPins([a], files) == map[root := FromDisk(a)];
    assert LoadedPins(recs, files) == map[root := FromDisk(b)];
    assert x in LoadedKeys([a], files);
  }
}
