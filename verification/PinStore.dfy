/** The pin store as an object: the operations an operator calls, one after another, on the maps and the disk. */
module PinStore {
  import opened Common
  import opened Manifest
  import opened Sums
  import opened PinModel
  import opened PinRuns
  import opened PinClosure
  import opened PinSafety
  import opened PinPlan

  datatype Outcome = Held(rec: Rec) | Failed(why: PinError)

  /** Forgets objects and deletes their files. */
  ghost function Purge(s: State, dead: set<Key>): State {
    Drop(s, dead).(files := s.files - dead)
  }

  lemma PurgeNone(s: State)
    ensures Purge(s, {}) == s
  {
    assert s.objects - {} == s.objects;
  }

  lemma PurgeParts(s: State, dead: set<Key>)
    ensures var t := Purge(s, dead); t.objects == s.objects - dead && t.files == s.files - dead
  {
  }

  lemma PurgeMore(s: State, dead: set<Key>, k: Key)
    ensures Purge(Purge(s, dead), {k}) == Purge(s, dead + {k})
  {
    hide Total;
    assert s.objects - dead - {k} == s.objects - (dead + {k});
    assert s.files - dead - {k} == s.files - (dead + {k});
  }

  /** Objects added to a state by a pin in flight: their files, sizes, marks and claims. */
  ghost function Added(s: State, added: map<Key, Bytes>): State {
    s.(objects := s.objects + Sizes(added), verified := s.verified + added.Keys, pending := Ones(added),
       bytes := s.bytes + Total(Sizes(added)), files := s.files + added)
  }

  function Sizes(added: map<Key, Bytes>): map<Key, nat> {
    map k | k in added :: |added[k]|
  }

  function Ones(added: map<Key, Bytes>): map<Key, nat> {
    map k | k in added :: 1
  }

  /** The counter is exact, the disk holds exactly the objects at their sizes, and every verified mark is earned. */
  ghost predicate WellKept(c: Config, s: State) {
    && s.bytes == Total(s.objects)
    && s.files.Keys == s.objects.Keys
    && (forall k :: k in s.objects ==> s.objects[k] == |s.files[k]|)
    && (forall k :: k in s.verified ==> k in s.objects && VerifyKey(c.h, k, s.files[k]).Ok?)
  }

  lemma PurgeKept(c: Config, s: State, dead: set<Key>)
    requires WellKept(c, s)
    ensures WellKept(c, Purge(s, dead))
  {
    hide Total, VerifyKey;
    TotalShrinks(s.objects, dead);
  }

  /** Deleting the files that are due leaves a machine with nothing left to do. */
  lemma SettleSafe(m: Machine)
    requires Safe(m) && m.op == Idle && m.lock.Removing?
    ensures Safe(Machine(m.s.(files := m.s.files - m.lock.dead), Idle, Free))
  {
    hide Total, Referenced, UniqueRoots, Listed, AllListed, Rooted, Recs;
  }

  lemma ReindexSafe(s: State, recs: seq<DiskRec>)
    requires Safe(Machine(s, Idle, Free)) && Written(recs, s.pins)
    ensures Safe(Machine(s.(index := Doc(recs)), Idle, Free))
  {
    hide Total, Referenced, UniqueRoots, Listed, AllListed, Rooted, Written;
    WrittenLists(recs, s.pins);
  }

  /** The state a completed unpin leaves, up to its index. */
  ghost function Unpinned(s: State, root: Key): State {
    var s1 := s.(pins := s.pins - {root});
    Purge(s1, DeadOf(s1))
  }

  /** The state a completed quarantine leaves, up to its index. */
  ghost function Quarantined(s: State, bad: Key): State {
    var s1 := Purge(WithoutPinsOf(s, bad), {bad});
    Purge(s1, DeadOf(s1))
  }

  lemma UnpinnedSafe(c: Config, s: State, root: Key)
    requires Safe(Machine(s, Idle, Free)) && WellKept(c, s) && root in s.pins
    ensures Safe(Machine(Unpinned(s, root), Idle, Free)) && WellKept(c, Unpinned(s, root))
    ensures Unpinned(s, root).objects.Keys == Referenced(s.pins - {root})
  {
    hide Safe, Total, Referenced, WellKept;
    var s1 := s.(pins := s.pins - {root});
    var m' := Machine(Drop(s1, DeadOf(s1)), Idle, Removing(DeadOf(s1), true));
    StepSafe(c, Machine(s, Idle, Free), m', Unpin(root));
    SettleSafe(m');
    WellKeptPins(c, s, s1.pins);
    PurgeKept(c, s1, DeadOf(s1));
    IdleClosed(Unpinned(s, root));
  }

  lemma WellKeptPins(c: Config, s: State, pins: map<Key, Rec>)
    requires WellKept(c, s)
    ensures WellKept(c, s.(pins := pins))
  {
  }

  /** Between operations the objects are exactly what the pins name. */
  lemma IdleClosed(s: State)
    requires Safe(Machine(s, Idle, Free))
    ensures s.objects.Keys == Referenced(s.pins)
  {
    hide Referenced, UniqueRoots, AllListed, Rooted;
  }

  lemma QuarantinedSafe(c: Config, s: State, bad: Key)
    requires Safe(Machine(s, Idle, Free)) && WellKept(c, s)
    ensures Safe(Machine(Quarantined(s, bad), Idle, Free)) && WellKept(c, Quarantined(s, bad))
    ensures bad !in Quarantined(s, bad).objects
  {
    hide Safe, Total, Referenced, WellKept;
    var s0 := WithoutPinsOf(s, bad);
    var s1 := Drop(s0, {bad});
    var m' := Machine(Drop(s1, DeadOf(s1)), Idle, Removing(DeadOf(s1) + {bad}, true));
    StepSafe(c, Machine(s, Idle, Free), m', Quarantine(bad));
    SettleSafe(m');
    WellKeptPins(c, s, s0.pins);
    PurgeKept(c, s0, {bad});
    PurgeKept(c, Purge(s0, {bad}), DeadOf(s1));
    assert s.files - (DeadOf(s1) + {bad}) == s.files - {bad} - DeadOf(s1);
  }

  /** Whatever is still held or on disk is as it was. */
  ghost predicate Kept(s: State, t: State) {
    && (forall k :: k in t.objects ==> k in s.objects && t.objects[k] == s.objects[k])
    && (forall k :: k in t.files ==> k in s.files && t.files[k] == s.files[k])
  }

  lemma UnpinnedKept(c: Config, s: State, root: Key)
    requires Safe(Machine(s, Idle, Free)) && WellKept(c, s) && root in s.pins
    ensures var t := Unpinned(s, root);
      t.pins == s.pins - {root} && t.objects.Keys == t.files.Keys == Referenced(t.pins) && Kept(s, t)
  {
    hide Safe, Total, Referenced, VerifyKey;
    UnpinnedSafe(c, s, root);
  }

  lemma QuarantinedKept(c: Config, s: State, bad: Key)
    requires Safe(Machine(s, Idle, Free)) && WellKept(c, s)
    ensures var t := Quarantined(s, bad);
      && (forall k :: k in t.pins <==> k in s.pins && bad !in s.pins[k].objects)
      && (forall k :: k in t.pins ==> t.pins[k] == s.pins[k])
      && t.objects.Keys == t.files.Keys == Referenced(t.pins) && Kept(s, t)
  {
    hide Safe, Total, Referenced, VerifyKey;
    QuarantinedSafe(c, s, bad);
    IdleClosed(Quarantined(s, bad));
  }

  class PinStore {
    const c: Config
    var pins: map<Key, Rec>
    var objects: map<Key, nat>
    var verified: set<Key>
    var pending: map<Key, nat>
    var bytes: int
    var files: map<Key, Bytes>
    var index: Index

    /** How many reads and writes the disk has failed. */
    ghost var faults: nat

    ghost function S(): State
      reads this
    {
      State(pins, objects, verified, pending, bytes, files, index)
    }

    /** Between operations: closed, exactly accounted, the disk holds exactly the objects, and every mark is earned. */
    ghost predicate Valid()
      reads this
    {
      Safe(Machine(S(), Idle, Free)) && WellKept(c, S())
    }

    /** A store over a disk, before load. */
    constructor (config: Config, disk: map<Key, Bytes>, idx: Index)
      ensures c == config && S() == State(map[], map[], {}, map[], 0, disk, idx)
    {
      c := config;
      pins, objects, verified, pending, bytes := map[], map[], {}, map[], 0;
      files, index, faults := disk, idx, 0;
    }

    /** Writes an object durably, or fails and leaves the disk alone. */
    method WriteObject(k: Key, body: Bytes) returns (ok: bool)
      modifies this`files, this`faults
      ensures files == if ok then old(files)[k := body] else old(files)
      ensures faults == old(faults) + if ok then 0 else 1
    {
      ok := *;
      if ok {
        files := files[k := body];
      } else {
        faults := faults + 1;
      }
    }

    /** Writes the index, or fails and leaves the old one in place. */
    method WriteIndex() returns (ok: bool)
      requires Rooted(pins)
      modifies this`index, this`faults
      ensures if ok then index.Doc? && Written(index.recs, pins) else index == old(index)
      ensures faults == old(faults) + if ok then 0 else 1
    {
      hide ToDisk;
      var recs: seq<DiskRec> := [];
      var left := pins.Keys;
      while left != {}
        invariant index == old(index) && faults == old(faults) && left <= pins.Keys && WrittenSoFar(recs, pins, left)
        decreases left
      {
        var k :| k in left;
        WriteOne(recs, pins, left, k);
        recs := recs + [ToDisk(pins[k])];
        left := left - {k};
      }
      WrittenAll(recs, pins);
      ok := *;
      if ok {
        index := Doc(recs);
      } else {
        faults := faults + 1;
      }
    }

    /** Deletes the listed objects from the maps and the disk. */
    method Remove(keys: set<Key>)
      modifies this`objects, this`verified, this`bytes, this`files
      ensures S() == Purge(old(S()), keys)
    {
      hide Purge;
      var left := keys;
      ghost var done: set<Key> := {};
      PurgeNone(S());
      while left != {}
        invariant done + left == keys && done !! left
        invariant S() == Purge(old(S()), done)
        decreases left
      {
        var k :| k in left;
        PurgeMore(old(S()), done, k);
        RemoveOne(k);
        left, done := left - {k}, done + {k};
      }
      assert done == keys;
    }

    method RemoveOne(k: Key)
      modifies this`objects, this`verified, this`bytes, this`files
      ensures S() == Purge(old(S()), {k})
    {
      hide Total;
      if k in objects {
        TotalWithout(objects, k);
        bytes := bytes - objects[k];
        objects := objects - {k};
        verified := verified - {k};
      } else {
        assert objects - {k} == objects;
      }
      files := files - {k};
    }

    /** Deletes every object that no pin names and no pin in flight claims. */
    method Reclaim()
      modifies this`objects, this`verified, this`bytes, this`files
      ensures S() == Purge(old(S()), DeadOf(old(S())))
      ensures forall k :: k in objects <==> k in old(objects) && (k in Referenced(pins) || k in pending)
      ensures files == old(files) - (old(objects).Keys - objects.Keys) && Kept(old(S()), S())
    {
      hide Referenced, Purge, Total;
      PurgeParts(S(), DeadOf(S()));
      var live: set<Key> := {};
      var left := pins.Keys;
      ReferencedNone(pins - left);
      while left != {}
        invariant S() == old(S()) && left <= pins.Keys && live == Referenced(pins - left)
        decreases left
      {
        var k :| k in left;
        ReferencedNext(pins, left, k);
        live := live + (set o | o in pins[k].objects);
        left := left - {k};
      }
      assert pins - {} == pins;
      live := live + pending.Keys;
      assert DeadOf(S()) == objects.Keys - live;
      Remove(objects.Keys - live);
    }

    /** Removes a pin. Frees exactly the objects no other pin names; refuses a stranger's request. */
    method Unpin(root: Key, owner: string) returns (r: Outcome)
      requires Valid()
      modifies this
      ensures Valid()
      ensures root !in old(pins) ==> r == Failed(NotFound) && S() == old(S())
      ensures root in old(pins) && old(pins)[root].owner != "" && old(pins)[root].owner != owner ==>
        r == Failed(Forbidden) && S() == old(S())
      ensures root in old(pins) && (old(pins)[root].owner == "" || old(pins)[root].owner == owner) ==>
        && S() == Unpinned(old(S()), root).(index := index)
        && pins == old(pins) - {root} && objects.Keys == files.Keys == Referenced(pins)
        && Kept(old(S()), S())
        && (if r.Held? then r.rec == old(pins)[root] && index.Doc? && Written(index.recs, pins)
            else r == Failed(Io) && index == old(index))
      ensures r == Failed(Io) <==> faults != old(faults)
    {
      hide Safe, WellKept, Total, Referenced, Purge, Written;
      if root !in pins {
        return Failed(NotFound);
      }
      var rec := pins[root];
      if rec.owner != "" && rec.owner != owner {
        return Failed(Forbidden);
      }
      UnpinnedSafe(c, S(), root);
      UnpinnedKept(c, S(), root);
      pins := pins - {root};
      Reclaim();
      assert S() == Unpinned(old(S()), root);
      IdleRooted(S());
      ghost var s := S();
      var ok := WriteIndex();
      if !ok {
        return Failed(Io);
      }
      ReindexSafe(s, index.recs);
      WellKeptIndex(c, s, index);
      r := Held(rec);
    }

    /** Deletes a bad object, every pin that names it, and whatever nothing names any more. */
    method Quarantine(bad: Key)
      requires Valid()
      modifies this
      ensures Valid()
      ensures S() == Quarantined(old(S()), bad).(index := index)
      ensures bad !in objects && bad !in Referenced(pins) && faults >= old(faults)
      ensures forall k :: k in pins <==> k in old(pins) && bad !in old(pins)[k].objects
      ensures forall k :: k in pins ==> pins[k] == old(pins)[k]
      ensures objects.Keys == files.Keys == Referenced(pins) && Kept(old(S()), S())
      ensures if faults == old(faults) then index.Doc? && Written(index.recs, pins) else index == old(index)
    {
      hide Safe, WellKept, Total, Referenced, Purge, Written;
      QuarantinedSafe(c, S(), bad);
      QuarantinedKept(c, S(), bad);
      DropPinsOf(bad);
      RemoveOne(bad);
      Reclaim();
      IdleRooted(S());
      IdleClosed(S());
      ghost var s := S();
      var ok := WriteIndex();
      if ok {
        ReindexSafe(s, index.recs);
        WellKeptIndex(c, s, index);
      }
    }

    method DropPinsOf(bad: Key)
      modifies this`pins
      ensures S() == WithoutPinsOf(old(S()), bad)
    {
      var left := pins.Keys;
      while left != {}
        invariant left <= old(pins).Keys
        invariant pins == map k | k in old(pins) && (k in left || bad !in old(pins)[k].objects) :: old(pins)[k]
        decreases left
      {
        var k :| k in left;
        if bad in pins[k].objects {
          pins := pins - {k};
        }
        left := left - {k};
      }
    }

    /**
     Rebuilds the store from any disk: keeps the complete records, sweeps every file no record keeps, and writes the
     index back. An index that cannot be used is refused and the disk is left alone.
     */
    method Load() returns (ok: bool)
      requires S() == State(map[], map[], {}, map[], 0, files, index)
      modifies this
      ensures old(index) == Unusable ==> !ok && S() == old(S())
      ensures old(index) != Unusable ==>
        && S() == Loaded(old(files), old(index)).(index := index)
        && (if ok && old(index).Doc? then index.Doc? && Written(index.recs, pins) else index == old(index))
      ensures ok && UniqueRoots(Recs(old(index))) ==> Valid()
      ensures ok <==> old(index) != Unusable && faults == old(faults)
    {
      hide LoadedPins, LoadedKeys, Total, Written, Safe, WellKept, UniqueRoots, Restricted;
      if index == Unusable {
        return false;
      }
      ghost var disk, idx := files, index;
      var recs := Recs(index);
      LoadNone(recs[..0], files);
      for i := 0 to |recs|
        invariant files == disk && index == idx && verified == {} && pending == map[] && faults == old(faults)
        invariant pins == LoadedPins(recs[..i], files) && objects == SizesOn(LoadedKeys(recs[..i], files), files)
        invariant bytes == Total(objects)
      {
        LoadNext(recs, i, files);
        var complete := CheckRecord(recs[i]);
        if complete {
          Retain(recs[i], LoadedKeys(recs[..i], files));
          pins := pins[recs[i].root.value := FromDisk(recs[i])];
        }
      }
      assert recs[..|recs|] == recs;
      Sweep();
      LoadedFacts(disk, idx, files, objects);
      BootPins(disk, idx);
      if UniqueRoots(recs) {
        LoadedSafe(c, disk, idx);
      }
      ok := true;
      ghost var s := S();
      if index.Doc? {
        ok := WriteIndex();
        if ok && UniqueRoots(recs) {
          ReindexSafe(s, index.recs);
          WellKeptIndex(c, s, index);
        }
      }
    }

    /** Whether every object a record names is a well-formed key of an existing file. */
    method CheckRecord(d: DiskRec) returns (complete: bool)
      ensures complete == Complete(d, files)
    {
      if d.root.None? || |d.objects| == 0 {
        return false;
      }
      for j := 0 to |d.objects|
        invariant forall i :: 0 <= i < j ==> d.objects[i].Some? && d.objects[i].value in files
      {
        if d.objects[j].None? || d.objects[j].value !in files {
          return false;
        }
      }
      complete := true;
    }

    /** Adds a complete record's objects that are not yet counted. */
    method Retain(d: DiskRec, ghost kept: set<Key>)
      requires Complete(d, files) && kept <= files.Keys && objects == SizesOn(kept, files) && bytes == Total(objects)
      modifies this`objects, this`bytes
      ensures objects == SizesOn(kept + KeySet(FromDisk(d).objects), files) && bytes == Total(objects)
    {
      hide Total, KeySet;
      var os := FromDisk(d).objects;
      KeySetNone(os[..0]);
      assert kept + {} == kept;
      for j := 0 to |os|
        invariant bytes == Total(objects)
        invariant KeySet(os[..j]) <= files.Keys && objects == SizesOn(kept + KeySet(os[..j]), files)
      {
        var o := os[j];
        KeySetNext(os, j);
        assert kept + (KeySet(os[..j]) + {o}) == kept + KeySet(os[..j]) + {o};
        if o !in objects {
          TotalWith(objects, o, |files[o]|);
          bytes := bytes + |files[o]|;
          objects := objects[o := |files[o]|];
        }
      }
      assert os[..|os|] == os;
    }

    /** Deletes the files no retained object names. */
    method Sweep()
      modifies this`files
      ensures files == Restricted(old(files), objects.Keys)
    {
      var left := files.Keys;
      while left != {}
        invariant left <= old(files).Keys
        invariant files == map k | k in old(files) && (k in left || k in objects) :: old(files)[k]
        decreases left
      {
        var k :| k in left;
        if k !in objects {
          files := files - {k};
        }
        left := left - {k};
      }
    }

    /** Serves an object: what is returned always passes verification, however the disk was left before this process. */
    method Get(k: Key) returns (r: Option<Bytes>)
      requires Valid()
      modifies this
      ensures Valid()
      ensures r.Some? ==> k in old(objects) && r.value == old(files)[k] && GenuineUnder(c.h, k, r.value)
      ensures r.Some? ==> S() == old(S()).(verified := old(verified) + {k})
      ensures r.None? && k in old(objects) && k in old(files) && GenuineUnder(c.h, k, old(files)[k]) ==> faults > old(faults)
      ensures r.None? ==> S() == if k in old(objects) then Quarantined(old(S()), k).(index := index) else old(S())
    {
      hide Safe, Total, Referenced, Purge, Written, VerifyKey, GenuineUnder;
      if k in files {
        VerifyKeyExact(c.h, k, files[k]);
      }
      if k !in objects {
        return None;
      }
      var readable: bool := *;
      if !readable {
        faults := faults + 1;
        Quarantine(k);
        return None;
      }
      var body := files[k];
      if k !in verified {
        if VerifyKey(c.h, k, body).Err? {
          Quarantine(k);
          return None;
        }
        VerifiedSafe(S(), k);
        verified := verified + {k};
      }
      assert verified == old(verified) + {k};
      r := Some(body);
    }

    /** The objects a pin of this root retains. */
    method WantList(root: Key, body: Bytes) returns (r: Result<seq<Key>>)
      ensures r == Wants(c.h, root, body)
      ensures r.Ok? <==> root.Key? && (root.kind == ManifestKind ==> VerifiedChunks(c.h, root.addr, body).Ok?)
      ensures r.Ok? ==> r.value[0] == root && NoRepeats(r.value) && forall k :: k in r.value <==> Names(c.h, root, body, k)
    {
      hide Wants, VerifiedChunks, Names, NoRepeats;
      r := ListWants(root, body);
      WantsExact(c.h, root, body);
      if r.Ok? {
        WantsNoRepeats(c.h, root, body);
      }
    }

    /** The root, and each chunk of a manifest the first time it comes. */
    method ListWants(root: Key, body: Bytes) returns (r: Result<seq<Key>>)
      ensures r == Wants(c.h, root, body)
    {
      hide VerifiedChunks;
      if root.Odd? {
        return Err(BadAddr);
      }
      if root.kind != ManifestKind {
        return Ok([root]);
      }
      var chunks := VerifiedManifestChunks(c.h, root.addr, body);
      if chunks.Err? {
        return Err(chunks.error);
      }
      var cs := chunks.value;
      var wants := [root];
      var seen: set<Addr> := {};
      for i := 0 to |cs|
        invariant seen == set x | x in cs[..i]
        invariant wants == [root] + ChunkKeys(Distinct(cs[..i]))
      {
        DistinctNext(cs, i);
        if cs[i] !in seen {
          seen := seen + {cs[i]};
          wants := wants + [Key(Chunk, cs[i])];
        }
      }
      assert cs[..|cs|] == cs;
      r := Ok(wants);
    }

    /** Undoes a pin in flight: its objects, their files and its claims. */
    method Rollback(wrote: set<Key>)
      modifies this`objects, this`verified, this`bytes, this`files, this`pending
      ensures S() == Purge(old(S()), wrote).(pending := Unclaim(old(pending), wrote))
    {
      hide Purge;
      Remove(wrote);
      pending := Unclaim(pending, wrote);
    }

    /** Registers an object whose file has just been written. */
    method Register(k: Key, n: nat)
      modifies this`objects, this`verified, this`bytes, this`pending
      ensures S() == Registered(old(S()), k, n)
    {
      objects := objects[k := n];
      verified := verified + {k};
      bytes := bytes + n;
      pending := Claim(pending, k);
    }

    /** Brings one wanted object into the store: fetched, verified, within budget, written and registered. */
    method Acquire(k: Key, rootBody: Option<Bytes>, src: Key -> Result<Bytes>, pinBytes: nat) returns (r: Result<Bytes>, why: PinError)
      requires k !in objects
      modifies this`objects, this`verified, this`bytes, this`pending, this`files, this`faults
      ensures var got := if rootBody.Some? then Ok(rootBody.value) else src(k);
        faults == old(faults) ==>
          && (r.Ok? <==>
              && got.Ok? && GenuineUnder(c.h, k, got.value)
              && (c.maxObjBytes > 0 ==> |got.value| <= c.maxObjBytes)
              && (c.maxPinBytes > 0 ==> pinBytes + |got.value| <= c.maxPinBytes)
              && (c.maxBytes > 0 ==> old(bytes) + |got.value| <= c.maxBytes))
          && (r.Err? ==> if got.Err? then why == SourceFailed(got.error)
                         else if GenuineUnder(c.h, k, got.value) then why == Budget else why.Unverified?)
          && (r.Ok? ==> r == got)
      ensures if faults != old(faults) then r.Err? && why == Io && faults > old(faults)
              else Judge(c, k, if rootBody.Some? then Ok(rootBody.value) else src(k), pinBytes, old(bytes))
                   == if r.Ok? then Take(r.value) else Refuse(why)
      ensures r.Ok? ==>
        && S() == Registered(old(S()), k, |r.value|).(files := old(files)[k := r.value])
        && VerifyKey(c.h, k, r.value).Ok?
        && (c.maxObjBytes > 0 ==> |r.value| <= c.maxObjBytes)
        && (c.maxPinBytes > 0 ==> pinBytes + |r.value| <= c.maxPinBytes)
        && (c.maxBytes > 0 ==> bytes <= c.maxBytes)
      ensures r.Err? ==> S() == old(S())
    {
      hide VerifyKey, GenuineUnder;
      why := Io;
      var got := if rootBody.Some? then Ok(rootBody.value) else src(k);
      if got.Err? {
        return got, SourceFailed(got.error);
      }
      var body := got.value;
      VerifyKeyExact(c.h, k, body);
      var gate := VerifyKey(c.h, k, body);
      if gate.Err? {
        return Err(gate.error), Unverified(gate.error);
      }
      if (c.maxObjBytes > 0 && |body| > c.maxObjBytes) || (c.maxPinBytes > 0 && pinBytes + |body| > c.maxPinBytes) {
        return Err(MalformedObject), Budget;
      }
      if c.maxBytes > 0 && bytes + |body| > c.maxBytes {
        return Err(MalformedObject), Budget;
      }
      var ok := WriteObject(k, body);
      if !ok {
        return Err(MalformedObject), Io;
      }
      Register(k, |body|);
      r := got;
    }

    /**
     Pins a root with everything it names, or changes nothing. Unless the disk fails, a root that is not pinned yet is pinned
     exactly when it can be. A successful pin names and holds the root and every chunk of its manifest, each new one genuine
     and within the budgets; a failed one leaves the whole state, disk included, as it was.
     */
    method Pin(root: Key, owner: string, src: Key -> Result<Bytes>, created: int)
      returns (r: Outcome, ghost added: map<Key, Bytes>)
      requires Valid()
      modifies this
      ensures Valid()
      ensures r.Failed? ==> S() == old(S())
      ensures root in old(pins) ==> r == Held(old(pins)[root]) && S() == old(S())
      ensures root !in old(pins) ==>
        if faults != old(faults) then r == Failed(Io)
        else
          && (r.Held? <==> Pinnable(c, old(S()), root, src))
          && (r.Failed? ==> Planned(c, old(S()), root, src) == Refused(r.why))
      ensures r.Held? && root !in old(pins) ==>
        && src(root).Ok? && (forall k :: k in r.rec.objects <==> Names(c.h, root, src(root).value, k))
        && (forall k :: k in r.rec.objects ==> k in objects && k in files)
        && (forall k :: k in added ==> GenuineUnder(c.h, k, added[k]) && k in files && files[k] == added[k])
        && (forall k :: k in objects <==> k in old(objects) || k in r.rec.objects)
        && pins == old(pins)[root := r.rec]
        && r.rec == Rec(root, owner, r.rec.objects, SizeOf(r.rec.objects, objects), created)
        && S() == Pinned(old(S()), added, root, r.rec).(index := index)
        && index.Doc? && Written(index.recs, pins)
        && NewlyHeld(c, old(S()), S(), added, r.rec.objects)
    {
      hide Safe, WellKept, Written, Wants, SizeOf, NewlyHeld, Planned, Pinnable, Names, GenuineUnder, VerifiedChunks, Pinned;
      added := map[];
      if root in pins {
        return Held(pins[root]), added;
      }
      ghost var s0 := S();
      PlannedExact(c, s0, root, src);
      r, added := PinNew(root, owner, src, created);
      if r.Held? {
        WantsExact(c.h, root, src(root).value);
        PinnedHolds(c, s0, added, root, r.rec, index);
      }
    }

    /** Pins a root that is not pinned yet. */
    method PinNew(root: Key, owner: string, src: Key -> Result<Bytes>, created: int)
      returns (r: Outcome, ghost added: map<Key, Bytes>)
      requires Valid() && root !in pins
      modifies this
      ensures Valid()
      ensures r.Failed? ==> S() == old(S())
      ensures var plan := Planned(c, old(S()), root, src);
        if faults != old(faults) then r == Failed(Io)
        else if plan.Refused? then r == Failed(plan.why) else r.Held? && added == plan.added
      ensures r.Held? ==>
        && src(root).Ok? && Wants(c.h, root, src(root).value) == Ok(r.rec.objects)
        && r.rec == Rec(root, owner, r.rec.objects, SizeOf(r.rec.objects, objects), created)
        && S() == Pinned(old(S()), added, root, r.rec).(index := index)
        && index.Doc? && Written(index.recs, pins)
        && NewlyHeld(c, old(S()), S(), added, r.rec.objects)
    {
      hide Safe, WellKept, Purge, Written, Wants, Added, Unclaim, SizeOf, NewlyHeld, Gather;
      hide VerifiedChunks, Names, NoRepeats, Rooted, GenuineUnder;
      added := map[];
      if c.maxPins > 0 && |pins| >= c.maxPins {
        return Failed(Budget), added;
      }
      var rootBody := src(root);
      if rootBody.Err? {
        return Failed(SourceFailed(rootBody.error)), added;
      }
      var wants := WantList(root, rootBody.value);
      if wants.Err? {
        return Failed(SourceFailed(wants.error)), added;
      }
      var ws := wants.value;
      ghost var s0 := S();
      IdlePending(s0);
      var ok, why, wrote, pinBytes;
      ok, why, wrote, pinBytes, added := AcquireAll(ws, rootBody.value, src);
      if !ok {
        AddedUndone(c, s0, added);
        Rollback(wrote);
        return Failed(why), map[];
      }
      var rec := Rec(root, owner, ws, pinBytes, created);
      ok := Commit(rec, wrote, s0, added);
      r := if ok then Held(rec) else Failed(Io);
      if !ok {
        added := map[];
      }
    }

    /** Records a pin whose objects are all in and writes the index, or undoes the pin. */
    method Commit(rec: Rec, wrote: set<Key>, ghost s0: State, ghost added: map<Key, Bytes>) returns (ok: bool)
      requires Safe(Machine(s0, Idle, Free)) && WellKept(c, s0) && rec.root !in s0.pins && |rec.objects| > 0
      requires S() == Added(s0, added) && pins == s0.pins && added.Keys == wrote && wrote !! s0.objects.Keys
      requires NewlyHeld(c, s0, S(), added, rec.objects)
      modifies this
      ensures faults == old(faults) + if ok then 0 else 1
      ensures Valid()
      ensures if ok then
                && S() == Pinned(s0, added, rec.root, rec).(index := index)
                && index.Doc? && Written(index.recs, pins) && NewlyHeld(c, s0, S(), added, rec.objects)
              else S() == s0
    {
      hide Safe, WellKept, Purge, Written, Unclaim, NewlyHeld, Rooted, Added;
      IdlePending(s0);
      IdleRooted(s0);
      RootedWith(s0.pins, rec.root, rec);
      pins := pins[rec.root := rec];
      ok := WriteIndex();
      if !ok {
        pins := pins - {rec.root};
        assert s0.pins[rec.root := rec] - {rec.root} == s0.pins;
        AddedUndone(c, s0, added);
        Rollback(wrote);
        return;
      }
      PinnedSafe(c, s0, added, rec.root, rec, index.recs);
      pending := Unclaim(pending, wrote);
    }

    /** Brings in each wanted object that is not yet held, in order, until one fails. */
    method AcquireAll(ws: seq<Key>, rootBody: Bytes, src: Key -> Result<Bytes>)
      returns (ok: bool, why: PinError, wrote: set<Key>, pinBytes: nat, ghost added: map<Key, Bytes>)
      requires pending == map[]
      modifies this`objects, this`verified, this`bytes, this`pending, this`files, this`faults
      ensures if faults != old(faults) then !ok && why == Io
              else Gather(c, old(objects), old(bytes), ws, 0, 0, map[], rootBody, src) == if ok then Gathered(added) else Refused(why)
      ensures S() == Added(old(S()), added) && added.Keys == wrote && wrote !! old(objects).Keys
      ensures ok ==> pinBytes == SizeOf(ws, objects) && NewlyHeld(c, old(S()), S(), added, ws)
    {
      hide Progress, Added, Total, VerifyKey, GenuineUnder, SizeOf, Sizes, Claim, Gather, Judge;
      added, wrote, pinBytes, ok, why := map[], {}, 0, true, Io;
      ghost var s0 := S();
      ProgressNone(c, s0, ws);
      for i := 0 to |ws|
        invariant Progress(c, s0, S(), added, ws, i, pinBytes) && added.Keys == wrote && faults == old(faults)
        invariant Gather(c, s0.objects, s0.bytes, ws, 0, 0, map[], rootBody, src)
               == Gather(c, objects, bytes, ws, i, pinBytes, added, rootBody, src)
      {
        var k := ws[i];
        GatherNext(c, objects, bytes, ws, i, pinBytes, added, rootBody, src);
        if k in objects {
          ProgressPresent(c, s0, S(), added, ws, i, pinBytes);
          pinBytes := pinBytes + objects[k];
        } else {
          ghost var s1 := S();
          var got;
          got, why := Acquire(k, if i == 0 then Some(rootBody) else None, src, pinBytes);
          if got.Err? {
            ok := false;
            ProgressDone(c, s0, S(), added, ws, i, pinBytes);
            return;
          }
          ProgressAdded(c, s0, s1, added, ws, i, pinBytes, got.value);
          added := added[k := got.value];
          wrote := wrote + {k};
          pinBytes := pinBytes + |got.value|;
        }
      }
      ProgressDone(c, s0, S(), added, ws, |ws|, pinBytes);
      GatherNext(c, objects, bytes, ws, |ws|, pinBytes, added, rootBody, src);
    }
  }

  /** Every wanted object is held; the new ones are wanted, verified, and within the budgets. */
  ghost predicate NewlyHeld(c: Config, s0: State, s: State, added: map<Key, Bytes>, wants: seq<Key>) {
    && added.Keys !! s0.objects.Keys
    && (forall k :: k in wants ==> k in s.objects)
    && (forall k :: k in added ==> k in wants && VerifyKey(c.h, k, added[k]).Ok?)
    && (c.maxPinBytes > 0 ==> Total(Sizes(added)) <= c.maxPinBytes)
    && (c.maxBytes > 0 && s0.bytes <= c.maxBytes ==> s.bytes <= c.maxBytes)
  }

  /** A pin in flight has dealt with the first i objects it wants. */
  ghost predicate Progress(c: Config, s0: State, s: State, added: map<Key, Bytes>, ws: seq<Key>, i: nat, pinBytes: nat) {
    && i <= |ws|
    && s == Added(s0, added)
    && added.Keys !! s0.objects.Keys
    && (forall j :: 0 <= j < i ==> ws[j] in s.objects)
    && (forall k :: k in added ==> k in ws && VerifyKey(c.h, k, added[k]).Ok?)
    && pinBytes == SizeOf(ws[..i], s.objects) && Total(Sizes(added)) <= pinBytes
    && (c.maxPinBytes > 0 ==> Total(Sizes(added)) <= c.maxPinBytes)
    && (c.maxBytes > 0 && s0.bytes <= c.maxBytes ==> s.bytes <= c.maxBytes)
  }

  lemma ProgressNone(c: Config, s0: State, ws: seq<Key>)
    requires s0.pending == map[]
    ensures Progress(c, s0, s0, map[], ws, 0, 0)
  {
    hide Total, VerifyKey, SizeOf, Added;
    AddedNone(s0);
    SizeOfNone(ws[..0], s0.objects);
  }

  lemma ProgressPresent(c: Config, s0: State, s: State, added: map<Key, Bytes>, ws: seq<Key>, i: nat, pinBytes: nat)
    requires Progress(c, s0, s, added, ws, i, pinBytes) && i < |ws| && ws[i] in s.objects
    ensures Progress(c, s0, s, added, ws, i + 1, pinBytes + s.objects[ws[i]])
  {
    hide Total, VerifyKey, SizeOf, Added, Sizes;
    SizeOfNext(ws, i, s.objects);
  }

  lemma AddedParts(s: State, added: map<Key, Bytes>)
    ensures Added(s, added).objects == s.objects + Sizes(added) && Added(s, added).files == s.files + added
    ensures Sizes(added).Keys == added.Keys
  {
  }

  lemma ProgressAdded(c: Config, s0: State, s: State, added: map<Key, Bytes>, ws: seq<Key>, i: nat, pinBytes: nat, body: Bytes)
    requires Progress(c, s0, s, added, ws, i, pinBytes) && i < |ws| && ws[i] !in s.objects
    requires VerifyKey(c.h, ws[i], body).Ok?
    requires c.maxPinBytes > 0 ==> pinBytes + |body| <= c.maxPinBytes
    requires c.maxBytes > 0 ==> s.bytes + |body| <= c.maxBytes
    ensures Progress(c, s0, Registered(s, ws[i], |body|).(files := s.files[ws[i] := body]), added[ws[i] := body], ws, i + 1,
      pinBytes + |body|)
  {
    hide Total, VerifyKey, SizeOf, Sizes, Claim, Ones, Added;
    var k := ws[i];
    AddedParts(s0, added);
    AddedNext(s0, added, k, body);
    SizeOfGrown(ws, i, s.objects, |body|);
    var s' := Registered(s, k, |body|).(files := s.files[k := body]);
    assert s' == Added(s0, added[k := body]);
    assert s'.objects == s.objects[k := |body|];
  }

  lemma SizeOfGrown(ws: seq<Key>, i: nat, objects: map<Key, nat>, n: nat)
    requires i < |ws| && ws[i] !in objects && forall j :: 0 <= j < i ==> ws[j] in objects
    ensures SizeOf(ws[..i + 1], objects[ws[i] := n]) == SizeOf(ws[..i], objects) + n
  {
    hide SizeOf;
    SizeOfKeeps(ws[..i], objects, objects[ws[i] := n]);
    SizeOfNext(ws, i, objects[ws[i] := n]);
  }

  lemma ProgressDone(c: Config, s0: State, s: State, added: map<Key, Bytes>, ws: seq<Key>, i: nat, pinBytes: nat)
    requires Progress(c, s0, s, added, ws, i, pinBytes)
    ensures s == Added(s0, added) && added.Keys !! s0.objects.Keys
    ensures i == |ws| ==> pinBytes == SizeOf(ws, s.objects) && NewlyHeld(c, s0, s, added, ws)
  {
    hide Total, VerifyKey, SizeOf, Sizes, Added;
    assert i == |ws| ==> ws[..i] == ws;
  }

  /** Registering one object. */
  function Registered(s: State, k: Key, n: nat): State {
    s.(objects := s.objects[k := n], verified := s.verified + {k}, bytes := s.bytes + n, pending := Claim(s.pending, k))
  }

  /** The state a committed pin leaves, up to its index. */
  ghost function Pinned(s: State, added: map<Key, Bytes>, root: Key, rec: Rec): State {
    Added(s, added).(pins := s.pins[root := rec], pending := map[])
  }

  /** The sizes of a list of held objects, repeats counted. */
  function SizeOf(ks: seq<Key>, objects: map<Key, nat>): nat {
    if |ks| == 0 then 0 else
      SizeOf(ks[..|ks| - 1], objects) + if ks[|ks| - 1] in objects then objects[ks[|ks| - 1]] else 0
  }

  lemma SizeOfNone(ks: seq<Key>, objects: map<Key, nat>)
    requires |ks| == 0
    ensures SizeOf(ks, objects) == 0
  {
  }

  lemma SizeOfNext(ks: seq<Key>, i: nat, objects: map<Key, nat>)
    requires i < |ks| && ks[i] in objects
    ensures SizeOf(ks[..i + 1], objects) == SizeOf(ks[..i], objects) + objects[ks[i]]
  {
    assert ks[..i + 1][..i] == ks[..i];
  }

  lemma {:induction false} SizeOfKeeps(ks: seq<Key>, objects: map<Key, nat>, more: map<Key, nat>)
    requires forall j :: 0 <= j < |ks| ==> ks[j] in objects && ks[j] in more && more[ks[j]] == objects[ks[j]]
    ensures SizeOf(ks, more) == SizeOf(ks, objects)
  {
    if |ks| > 0 {
      SizeOfKeeps(ks[..|ks| - 1], objects, more);
    }
  }

  lemma DistinctNext(cs: seq<Addr>, i: nat)
    requires i < |cs|
    ensures var d := Distinct(cs[..i]);
      if cs[i] in cs[..i] then Distinct(cs[..i + 1]) == d
      else Distinct(cs[..i + 1]) == d + [cs[i]] && ChunkKeys(d + [cs[i]]) == ChunkKeys(d) + [Key(Chunk, cs[i])]
  {
    assert cs[..i + 1][..i] == cs[..i];
  }

  lemma IdlePending(s: State)
    requires Safe(Machine(s, Idle, Free))
    ensures s.pending == map[]
  {
  }

  lemma RootedWith(pins: map<Key, Rec>, k: Key, r: Rec)
    requires Rooted(pins) && r.root == k && |r.objects| > 0
    ensures Rooted(pins[k := r])
  {
  }

  lemma AddedNone(s: State)
    requires s.pending == map[]
    ensures Added(s, map[]) == s && s.objects + Sizes(map[]) == s.objects && Total(Sizes(map[])) == 0
  {
    TotalEmpty(Sizes(map[]));
    assert s.objects + Sizes(map[]) == s.objects;
    assert s.files + map[] == s.files;
  }

  lemma SizesNext(added: map<Key, Bytes>, k: Key, body: Bytes)
    requires k !in added
    ensures Sizes(added[k := body]) == Sizes(added)[k := |body|]
    ensures Ones(added[k := body]) == Claim(Ones(added), k)
    ensures Total(Sizes(added[k := body])) == Total(Sizes(added)) + |body|
  {
    hide Total;
    assert Sizes(added[k := body]) == Sizes(added)[k := |body|];
    TotalWith(Sizes(added), k, |body|);
  }

  lemma AddedNext(s: State, added: map<Key, Bytes>, k: Key, body: Bytes)
    requires k !in s.objects + Sizes(added)
    ensures Registered(Added(s, added), k, |body|).(files := (s.files + added)[k := body]) == Added(s, added[k := body])
    ensures s.objects + Sizes(added[k := body]) == (s.objects + Sizes(added))[k := |body|]
    ensures Total(Sizes(added[k := body])) == Total(Sizes(added)) + |body|
  {
    hide Total, Sizes, Ones, Claim;
    SizesKeys(added);
    SizesNext(added, k, body);
    AddPut(s.objects, Sizes(added), k, |body|);
    AddPut(s.files, added, k, body);
    assert added[k := body].Keys == added.Keys + {k};
    assert s.verified + (added.Keys + {k}) == s.verified + added.Keys + {k};
  }

  lemma SizesKeys(added: map<Key, Bytes>)
    ensures Sizes(added).Keys == added.Keys
    ensures Unclaim(Ones(added), added.Keys) == map[]
  {
  }

  lemma AddedUndone(c: Config, s: State, added: map<Key, Bytes>)
    requires WellKept(c, s) && s.pending == map[] && added.Keys !! s.objects.Keys
    ensures Purge(Added(s, added), added.Keys).(pending := Unclaim(Added(s, added).pending, added.Keys)) == s
  {
    hide VerifyKey, Total, Sizes, Ones, Unclaim;
    SizesKeys(added);
    AddMinus(s.objects, Sizes(added));
    AddMinus(s.files, added);
    TotalSplit(s.objects, Sizes(added));
    assert (s.verified + added.Keys) - added.Keys * (s.objects + Sizes(added)).Keys == s.verified;
  }

  lemma AddedKept(c: Config, s: State, added: map<Key, Bytes>)
    requires WellKept(c, s) && added.Keys !! s.objects.Keys
    requires forall k :: k in added ==> VerifyKey(c.h, k, added[k]).Ok?
    ensures WellKept(c, Added(s, added))
  {
    hide VerifyKey, Total;
    TotalSplit(s.objects, Sizes(added));
  }

  lemma PinnedKept(c: Config, s: State, added: map<Key, Bytes>, root: Key, rec: Rec, recs: seq<DiskRec>)
    requires WellKept(c, s) && NewlyHeld(c, s, Added(s, added), added, rec.objects)
    ensures WellKept(c, Pinned(s, added, root, rec).(index := Doc(recs)))
  {
    hide VerifyKey, Total, WellKept, Sizes, Ones, Added;
    AddedKept(c, s, added);
    WellKeptPins(c, Added(s, added), s.pins[root := rec]);
    WellKeptPending(c, Added(s, added).(pins := s.pins[root := rec]), map[], Doc(recs));
  }

  /** Committing a pin over added objects keeps the store closed and well kept. */
  lemma PinnedSafe(c: Config, s: State, added: map<Key, Bytes>, root: Key, rec: Rec, recs: seq<DiskRec>)
    requires Safe(Machine(s, Idle, Free)) && WellKept(c, s) && root !in s.pins
    requires NewlyHeld(c, s, Added(s, added), added, rec.objects)
    requires rec.root == root && |rec.objects| > 0 && Written(recs, s.pins[root := rec])
    ensures var t := Pinned(s, added, root, rec).(index := Doc(recs));
      && NewlyHeld(c, s, t, added, rec.objects)
      && Safe(Machine(t, Idle, Free)) && WellKept(c, t) && Unclaim(Added(s, added).pending, added.Keys) == map[]
  {
    hide VerifyKey, Total, Referenced, Written, UniqueRoots, AllListed, WellKept, Rooted, Sizes, Ones, Unclaim;
    PinnedKept(c, s, added, root, rec, recs);
    ReferencedWith(s.pins, root, rec);
    WrittenLists(recs, s.pins[root := rec]);
    IdleClosed(s);
    RootedWith(s.pins, root, rec);
    KeptFiles(c, s);
    AddedParts(s, added);
    SizesKeys(added);
  }

  /** A committed pin has every object it names in the maps and on disk, and what it added is genuine. */
  lemma PinnedHolds(c: Config, s: State, added: map<Key, Bytes>, root: Key, rec: Rec, index: Index)
    requires WellKept(c, s) && NewlyHeld(c, s, Pinned(s, added, root, rec).(index := index), added, rec.objects)
    ensures var t := Pinned(s, added, root, rec).(index := index);
      && t.pins == s.pins[root := rec]
      && (forall k :: k in rec.objects ==> k in t.objects && k in t.files)
      && (forall k :: k in t.objects <==> k in s.objects || k in rec.objects)
      && (forall k :: k in added ==> GenuineUnder(c.h, k, added[k]) && k in t.files && t.files[k] == added[k])
  {
    hide VerifyKey, GenuineUnder, Total;
    forall k | k in added
      ensures GenuineUnder(c.h, k, added[k])
    {
      VerifyKeyExact(c.h, k, added[k]);
    }
  }

  lemma KeptFiles(c: Config, s: State)
    requires WellKept(c, s)
    ensures s.files.Keys == s.objects.Keys
  {
  }

  lemma WellKeptPending(c: Config, s: State, pending: map<Key, nat>, index: Index)
    requires WellKept(c, s)
    ensures WellKept(c, s.(pending := pending, index := index))
  {
  }

  function KeySet(ks: seq<Key>): set<Key> {
    set k | k in ks
  }

  lemma KeySetNone(ks: seq<Key>)
    requires |ks| == 0
    ensures KeySet(ks) == {}
  {
  }

  lemma KeySetNext(ks: seq<Key>, j: nat)
    requires j < |ks|
    ensures KeySet(ks[..j + 1]) == KeySet(ks[..j]) + {ks[j]}
  {
    assert forall k :: k in ks[..j + 1] <==> k in ks[..j] || k == ks[j];
  }

  function Restricted(files: map<Key, Bytes>, keys: set<Key>): map<Key, Bytes> {
    map k | k in files && k in keys :: files[k]
  }

  /** The state load builds from a disk, before it writes the index back. */
  ghost function Loaded(files: map<Key, Bytes>, index: Index): State {
    Boot(files, index).s.(files := Restricted(files, LoadedKeys(Recs(index), files)))
  }

  lemma LoadNone(recs: seq<DiskRec>, files: map<Key, Bytes>)
    requires |recs| == 0
    ensures LoadedPins(recs, files) == map[] && LoadedKeys(recs, files) == {} && Total(SizesOn({}, files)) == 0
    ensures SizesOn({}, files) == map[]
  {
  }

  lemma LoadNext(recs: seq<DiskRec>, i: nat, files: map<Key, Bytes>)
    requires i < |recs|
    ensures var d := recs[i];
      if Complete(d, files) then
        && LoadedPins(recs[..i + 1], files) == LoadedPins(recs[..i], files)[d.root.value := FromDisk(d)]
        && LoadedKeys(recs[..i + 1], files) == LoadedKeys(recs[..i], files) + KeySet(FromDisk(d).objects)
      else
        && LoadedPins(recs[..i + 1], files) == LoadedPins(recs[..i], files)
        && LoadedKeys(recs[..i + 1], files) == LoadedKeys(recs[..i], files)
  {
    hide Complete;
    assert recs[..i + 1][..i] == recs[..i];
  }

  lemma LoadedFacts(disk: map<Key, Bytes>, index: Index, files: map<Key, Bytes>, objects: map<Key, nat>)
    requires objects == SizesOn(LoadedKeys(Recs(index), disk), disk) && files == Restricted(disk, objects.Keys)
    ensures objects == Boot(disk, index).s.objects && files == Restricted(disk, LoadedKeys(Recs(index), disk))
  {
    hide LoadedKeys;
    assert objects.Keys == LoadedKeys(Recs(index), disk);
  }

  /** What load builds from a disk whose index names each root once is closed and well kept. */
  lemma LoadedSafe(c: Config, files: map<Key, Bytes>, index: Index)
    requires index != Unusable && UniqueRoots(Recs(index))
    ensures Safe(Machine(Loaded(files, index), Idle, Free)) && WellKept(c, Loaded(files, index))
  {
    hide LoadedPins, LoadedKeys, Safe, Total, UniqueRoots;
    BootSafe(files, index);
    var m := Boot(files, index);
    SettleSafe(m);
    assert files - (files.Keys - LoadedKeys(Recs(index), files)) == Restricted(files, LoadedKeys(Recs(index), files));
  }

  lemma VerifiedSafe(s: State, k: Key)
    requires Safe(Machine(s, Idle, Free))
    ensures Safe(Machine(s.(verified := s.verified + {k}), Idle, Free))
  {
    hide Total, Referenced, UniqueRoots, Listed, AllListed, Rooted, Recs;
  }

  lemma IdleRooted(s: State)
    requires Safe(Machine(s, Idle, Free))
    ensures Rooted(s.pins)
  {
    hide Referenced, UniqueRoots, AllListed, Rooted;
  }

  lemma WellKeptIndex(c: Config, s: State, index: Index)
    requires WellKept(c, s)
    ensures WellKept(c, s.(index := index))
  {
  }

  lemma ReferencedNone(pins: map<Key, Rec>)
    requires pins.Keys == {}
    ensures Referenced(pins) == {}
  {
  }

  lemma ReferencedNext(pins: map<Key, Rec>, left: set<Key>, k: Key)
    requires k in left && left <= pins.Keys
    ensures Referenced(pins - (left - {k})) == Referenced(pins - left) + (set o | o in pins[k].objects)
  {
    hide Referenced;
    assert pins - (left - {k}) == (pins - left)[k := pins[k]];
    ReferencedWith(pins - left, k, pins[k]);
  }

  /** A document that lists the pins outside left, each once. */
  ghost predicate WrittenSoFar(recs: seq<DiskRec>, pins: map<Key, Rec>, left: set<Key>) {
    Written(recs, pins - left)
  }

  lemma WriteOne(recs: seq<DiskRec>, pins: map<Key, Rec>, left: set<Key>, k: Key)
    requires k in left && left <= pins.Keys && Rooted(pins) && WrittenSoFar(recs, pins, left)
    ensures WrittenSoFar(recs + [ToDisk(pins[k])], pins, left - {k})
  {
    var d, more := ToDisk(pins[k]), recs + [ToDisk(pins[k])];
    var fewer, now := pins - left, pins - (left - {k});
    assert d.root == Some(k) && d in more;
    forall i | 0 <= i < |more|
      ensures more[i].root.Some? && more[i].root.value in now && more[i] == ToDisk(now[more[i].root.value])
    {
      assert i < |recs| ==> more[i] == recs[i];
    }
    forall j | j in now
      ensures ToDisk(now[j]) in more
    {
      if j != k {
        assert ToDisk(fewer[j]) in recs;
      }
    }
  }

  lemma WrittenAll(recs: seq<DiskRec>, pins: map<Key, Rec>)
    requires WrittenSoFar(recs, pins, {})
    ensures Written(recs, pins)
  {
    assert pins - {} == pins;
  }
}
