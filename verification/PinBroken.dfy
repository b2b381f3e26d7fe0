/** Runs of the store without limits, from a restart to a finished pin and a broken store. */
module PinBroken {
  import opened Common
  import opened ChunkTree
  import opened Manifest
  import opened Sums
  import opened PinModel
  import opened PinRuns

  /** Steps of the store alone: no restart and no reader's mark. */
  ghost predicate Path(c: Config, ms: seq<Machine>, steps: seq<Step>, m: Machine, m': Machine) {
    && IsRun(c, ms, steps) && ms[0] == m && ms[|steps|] == m'
    && forall i :: 0 <= i < |steps| ==> !steps[i].Crash? && !steps[i].MarkVerified?
  }

  ghost predicate Reaches(c: Config, m: Machine, m': Machine) {
    exists ms, steps :: Path(c, ms, steps, m, m')
  }

  lemma Here(c: Config, m: Machine)
    ensures Reaches(c, m, m)
  {
    assert Path(c, [m], [], m, m);
  }

  lemma Then(c: Config, m: Machine, m': Machine, m'': Machine, step: Step)
    requires Reaches(c, m, m') && StoreStep(c, m', m'', step) && !step.Crash? && !step.MarkVerified?
    ensures Reaches(c, m, m'')
  {
    hide StoreStep;
    var ms, steps :| Path(c, ms, steps, m, m');
    var ms', steps' := ms + [m''], steps + [step];
    forall i | 0 <= i < |steps'|
      ensures StoreStep(c, ms'[i], ms'[i + 1], steps'[i]) && !steps'[i].Crash? && !steps'[i].MarkVerified?
    {
      if i < |steps| {
        assert StoreStep(c, ms[i], ms[i + 1], steps[i]);
      }
    }
    assert Path(c, ms', steps', m, m'');
  }

  /** All files that are due are removed, one after another. */
  lemma {:induction false} Drain(c: Config, m: Machine, m': Machine)
    requires Reaches(c, m, m') && m'.lock.Removing?
    ensures Reaches(c, m, m'.(s := m'.s.(files := m'.s.files - m'.lock.dead), lock := m'.lock.(dead := {})))
    decreases if m'.lock.Removing? then m'.lock.dead else {}
  {
    hide Reaches;
    var dead := m'.lock.dead;
    if dead == {} {
      assert m'.s.files - dead == m'.s.files;
    } else {
      var k :| k in dead;
      var m'' := m'.(s := m'.s.(files := m'.s.files - {k}), lock := m'.lock.(dead := dead - {k}));
      Then(c, m, m', m'', RemoveFile(k));
      Drain(c, m, m'');
      assert m'.s.files - {k} - (dead - {k}) == m'.s.files - dead;
    }
  }

  /** A quarantine up to the point where its index write has failed. */
  ghost function Swept(s: State, bad: Key): State {
    var s1 := Drop(WithoutPinsOf(s, bad), {bad});
    var dead := DeadOf(s1) + {bad};
    Drop(s1, DeadOf(s1)).(files := s.files - dead)
  }

  lemma QuarantineRun(c: Config, m: Machine, m': Machine, bad: Key)
    requires Reaches(c, m, m') && m'.lock == Free
    ensures Reaches(c, m, m'.(s := Swept(m'.s, bad)))
  {
    hide Reaches, Total, Referenced, Drop, DeadOf, Boot, Wants, VerifyKey, PinStep, Written;
    var s1 := Drop(WithoutPinsOf(m'.s, bad), {bad});
    var q := m'.(s := Drop(s1, DeadOf(s1)), lock := Removing(DeadOf(s1) + {bad}, true));
    Then(c, m, m', q, Quarantine(bad));
    DropKeepsFiles(s1, DeadOf(s1));
    DropKeepsFiles(WithoutPinsOf(m'.s, bad), {bad});
    IndexFails(c, m, q);
  }

  /** What is due is removed and the index write that follows fails. */
  lemma IndexFails(c: Config, m: Machine, q: Machine)
    requires Reaches(c, m, q) && q.lock.Removing? && q.lock.thenIndex
    ensures Reaches(c, m, q.(s := q.s.(files := q.s.files - q.lock.dead), lock := Free))
  {
    hide Reaches;
    Drain(c, m, q);
    var d := q.(s := q.s.(files := q.s.files - q.lock.dead), lock := Removing({}, true));
    Then(c, m, d, d.(lock := Free), IndexFail);
  }

  lemma DropKeepsFiles(s: State, dead: set<Key>)
    ensures Drop(s, dead).files == s.files
  {
  }

  // ----- a shared object, counted and then lost -----

  /** A disk with one pin that names two objects. */
  function SharedRec(r: Key, x: Key): Rec {
    Rec(r, "", [r, x], 0, 0)
  }

  ghost function SharedBoot(r: Key, x: Key, b: Bytes): Machine {
    Boot(map[r := b, x := b], Doc([ToDisk(SharedRec(r, x))]))
  }

  ghost function SharedState(r: Key, x: Key, b: Bytes): State {
    var sizes := map[r := |b|, x := |b|];
    State(map[r := SharedRec(r, x)], sizes, {}, map[], Total(sizes), map[r := b, x := b], Doc([ToDisk(SharedRec(r, x))]))
  }

  lemma SharedBooted(c: Config, r: Key, x: Key, b: Bytes)
    ensures Reaches(c, SharedBoot(r, x, b), Machine(SharedState(r, x, b), Idle, Free))
  {
    hide Reaches, Total, Complete, LoadedPins, LoadedKeys;
    var m := SharedBoot(r, x, b);
    Here(c, m);
    SharedLoaded(r, x, b);
    var files := map[r := b, x := b];
    assert SizesOn({r, x}, files) == map[r := |b|, x := |b|];
    assert files.Keys - {r, x} == {};
    assert m == Machine(SharedState(r, x, b), Idle, Removing({}, true));
    Then(c, m, m, m.(lock := Free), IndexFail);
  }

  lemma SharedLoaded(r: Key, x: Key, b: Bytes)
    ensures var recs, files := [ToDisk(SharedRec(r, x))], map[r := b, x := b];
      LoadedKeys(recs, files) == {r, x} && LoadedPins(recs, files) == map[r := SharedRec(r, x)]
  {
    var d := ToDisk(SharedRec(r, x));
    var recs, files := [d], map[r := b, x := b];
    assert recs[..0] == [];
    FromToDisk(SharedRec(r, x));
    assert d.objects[0] == Some(r) && d.objects[1] == Some(x) && Complete(d, files);
    assert LoadedPins(recs[..0], files) == map[] && LoadedKeys(recs[..0], files) == {};
    assert (set o | o in SharedRec(r, x).objects) == {r, x} by {
      assert [r, x][0] == r && [r, x][1] == x;
    }
    assert LoadedKeys(recs, files) == {r, x};
    assert LoadedPins(recs, files) == map[r := SharedRec(r, x)];
  }

  /** A pin of x alone that has counted x, which another pin holds. */
  ghost function Counted(r: Key, x: Key, b: Bytes): Machine {
    Machine(SharedState(r, x, b), Pin(Pinning(x, "", [x], 1, {}, |b|, 0, 0, Scan)), Free)
  }

  lemma SharedCounted(c: Config, r: Key, x: Key, b: Bytes)
    requires r != x && x.Key? && x.kind != ManifestKind && c.maxPins <= 0
    ensures Reaches(c, SharedBoot(r, x, b), Counted(r, x, b))
  {
    hide Reaches, Total, SharedBoot;
    var m0 := SharedBoot(r, x, b);
    var m1 := Machine(SharedState(r, x, b), Idle, Free);
    var m2 := m1.(op := Pin(Pinning(x, "", [x], 0, {}, 0, 0, 0, Scan)));
    SharedBooted(c, r, x, b);
    Then(c, m0, m1, m2, StartPin(x, "", b, 0));
    Then(c, m0, m2, Counted(r, x, b), CountPresent);
  }

  lemma WrittenAlone(rec: Rec)
    ensures Written([ToDisk(rec)], map[rec.root := rec])
  {
    assert ToDisk(rec) == [ToDisk(rec)][0];
  }

  /** A pin commits from a state in which no other pin is held, and its claims are released. */
  lemma CommitAlone(c: Config, m: Machine, m': Machine)
    requires Reaches(c, m, m') && m'.lock == Free && m'.s.pins == map[]
    requires m'.op.Pin? && m'.op.p.phase == Scan && m'.op.p.i == |m'.op.p.wants|
    ensures var p := m'.op.p;
      var pins := map[p.root := RecOf(p)];
      var index := Doc([ToDisk(RecOf(p))]);
      Reaches(c, m, Machine(m'.s.(pins := pins, index := index, pending := Unclaim(m'.s.pending, p.wrote)), Idle, Free))
  {
    hide Reaches, Total, Drop, Boot, Wants, VerifyKey, ToDisk, Unclaim, DeadOf, WithoutPinsOf;
    var p := m'.op.p;
    var recs := [ToDisk(RecOf(p))];
    var m1 := m'.(s := m'.s.(pins := m'.s.pins[p.root := RecOf(p)]), op := Pin(p.(phase := Committing)), lock := WritingIndex);
    assert m1.s.pins == map[p.root := RecOf(p)];
    var m2 := m1.(s := m1.s.(index := Doc(recs)), op := Pin(p.(phase := Releasing)), lock := Free);
    var m3 := m2.(s := m2.s.(pending := Unclaim(m2.s.pending, p.wrote)), op := Idle);
    Then(c, m, m', m1, Commit);
    WrittenAlone(RecOf(p));
    Then(c, m, m1, m2, CommitOk(recs));
    Then(c, m, m2, m3, Release);
  }

  /** Quarantining the counted object, or another one its only pin names: the new pin is held without its object. */
  lemma CountedObjectLost(c: Config, r: Key, x: Key, bad: Key, b: Bytes)
    requires r != x && x.Key? && x.kind != ManifestKind && bad in {r, x} && c.maxPins <= 0
    ensures exists m :: Reaches(c, SharedBoot(r, x, b), m) && m.op == Idle && m.lock == Free
                        && x in m.s.pins && x in m.s.pins[x].objects && x !in m.s.objects
  {
    hide Reaches, SharedBoot, Total;
    SharedCounted(c, r, x, b);
    var m0, m1 := SharedBoot(r, x, b), Counted(r, x, b);
    QuarantineRun(c, m0, m1, bad);
    var m2 := m1.(s := Swept(m1.s, bad));
    SharedSwept(r, x, bad, b);
    CommitAlone(c, m0, m2);
  }

  lemma SharedSwept(r: Key, x: Key, bad: Key, b: Bytes)
    requires r != x && bad in {r, x}
    ensures var s := Swept(SharedState(r, x, b), bad); s.pins == map[] && x !in s.objects
  {
    hide Total;
    var s := SharedState(r, x, b);
    assert [r, x][0] == r && [r, x][1] == x;
    assert WithoutPinsOf(s, bad).pins == map[];
    assert Referenced(map[]) == {};
  }

  // ----- an object left to a record that is undone -----

  /** Quarantining another object of its only other pin while a commit is undone: the shared object is left to nobody. */
  lemma UndoneObjectLeaks(c: Config, r: Key, x: Key, b: Bytes)
    requires r != x && x.Key? && x.kind != ManifestKind && c.maxPins <= 0
    ensures exists m :: Reaches(c, SharedBoot(r, x, b), m) && m.op == Idle && m.lock == Free
                        && x in m.s.objects && m.s.pins == map[]
  {
    hide Reaches, SharedBoot, Total, SharedState, Swept, Drop;
    SharedCounted(c, r, x, b);
    var m0, m1 := SharedBoot(r, x, b), Counted(r, x, b);
    var p := m1.op.p;
    var m2 := m1.(s := m1.s.(pins := m1.s.pins[x := RecOf(p)]), op := Pin(p.(phase := Committing)), lock := WritingIndex);
    Then(c, m0, m1, m2, Commit);
    var m3 := m2.(op := Pin(p.(phase := Undoing)), lock := Free);
    Then(c, m0, m2, m3, CommitFail);
    QuarantineRun(c, m0, m3, r);
    var m4 := m3.(s := Swept(m3.s, r));
    UndoneSwept(r, x, b, RecOf(p));
    FailedPinEnds(c, m0, m4);
    DropNothing(m4.s.(pins := m4.s.pins - {x}));
    assert m4.s.pins - {x} == map[];
  }

  lemma UndoneSwept(r: Key, x: Key, b: Bytes, rec: Rec)
    requires r != x && rec.objects == [x]
    ensures var s := SharedState(r, x, b);
      var t := Swept(s.(pins := s.pins[x := rec]), r);
      t.pins == map[x := rec] && x in t.objects && t.pending == map[]
  {
    hide Total;
    var s := SharedState(r, x, b);
    var s0 := s.(pins := s.pins[x := rec]);
    assert [r, x][0] == r && [r, x][1] == x && [x][0] == x;
    assert WithoutPinsOf(s0, r).pins == map[x := rec];
    ReferencedBy(map[x := rec], x, x);
  }

  /** A pin that wrote nothing and whose commit failed runs to its end. */
  lemma FailedPinEnds(c: Config, m: Machine, m': Machine)
    requires Reaches(c, m, m') && m'.lock == Free && m'.op.Pin? && m'.op.p.phase == Undoing && m'.op.p.wrote == {}
    ensures Reaches(c, m, Machine(Drop(m'.s.(pins := m'.s.pins - {m'.op.p.root}), {}).(pending := Unclaim(m'.s.pending, {})), Idle, Free))
  {
    hide Reaches, StoreStep, Drop, Unclaim;
    var p := m'.op.p;
    var m1 := m'.(s := m'.s.(pins := m'.s.pins - {p.root}), op := Pin(p.(phase := Failing)));
    UncommitStep(c, m', m1);
    Then(c, m, m', m1, Uncommit);
    var m2 := m1.(s := Drop(m1.s, {}), op := Pin(p.(phase := Releasing)), lock := Removing({}, false));
    RollbackStep(c, m1, m2);
    Then(c, m, m1, m2, Rollback);
    RemovalDoneStep(c, m2);
    Then(c, m, m2, m2.(lock := Free), RemovalDone);
    DropNothing(m1.s);
    ReleaseRun(c, m, m2.(lock := Free));
  }

  lemma UncommitStep(c: Config, m: Machine, m': Machine)
    requires m.op.Pin? && m.op.p.phase == Undoing && m.lock == Free
    requires m' == m.(s := m.s.(pins := m.s.pins - {m.op.p.root}), op := Pin(m.op.p.(phase := Failing)))
    ensures StoreStep(c, m, m', Uncommit)
  {
  }

  lemma RollbackStep(c: Config, m: Machine, m': Machine)
    requires m.op.Pin? && m.op.p.phase == Failing && m.lock == Free
    requires m' == m.(s := Drop(m.s, m.op.p.wrote), op := Pin(m.op.p.(phase := Releasing)), lock := Removing(m.op.p.wrote, false))
    ensures StoreStep(c, m, m', Rollback)
  {
  }

  lemma RemovalDoneStep(c: Config, m: Machine)
    requires m.lock == Removing({}, false)
    ensures StoreStep(c, m, m.(lock := Free), RemovalDone)
  {
  }

  lemma ReleaseRun(c: Config, m: Machine, m': Machine)
    requires Reaches(c, m, m') && m'.op.Pin? && m'.op.p.phase == Releasing && m'.lock == Free
    ensures Reaches(c, m, Machine(m'.s.(pending := Unclaim(m'.s.pending, m'.op.p.wrote)), Idle, Free))
  {
    hide Reaches, Unclaim;
    Then(c, m, m', m'.(s := m'.s.(pending := Unclaim(m'.s.pending, m'.op.p.wrote)), op := Idle), Release);
  }

  lemma DropNothing(s: State)
    ensures var t := Drop(s, {}); t.pending == s.pending && t.objects == s.objects && t.pins == s.pins
  {
    assert s.objects - {} == s.objects;
  }

  // ----- a chunk, stored and registered -----

  function Chunked(x: Key, i: nat, wrote: set<Key>, n: nat, phase: Phase): Op {
    Pin(Pinning(x, "", [x], i, wrote, n, n, 0, phase))
  }

  /** A chunk is fetched, checked and stored under its key. */
  lemma ChunkStored(c: Config, s: State, x: Key, b: Bytes)
    requires c == Config(c.h, 0, 0, 0, 0) && x == Key(Chunk, HashBytes(c.h, b)) && x !in s.pins && x !in s.objects
    ensures Reaches(c, Machine(s, Idle, Free), Machine(s.(files := s.files[x := b]), Chunked(x, 0, {}, 0, Stored(|b|)), Free))
  {
    hide Reaches, HashBytes;
    var m1 := Machine(s, Idle, Free);
    Here(c, m1);
    var m2 := m1.(op := Chunked(x, 0, {}, 0, Scan));
    Then(c, m1, m1, m2, StartPin(x, "", b, 0));
    var m3 := m2.(op := Chunked(x, 0, {}, 0, Checked(b)));
    Then(c, m1, m2, m3, CheckNew(b));
    Then(c, m1, m3, Machine(s.(files := s.files[x := b]), Chunked(x, 0, {}, 0, Stored(|b|)), Free), StoreOk);
  }

  /** A stored chunk is registered and its pin committed, in a store without other pins. */
  lemma ChunkCommitted(c: Config, s: State, x: Key, n: nat)
    requires s.pins == map[]
    ensures exists m ::
      && Reaches(c, Machine(s, Chunked(x, 0, {}, 0, Stored(n)), Free), m) && m.op == Idle && m.lock == Free
      && x in m.s.pins && x in m.s.pins[x].objects && x in m.s.objects && m.s.files == s.files
  {
    hide Reaches, Claim, Unclaim, StoreStep;
    var m2 := Machine(s, Chunked(x, 0, {}, 0, Stored(n)), Free);
    Here(c, m2);
    var m3 := Machine(s.(objects := s.objects[x := n], verified := s.verified + {x}, bytes := s.bytes + n, pending := Claim(s.pending, x)),
                      Chunked(x, 1, {x}, n, Scan), Free);
    assert {} + {x} == {x};
    RegisterStep(c, m2, m3);
    Then(c, m2, m2, m3, Register);
    CommitAlone(c, m2, m3);
  }

  lemma RegisterStep(c: Config, m: Machine, m': Machine)
    requires m.op.Pin? && m.op.p.phase.Stored? && m.op.p.i < |m.op.p.wants| && m.lock == Free
    requires var p, s := m.op.p, m.s;
      var k, n := p.wants[p.i], p.phase.size;
      m' == m.(
        s := s.(objects := s.objects[k := n], verified := s.verified + {k}, bytes := s.bytes + n, pending := Claim(s.pending, k)),
        op := Pin(p.(i := p.i + 1, wrote := p.wrote + {k}, pinBytes := p.pinBytes + n, newBytes := p.newBytes + n, phase := Scan)))
    ensures StoreStep(c, m, m', Register)
  {
  }

  // ----- an object that only a dropped pin named -----

  function Alone(y: Key): Rec {
    Rec(y, "", [y], 0, 0)
  }

  /** A disk with one pin of one chunk, after a restart. */
  ghost function AloneState(y: Key, b: Bytes): State {
    State(map[y := Alone(y)], map[y := |b|], {}, map[], Total(map[y := |b|]), map[y := b], Doc([ToDisk(Alone(y))]))
  }

  ghost function AloneBoot(y: Key, b: Bytes): Machine {
    Boot(map[y := b], Doc([ToDisk(Alone(y))]))
  }

  lemma AloneBooted(c: Config, y: Key, b: Bytes)
    ensures Reaches(c, AloneBoot(y, b), Machine(AloneState(y, b), Idle, Free))
  {
    hide Reaches, Total, Complete, LoadedPins, LoadedKeys;
    var m := AloneBoot(y, b);
    Here(c, m);
    AloneLoaded(y, b);
    var files := map[y := b];
    assert SizesOn({y}, files) == map[y := |b|];
    assert files.Keys - {y} == {};
    assert m == Machine(AloneState(y, b), Idle, Removing({}, true));
    Then(c, m, m, m.(lock := Free), IndexFail);
  }

  lemma AloneLoaded(y: Key, b: Bytes)
    ensures var recs, files := [ToDisk(Alone(y))], map[y := b];
      LoadedKeys(recs, files) == {y} && LoadedPins(recs, files) == map[y := Alone(y)]
  {
    var d := ToDisk(Alone(y));
    var recs, files := [d], map[y := b];
    assert recs[..0] == [];
    FromToDisk(Alone(y));
    assert d.objects[0] == Some(y) && Complete(d, files);
    assert LoadedPins(recs[..0], files) == map[] && LoadedKeys(recs[..0], files) == {};
    assert (set o | o in Alone(y).objects) == {y} by {
      assert [y][0] == y;
    }
  }

  /** A pin of a manifest of one chunk. */
  function OneChunk(root: Key, y: Key, i: nat, wrote: set<Key>, n: nat, n': nat, phase: Phase): Op {
    Pin(Pinning(root, "", [root, y], i, wrote, n, n', 0, phase))
  }

  ghost predicate OneChunkManifest(c: Config, root: Key, y: Key, body: Bytes) {
    && c == Config(c.h, 0, 0, 0, 0) && root.Key? && root.kind == ManifestKind && y.Key? && y.kind == Chunk
    && VerifiedChunks(c.h, root.addr, body) == Ok([y.addr])
  }

  lemma OneChunkWants(c: Config, root: Key, y: Key, body: Bytes)
    requires OneChunkManifest(c, root, y, body)
    ensures Wants(c.h, root, body) == Ok([root, y]) && VerifyKey(c.h, root, body).Ok?
  {
    hide VerifiedChunks, Distinct, ChunkKeys;
    DistinctOne(y.addr);
    assert [root] + [y] == [root, y];
  }

  lemma DistinctOne(a: Addr)
    ensures ChunkKeys(Distinct([a])) == [Key(Chunk, a)]
  {
    var cs := [a];
    assert cs[..0] == [] && Distinct([]) == [];
    assert Distinct(cs) == [a];
  }

  /** The manifest is stored and registered, and the chunk, which is held already, is counted. */
  ghost function Gathered(root: Key, y: Key, b: Bytes, body: Bytes): Machine {
    var s := AloneState(y, b);
    Machine(s.(objects := s.objects[root := |body|], verified := {root}, bytes := s.bytes + |body|,
               pending := map[root := 1], files := s.files[root := body]),
            OneChunk(root, y, 2, {root}, |body| + |b|, |body|, Scan), Free)
  }

  lemma ManifestChecked(c: Config, root: Key, y: Key, b: Bytes, body: Bytes)
    requires OneChunkManifest(c, root, y, body)
    ensures var s := AloneState(y, b);
      Reaches(c, AloneBoot(y, b), Machine(s.(files := s.files[root := body]), OneChunk(root, y, 0, {}, 0, 0, Stored(|body|)), Free))
  {
    hide Reaches, AloneBoot, VerifiedChunks, Total, Wants, VerifyKey;
    AloneBooted(c, y, b);
    OneChunkWants(c, root, y, body);
    var m0, m1 := AloneBoot(y, b), Machine(AloneState(y, b), Idle, Free);
    var m2 := m1.(op := OneChunk(root, y, 0, {}, 0, 0, Scan));
    Then(c, m0, m1, m2, StartPin(root, "", body, 0));
    var m3 := m2.(op := OneChunk(root, y, 0, {}, 0, 0, Checked(body)));
    Then(c, m0, m2, m3, CheckNew(body));
    var m4 := m3.(s := m3.s.(files := m3.s.files[root := body]), op := OneChunk(root, y, 0, {}, 0, 0, Stored(|body|)));
    Then(c, m0, m3, m4, StoreOk);
  }

  lemma ManifestGathered(c: Config, root: Key, y: Key, b: Bytes, body: Bytes)
    requires OneChunkManifest(c, root, y, body)
    ensures Reaches(c, AloneBoot(y, b), Gathered(root, y, b, body))
  {
    hide Reaches, AloneBoot, VerifiedChunks, Total;
    ManifestChecked(c, root, y, b, body);
    var s, n := AloneState(y, b), |body|;
    var m0 := AloneBoot(y, b);
    var m4 := Machine(s.(files := s.files[root := body]), OneChunk(root, y, 0, {}, 0, 0, Stored(n)), Free);
    var m5 := Machine(Gathered(root, y, b, body).s, OneChunk(root, y, 1, {root}, n, n, Scan), Free);
    assert Claim(map[], root) == map[root := 1] && {} + {root} == {root};
    RegisterStep(c, m4, m5);
    Then(c, m0, m4, m5, Register);
    Then(c, m0, m5, Gathered(root, y, b, body), CountPresent);
  }

  lemma CommittedLeaks(c: Config, root: Key, y: Key, b: Bytes, body: Bytes)
    requires OneChunkManifest(c, root, y, body)
    ensures exists m :: Reaches(c, AloneBoot(y, b), m) && m.op == Idle && m.lock == Free
                        && root in m.s.objects && m.s.pins == map[]
  {
    hide Reaches, AloneBoot, VerifiedChunks, Total, Swept, ToDisk, Unclaim;
    ManifestGathered(c, root, y, b, body);
    var m0, m1 := AloneBoot(y, b), Gathered(root, y, b, body);
    var p := m1.op.p;
    var rec := RecOf(p);
    var pins, recs := map[y := Alone(y), root := rec], [ToDisk(Alone(y)), ToDisk(rec)];
    var m2 := m1.(s := m1.s.(pins := m1.s.pins[root := rec]), op := Pin(p.(phase := Committing)), lock := WritingIndex);
    Then(c, m0, m1, m2, Commit);
    assert m2.s.pins == pins;
    WrittenTwo(Alone(y), rec);
    var m3 := m2.(s := m2.s.(index := Doc(recs)), op := Pin(p.(phase := Releasing)), lock := Free);
    Then(c, m0, m2, m3, CommitOk(recs));
    QuarantineRun(c, m0, m3, y);
    CommittedSwept(m3.s, root, y, rec);
    ReleaseRun(c, m0, m3.(s := Swept(m3.s, y)));
  }

  lemma WrittenTwo(r1: Rec, r2: Rec)
    requires r1.root != r2.root
    ensures Written([ToDisk(r1), ToDisk(r2)], map[r1.root := r1, r2.root := r2])
  {
    var recs := [ToDisk(r1), ToDisk(r2)];
    assert recs[0] == ToDisk(r1) && recs[1] == ToDisk(r2);
  }

  lemma CommittedSwept(s: State, root: Key, y: Key, rec: Rec)
    requires root != y && rec.objects == [root, y] && s.pins == map[y := Alone(y), root := rec]
    requires root in s.objects && root in s.pending
    ensures var t := Swept(s, y); t.pins == map[] && root in t.objects
  {
    hide Total;
    assert [root, y][1] == y && [y][0] == y;
    assert WithoutPinsOf(s, y).pins == map[];
  }

  /** Quarantining the chunk of a manifest right after the commit: the manifest stays in the store, and no pin names it. */
  lemma ReleasedObjectLeaks(c: Config, y: Key, b: Bytes, p: Parts)
    requires c == Config(c.h, 0, 0, 0, 0) && y.Key? && y.kind == Chunk && ChunkList([y.addr]) && ValidParts(p)
    ensures exists m :: Reaches(c, AloneBoot(y, b), m) && m.op == Idle && m.lock == Free
                        && Key(ManifestKind, ManifestRoot(c.h, [y.addr])) in m.s.objects && m.s.pins == map[]
  {
    hide VerifiedChunks, ManifestRoot, Reaches, AloneBoot, EncodeManifest;
    var want := ManifestRoot(c.h, [y.addr]);
    ManifestAccepted(c.h, want, [y.addr], p);
    CommittedLeaks(c, Key(ManifestKind, want), y, b, EncodeManifest(want, [y.addr], p));
  }
}
