/**
 The pin store as a machine whose steps are the regions between lock releases and the single disk effects inside them,
 so that pins, unpins, reads, quarantines and crashes interleave as they do in the running store.
 */
module PinRuns {
  import opened Common
  import opened Manifest
  import opened Sums
  import opened PinModel

  /** Where a pin operation stands. */
  datatype Phase =
    | Scan                    // about to look at the next wanted object
    | Checked(body: Bytes)    // the next object passed the gate and the budgets
    | Stored(size: nat)       // its file is in place, but not registered
    | Committing              // the record is in memory and the index is being written
    | Undoing                 // the index write failed
    | Failing                 // the operation failed and will roll back
    | Releasing               // committed or rolled back; the claims are still held

  datatype Pinning = Pinning(
    root: Key, owner: string, wants: seq<Key>, i: nat, wrote: set<Key>, pinBytes: nat, newBytes: nat, created: int, phase: Phase)

  /** The operation lock admits one pin at a time. */
  datatype Op = Idle | Pin(p: Pinning)

  /** Who holds the map lock across disk effects. */
  datatype Lock = Free | Removing(dead: set<Key>, thenIndex: bool) | WritingIndex

  datatype Machine = Machine(s: State, op: Op, lock: Lock)

  // ----- pure effects -----

  /** Chunks in order, repeats left out. */
  function Distinct(cs: seq<Addr>): (r: seq<Addr>)
    ensures forall c :: c in r <==> c in cs
  {
    if |cs| == 0 then [] else
      var front, c := cs[..|cs| - 1], cs[|cs| - 1];
      if c in front then Distinct(front) else Distinct(front) + [c]
  }

  function ChunkKeys(cs: seq<Addr>): (r: seq<Key>)
    ensures |r| == |cs| && forall i :: 0 <= i < |cs| ==> r[i] == Key(Chunk, cs[i])
  {
    seq(|cs|, i requires 0 <= i < |cs| => Key(Chunk, cs[i]))
  }

  /** The objects a pin of this root retains: the root and, for a manifest, each chunk it names. */
  function Wants(h: Hash, root: Key, body: Bytes): (r: Result<seq<Key>>)
    ensures r.Ok? ==> |r.value| > 0 && r.value[0] == root
  {
    if root.Odd? then Err(BadAddr)
    else if root.kind != ManifestKind then Ok([root])
    else
      var cs := VerifiedChunks(h, root.addr, body);
      if cs.Err? then Err(cs.error) else Ok([root] + ChunkKeys(Distinct(cs.value)))
  }

  /** Forgets objects and returns their bytes to the budget. */
  ghost function Drop(s: State, dead: set<Key>): State {
    s.(objects := s.objects - dead,
       verified := s.verified - dead * s.objects.Keys,
       bytes := s.bytes - (Total(s.objects) - Total(s.objects - dead)))
  }

  ghost function DeadOf(s: State): set<Key> {
    Dead(s.pins, s.pending, s.objects)
  }

  ghost function WithoutPinsOf(s: State, bad: Key): State {
    s.(pins := map k | k in s.pins && bad !in s.pins[k].objects :: s.pins[k])
  }

  function Claim(pending: map<Key, nat>, k: Key): map<Key, nat> {
    pending[k := if k in pending then pending[k] + 1 else 1]
  }

  function Unclaim(pending: map<Key, nat>, wrote: set<Key>): map<Key, nat> {
    map k | k in pending && (k in wrote ==> pending[k] > 1) :: if k in wrote then pending[k] - 1 else pending[k]
  }

  function RecOf(p: Pinning): Rec {
    Rec(p.root, p.owner, p.wants, p.pinBytes, p.created)
  }

  function Recs(index: Index): seq<DiskRec> {
    if index.Doc? then index.recs else []
  }

  /** The store a restart builds from a disk; the orphans are still to be swept. */
  ghost function Boot(files: map<Key, Bytes>, index: Index): Machine {
    var recs := Recs(index);
    var sizes := SizesOn(LoadedKeys(recs, files), files);
    Machine(State(LoadedPins(recs, files), sizes, {}, map[], Total(sizes), files, index),
            Idle, Removing(files.Keys - LoadedKeys(recs, files), index.Doc?))
  }

  // ----- steps -----

  datatype Step =
    | StartPin(root: Key, owner: string, body: Bytes, created: int)
    | CountPresent | CheckNew(body: Bytes) | GiveUp
    | StoreOk | StoreFail | Register
    | Commit | CommitOk(recs: seq<DiskRec>) | CommitFail | Uncommit
    | Rollback | Release
    | Unpin(root: Key) | Quarantine(bad: Key)
    | RemoveFile(k: Key) | RemovalDone | IndexOk(recs: seq<DiskRec>) | IndexFail
    | MarkVerified(k: Key) | Crash

  ghost predicate PinStep(c: Config, m: Machine, m': Machine, step: Step)
    requires m.op.Pin?
  {
    var p, s := m.op.p, m.s;
    match step
    case CountPresent =>
      && p.phase == Scan && p.i < |p.wants| && m.lock == Free && p.wants[p.i] in s.objects
      && m' == m.(op := Pin(p.(i := p.i + 1, pinBytes := p.pinBytes + s.objects[p.wants[p.i]])))
    case CheckNew(body) =>
      && p.phase == Scan && p.i < |p.wants| && m.lock == Free && p.wants[p.i] !in s.objects
      && VerifyKey(c.h, p.wants[p.i], body).Ok?
      && (c.maxObjBytes > 0 ==> |body| <= c.maxObjBytes)
      && (c.maxPinBytes > 0 ==> p.pinBytes + |body| <= c.maxPinBytes)
      && (c.maxBytes > 0 ==> s.bytes + |body| <= c.maxBytes)
      && m' == m.(op := Pin(p.(phase := Checked(body))))
    case GiveUp =>
      p.phase == Scan && m' == m.(op := Pin(p.(phase := Failing)))
    case StoreOk =>
      && p.phase.Checked? && p.i < |p.wants|
      && m' == m.(s := s.(files := s.files[p.wants[p.i] := p.phase.body]), op := Pin(p.(phase := Stored(|p.phase.body|))))
    case StoreFail =>
      p.phase.Checked? && m' == m.(op := Pin(p.(phase := Failing)))
    case Register =>
      && p.phase.Stored? && p.i < |p.wants| && m.lock == Free
      && var k, n := p.wants[p.i], p.phase.size;
      && m' == m.(
        s := s.(objects := s.objects[k := n], verified := s.verified + {k}, bytes := s.bytes + n, pending := Claim(s.pending, k)),
        op := Pin(p.(i := p.i + 1, wrote := p.wrote + {k}, pinBytes := p.pinBytes + n, newBytes := p.newBytes + n, phase := Scan)))
    case Commit =>
      && p.phase == Scan && p.i == |p.wants| && m.lock == Free
      && m' == m.(s := s.(pins := s.pins[p.root := RecOf(p)]), op := Pin(p.(phase := Committing)), lock := WritingIndex)
    case CommitOk(recs) =>
      && p.phase == Committing && m.lock == WritingIndex && Written(recs, s.pins)
      && m' == m.(s := s.(index := Doc(recs)), op := Pin(p.(phase := Releasing)), lock := Free)
    case CommitFail =>
      && p.phase == Committing && m.lock == WritingIndex
      && m' == m.(op := Pin(p.(phase := Undoing)), lock := Free)
    case Uncommit =>
      && p.phase == Undoing && m.lock == Free
      && m' == m.(s := s.(pins := s.pins - {p.root}), op := Pin(p.(phase := Failing)))
    case Rollback =>
      && p.phase == Failing && m.lock == Free
      && m' == m.(s := Drop(s, p.wrote), op := Pin(p.(phase := Releasing)), lock := Removing(p.wrote, false))
    case Release =>
      && p.phase == Releasing && m.lock == Free
      && m' == m.(s := s.(pending := Unclaim(s.pending, p.wrote)), op := Idle)
    case _ => false
  }

  ghost predicate StoreStep(c: Config, m: Machine, m': Machine, step: Step) {
    var s := m.s;
    match step
    case StartPin(root, owner, body, created) =>
      && m.op == Idle && m.lock == Free && root !in s.pins && (c.maxPins > 0 ==> |s.pins| < c.maxPins)
      && Wants(c.h, root, body).Ok?
      && m' == m.(op := Pin(Pinning(root, owner, Wants(c.h, root, body).value, 0, {}, 0, 0, created, Scan)))
    case Unpin(root) =>
      && m.op == Idle && m.lock == Free && root in s.pins
      && var s1 := s.(pins := s.pins - {root});
      && m' == m.(s := Drop(s1, DeadOf(s1)), lock := Removing(DeadOf(s1), true))
    case Quarantine(bad) =>
      && m.lock == Free
      && var s1 := Drop(WithoutPinsOf(s, bad), {bad});
      && m' == m.(s := Drop(s1, DeadOf(s1)), lock := Removing(DeadOf(s1) + {bad}, true))
    case RemoveFile(k) =>
      && m.lock.Removing? && k in m.lock.dead
      && m' == m.(s := s.(files := s.files - {k}), lock := m.lock.(dead := m.lock.dead - {k}))
    case RemovalDone =>
      m.lock == Removing({}, false) && m' == m.(lock := Free)
    case IndexOk(recs) =>
      m.lock == Removing({}, true) && Written(recs, s.pins) && m' == m.(s := s.(index := Doc(recs)), lock := Free)
    case IndexFail =>
      m.lock == Removing({}, true) && m' == m.(lock := Free)
    case MarkVerified(k) =>
      m.lock == Free && m' == m.(s := s.(verified := s.verified + {k}))
    case Crash =>
      m.s.index != Unusable && m' == Boot(s.files, s.index)
    case _ => m.op.Pin? && PinStep(c, m, m', step)
  }

  // ----- every pin wants each object once -----

  ghost predicate NoRepeats(wants: seq<Key>) {
    forall i, j :: 0 <= i < j < |wants| ==> wants[i] != wants[j]
  }

  lemma {:induction false} DistinctNoRepeats(cs: seq<Addr>, i: nat, j: nat)
    requires i < j < |Distinct(cs)|
    ensures Distinct(cs)[i] != Distinct(cs)[j]
    decreases |cs|
  {
    var front := cs[..|cs| - 1];
    if j < |Distinct(front)| {
      DistinctNoRepeats(front, i, j);
    }
  }

  /** An object a pin of this root is to retain: the root, or a chunk its manifest names. */
  ghost predicate Names(h: Hash, root: Key, body: Bytes, k: Key) {
    || k == root
    || (root.Key? && root.kind == ManifestKind && k.Key? && k.kind == Chunk
        && var cs := VerifiedChunks(h, root.addr, body); cs.Ok? && k.addr in cs.value)
  }

  /** A pin wants its root first and then exactly the chunks of a manifest that verifies. */
  lemma WantsExact(h: Hash, root: Key, body: Bytes)
    ensures Wants(h, root, body).Ok? <==> root.Key? && (root.kind == ManifestKind ==> VerifiedChunks(h, root.addr, body).Ok?)
    ensures Wants(h, root, body).Ok? ==> forall k :: k in Wants(h, root, body).value <==> Names(h, root, body, k)
  {
    hide VerifiedChunks, Distinct;
    if root.Key? && root.kind == ManifestKind && VerifiedChunks(h, root.addr, body).Ok? {
      var cs := VerifiedChunks(h, root.addr, body).value;
      DistinctHolds(cs);
      var ds := Distinct(cs);
      forall k
        ensures k in ChunkKeys(ds) <==> k.Key? && k.kind == Chunk && k.addr in cs
      {
        if k.Key? && k.kind == Chunk && k.addr in ds {
          var i :| 0 <= i < |ds| && ds[i] == k.addr;
          assert ChunkKeys(ds)[i] == k;
        }
      }
    }
  }

  lemma DistinctHolds(cs: seq<Addr>)
    ensures forall c :: c in Distinct(cs) <==> c in cs
  {
  }

  /** The chunks come in the order in which the manifest first names them. */
  lemma WantsOrdered(h: Hash, root: Key, body: Bytes, i: nat, j: nat)
    requires Wants(h, root, body).Ok? && 0 < i < j < |Wants(h, root, body).value|
    ensures root.Key? && VerifiedChunks(h, root.addr, body).Ok?
    ensures var ws, cs := Wants(h, root, body).value, VerifiedChunks(h, root.addr, body).value;
      ws[i].Key? && ws[j].Key? && exists p | 0 <= p < |cs| :: cs[p] == ws[i].addr && ws[j].addr !in cs[..p + 1]
  {
    hide VerifiedChunks, Distinct;
    DistinctOrdered(VerifiedChunks(h, root.addr, body).value, i - 1, j - 1);
  }

  lemma {:induction false} DistinctOrdered(cs: seq<Addr>, i: nat, j: nat)
    requires i < j < |Distinct(cs)|
    ensures exists p | 0 <= p < |cs| :: cs[p] == Distinct(cs)[i] && Distinct(cs)[j] !in cs[..p + 1]
    decreases |cs|
  {
    var n := |cs| - 1;
    var front := cs[..n];
    if j < |Distinct(front)| {
      DistinctOrdered(front, i, j);
      var p :| 0 <= p < |front| && front[p] == Distinct(front)[i] && Distinct(front)[j] !in front[..p + 1];
      assert cs[p] == front[p] && cs[..p + 1] == front[..p + 1];
    } else {
      assert Distinct(front)[i] in front;
      var p :| 0 <= p < n && front[p] == Distinct(front)[i];
      assert cs[p] == front[p];
      assert forall t :: 0 <= t < p + 1 ==> cs[t] == front[t];
    }
  }

  lemma WantsNoRepeats(h: Hash, root: Key, body: Bytes)
    requires Wants(h, root, body).Ok?
    ensures NoRepeats(Wants(h, root, body).value)
  {
    hide VerifiedChunks, Distinct;
    var wants := Wants(h, root, body).value;
    forall i, j | 0 <= i < j < |wants|
      ensures wants[i] != wants[j]
    {
      if i > 0 {
        DistinctNoRepeats(VerifiedChunks(h, root.addr, body).value, i - 1, j - 1);
      }
    }
  }

  /** A run: a machine before and after each step. */
  ghost predicate IsRun(c: Config, ms: seq<Machine>, steps: seq<Step>) {
    |ms| == |steps| + 1 && forall i :: 0 <= i < |steps| ==> StoreStep(c, ms[i], ms[i + 1], steps[i])
  }

  // ----- accounting under every interleaving -----

  /** The byte counter is exact and within budget, and so is the object a pin is about to register. */
  ghost predicate Accounted(c: Config, m: Machine) {
    && m.s.bytes == Total(m.s.objects)
    && (c.maxBytes > 0 ==> m.s.bytes + Upcoming(m.op) <= c.maxBytes)
    && (m.op.Pin? ==>
      var p := m.op.p;
      && p.newBytes <= p.pinBytes
      && (c.maxPinBytes > 0 ==> p.newBytes + Upcoming(m.op) <= c.maxPinBytes)
      && (c.maxPinBytes > 0 && (p.phase.Checked? || p.phase.Stored?) ==> p.pinBytes + Upcoming(m.op) <= c.maxPinBytes)
      && (p.phase.Checked? || p.phase.Stored? ==> p.i < |p.wants| && p.wants[p.i] !in m.s.objects))
  }

  /** The size of an object that has passed the budget check but is not yet registered. */
  function Upcoming(op: Op): nat {
    if op.Pin? && op.p.phase.Checked? then |op.p.phase.body|
    else if op.Pin? && op.p.phase.Stored? then op.p.phase.size
    else 0
  }

  lemma DropAccounted(s: State, dead: set<Key>)
    requires s.bytes == Total(s.objects)
    ensures Drop(s, dead).bytes == Total(Drop(s, dead).objects) <= s.bytes
  {
    hide Total;
    TotalShrinks(s.objects, dead);
  }

  lemma PinStepAccounted(c: Config, m: Machine, m': Machine, step: Step)
    requires Accounted(c, m) && m.op.Pin? && PinStep(c, m, m', step)
    ensures Accounted(c, m')
  {
    hide Total, Written, Referenced, VerifyKey, Wants, RecOf;
    if step.Register? {
      TotalWith(m.s.objects, m.op.p.wants[m.op.p.i], m.op.p.phase.size);
    } else if step.Rollback? {
      DropAccounted(m.s, m.op.p.wrote);
    }
  }

  lemma StepAccounted(c: Config, m: Machine, m': Machine, step: Step)
    requires Accounted(c, m) && StoreStep(c, m, m', step) && !step.Crash?
    ensures Accounted(c, m')
  {
    hide Total, Written, Referenced, VerifyKey, Wants, RecOf, PinStep;
    match step
    case Unpin(root) =>
      var s1 := m.s.(pins := m.s.pins - {root});
      DropAccounted(s1, DeadOf(s1));
    case Quarantine(bad) =>
      var s0 := WithoutPinsOf(m.s, bad);
      DropAccounted(s0, {bad});
      var s1 := Drop(s0, {bad});
      DropAccounted(s1, DeadOf(s1));
    case StartPin(_, _, _, _) =>
    case RemoveFile(_) =>
    case RemovalDone =>
    case IndexOk(_) =>
    case IndexFail =>
    case MarkVerified(_) =>
    case _ =>
      PinStepAccounted(c, m, m', step);
  }
}
