/**
 Readers beside the store, and a disk that may rot. Whatever an interleaving of reads, pins, quarantines and restarts serves
 has been verified, unless its file rotted while a mark, a reader or a pin already relied on it.
 */
module PinReads {
  import opened Common
  import opened PinModel
  import opened PinRuns

  /** A read under way: whether it found the object marked as verified, its bytes once read, and whether reading failed. */
  datatype Reader = Reader(k: Key, trusting: bool, body: Option<Bytes>, missed: bool)

  /** The store, its readers, and the files that rotted in this life of the process while they were relied on. */
  datatype World = World(m: Machine, readers: map<nat, Reader>, rotted: set<(Key, Bytes)>)

  datatype Event =
    | Store(step: Step)
    | Begin(id: nat, k: Key) | Read(id: nat) | Miss(id: nat) | Serve(id: nat) | Refuse(id: nat)
    | Rot(k: Key, bytes: Bytes)

  /** A reader goes by its key without looking again: it found it marked, or has seen it verify. */
  ghost predicate Relies(c: Config, r: Reader) {
    r.trusting || (r.body.Some? && VerifyKey(c.h, r.k, r.body.value).Ok?)
  }

  ghost predicate JustStored(m: Machine, k: Key) {
    m.op.Pin? && m.op.p.phase.Stored? && m.op.p.i < |m.op.p.wants| && m.op.p.wants[m.op.p.i] == k
  }

  /** The file of a key is taken to be good: it is marked, some reader goes by it, or a pin has just stored it. */
  ghost predicate Relied(c: Config, w: World, k: Key) {
    || k in w.m.s.verified
    || (exists id :: id in w.readers && w.readers[id].k == k && Relies(c, w.readers[id]))
    || JustStored(w.m, k)
  }

  ghost predicate Next(c: Config, w: World, e: Event, w': World) {
    match e
    case Store(step) =>
      && !step.MarkVerified? && StoreStep(c, w.m, w'.m, step)
      && w'.readers == (if step.Crash? then map[] else w.readers)
      && w'.rotted == if step.Crash? then {} else w.rotted
    case Begin(id, k) =>
      && id !in w.readers && w.m.lock == Free && k in w.m.s.objects
      && w' == w.(readers := w.readers[id := Reader(k, k in w.m.s.verified, None, false)])
    case Read(id) =>
      && id in w.readers && w.readers[id].body.None? && !w.readers[id].missed && w.readers[id].k in w.m.s.files
      && w' == w.(readers := w.readers[id := w.readers[id].(body := Some(w.m.s.files[w.readers[id].k]))])
    case Miss(id) =>
      && id in w.readers && w.readers[id].body.None?
      && w' == w.(readers := w.readers[id := w.readers[id].(missed := true)])
    case Serve(id) =>
      && id in w.readers && w.readers[id].body.Some?
      && var r := w.readers[id];
      && (if r.trusting then w'.m == w.m
          else VerifyKey(c.h, r.k, r.body.value).Ok? && StoreStep(c, w.m, w'.m, MarkVerified(r.k)))
      && w'.readers == w.readers - {id} && w'.rotted == w.rotted
    case Refuse(id) =>
      && id in w.readers
      && var r := w.readers[id];
      && (r.missed || (r.body.Some? && !r.trusting && VerifyKey(c.h, r.k, r.body.value).Err?))
      && StoreStep(c, w.m, w'.m, Quarantine(r.k))
      && w'.readers == w.readers - {id} && w'.rotted == w.rotted
    case Rot(k, bytes) =>
      && k in w.m.s.files
      && w' == w.(m := w.m.(s := w.m.s.(files := w.m.s.files[k := bytes])),
                  rotted := if Relied(c, w, k) then w.rotted + {(k, bytes)} else w.rotted)
  }

  /** The file of a key, if there is one, verifies or is known to have rotted. */
  ghost predicate Good(c: Config, rotted: set<(Key, Bytes)>, m: Machine, k: Key) {
    k in m.s.files ==> VerifyKey(c.h, k, m.s.files[k]).Ok? || (k, m.s.files[k]) in rotted
  }

  /** Whatever is relied on is good, and a pin stores only bytes that verify. */
  ghost predicate Earned(c: Config, w: World) {
    && (forall k :: k in w.m.s.verified ==> Good(c, w.rotted, w.m, k))
    && (forall id :: id in w.readers && Relies(c, w.readers[id]) ==> Good(c, w.rotted, w.m, w.readers[id].k))
    && (forall id :: id in w.readers && w.readers[id].trusting && w.readers[id].body.Some? ==>
      || VerifyKey(c.h, w.readers[id].k, w.readers[id].body.value).Ok?
      || (w.readers[id].k, w.readers[id].body.value) in w.rotted)
    && (w.m.op.Pin? ==>
      var p := w.m.op.p;
      && (p.phase.Checked? ==> p.i < |p.wants| && VerifyKey(c.h, p.wants[p.i], p.phase.body).Ok?)
      && (p.phase.Stored? ==> p.i < |p.wants| && Good(c, w.rotted, w.m, p.wants[p.i])))
  }

  /** The store changes files only by storing what it checked and by removing, and marks only what it registers. */
  lemma FilesStep(c: Config, m: Machine, m': Machine, step: Step)
    requires StoreStep(c, m, m', step) && !step.Crash?
    ensures if step.StoreOk? then
              && m.op.Pin? && m.op.p.phase.Checked? && m.op.p.i < |m.op.p.wants|
              && m'.s.files == m.s.files[m.op.p.wants[m.op.p.i] := m.op.p.phase.body]
            else if step.RemoveFile? then m'.s.files == m.s.files - {step.k}
            else m'.s.files == m.s.files
    ensures if step.Register? then
              && m.op.Pin? && m.op.p.phase.Stored? && m.op.p.i < |m.op.p.wants|
              && m'.s.verified == m.s.verified + {m.op.p.wants[m.op.p.i]}
            else if step.MarkVerified? then m'.s.verified == m.s.verified + {step.k}
            else m'.s.verified <= m.s.verified
  {
    hide VerifyKey, Wants, Written, Referenced, Boot;
  }

  /** Short of a crash or rot a good file stays good. */
  lemma GoodStays(c: Config, w: World, m': Machine, step: Step, k: Key)
    requires Earned(c, w) && StoreStep(c, w.m, m', step) && !step.Crash? && Good(c, w.rotted, w.m, k)
    ensures Good(c, w.rotted, m', k)
  {
    hide StoreStep, VerifyKey, Relies;
    FilesStep(c, w.m, m', step);
  }

  lemma MarksEarned(c: Config, w: World, m': Machine, step: Step, k: Key)
    requires Earned(c, w) && StoreStep(c, w.m, m', step) && !step.Crash? && k in m'.s.verified
    requires step.MarkVerified? ==> Good(c, w.rotted, w.m, step.k)
    ensures Good(c, w.rotted, m', k)
  {
    hide StoreStep, VerifyKey, Relies;
    FilesStep(c, w.m, m', step);
    GoodStays(c, w, m', step, k);
  }

  lemma PinEarned(c: Config, w: World, m': Machine, step: Step)
    requires Earned(c, w) && StoreStep(c, w.m, m', step) && !step.Crash? && m'.op.Pin?
    ensures var p := m'.op.p;
      && (p.phase.Checked? ==> p.i < |p.wants| && VerifyKey(c.h, p.wants[p.i], p.phase.body).Ok?)
      && (p.phase.Stored? ==> p.i < |p.wants| && Good(c, w.rotted, m', p.wants[p.i]))
  {
    hide VerifyKey, Wants, Written, Referenced, Relies, Boot;
  }

  /** A step of the store with some readers left. */
  lemma StoreEarned(c: Config, w: World, w': World, step: Step)
    requires Earned(c, w) && StoreStep(c, w.m, w'.m, step) && !step.Crash? && w'.rotted == w.rotted
    requires step.MarkVerified? ==> Good(c, w.rotted, w.m, step.k)
    requires forall id :: id in w'.readers ==> id in w.readers && w'.readers[id] == w.readers[id]
    ensures Earned(c, w')
  {
    hide StoreStep, VerifyKey, Good;
    forall k | k in w'.m.s.verified
      ensures Good(c, w'.rotted, w'.m, k)
    {
      MarksEarned(c, w, w'.m, step, k);
    }
    forall id | id in w'.readers && Relies(c, w'.readers[id])
      ensures Good(c, w'.rotted, w'.m, w'.readers[id].k)
    {
      GoodStays(c, w, w'.m, step, w.readers[id].k);
    }
    if w'.m.op.Pin? {
      PinEarned(c, w, w'.m, step);
    }
  }

  lemma CrashEarned(c: Config, w: World, w': World)
    requires StoreStep(c, w.m, w'.m, Crash) && w'.readers == map[]
    ensures Earned(c, w')
  {
    hide LoadedPins, LoadedKeys, VerifyKey;
  }

  lemma RotEarned(c: Config, w: World, w': World, k: Key, bytes: Bytes)
    requires Earned(c, w) && Next(c, w, Rot(k, bytes), w')
    ensures Earned(c, w')
  {
    hide StoreStep, VerifyKey;
    assert forall x :: x != k && Good(c, w.rotted, w.m, x) ==> Good(c, w'.rotted, w'.m, x);
    assert Relied(c, w, k) ==> Good(c, w'.rotted, w'.m, k);
  }

  lemma NextEarned(c: Config, w: World, e: Event, w': World)
    requires Earned(c, w) && Next(c, w, e, w')
    ensures Earned(c, w')
  {
    hide StoreStep, VerifyKey, Relied;
    match e
    case Store(step) =>
      if step.Crash? {
        CrashEarned(c, w, w');
      } else {
        StoreEarned(c, w, w', step);
      }
    case Begin(id, k) =>
    case Read(id) =>
    case Miss(id) =>
    case Serve(id) =>
      var r := w.readers[id];
      if !r.trusting {
        StoreEarned(c, w, w', MarkVerified(r.k));
      }
    case Refuse(id) =>
      StoreEarned(c, w, w', Quarantine(w.readers[id].k));
    case Rot(k, bytes) =>
      RotEarned(c, w, w', k, bytes);
  }

  ghost predicate IsHistory(c: Config, ws: seq<World>, es: seq<Event>) {
    |ws| == |es| + 1 && forall i :: 0 <= i < |es| ==> Next(c, ws[i], es[i], ws[i + 1])
  }

  ghost function Restarted(files: map<Key, Bytes>, index: Index): World {
    World(Boot(files, index), map[], {})
  }

  lemma {:induction false} HistoryEarned(c: Config, ws: seq<World>, es: seq<Event>, n: nat)
    requires IsHistory(c, ws, es) && n < |ws| && Earned(c, ws[0])
    ensures Earned(c, ws[n])
  {
    hide Next, Earned;
    if n > 0 {
      HistoryEarned(c, ws, es, n - 1);
      NextEarned(c, ws[n - 1], es[n - 1], ws[n]);
    }
  }

  lemma BootEarned(c: Config, files: map<Key, Bytes>, index: Index)
    ensures Earned(c, Restarted(files, index))
  {
    hide LoadedPins, LoadedKeys, VerifyKey;
  }

  /** Between two moments of a history the process did not restart. */
  ghost predicate SameLife(es: seq<Event>, i: nat, n: nat) {
    forall j :: i <= j < n && j < |es| ==> !(es[j].Store? && es[j].step.Crash?)
  }

  /** What is known to have rotted did so in this life, at a moment when it was relied on. */
  lemma {:induction false} RottedWhen(c: Config, ws: seq<World>, es: seq<Event>, n: nat, k: Key, b: Bytes)
    requires IsHistory(c, ws, es) && n < |ws| && ws[0].rotted == {} && (k, b) in ws[n].rotted
    ensures exists i | 0 <= i < n :: es[i] == Rot(k, b) && Relied(c, ws[i], k) && SameLife(es, i, n)
    decreases n
  {
    hide StoreStep, VerifyKey, Relied;
    assert Next(c, ws[n - 1], es[n - 1], ws[n]);
    if (k, b) in ws[n - 1].rotted {
      RottedWhen(c, ws, es, n - 1, k, b);
      var i :| 0 <= i < n - 1 && es[i] == Rot(k, b) && Relied(c, ws[i], k) && SameLife(es, i, n - 1);
      assert SameLife(es, i, n);
    } else {
      assert SameLife(es, n - 1, n);
    }
  }

  /**
   In every history from a restart of any disk, what a read serves is genuine, unless the read trusted a mark and its file
   rotted in this life of the process at a moment when it was already relied on. Rot at any other time is caught.
   */
  lemma ServedVerifies(c: Config, files: map<Key, Bytes>, index: Index, ws: seq<World>, es: seq<Event>, n: nat)
    requires IsHistory(c, ws, es) && ws[0] == Restarted(files, index)
    requires n < |es| && es[n].Serve?
    ensures es[n].id in ws[n].readers && ws[n].readers[es[n].id].body.Some?
    ensures var r := ws[n].readers[es[n].id];
      || GenuineUnder(c.h, r.k, r.body.value)
      || (r.trusting && exists i | 0 <= i < n ::
            es[i] == Rot(r.k, r.body.value) && Relied(c, ws[i], r.k) && SameLife(es, i, n))
  {
    hide StoreStep, VerifyKey, GenuineUnder, Good, Boot, Relied, SameLife;
    BootEarned(c, files, index);
    HistoryEarned(c, ws, es, n);
    assert Next(c, ws[n], es[n], ws[n + 1]);
    var r := ws[n].readers[es[n].id];
    VerifyKeyExact(c.h, r.k, r.body.value);
    if VerifyKey(c.h, r.k, r.body.value).Err? {
      RottedWhen(c, ws, es, n, r.k, r.body.value);
    }
  }
}
