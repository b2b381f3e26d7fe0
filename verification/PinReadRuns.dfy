/** Histories of the store with its readers: a file lost to a late quarantine, and rotten bytes that are served. */
module PinReadRuns {
  import opened Common
  import opened Manifest
  import opened Sums
  import opened PinModel
  import opened PinRuns
  import opened PinBroken
  import opened PinReads

  ghost predicate History(c: Config, ws: seq<World>, es: seq<Event>, w: World, w': World) {
    IsHistory(c, ws, es) && ws[0] == w && ws[|es|] == w'
  }

  ghost predicate Leads(c: Config, w: World, w': World) {
    exists ws, es :: History(c, ws, es, w, w')
  }

  lemma Stays(c: Config, w: World)
    ensures Leads(c, w, w)
  {
    assert History(c, [w], [], w, w);
  }

  lemma Goes(c: Config, w: World, w': World, e: Event, w'': World)
    requires Leads(c, w, w') && Next(c, w', e, w'')
    ensures Leads(c, w, w'')
  {
    hide Next;
    var ws, es :| History(c, ws, es, w, w');
    Appended(c, ws, es, e, w'');
    assert History(c, ws + [w''], es + [e], w, w'');
  }

  lemma Appended(c: Config, ws: seq<World>, es: seq<Event>, e: Event, w: World)
    requires IsHistory(c, ws, es) && Next(c, ws[|es|], e, w)
    ensures IsHistory(c, ws + [w], es + [e])
  {
    hide Next;
    var ws', es' := ws + [w], es + [e];
    forall i | 0 <= i < |es'|
      ensures Next(c, ws'[i], es'[i], ws'[i + 1])
    {
      if i < |es| {
        assert Next(c, ws[i], es[i], ws[i + 1]);
      }
    }
  }

  /** Steps of the store alone, with the readers standing by. */
  lemma Lifted(c: Config, w: World, w': World, m: Machine)
    requires Leads(c, w, w') && Reaches(c, w'.m, m)
    ensures Leads(c, w, w'.(m := m))
  {
    hide Leads;
    var ms, steps :| Path(c, ms, steps, w'.m, m);
    LiftedPrefix(c, w, w', ms, steps, |steps|);
  }

  lemma {:induction false} LiftedPrefix(c: Config, w: World, w': World, ms: seq<Machine>, steps: seq<Step>, n: nat)
    requires Leads(c, w, w') && n <= |steps| && |ms| == |steps| + 1 && Path(c, ms, steps, w'.m, ms[|steps|])
    ensures Leads(c, w, w'.(m := ms[n]))
  {
    hide Leads, StoreStep;
    if n == 0 {
      assert w'.(m := ms[0]) == w';
    } else {
      LiftedPrefix(c, w, w', ms, steps, n - 1);
      assert StoreStep(c, ms[n - 1], ms[n], steps[n - 1]);
      Goes(c, w, w'.(m := ms[n - 1]), Store(steps[n - 1]), w'.(m := ms[n]));
    }
  }

  // ----- a stored file, removed by a late quarantine -----

  /** The store of one chunk after the chunk is unpinned and the index write has failed. */
  ghost function Unpinned(y: Key, b: Bytes): State {
    var s := AloneState(y, b);
    s.(pins := map[], objects := map[], files := map[], bytes := s.bytes - (Total(s.objects) - Total(s.objects - {y})))
  }

  lemma AloneUnpinned(c: Config, y: Key, b: Bytes)
    ensures Reaches(c, Machine(AloneState(y, b), Idle, Free), Machine(Unpinned(y, b), Idle, Free))
  {
    hide Reaches, Total, Written;
    var s := AloneState(y, b);
    var m := Machine(s, Idle, Free);
    var s1 := s.(pins := s.pins - {y});
    assert s1.pins == map[] && Referenced(map[]) == {} && DeadOf(s1) == {y};
    assert s.objects - {y} == map[] && s.files - {y} == map[] && s.verified - {y} * s.objects.Keys == {};
    var q := m.(s := Drop(s1, {y}), lock := Removing({y}, true));
    Here(c, m);
    Then(c, m, m, q, PinRuns.Unpin(y));
    IndexFails(c, m, q);
  }

  /** A machine about to register a file that a quarantine has removed. */
  lemma QuarantinedStored(c: Config, s: State, y: Key, b: Bytes) returns (m: Machine)
    requires s.pins == map[] && s.objects == map[]
    ensures var m1 := Machine(s.(files := s.files[y := b]), Chunked(y, 0, {}, 0, Stored(|b|)), Free);
      && StoreStep(c, m1, m, Quarantine(y)) && m.lock.Removing? && m.lock.thenIndex && y in m.lock.dead
      && m.op == m1.op && m.s.pins == map[]
  {
    hide Total;
    var m1 := Machine(s.(files := s.files[y := b]), Chunked(y, 0, {}, 0, Stored(|b|)), Free);
    var s1 := Drop(WithoutPinsOf(m1.s, y), {y});
    m := m1.(s := Drop(s1, DeadOf(s1)), lock := Removing(DeadOf(s1) + {y}, true));
    assert WithoutPinsOf(m1.s, y).pins == map[];
  }

  /**
   A reader finds a chunk held. The chunk is unpinned and removed, and the read fails. The chunk is pinned again and its
   file stored, and only then does the reader quarantine it: the new pin is held, its object counted, and there is no file.
   */
  lemma StoredFileLost(c: Config, y: Key, b: Bytes)
    requires c == Config(c.h, 0, 0, 0, 0) && y == Key(Chunk, HashBytes(c.h, b))
    ensures exists w ::
      && Leads(c, World(AloneBoot(y, b), map[], {}), w) && w.m.op == Idle && w.m.lock == Free
      && y in w.m.s.pins && y in w.m.s.pins[y].objects && y in w.m.s.objects && y !in w.m.s.files
  {
    hide Leads, Reaches, AloneBoot, AloneState, Unpinned, HashBytes, StoreStep;
    var w0 := World(AloneBoot(y, b), map[], {});
    var w1 := LateReader(c, y, b);
    UnpinnedEmpty(y, b);
    var s := Unpinned(y, b);
    ChunkStored(c, s, y, b);
    var m2 := Machine(s.(files := s.files[y := b]), Chunked(y, 0, {}, 0, Stored(|b|)), Free);
    Lifted(c, w0, w1, m2);
    var w2 := w1.(m := m2);
    var q := QuarantinedStored(c, s, y, b);
    var w3 := World(q, w2.readers - {0}, w2.rotted);
    Goes(c, w0, w2, Refuse(0), w3);
    Here(c, q);
    IndexFails(c, q, q);
    var m4 := q.(s := q.s.(files := q.s.files - q.lock.dead), lock := Free);
    Lifted(c, w0, w3, m4);
    ChunkCommitted(c, m4.s, y, |b|);
    var m5 :| Reaches(c, m4, m5) && m5.op == Idle && m5.lock == Free
              && y in m5.s.pins && y in m5.s.pins[y].objects && y in m5.s.objects && m5.s.files == m4.s.files;
    Lifted(c, w0, w3.(m := m4), m5);
  }

  lemma UnpinnedEmpty(y: Key, b: Bytes)
    ensures Unpinned(y, b).pins == map[] && Unpinned(y, b).objects == map[]
  {
  }

  /** The reader has failed to read a file that is gone. */
  lemma LateReader(c: Config, y: Key, b: Bytes) returns (w: World)
    ensures Leads(c, World(AloneBoot(y, b), map[], {}), w)
    ensures w.m == Machine(Unpinned(y, b), Idle, Free) && 0 in w.readers && w.readers[0] == Reader(y, false, None, true)
  {
    hide Leads, Reaches, AloneBoot, Total;
    var w0 := World(AloneBoot(y, b), map[], {});
    Stays(c, w0);
    AloneBooted(c, y, b);
    var w1 := w0.(m := Machine(AloneState(y, b), Idle, Free));
    Lifted(c, w0, w0, w1.m);
    var w2 := w1.(readers := map[0 := Reader(y, false, None, false)]);
    Goes(c, w0, w1, Begin(0, y), w2);
    AloneUnpinned(c, y, b);
    var w3 := w2.(m := Machine(Unpinned(y, b), Idle, Free));
    Lifted(c, w0, w2, w3.m);
    w := w3.(readers := map[0 := Reader(y, false, None, true)]);
    Goes(c, w0, w3, Miss(0), w);
  }

  // ----- rotten bytes, served -----

  /** A chunk is read, verified and marked; its file rots; the next read trusts the mark and has rotten bytes in hand. */
  lemma RottenRead(c: Config, y: Key, b: Bytes, bad: Bytes) returns (w: World)
    requires y == Key(Chunk, HashBytes(c.h, b)) && HashBytes(c.h, bad) != HashBytes(c.h, b)
    ensures Leads(c, World(AloneBoot(y, b), map[], {}), w)
    ensures 1 in w.readers && w.readers[1] == Reader(y, true, Some(bad), false)
  {
    hide Leads, Reaches, AloneBoot, Total, HashBytes;
    var w0 := World(AloneBoot(y, b), map[], {});
    Stays(c, w0);
    AloneBooted(c, y, b);
    var m1 := Machine(AloneState(y, b), Idle, Free);
    var w1 := World(m1, map[], {});
    Lifted(c, w0, w0, m1);
    var w2 := w1.(readers := map[0 := Reader(y, false, None, false)]);
    Goes(c, w0, w1, Begin(0, y), w2);
    var w3 := w1.(readers := map[0 := Reader(y, false, Some(b), false)]);
    Goes(c, w0, w2, Read(0), w3);
    var m2 := m1.(s := m1.s.(verified := m1.s.verified + {y}));
    assert w3.readers - {0} == map[];
    var w4 := World(m2, map[], {});
    Goes(c, w0, w3, Serve(0), w4);
    w := Rotted(c, w0, w4, y, bad);
  }

  lemma Rotted(c: Config, w0: World, w4: World, y: Key, bad: Bytes) returns (w: World)
    requires Leads(c, w0, w4) && w4.m.lock == Free && w4.readers == map[]
    requires y in w4.m.s.objects && y in w4.m.s.files && y in w4.m.s.verified
    ensures Leads(c, w0, w) && 1 in w.readers && w.readers[1] == Reader(y, true, Some(bad), false)
  {
    hide Leads, StoreStep;
    var m3 := w4.m.(s := w4.m.s.(files := w4.m.s.files[y := bad]));
    var w5 := w4.(m := m3, rotted := w4.rotted + {(y, bad)});
    Goes(c, w0, w4, Rot(y, bad), w5);
    var w6 := w5.(readers := map[1 := Reader(y, true, None, false)]);
    Goes(c, w0, w5, Begin(1, y), w6);
    w := w6.(readers := map[1 := Reader(y, true, Some(bad), false)]);
    Goes(c, w0, w6, Read(1), w);
  }

  /** The last event of a history serves these bytes under this key. */
  ghost predicate ServesLast(c: Config, ws: seq<World>, es: seq<Event>, k: Key, body: Bytes) {
    && IsHistory(c, ws, es) && |es| > 0 && es[|es| - 1].Serve?
    && var w, id := ws[|es| - 1], es[|es| - 1].id;
    id in w.readers && w.readers[id].k == k && w.readers[id].body == Some(body)
  }

  /** A history from a restart in which a read serves bytes that do not verify. */
  lemma RottenServed(c: Config, y: Key, b: Bytes, bad: Bytes)
    requires y == Key(Chunk, HashBytes(c.h, b)) && HashBytes(c.h, bad) != HashBytes(c.h, b)
    ensures exists ws, es :: IsHistory(c, ws, es) && ws[0] == World(AloneBoot(y, b), map[], {}) && ServesLast(c, ws, es, y, bad)
    ensures VerifyKey(c.h, y, bad).Err?
  {
    hide AloneBoot, HashBytes, StoreStep;
    var w := RottenRead(c, y, b, bad);
    var w0 := World(AloneBoot(y, b), map[], {});
    var ws, es :| History(c, ws, es, w0, w);
    var w' := w.(readers := w.readers - {1});
    Appended(c, ws, es, Serve(1), w');
    assert ServesLast(c, ws + [w'], es + [Serve(1)], y, bad);
  }
}
