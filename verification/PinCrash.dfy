/**
 What a restart makes of any point of any run, with quarantines anywhere: it is closed and exact, it keeps exactly the
 committed pins whose files are all there, and it brings back nothing the index did not list.
 */
module PinCrash {
  import opened Common
  import opened Sums
  import opened PinModel
  import opened PinRuns
  import opened PinClosure
  import opened PinSafety

  /** What every step of every run keeps: the index can be used, names each root once and lists every committed pin. */
  ghost predicate Sturdy(m: Machine) {
    && m.s.index != Unusable && UniqueRoots(Recs(m.s.index))
    && Rooted(m.s.pins) && AllListed(m.s.index, Committed(m))
    && (m.lock == WritingIndex <==> m.op.Pin? && m.op.p.phase == Committing)
    && (m.op.Pin? ==> |m.op.p.wants| > 0 && (m.op.p.phase != Releasing ==> m.op.p.root !in Committed(m)))
  }

  lemma BootSturdy(files: map<Key, Bytes>, index: Index)
    requires index != Unusable && UniqueRoots(Recs(index))
    ensures Sturdy(Boot(files, index))
  {
    hide LoadedPins, LoadedKeys, UniqueRoots, Rooted, AllListed, Referenced, Total;
    BootPins(files, index);
  }

  lemma PinStepSturdy(c: Config, m: Machine, m': Machine, step: Step)
    requires Sturdy(m) && m.op.Pin? && PinStep(c, m, m', step) && !WritesIndex(step)
    ensures Sturdy(m')
  {
    hide Total, Written, Referenced, VerifyKey, Wants, UniqueRoots, Listed, AllListed, Recs, Claim, Unclaim;
    if step.Uncommit? {
      assert Committed(m') == Committed(m);
    } else if step.Commit? {
      assert Committed(m') == Committed(m);
    }
  }

  lemma IndexSturdy(c: Config, m: Machine, m': Machine, step: Step)
    requires Sturdy(m) && StoreStep(c, m, m', step) && WritesIndex(step)
    ensures Sturdy(m')
  {
    hide Total, Written, Referenced, VerifyKey, Wants, UniqueRoots, Listed, AllListed, Rooted;
    WrittenLists(step.recs, m.s.pins);
    FewerPins(Doc(step.recs), m.s.pins, Committed(m'));
  }

  lemma QuarantineSturdy(c: Config, m: Machine, m': Machine, bad: Key)
    requires Sturdy(m) && StoreStep(c, m, m', Quarantine(bad))
    ensures Sturdy(m')
  {
    hide StoreStep, Total, Referenced, UniqueRoots, Listed, AllListed, Rooted, Survives, StillNamedBy;
    QuarantineFree(c, m, m', bad);
    QuarantineLeaves(c, m, m', bad);
    FewerRooted(m.s.pins, m'.s.pins);
    FewerRooted(m.s.pins, Committed(m));
    FewerPins(m.s.index, Committed(m), Committed(m'));
  }

  lemma UnpinSturdy(c: Config, m: Machine, m': Machine, root: Key)
    requires Sturdy(m) && StoreStep(c, m, m', Unpin(root))
    ensures Sturdy(m')
  {
    hide Total, Referenced, UniqueRoots, Listed, AllListed, Rooted, Written;
    FewerPins(m.s.index, m.s.pins, m.s.pins - {root});
  }

  lemma StepSturdy(c: Config, m: Machine, m': Machine, step: Step)
    requires Sturdy(m) && StoreStep(c, m, m', step)
    ensures Sturdy(m')
  {
    hide Total, Written, Referenced, VerifyKey, UniqueRoots, Listed, AllListed, Rooted, Boot, PinStep, Recs;
    if WritesIndex(step) {
      IndexSturdy(c, m, m', step);
    } else {
      match step
      case Quarantine(bad) => QuarantineSturdy(c, m, m', bad);
      case Unpin(root) => UnpinSturdy(c, m, m', root);
      case Crash => BootSturdy(m.s.files, m.s.index);
      case StartPin(_, _, _, _) => assert Committed(m') == Committed(m);
      case RemoveFile(_) => assert Committed(m') == Committed(m);
      case RemovalDone => assert Committed(m') == Committed(m);
      case IndexFail => assert Committed(m') == Committed(m);
      case MarkVerified(_) => assert Committed(m') == Committed(m);
      case _ => PinStepSturdy(c, m, m', step);
    }
  }

  lemma {:induction false} RunSturdy(c: Config, ms: seq<Machine>, steps: seq<Step>, n: nat)
    requires IsRun(c, ms, steps) && Sturdy(ms[0]) && n < |ms|
    ensures Sturdy(ms[n])
  {
    hide Sturdy, StoreStep;
    if n > 0 {
      RunSturdy(c, ms, steps, n - 1);
      StepSturdy(c, ms[n - 1], ms[n], steps[n - 1]);
    }
  }

  /** All objects a record names have their files. */
  ghost predicate OnDisk(rec: Rec, files: map<Key, Bytes>) {
    forall o :: o in rec.objects ==> o in files
  }

  /** A restart keeps a record that the index lists exactly when all its files are there. */
  lemma ListedKept(index: Index, files: map<Key, Bytes>, rec: Rec)
    requires UniqueRoots(Recs(index)) && Listed(index, rec) && |rec.objects| > 0
    ensures var pins := LoadedPins(Recs(index), files); (rec.root in pins && pins[rec.root] == rec) <==> OnDisk(rec, files)
  {
    hide LoadedPins, LoadedKeys, UniqueRoots;
    var recs := Recs(index);
    var i :| 0 <= i < |recs| && recs[i] == ToDisk(rec);
    FromToDisk(rec);
    if OnDisk(rec, files) {
      NotSuperseded(recs, files, i);
      LoadKeeps(recs, files, i);
    }
    if rec.root in LoadedPins(recs, files) && LoadedPins(recs, files)[rec.root] == rec {
      LoadedPinsHold(recs, files, rec.root);
    }
  }

  lemma NotSuperseded(recs: seq<DiskRec>, files: map<Key, Bytes>, i: nat)
    requires i < |recs| && UniqueRoots(recs) && recs[i].root.Some?
    ensures !Superseded(recs, files, i)
  {
    hide Complete;
  }

  /** The store a restart builds here: closed, exact, and with every file its pins name. */
  ghost predicate Restarts(m: Machine) {
    var boot := Boot(m.s.files, m.s.index).s;
    && (forall k, o :: k in boot.pins && o in boot.pins[k].objects ==> o in boot.objects && o in boot.files)
    && boot.objects.Keys == Referenced(boot.pins)
    && boot.bytes == Total(boot.objects)
  }

  lemma SturdyRestarts(m: Machine)
    requires Sturdy(m)
    ensures Restarts(m)
  {
    hide LoadedPins, LoadedKeys, UniqueRoots, Total, Committed, Rooted, AllListed;
    BootPins(m.s.files, m.s.index);
    UniqueRootsReferenced(Recs(m.s.index), m.s.files);
    var boot := Boot(m.s.files, m.s.index).s;
    assert boot.objects.Keys == LoadedKeys(Recs(m.s.index), m.s.files);
    forall k, o | k in boot.pins && o in boot.pins[k].objects
      ensures o in Referenced(boot.pins)
    {
      ReferencedBy(boot.pins, k, o);
    }
  }

  lemma CommittedKept(m: Machine, k: Key)
    requires Sturdy(m) && k in Committed(m)
    ensures var pins := Boot(m.s.files, m.s.index).s.pins;
      (k in pins && pins[k] == Committed(m)[k]) <==> OnDisk(Committed(m)[k], m.s.files)
  {
    hide LoadedPins, LoadedKeys, Referenced, Total, UniqueRoots;
    ListedKept(m.s.index, m.s.files, Committed(m)[k]);
  }

  /**
   Crash safety. Start from a restart of any disk whose index names each root once, run any number of operations,
   quarantines and crashes in any interleaving, and stop at any point, also between two disk effects of one operation. The
   next restart is closed and exact, and it keeps a committed pin as it was exactly when all the files it names are there.
   */
  lemma CrashSafety(c: Config, files: map<Key, Bytes>, index: Index, ms: seq<Machine>, steps: seq<Step>)
    requires index != Unusable && UniqueRoots(Recs(index)) && IsRun(c, ms, steps) && ms[0] == Boot(files, index)
    ensures var m := ms[|steps|];
      var pins := Boot(m.s.files, m.s.index).s.pins;
      && Restarts(m)
      && forall k :: k in Committed(m) ==>
        ((k in pins && pins[k] == Committed(m)[k]) <==> OnDisk(Committed(m)[k], m.s.files))
  {
    hide Sturdy, StoreStep, Restarts, Boot, Committed, OnDisk;
    BootSturdy(files, index);
    RunSturdy(c, ms, steps, |steps|);
    var m := ms[|steps|];
    SturdyRestarts(m);
    forall k | k in Committed(m)
      ensures var pins := Boot(m.s.files, m.s.index).s.pins;
        (k in pins && pins[k] == Committed(m)[k]) <==> OnDisk(Committed(m)[k], m.s.files)
    {
      CommittedKept(m, k);
    }
  }

  /** In particular a restart keeps every committed pin of a closed store. */
  lemma ClosedKept(m: Machine, k: Key)
    requires Closed(m) && Sturdy(m) && k in Committed(m)
    ensures var pins := Boot(m.s.files, m.s.index).s.pins; k in pins && pins[k] == Committed(m)[k]
  {
    hide Sturdy, Boot, Committed, Referenced, UniqueRoots, AllListed, Rooted;
    CommittedKept(m, k);
    forall o | o in Committed(m)[k].objects
      ensures o in m.s.files
    {
      ReferencedBy(Committed(m), k, o);
    }
  }

  /** And so of every run of fine steps. */
  lemma FineRunKept(c: Config, files: map<Key, Bytes>, index: Index, ms: seq<Machine>, steps: seq<Step>, k: Key)
    requires index != Unusable && UniqueRoots(Recs(index)) && IsRun(c, ms, steps) && ms[0] == Boot(files, index)
    requires AllFine(ms, steps) && k in Committed(ms[|steps|])
    ensures var m := ms[|steps|];
      var pins := Boot(m.s.files, m.s.index).s.pins; k in pins && pins[k] == Committed(m)[k]
  {
    hide Sturdy, StoreStep, Boot, Committed, Closed, Tracked, Fine;
    BootSturdy(files, index);
    RunSturdy(c, ms, steps, |steps|);
    BootClosed(files, index);
    RunClosed(c, ms, steps, |steps|);
    ClosedKept(ms[|steps|], k);
  }

  lemma HarmlessRunKept(c: Config, files: map<Key, Bytes>, index: Index, ms: seq<Machine>, steps: seq<Step>, k: Key)
    requires index != Unusable && UniqueRoots(Recs(index)) && IsRun(c, ms, steps) && ms[0] == Boot(files, index)
    requires AllHarmless(ms, steps) && k in Committed(ms[|steps|])
    ensures var m := ms[|steps|];
      var pins := Boot(m.s.files, m.s.index).s.pins; k in pins && pins[k] == Committed(m)[k]
  {
    hide StoreStep, Boot, Committed, Safe, Harmless, Fine;
    BootSafe(files, index);
    HarmlessFine(c, ms, steps);
    FineRunKept(c, files, index, ms, steps, k);
  }

  // ----- what a restart brings back -----

  predicate WritesIndex(step: Step) {
    step.IndexOk? || step.CommitOk?
  }

  lemma IndexStep(c: Config, m: Machine, m': Machine, step: Step)
    requires StoreStep(c, m, m', step)
    ensures if WritesIndex(step) then m'.s.index.Doc? && Written(m'.s.index.recs, m'.s.pins) else m'.s.index == m.s.index
  {
    hide Total, Referenced, VerifyKey, Wants, Written, LoadedPins, LoadedKeys;
  }

  lemma {:induction false} IndexKept(c: Config, ms: seq<Machine>, steps: seq<Step>, a: nat, n: nat)
    requires IsRun(c, ms, steps) && a <= n < |ms| && forall i :: a <= i < n ==> !WritesIndex(steps[i])
    ensures ms[n].s.index == ms[a].s.index
    decreases n
  {
    hide StoreStep, WritesIndex;
    if a < n {
      IndexKept(c, ms, steps, a, n - 1);
      IndexStep(c, ms[n - 1], ms[n], steps[n - 1]);
    }
  }

  /** A document that lists exactly some pins brings back none but these. */
  lemma WrittenLoads(recs: seq<DiskRec>, files: map<Key, Bytes>, pins: map<Key, Rec>, k: Key)
    requires Written(recs, pins) && k in LoadedPins(recs, files)
    ensures k in pins && LoadedPins(recs, files)[k] == pins[k]
  {
    hide LoadedPins, LoadedKeys, UniqueRoots;
    LoadedPinsHold(recs, files, k);
    var i :| Source(recs, files, LoadedPins(recs, files)[k], i);
    FromToDisk(pins[k]);
  }

  ghost predicate Holds(m: Machine, k: Key, rec: Rec) {
    k in m.s.pins && m.s.pins[k] == rec
  }

  /** A step that takes a pin away: it is unpinned, an object it names is quarantined, its commit is undone, or a file of it
      is found missing at a restart. */
  ghost predicate Removes(m: Machine, step: Step, k: Key, rec: Rec) {
    || step == Unpin(k)
    || (step.Quarantine? && step.bad in rec.objects)
    || (step.Uncommit? && m.op.Pin? && m.op.p.root == k)
    || (step.Crash? && !OnDisk(rec, m.s.files))
  }

  lemma PinRemoval(c: Config, m: Machine, m': Machine, step: Step, k: Key, rec: Rec)
    requires Sturdy(m) && m.op.Pin? && PinStep(c, m, m', step) && Holds(m, k, rec)
    ensures Holds(m', k, rec) || Removes(m, step, k, rec)
  {
    hide Written, Referenced, VerifyKey, UniqueRoots, AllListed, OnDisk, Recs, Rooted, Claim, Unclaim;
  }

  lemma RemovalStep(c: Config, m: Machine, m': Machine, step: Step, k: Key, rec: Rec)
    requires Sturdy(m) && StoreStep(c, m, m', step) && Holds(m, k, rec) && Listed(m.s.index, rec)
    ensures Holds(m', k, rec) || Removes(m, step, k, rec)
  {
    hide Total, Written, Referenced, VerifyKey, Wants, Listed, Boot, OnDisk, PinStep, Sturdy;
    if step.Crash? {
      CrashRemoval(c, m, m', k, rec);
    } else if m.op.Pin? && PinStep(c, m, m', step) {
      PinRemoval(c, m, m', step, k, rec);
    }
  }

  lemma CrashRemoval(c: Config, m: Machine, m': Machine, k: Key, rec: Rec)
    requires Sturdy(m) && StoreStep(c, m, m', Crash) && Holds(m, k, rec) && Listed(m.s.index, rec)
    ensures Holds(m', k, rec) <==> OnDisk(rec, m.s.files)
  {
    hide LoadedPins, LoadedKeys, Total, Referenced, UniqueRoots, Listed, AllListed, OnDisk;
    ListedKept(m.s.index, m.s.files, rec);
  }

  /** A pin the index has listed since step a is held still, or some step since then took it away. */
  lemma {:induction false} HeldOrRemoved(c: Config, ms: seq<Machine>, steps: seq<Step>, a: nat, n: nat, k: Key, rec: Rec)
    requires IsRun(c, ms, steps) && Sturdy(ms[0]) && a <= n < |ms| && Holds(ms[a], k, rec) && Listed(ms[a].s.index, rec)
    requires forall i :: a <= i < n ==> !WritesIndex(steps[i])
    ensures Holds(ms[n], k, rec) || exists b | a <= b < n :: Holds(ms[b], k, rec) && Removes(ms[b], steps[b], k, rec)
    decreases n
  {
    hide StoreStep, Sturdy, Removes, WritesIndex, Listed;
    if a < n {
      HeldOrRemoved(c, ms, steps, a, n - 1, k, rec);
      if Holds(ms[n - 1], k, rec) {
        RunSturdy(c, ms, steps, n - 1);
        IndexKept(c, ms, steps, a, n - 1);
        RemovalStep(c, ms[n - 1], ms[n], steps[n - 1], k, rec);
      }
    }
  }

  /**
   In every interleaving a restart brings back only what was held when the index was last written: a pin that is held
   still, or one that was unpinned, quarantined, undone or found incomplete since then without the index learning of it.
   */
  lemma NoResurrection(c: Config, ms: seq<Machine>, steps: seq<Step>, w: nat, n: nat, k: Key)
    requires IsRun(c, ms, steps) && Sturdy(ms[0]) && w < n < |ms| && WritesIndex(steps[w])
    requires forall i :: w < i < n ==> !WritesIndex(steps[i])
    requires k in Boot(ms[n].s.files, ms[n].s.index).s.pins
    ensures var rec := Boot(ms[n].s.files, ms[n].s.index).s.pins[k];
      && Holds(ms[w + 1], k, rec)
      && (Holds(ms[n], k, rec) || exists b | w < b < n :: Holds(ms[b], k, rec) && Removes(ms[b], steps[b], k, rec))
  {
    hide StoreStep, Sturdy, LoadedPins, LoadedKeys, Written, WritesIndex, Total, Removes, Listed;
    IndexStep(c, ms[w], ms[w + 1], steps[w]);
    IndexKept(c, ms, steps, w + 1, n);
    var m := ms[n].s;
    var rec := Boot(m.files, m.index).s.pins[k];
    WrittenLoads(m.index.recs, m.files, ms[w + 1].s.pins, k);
    assert Listed(ms[w + 1].s.index, rec) by {
      WrittenLists(ms[w + 1].s.index.recs, ms[w + 1].s.pins);
    }
    HeldOrRemoved(c, ms, steps, w + 1, n, k, rec);
  }
}
