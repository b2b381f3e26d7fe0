/** The budget over whole histories: every interleaving, quarantines anywhere, and any number of crashes and restarts. */
module PinBudget {
  import opened Common
  import opened Sums
  import opened PinModel
  import opened PinRuns

  /** The object a pin has stored and not yet registered. */
  ghost predicate JustStored(op: Op, k: Key) {
    op.Pin? && op.p.phase.Stored? && op.p.i < |op.p.wants| && op.p.wants[op.p.i] == k
  }

  /** Every file is one of a held object, of one being removed, or just stored, and has the size it is counted with. */
  ghost predicate Filed(m: Machine) {
    && (forall k :: k in m.s.files ==> k in m.s.objects || (m.lock.Removing? && k in m.lock.dead) || JustStored(m.op, k))
    && (forall k :: k in m.s.files && k in m.s.objects ==> m.s.objects[k] == |m.s.files[k]|)
    && (forall k :: k in m.s.files && JustStored(m.op, k) ==> |m.s.files[k]| == m.op.p.phase.size)
  }

  ghost function FileSizes(files: map<Key, Bytes>): map<Key, nat> {
    SizesOn(files.Keys, files)
  }

  /** The size of an object that is about to be written. */
  function Unwritten(op: Op): nat {
    if op.Pin? && op.p.phase.Checked? then |op.p.phase.body| else 0
  }

  /** The files on disk, and the one about to be written, are within the budget. */
  ghost predicate DiskWithin(c: Config, m: Machine) {
    c.maxBytes > 0 ==> Total(FileSizes(m.s.files)) + Unwritten(m.op) <= c.maxBytes
  }

  /** What a restart would keep is within the budget. */
  ghost predicate ReloadWithin(c: Config, files: map<Key, Bytes>, index: Index) {
    c.maxBytes > 0 ==> Total(SizesOn(LoadedKeys(Recs(index), files), files)) <= c.maxBytes
  }

  /** Within budget, also after a crash; only the sweep of a restart may still have more on disk, which it will not keep. */
  ghost predicate Budgeted(c: Config, m: Machine) {
    && Accounted(c, m) && Filed(m)
    && (DiskWithin(c, m) || (m.op == Idle && m.lock.Removing? && ReloadWithin(c, m.s.files, m.s.index)))
  }

  /** When nothing is being removed or stored, the disk holds no more than the counter says. */
  lemma FilesCounted(m: Machine)
    requires Filed(m) && m.s.bytes == Total(m.s.objects)
    requires forall k :: k in m.s.files ==> k in m.s.objects
    ensures Total(FileSizes(m.s.files)) <= m.s.bytes
  {
    hide Total;
    TotalAtMost(FileSizes(m.s.files), m.s.objects);
  }

  lemma BootBudgeted(c: Config, files: map<Key, Bytes>, index: Index)
    requires ReloadWithin(c, files, index)
    ensures Budgeted(c, Boot(files, index))
  {
    hide Total, LoadedPins, LoadedKeys;
  }

  lemma ReloadFromDisk(c: Config, m: Machine)
    requires DiskWithin(c, m)
    ensures ReloadWithin(c, m.s.files, m.s.index)
  {
    hide Total, LoadedKeys;
    TotalAtMost(SizesOn(LoadedKeys(Recs(m.s.index), m.s.files), m.s.files), FileSizes(m.s.files));
  }

  lemma {:induction false} FewerFiles(recs: seq<DiskRec>, files: map<Key, Bytes>, fewer: map<Key, Bytes>)
    requires fewer.Keys <= files.Keys
    ensures LoadedKeys(recs, fewer) <= LoadedKeys(recs, files)
    decreases |recs|
  {
    if |recs| > 0 {
      FewerFiles(recs[..|recs| - 1], files, fewer);
    }
  }

  lemma RemovalReload(c: Config, files: map<Key, Bytes>, index: Index, k: Key)
    requires ReloadWithin(c, files, index)
    ensures ReloadWithin(c, files - {k}, index)
  {
    hide Total, LoadedKeys;
    FewerFiles(Recs(index), files, files - {k});
    TotalAtMost(SizesOn(LoadedKeys(Recs(index), files - {k}), files - {k}), SizesOn(LoadedKeys(Recs(index), files), files));
  }

  lemma FewerSizes(files: map<Key, Bytes>, k: Key)
    ensures Total(FileSizes(files - {k})) <= Total(FileSizes(files))
  {
    hide Total;
    TotalAtMost(FileSizes(files - {k}), FileSizes(files));
  }

  lemma MoreSizes(files: map<Key, Bytes>, k: Key, body: Bytes)
    ensures Total(FileSizes(files[k := body])) <= Total(FileSizes(files)) + |body|
  {
    hide Total;
    var rest := FileSizes(files) - {k};
    assert FileSizes(files[k := body]) == rest[k := |body|];
    TotalWith(rest, k, |body|);
    TotalDrop(FileSizes(files), k);
  }

  lemma PinStepFiled(c: Config, m: Machine, m': Machine, step: Step)
    requires Accounted(c, m) && Filed(m) && m.op.Pin? && PinStep(c, m, m', step)
    ensures Filed(m')
  {
    hide Total, Written, Referenced, VerifyKey, Wants, RecOf, Claim, Unclaim;
  }

  lemma StepFiled(c: Config, m: Machine, m': Machine, step: Step)
    requires Accounted(c, m) && Filed(m) && StoreStep(c, m, m', step) && !step.Crash?
    ensures Filed(m')
  {
    hide Total, Written, VerifyKey, Wants, PinStep;
    if m.op.Pin? && PinStep(c, m, m', step) {
      PinStepFiled(c, m, m', step);
    }
  }

  lemma StepDisk(c: Config, m: Machine, m': Machine, step: Step)
    requires Accounted(c, m) && Filed(m) && DiskWithin(c, m) && StoreStep(c, m, m', step) && !step.Crash?
    ensures DiskWithin(c, m')
  {
    hide Total, Written, Referenced, VerifyKey, Wants, RecOf, Claim, Unclaim, FileSizes;
    if step.CheckNew? {
      FilesCounted(m);
    } else if step.StoreOk? {
      MoreSizes(m.s.files, m.op.p.wants[m.op.p.i], m.op.p.phase.body);
    } else if step.RemoveFile? {
      FewerSizes(m.s.files, step.k);
    }
  }

  /** While a restart is still sweeping. */
  lemma StepSweeping(c: Config, m: Machine, m': Machine, step: Step)
    requires Budgeted(c, m) && m.op == Idle && m.lock.Removing? && ReloadWithin(c, m.s.files, m.s.index)
    requires StoreStep(c, m, m', step) && !step.Crash?
    ensures DiskWithin(c, m') || (m'.op == Idle && m'.lock.Removing? && ReloadWithin(c, m'.s.files, m'.s.index))
  {
    hide Total, Written, Referenced, FileSizes, ReloadWithin;
    if step.RemoveFile? {
      RemovalReload(c, m.s.files, m.s.index, step.k);
    } else {
      FilesCounted(m);
    }
  }

  lemma StepBudgeted(c: Config, m: Machine, m': Machine, step: Step)
    requires Budgeted(c, m) && StoreStep(c, m, m', step)
    ensures Budgeted(c, m')
  {
    hide StoreStep, Accounted, Filed, DiskWithin, ReloadWithin;
    if step.Crash? {
      CrashBudgeted(c, m, m');
    } else {
      StepAccounted(c, m, m', step);
      StepFiled(c, m, m', step);
      if DiskWithin(c, m) {
        StepDisk(c, m, m', step);
      } else {
        StepSweeping(c, m, m', step);
      }
    }
  }

  lemma CrashBudgeted(c: Config, m: Machine, m': Machine)
    requires Budgeted(c, m) && StoreStep(c, m, m', Crash)
    ensures Budgeted(c, m')
  {
    hide Accounted, Filed, DiskWithin, ReloadWithin, Boot;
    if DiskWithin(c, m) {
      ReloadFromDisk(c, m);
    }
    BootBudgeted(c, m.s.files, m.s.index);
  }

  /**
   In every run from a restart within the budget, with crashes, restarts and quarantines anywhere, the byte counter is
   exact and within the budget, and one pin's new bytes are within its own.
   */
  lemma {:induction false} RunBudgeted(c: Config, ms: seq<Machine>, steps: seq<Step>, n: nat)
    requires IsRun(c, ms, steps) && n < |ms| && Budgeted(c, ms[0])
    ensures Budgeted(c, ms[n]) && Accounted(c, ms[n])
  {
    hide Accounted, StoreStep, Filed, DiskWithin, ReloadWithin;
    if n > 0 {
      RunBudgeted(c, ms, steps, n - 1);
      StepBudgeted(c, ms[n - 1], ms[n], steps[n - 1]);
    }
  }
}
