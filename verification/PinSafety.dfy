/**
 When a pin in flight is whole: it holds what it has counted, and its end will leave nothing unnamed. A store that is closed
 and whose pin is whole is safe. Each step is judged exactly: it keeps the store safe if and only if it is harmless.
 */
module PinSafety {
  import opened Common
  import opened Sums
  import opened PinModel
  import opened PinRuns
  import opened PinClosure

  /** The pin still goes by what it has counted. */
  predicate Counting(phase: Phase) {
    phase == Scan || phase.Checked? || phase.Stored? || phase == Committing
  }

  /** A pin in flight holds everything it has counted or stored, and when it has ended everything held is named. */
  ghost predicate Whole(m: Machine) {
    m.op.Pin? ==>
      var p, s := m.op.p, m.s;
      && (Counting(p.phase) ==> forall j :: 0 <= j < p.i <= |p.wants| ==> p.wants[j] in s.objects)
      && (p.phase == Releasing ==> s.objects.Keys <= Referenced(s.pins))
      && (p.phase.Stored? ==> p.i < |p.wants| && p.wants[p.i] in s.files)
  }

  ghost predicate Safe(m: Machine) {
    Closed(m) && Tracked(m) && Whole(m)
  }

  /**
   A step spares a pin in flight. A quarantine must not take an object the pin has counted, nor leave one to a record
   that is being undone, nor leave one that a finished pin still claims without a pin that names it. A removal must not
   take the file the pin has just stored.
   */
  ghost predicate Harmless(m: Machine, step: Step) {
    m.op.Pin? ==>
      var p, s := m.op.p, m.s;
      match step
      case Quarantine(bad) =>
        && (Counting(p.phase) ==> forall j :: 0 <= j < p.i <= |p.wants| ==> Survives(s, bad, p.wants[j]))
        && (p.phase == Undoing ==> Uncommitted(m, bad))
        && (p.phase == Releasing ==> forall x :: x in s.objects && Survives(s, bad, x) ==> StillNamedBy(s.pins, bad, x))
      case RemoveFile(k) => p.phase.Stored? && p.i < |p.wants| ==> k != p.wants[p.i]
      case _ => true
  }

  lemma QuarantineWhole(c: Config, m: Machine, m': Machine, bad: Key)
    requires Safe(m) && StoreStep(c, m, m', Quarantine(bad))
    ensures Whole(m') && Fine(m, Quarantine(bad)) <==> Harmless(m, Quarantine(bad))
  {
    hide StoreStep, Total, Referenced, StillNamedBy, UniqueRoots, AllListed, Rooted, SingleClaims, RecOf, Survives, NoRepeats;
    hide Uncommitted, Closed;
    QuarantineFree(c, m, m', bad);
    QuarantineLeaves(c, m, m', bad);
    if m.op.Pin? && Counting(m.op.p.phase) {
      var p := m.op.p;
      assert forall j :: 0 <= j < p.i ==> (p.wants[j] in m'.s.objects <==> Survives(m.s, bad, p.wants[j]));
    }
  }

  lemma CommitOkWhole(c: Config, m: Machine, m': Machine, recs: seq<DiskRec>)
    requires Safe(m) && StoreStep(c, m, m', CommitOk(recs))
    ensures Whole(m') && Fine(m, CommitOk(recs))
  {
    hide Total, Written, Referenced, VerifyKey, Wants, UniqueRoots, Listed, SingleClaims, AllListed, Rooted, NoRepeats;
    var p, before := m.op.p, Committed(m);
    ReferencedWith(before, p.root, RecOf(p));
    assert m.s.pins == before[p.root := RecOf(p)];
    ClaimedKeys(m.s.pending, p.wrote);
  }

  lemma RollbackWhole(c: Config, m: Machine, m': Machine)
    requires Safe(m) && StoreStep(c, m, m', Rollback)
    ensures Whole(m')
  {
    hide Total, Written, Referenced, VerifyKey, Wants, UniqueRoots, Listed, SingleClaims, AllListed, Rooted, RecOf, NoRepeats;
    ClaimedKeys(m.s.pending, m.op.p.wrote);
  }

  lemma OtherWhole(c: Config, m: Machine, m': Machine, step: Step)
    requires Safe(m) && StoreStep(c, m, m', step) && !step.Crash? && !step.Quarantine? && !step.CommitOk? && !step.Rollback?
    ensures Whole(m') && Fine(m, step) <==> Harmless(m, step)
  {
    hide Total, Written, Referenced, VerifyKey, Wants, UniqueRoots, Rooted, AllListed, SingleClaims, RecOf, NoRepeats, Closed;
  }

  /** One step, crashes included, keeps the store safe exactly when it is harmless. */
  lemma StepSafe(c: Config, m: Machine, m': Machine, step: Step)
    requires Safe(m) && StoreStep(c, m, m', step)
    ensures Safe(m') <==> Harmless(m, step)
  {
    hide Closed, Tracked, Whole, StoreStep, Fine, Survives, StillNamedBy, Uncommitted;
    StepClosed(c, m, m', step);
    match step
    case Quarantine(bad) => QuarantineWhole(c, m, m', bad);
    case CommitOk(recs) => CommitOkWhole(c, m, m', recs);
    case Rollback =>
      RollbackWhole(c, m, m');
      OnlyFine(m);
    case Crash => CrashWhole(c, m, m');
    case _ => OtherWhole(c, m, m', step);
  }

  lemma OnlyFine(m: Machine)
    ensures Fine(m, Rollback)
  {
  }

  lemma CrashWhole(c: Config, m: Machine, m': Machine)
    requires StoreStep(c, m, m', Crash)
    ensures Whole(m') && Fine(m, Crash)
  {
  }

  /** A restart of any disk whose index names each root once is safe, whatever the files hold. */
  lemma BootSafe(files: map<Key, Bytes>, index: Index)
    requires index != Unusable && UniqueRoots(Recs(index))
    ensures Safe(Boot(files, index))
  {
    hide Closed, Tracked;
    BootClosed(files, index);
  }

  // ----- whole runs -----

  ghost predicate AllHarmless(ms: seq<Machine>, steps: seq<Step>)
    requires |ms| == |steps| + 1
  {
    forall i :: 0 <= i < |steps| ==> Harmless(ms[i], steps[i])
  }

  lemma {:induction false} RunSafe(c: Config, ms: seq<Machine>, steps: seq<Step>, n: nat)
    requires IsRun(c, ms, steps) && AllHarmless(ms, steps) && Safe(ms[0]) && n < |ms|
    ensures Safe(ms[n])
  {
    hide Safe, StoreStep, Harmless;
    if n > 0 {
      RunSafe(c, ms, steps, n - 1);
      StepSafe(c, ms[n - 1], ms[n], steps[n - 1]);
    }
  }

  /** A run from a safe machine stays safe throughout exactly when every step of it is harmless. */
  lemma RunSafeExact(c: Config, ms: seq<Machine>, steps: seq<Step>)
    requires IsRun(c, ms, steps) && Safe(ms[0])
    ensures (forall n :: 0 <= n < |ms| ==> Safe(ms[n])) <==> AllHarmless(ms, steps)
  {
    hide Safe, StoreStep, Harmless;
    if AllHarmless(ms, steps) {
      forall n | 0 <= n < |ms|
        ensures Safe(ms[n])
      {
        RunSafe(c, ms, steps, n);
      }
    } else {
      var i :| 0 <= i < |steps| && !Harmless(ms[i], steps[i]);
      if Safe(ms[i]) {
        StepSafe(c, ms[i], ms[i + 1], steps[i]);
      }
    }
  }

  /** Harmless steps are fine. */
  lemma HarmlessFine(c: Config, ms: seq<Machine>, steps: seq<Step>)
    requires IsRun(c, ms, steps) && Safe(ms[0]) && AllHarmless(ms, steps)
    ensures AllFine(ms, steps)
  {
    hide Closed, Tracked, Whole, StoreStep, Harmless, Fine;
    forall i | 0 <= i < |steps|
      ensures Fine(ms[i], steps[i])
    {
      RunSafe(c, ms, steps, i);
      RunSafe(c, ms, steps, i + 1);
      StepClosed(c, ms[i], ms[i + 1], steps[i]);
    }
  }
}
