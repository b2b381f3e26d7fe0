/**
 What a quarantine can do to a pin in flight: exactly which objects it takes from the pin, exactly which it leaves to
 nobody, and what becomes of such a pin in every continuation.
 */
module PinQuarantine {
  import opened Common
  import opened Sums
  import opened PinModel
  import opened PinRuns
  import opened PinClosure
  import opened PinSafety

  // ----- every pin wants each object once -----

  /** What every run keeps: a pin's list is free of repeats, and only a commit holds the lock for the index. */
  ghost predicate Ordered(m: Machine) {
    && (m.op.Pin? ==> NoRepeats(m.op.p.wants) && m.op.p.i <= |m.op.p.wants|)
    && (m.lock == WritingIndex <==> m.op.Pin? && m.op.p.phase == Committing)
  }

  lemma StepOrdered(c: Config, m: Machine, m': Machine, step: Step)
    requires Ordered(m) && StoreStep(c, m, m', step)
    ensures Ordered(m')
  {
    hide NoRepeats, Total, Referenced, VerifyKey, Wants, Written, Boot;
    if step.StartPin? {
      WantsNoRepeats(c.h, step.root, step.body);
    } else if step.Crash? {
      BootIdle(m.s.files, m.s.index);
    }
  }

  lemma BootIdle(files: map<Key, Bytes>, index: Index)
    ensures Boot(files, index).op == Idle && Boot(files, index).lock.Removing?
  {
  }

  lemma {:induction false} RunOrdered(c: Config, ms: seq<Machine>, steps: seq<Step>, n: nat)
    requires IsRun(c, ms, steps) && Ordered(ms[0]) && n < |ms|
    ensures Ordered(ms[n])
  {
    hide StoreStep;
    if n > 0 {
      RunOrdered(c, ms, steps, n - 1);
      StepOrdered(c, ms[n - 1], ms[n], steps[n - 1]);
    }
  }

  // ----- an object lost to the pin -----

  /** A pin in flight has counted an object the store does not hold. */
  ghost predicate Lost(m: Machine, x: Key) {
    && m.op.Pin? && Counting(m.op.p.phase) && m.op.p.i <= |m.op.p.wants|
    && x in m.op.p.wants[..m.op.p.i] && x !in m.s.objects
    && (m.op.p.phase == Committing ==> m.op.p.root in m.s.pins && m.s.pins[m.op.p.root] == RecOf(m.op.p))
  }

  /** A quarantine takes a counted object exactly when it is the bad one, or is unclaimed and only bad pins name it. */
  lemma LossExact(c: Config, m: Machine, m': Machine, bad: Key, x: Key)
    requires StoreStep(c, m, m', Quarantine(bad)) && m.op.Pin? && Counting(m.op.p.phase) && m.op.p.phase != Committing
    requires m.op.p.i <= |m.op.p.wants| && x in m.op.p.wants[..m.op.p.i] && x in m.s.objects
    ensures Lost(m', x) <==>
      x == bad || (x !in m.s.pending && forall k :: k in m.s.pins && x in m.s.pins[k].objects ==> bad in m.s.pins[k].objects)
  {
    hide StoreStep, Referenced;
    QuarantineLeaves(c, m, m', bad);
  }

  /** The pin commits a record that names an object the store does not hold. */
  ghost predicate CommitsWithout(m: Machine, m': Machine, step: Step, x: Key) {
    && step.CommitOk? && m.op.Pin? && m.op.p.root in m'.s.pins && x in m'.s.pins[m.op.p.root].objects
    && x !in m'.s.objects && Listed(m'.s.index, m'.s.pins[m.op.p.root])
  }

  ghost predicate Fails(m: Machine) {
    m.op.Pin? && (m.op.p.phase == Failing || m.op.p.phase == Undoing)
  }

  lemma LostStep(c: Config, m: Machine, m': Machine, step: Step, x: Key)
    requires Ordered(m) && Lost(m, x) && StoreStep(c, m, m', step) && !step.Crash?
    ensures Lost(m', x) || Fails(m') || CommitsWithout(m, m', step, x)
  {
    hide Total, Referenced, VerifyKey, Wants, UniqueRoots;
    if step.Register? {
      var p := m.op.p;
      var j :| 0 <= j < p.i && p.wants[j] == x;
    }
  }

  /**
   What becomes of a pin that has lost an object, in every continuation without a crash: it is still under way and still
   without the object, or it has failed, or it has committed a record naming an object the store does not hold.
   */
  lemma {:induction false} LostRun(c: Config, ms: seq<Machine>, steps: seq<Step>, a: nat, n: nat, x: Key)
    requires IsRun(c, ms, steps) && Ordered(ms[0]) && a <= n < |ms| && Lost(ms[a], x)
    requires forall i :: a <= i < n ==> !steps[i].Crash?
    ensures || Lost(ms[n], x)
            || (exists b | a < b <= n :: Fails(ms[b]))
            || (exists b | a <= b < n :: CommitsWithout(ms[b], ms[b + 1], steps[b], x))
    decreases n
  {
    hide StoreStep, Lost, CommitsWithout, Fails;
    if a < n {
      LostRun(c, ms, steps, a, n - 1, x);
      if Lost(ms[n - 1], x) {
        RunOrdered(c, ms, steps, n - 1);
        LostStep(c, ms[n - 1], ms[n], steps[n - 1], x);
      }
    }
  }

  // ----- an object left to nobody -----

  /** An object that no committed pin names, and that the end of the pin in flight will not remove. */
  ghost predicate Orphaned(m: Machine, x: Key) {
    && m.op.Pin? && m.op.p.phase in {Undoing, Failing, Releasing}
    && x in m.s.objects && x !in Referenced(Committed(m)) && (m.op.p.phase != Releasing ==> x !in m.op.p.wrote)
  }

  /** A quarantine after the commit orphans exactly what the pin still claims and only bad pins name. */
  lemma ReleasingLeakExact(c: Config, m: Machine, m': Machine, bad: Key, x: Key)
    requires StoreStep(c, m, m', Quarantine(bad)) && m.op.Pin? && m.op.p.phase == Releasing
    ensures Orphaned(m', x) <==>
      x in m.s.objects && x != bad && x in m.s.pending && !StillNamedBy(m.s.pins, bad, x)
  {
    hide StoreStep, Referenced, StillNamedBy;
    QuarantineLeaves(c, m, m', bad);
  }

  /** A quarantine while a commit is undone orphans exactly what is unclaimed and only bad pins and the undone one name. */
  lemma UndoingLeakExact(c: Config, m: Machine, m': Machine, bad: Key, x: Key)
    requires Safe(m) && StoreStep(c, m, m', Quarantine(bad)) && m.op.Pin? && m.op.p.phase == Undoing
    ensures Orphaned(m', x) <==>
      && x in m.s.objects && x != bad && x !in m.s.pending
      && StillNamedBy(m.s.pins, bad, x) && !StillNamedBy(m.s.pins - {m.op.p.root}, bad, x)
  {
    hide StoreStep, Referenced, StillNamedBy, Closed;
    QuarantineLeaves(c, m, m', bad);
    UndoneNamed(m, m', bad, x);
  }

  lemma OrphanStep(c: Config, m: Machine, m': Machine, step: Step, x: Key)
    requires Orphaned(m, x) && StoreStep(c, m, m', step) && !step.Crash? && !step.Quarantine?
    ensures if step.Release? then m'.op == Idle && x in m'.s.objects && x !in Referenced(m'.s.pins) else Orphaned(m', x)
  {
    hide Total, Referenced, VerifyKey, Wants, UniqueRoots, Written;
    if step.Uncommit? {
      assert Committed(m') == Committed(m);
    }
  }

  /** An orphan outlives the pin: when its claims are released the store holds an object that no pin names. */
  lemma {:induction false} OrphanRun(c: Config, ms: seq<Machine>, steps: seq<Step>, a: nat, n: nat, x: Key)
    requires IsRun(c, ms, steps) && a < n < |ms| && Orphaned(ms[a], x)
    requires forall i :: a <= i < n ==> !steps[i].Crash? && !steps[i].Quarantine?
    requires steps[n - 1].Release? && forall i :: a <= i < n - 1 ==> !steps[i].Release?
    ensures ms[n].op == Idle && x in ms[n].s.objects && x !in Referenced(ms[n].s.pins)
    decreases n - a
  {
    hide StoreStep, Orphaned, Referenced;
    OrphanStep(c, ms[a], ms[a + 1], steps[a], x);
    if a + 1 < n {
      OrphanRun(c, ms, steps, a + 1, n, x);
    }
  }

  /** The next unpin or quarantine between operations takes every orphan away. */
  lemma OrphansReclaimed(c: Config, m: Machine, m': Machine, step: Step)
    requires StoreStep(c, m, m', step) && (step.Unpin? || step.Quarantine?) && m.op == Idle && m.s.pending == map[]
    ensures m'.s.objects.Keys <= Referenced(m'.s.pins)
  {
    hide Total, Referenced;
    if step.Quarantine? {
      QuarantineLeaves(c, m, m', step.bad);
    }
  }

  // ----- a file lost to the pin -----

  /** A file the pin has stored is gone, or is about to be removed before the pin can register it. */
  ghost predicate FileLost(m: Machine, x: Key) {
    && m.op.Pin? && m.op.p.phase.Stored? && m.op.p.i < |m.op.p.wants| && m.op.p.wants[m.op.p.i] == x
    && (x in m.s.files ==> m.lock.Removing? && x in m.lock.dead)
  }

  /** A quarantine marks the file a pin is storing or has stored for removal exactly when it names it. */
  lemma FileLossExact(c: Config, m: Machine, m': Machine, bad: Key)
    requires Safe(m) && StoreStep(c, m, m', Quarantine(bad)) && m.op.Pin? && (m.op.p.phase.Checked? || m.op.p.phase.Stored?)
    ensures var x := m.op.p.wants[m.op.p.i];
      && (m'.lock.Removing? && x in m'.lock.dead <==> bad == x)
      && (m.op.p.phase.Stored? ==> (FileLost(m', x) <==> bad == x))
  {
    hide Total, Referenced;
  }

  /** A file stored after such a quarantine is lost exactly when its removal is still due. */
  lemma StoreLossExact(c: Config, m: Machine, m': Machine)
    requires StoreStep(c, m, m', StoreOk)
    ensures m.op.Pin? && m.op.p.i < |m.op.p.wants|
    ensures var x := m.op.p.wants[m.op.p.i]; FileLost(m', x) <==> m.lock.Removing? && x in m.lock.dead
  {
    hide Total, Referenced;
  }

  lemma FileLostStep(c: Config, m: Machine, m': Machine, step: Step, x: Key)
    requires FileLost(m, x) && StoreStep(c, m, m', step) && !step.Crash?
    ensures FileLost(m', x) || (step.Register? && x in m'.s.objects && x !in m'.s.files)
  {
    hide Total, Referenced, VerifyKey, Wants, Written;
  }

  /** Short of a crash, such a pin can only register an object that has no file. */
  lemma {:induction false} FileLostRun(c: Config, ms: seq<Machine>, steps: seq<Step>, a: nat, n: nat, x: Key)
    requires IsRun(c, ms, steps) && a <= n < |ms| && FileLost(ms[a], x)
    requires forall i :: a <= i < n ==> !steps[i].Crash?
    ensures FileLost(ms[n], x) || exists b | a <= b < n :: steps[b].Register? && x in ms[b + 1].s.objects && x !in ms[b + 1].s.files
    decreases n
  {
    hide StoreStep, FileLost;
    if a < n {
      FileLostRun(c, ms, steps, a, n - 1, x);
      if FileLost(ms[n - 1], x) {
        FileLostStep(c, ms[n - 1], ms[n], steps[n - 1], x);
      }
    }
  }
}
