/**
 When the pin store is closed: every committed pin is listed, whole and on disk, and nothing is held that no committed pin
 names and no pin in flight claims. Each step is judged exactly: it keeps the store closed if and only if it is fine.
 */
module PinClosure {
  import opened Common
  import opened Sums
  import opened PinModel
  import opened PinRuns

  /** The pins whose index entry has been written: all but the one a commit is still busy with. */
  ghost function Committed(m: Machine): map<Key, Rec> {
    if m.op.Pin? && (m.op.p.phase == Committing || m.op.p.phase == Undoing) then m.s.pins - {m.op.p.root} else m.s.pins
  }

  ghost predicate Rooted(pins: map<Key, Rec>) {
    forall k :: k in pins ==> pins[k].root == k && |pins[k].objects| > 0
  }

  ghost predicate AllListed(index: Index, pins: map<Key, Rec>) {
    forall k :: k in pins ==> Listed(index, pins[k])
  }

  /** Committed pins are on disk, in the index and whole; nothing else is retained but what a pin in flight claims. */
  ghost predicate Closed(m: Machine) {
    var c, s := Committed(m), m.s;
    && Rooted(s.pins)
    && AllListed(s.index, c)
    && s.index != Unusable && UniqueRoots(Recs(s.index))
    && Referenced(c) <= s.objects.Keys <= s.files.Keys
    && s.objects.Keys <= Referenced(c) + s.pending.Keys
    && (m.lock.Removing? ==> m.lock.dead !! s.objects.Keys)
  }

  ghost predicate SingleClaims(pending: map<Key, nat>, wrote: set<Key>) {
    pending.Keys == wrote && forall k :: k in pending ==> pending[k] == 1
  }

  /** What a pin in flight claims is what it wrote, and is not yet anyone else's. */
  ghost predicate Tracked(m: Machine) {
    if m.op == Idle then m.s.pending == map[] && m.lock != WritingIndex else
      var p, s := m.op.p, m.s;
      && |p.wants| > 0 && p.i <= |p.wants| && NoRepeats(p.wants)
      && SingleClaims(s.pending, p.wrote)
      && (p.phase != Releasing ==>
        && p.wrote !! Referenced(Committed(m)) && p.root !in Committed(m)
        && (forall k :: k in p.wrote ==> k in p.wants[..p.i]))
      && (p.phase == Committing ==> p.i == |p.wants| && p.root in s.pins && s.pins[p.root] == RecOf(p))
      && (p.phase.Checked? || p.phase.Stored? ==> p.i < |p.wants| && p.wants[p.i] !in s.objects)
      && (m.lock == WritingIndex <==> p.phase == Committing)
  }

  /** Some pin names an object and not the bad one, so that it keeps the object through a quarantine. */
  ghost predicate StillNamedBy(pins: map<Key, Rec>, bad: Key, x: Key) {
    exists k :: k in pins && x in pins[k].objects && bad !in pins[k].objects
  }

  /** A held object survives a quarantine. */
  ghost predicate Survives(s: State, bad: Key, x: Key) {
    x != bad && (x in s.pending || StillNamedBy(s.pins, bad, x))
  }

  /**
   A step keeps the store closed: a commit that succeeds holds all it names, a registered object has its file, a release
   leaves no object unnamed, and a quarantine leaves none to a record that is being undone.
   */
  ghost predicate Fine(m: Machine, step: Step) {
    m.op.Pin? ==>
      var p, s := m.op.p, m.s;
      match step
      case CommitOk(_) => forall x :: x in p.wants ==> x in s.objects
      case Register => p.i < |p.wants| ==> p.wants[p.i] in s.files
      case Release => s.objects.Keys <= Referenced(s.pins)
      case Quarantine(bad) => p.phase == Undoing ==> Uncommitted(m, bad)
      case _ => true
  }

  /** Whatever survives a quarantine while a commit is undone is claimed, or named by a committed pin. */
  ghost predicate Uncommitted(m: Machine, bad: Key)
    requires m.op.Pin?
  {
    forall x :: x in m.s.objects && Survives(m.s, bad, x) ==>
      x in m.s.pending || StillNamedBy(m.s.pins - {m.op.p.root}, bad, x)
  }

  lemma ClaimSingle(pending: map<Key, nat>, wrote: set<Key>, k: Key)
    requires SingleClaims(pending, wrote) && k !in wrote
    ensures SingleClaims(Claim(pending, k), wrote + {k})
  {
  }

  lemma UnclaimAll(pending: map<Key, nat>, wrote: set<Key>)
    requires SingleClaims(pending, wrote)
    ensures Unclaim(pending, wrote) == map[]
  {
  }

  lemma ScanTracked(c: Config, m: Machine, m': Machine, step: Step)
    requires Closed(m) && Tracked(m) && StoreStep(c, m, m', step) && (step.CountPresent? || step.CheckNew?)
    ensures Tracked(m') && (Closed(m') <==> Fine(m, step))
  {
    hide Total, Written, Referenced, VerifyKey, Wants, RecOf, UniqueRoots, Rooted, AllListed, SingleClaims, NoRepeats;
    assert Committed(m') == Committed(m) == m.s.pins;
  }

  lemma StoreTracked(c: Config, m: Machine, m': Machine, step: Step)
    requires Closed(m) && Tracked(m) && StoreStep(c, m, m', step) && (step.GiveUp? || step.StoreOk? || step.StoreFail?)
    ensures Tracked(m') && (Closed(m') <==> Fine(m, step))
  {
    hide Total, Written, Referenced, VerifyKey, Wants, RecOf, UniqueRoots, Rooted, AllListed, SingleClaims, NoRepeats;
    assert Committed(m') == Committed(m) == m.s.pins;
  }

  lemma RegisterClosed(c: Config, m: Machine, m': Machine)
    requires Closed(m) && Tracked(m) && StoreStep(c, m, m', Register)
    ensures Closed(m') <==> Fine(m, Register)
  {
    hide Total, Written, Referenced, VerifyKey, Wants, RecOf, UniqueRoots, Rooted, AllListed, SingleClaims, NoRepeats, Claim;
    assert Committed(m') == Committed(m) == m.s.pins;
    ClaimKeys(m.s.pending, m.op.p.wants[m.op.p.i]);
  }

  lemma RegisterTracked(c: Config, m: Machine, m': Machine)
    requires Closed(m) && Tracked(m) && StoreStep(c, m, m', Register)
    ensures Tracked(m') && (Closed(m') <==> Fine(m, Register))
  {
    hide Total, Written, Referenced, VerifyKey, Wants, RecOf, UniqueRoots, Rooted, AllListed, SingleClaims, Claim, Recs;
    RegisterClosed(c, m, m');
    var p := m.op.p;
    assert Committed(m') == Committed(m) == m.s.pins;
    assert p.wants[p.i] !in p.wrote;
    ClaimSingle(m.s.pending, p.wrote, p.wants[p.i]);
  }

  lemma ClaimKeys(pending: map<Key, nat>, k: Key)
    ensures Claim(pending, k).Keys == pending.Keys + {k}
  {
  }

  lemma CommitTracked(c: Config, m: Machine, m': Machine)
    requires Closed(m) && Tracked(m) && StoreStep(c, m, m', Commit)
    ensures Tracked(m') && (Closed(m') <==> Fine(m, Commit))
  {
    hide Total, Written, Referenced, VerifyKey, Wants, UniqueRoots, Listed, SingleClaims, AllListed, Recs, NoRepeats;
    assert Committed(m') == Committed(m);
  }

  lemma CommitFailTracked(c: Config, m: Machine, m': Machine)
    requires Closed(m) && Tracked(m) && StoreStep(c, m, m', CommitFail)
    ensures Tracked(m') && (Closed(m') <==> Fine(m, CommitFail))
  {
    hide Total, Written, Referenced, VerifyKey, Wants, UniqueRoots, Listed, SingleClaims, AllListed, Rooted, Recs, NoRepeats;
    assert Committed(m') == Committed(m);
  }

  lemma UncommitTracked(c: Config, m: Machine, m': Machine)
    requires Closed(m) && Tracked(m) && StoreStep(c, m, m', Uncommit)
    ensures Tracked(m') && (Closed(m') <==> Fine(m, Uncommit))
  {
    hide Total, Written, Referenced, VerifyKey, Wants, UniqueRoots, Listed, SingleClaims, AllListed, RecOf, NoRepeats;
    assert Committed(m') == Committed(m);
  }

  /** A written index lists every pin once. */
  lemma WrittenLists(recs: seq<DiskRec>, pins: map<Key, Rec>)
    requires Written(recs, pins)
    ensures AllListed(Doc(recs), pins) && UniqueRoots(recs)
  {
  }

  lemma CommitOkTracked(c: Config, m: Machine, m': Machine, recs: seq<DiskRec>)
    requires Closed(m) && Tracked(m) && StoreStep(c, m, m', CommitOk(recs))
    ensures Tracked(m') && (Closed(m') <==> Fine(m, CommitOk(recs)))
  {
    hide Total, Written, Referenced, VerifyKey, Wants, UniqueRoots, Listed, SingleClaims, AllListed, Rooted, NoRepeats;
    var p, before := m.op.p, Committed(m);
    WrittenLists(recs, m.s.pins);
    ReferencedWith(before, p.root, RecOf(p));
    assert m.s.pins == before[p.root := RecOf(p)];
    assert Committed(m') == m.s.pins;
    ClaimedKeys(m.s.pending, p.wrote);
  }

  lemma RollbackTracked(c: Config, m: Machine, m': Machine)
    requires Closed(m) && Tracked(m) && StoreStep(c, m, m', Rollback)
    ensures Tracked(m') && (Closed(m') <==> Fine(m, Rollback))
  {
    hide Total, Written, Referenced, VerifyKey, Wants, UniqueRoots, Listed, SingleClaims, AllListed, Rooted, RecOf, NoRepeats;
    assert Committed(m') == Committed(m) == m.s.pins;
    assert m.s.pending.Keys == m.op.p.wrote by { ClaimedKeys(m.s.pending, m.op.p.wrote); }
  }

  lemma ClaimedKeys(pending: map<Key, nat>, wrote: set<Key>)
    requires SingleClaims(pending, wrote)
    ensures pending.Keys == wrote
  {
  }

  lemma ReleaseTracked(c: Config, m: Machine, m': Machine)
    requires Closed(m) && Tracked(m) && StoreStep(c, m, m', Release)
    ensures Tracked(m') && (Closed(m') <==> Fine(m, Release))
  {
    hide Total, Written, Referenced, VerifyKey, Wants, UniqueRoots, Listed, SingleClaims, AllListed, Rooted, RecOf, Unclaim, NoRepeats;
    UnclaimAll(m.s.pending, m.op.p.wrote);
    assert Committed(m') == Committed(m);
  }

  lemma StartTracked(c: Config, m: Machine, m': Machine, step: Step)
    requires Closed(m) && Tracked(m) && StoreStep(c, m, m', step) && step.StartPin?
    ensures Tracked(m') && (Closed(m') <==> Fine(m, step))
  {
    hide Total, Written, Referenced, VerifyKey, UniqueRoots, Listed, AllListed, Rooted, RecOf, NoRepeats;
    WantsNoRepeats(c.h, step.root, step.body);
    assert Committed(m') == Committed(m);
  }

  lemma FewerPins(index: Index, pins: map<Key, Rec>, fewer: map<Key, Rec>)
    requires AllListed(index, pins) && Rooted(pins) && forall k :: k in fewer ==> k in pins && fewer[k] == pins[k]
    ensures AllListed(index, fewer) && Rooted(fewer) && Referenced(fewer) <= Referenced(pins)
  {
    hide Listed;
  }

  lemma FewerRooted(pins: map<Key, Rec>, fewer: map<Key, Rec>)
    requires Rooted(pins) && forall k :: k in fewer ==> k in pins && fewer[k] == pins[k]
    ensures Rooted(fewer)
  {
  }

  lemma UnpinTracked(c: Config, m: Machine, m': Machine, root: Key)
    requires Closed(m) && Tracked(m) && StoreStep(c, m, m', Unpin(root))
    ensures Tracked(m') && (Closed(m') <==> Fine(m, Unpin(root)))
  {
    hide Total, Written, Referenced, VerifyKey, Wants, UniqueRoots, Listed, AllListed, Rooted, RecOf;
    FewerPins(m.s.index, m.s.pins, m.s.pins - {root});
  }

  /** What a quarantine leaves: the pins that do not name the bad object, and the objects that survive. */
  lemma QuarantineLeaves(c: Config, m: Machine, m': Machine, bad: Key)
    requires StoreStep(c, m, m', Quarantine(bad))
    ensures m'.s.pins == WithoutPinsOf(m.s, bad).pins && m'.s.pending == m.s.pending
    ensures m'.s.files == m.s.files && m'.s.index == m.s.index && m'.op == m.op
    ensures m'.lock.Removing? && m'.lock.thenIndex && m'.lock.dead !! m'.s.objects.Keys
    ensures forall x :: x in m'.s.objects <==> x in m.s.objects && Survives(m.s, bad, x)
    ensures forall x :: x in Referenced(m'.s.pins) <==> StillNamedBy(m.s.pins, bad, x)
    ensures forall x :: x in Referenced(m'.s.pins) ==> x != bad
  {
    hide Total;
    var pins := WithoutPinsOf(m.s, bad).pins;
    forall x
      ensures x in Referenced(pins) <==> StillNamedBy(m.s.pins, bad, x)
    {
      NamedByLeft(m.s, bad, x);
    }
  }

  lemma NamedByLeft(s: State, bad: Key, x: Key)
    ensures x in Referenced(WithoutPinsOf(s, bad).pins) <==> StillNamedBy(s.pins, bad, x)
  {
    var pins := WithoutPinsOf(s, bad).pins;
    if StillNamedBy(s.pins, bad, x) {
      var k :| k in s.pins && x in s.pins[k].objects && bad !in s.pins[k].objects;
      ReferencedBy(pins, k, x);
    }
  }

  /** A quarantine outside an undoing pin leaves the committed pins closed, whatever it takes from the pin in flight. */
  lemma QuarantineClosed(c: Config, m: Machine, m': Machine, bad: Key)
    requires Closed(m) && Tracked(m) && StoreStep(c, m, m', Quarantine(bad)) && !(m.op.Pin? && m.op.p.phase == Undoing)
    ensures Closed(m') && Committed(m) == m.s.pins && Committed(m') == m'.s.pins
  {
    hide StoreStep, Total, Referenced, StillNamedBy, UniqueRoots, Listed, AllListed, Rooted, SingleClaims, NoRepeats;
    QuarantineFree(c, m, m', bad);
    QuarantineLeaves(c, m, m', bad);
    FewerPins(m.s.index, m.s.pins, m'.s.pins);
  }

  lemma QuarantineFree(c: Config, m: Machine, m': Machine, bad: Key)
    requires StoreStep(c, m, m', Quarantine(bad))
    ensures m.lock == Free
  {
  }

  lemma QuarantineOutside(c: Config, m: Machine, m': Machine, bad: Key)
    requires Closed(m) && Tracked(m) && StoreStep(c, m, m', Quarantine(bad)) && !(m.op.Pin? && m.op.p.phase == Undoing)
    ensures Tracked(m')
  {
    hide StoreStep, Total, Referenced, StillNamedBy, UniqueRoots, AllListed, Rooted, SingleClaims, RecOf, Survives, NoRepeats;
    QuarantineFree(c, m, m', bad);
    QuarantineLeaves(c, m, m', bad);
    QuarantineClosed(c, m, m', bad);
    FewerPins(m.s.index, m.s.pins, m'.s.pins);
  }

  lemma QuarantineUndoing(c: Config, m: Machine, m': Machine, bad: Key)
    requires Closed(m) && Tracked(m) && StoreStep(c, m, m', Quarantine(bad)) && m.op.Pin? && m.op.p.phase == Undoing
    ensures Tracked(m') && (Closed(m') <==> Fine(m, Quarantine(bad)))
  {
    hide StoreStep, Total, Referenced, StillNamedBy, UniqueRoots, AllListed, Rooted, SingleClaims, RecOf, Survives, NoRepeats;
    QuarantineLeaves(c, m, m', bad);
    FewerRooted(m.s.pins, m'.s.pins);
    FewerRooted(m.s.pins, Committed(m));
    FewerPins(m.s.index, Committed(m), Committed(m'));
    forall x
      ensures x in Referenced(Committed(m')) <==> StillNamedBy(Committed(m), bad, x)
      ensures x in Referenced(Committed(m')) ==> x in Referenced(Committed(m)) && Survives(m.s, bad, x)
    {
      UndoneNamed(m, m', bad, x);
    }
  }

  lemma UndoneNamed(m: Machine, m': Machine, bad: Key, x: Key)
    requires m.op.Pin? && m.op.p.phase == Undoing && m'.op == m.op && m'.s.pins == WithoutPinsOf(m.s, bad).pins
    ensures x in Referenced(Committed(m')) <==> StillNamedBy(Committed(m), bad, x)
    ensures x in Referenced(Committed(m')) ==> x in Referenced(Committed(m)) && Survives(m.s, bad, x)
  {
    var s := m.s.(pins := Committed(m));
    NamedByLeft(s, bad, x);
    assert Committed(m') == WithoutPinsOf(s, bad).pins;
    if x in Referenced(Committed(m')) {
      var k :| k in Committed(m) && x in Committed(m)[k].objects && bad !in Committed(m)[k].objects;
      ReferencedBy(Committed(m), k, x);
    }
  }

  lemma QuarantineTracked(c: Config, m: Machine, m': Machine, bad: Key)
    requires Closed(m) && Tracked(m) && StoreStep(c, m, m', Quarantine(bad))
    ensures Tracked(m') && (Closed(m') <==> Fine(m, Quarantine(bad)))
  {
    hide StoreStep, Closed, Tracked, Survives, StillNamedBy;
    if m.op.Pin? && m.op.p.phase == Undoing {
      QuarantineUndoing(c, m, m', bad);
    } else {
      QuarantineClosed(c, m, m', bad);
      QuarantineOutside(c, m, m', bad);
    }
  }

  lemma RemoveTracked(c: Config, m: Machine, m': Machine, step: Step)
    requires Closed(m) && Tracked(m) && StoreStep(c, m, m', step) && (step.RemoveFile? || step.RemovalDone?)
    ensures Tracked(m') && (Closed(m') <==> Fine(m, step))
  {
    hide Total, Written, Referenced, VerifyKey, Wants, RecOf, UniqueRoots, Rooted, AllListed, SingleClaims, NoRepeats, Listed, Recs;
    assert Committed(m') == Committed(m);
  }

  lemma IndexTracked(c: Config, m: Machine, m': Machine, step: Step)
    requires Closed(m) && Tracked(m) && StoreStep(c, m, m', step) && (step.IndexOk? || step.IndexFail?)
    ensures Tracked(m') && (Closed(m') <==> Fine(m, step))
  {
    hide Total, Written, Referenced, VerifyKey, Wants, RecOf, UniqueRoots, Rooted, AllListed, SingleClaims, NoRepeats, Listed;
    assert Committed(m') == Committed(m);
    if step.IndexOk? {
      WrittenLists(step.recs, m.s.pins);
      FewerPins(Doc(step.recs), m.s.pins, Committed(m));
    }
  }

  lemma MarkTracked(c: Config, m: Machine, m': Machine, step: Step)
    requires Closed(m) && Tracked(m) && StoreStep(c, m, m', step) && step.MarkVerified?
    ensures Tracked(m') && (Closed(m') <==> Fine(m, step))
  {
    hide Total, Written, Referenced, VerifyKey, Wants, RecOf, UniqueRoots, Rooted, AllListed, SingleClaims, NoRepeats, Listed, Recs;
    assert Committed(m') == Committed(m);
  }

  // ----- restarts -----

  lemma ToFromDisk(d: DiskRec)
    requires d.root.Some? && forall i :: 0 <= i < |d.objects| ==> d.objects[i].Some?
    ensures ToDisk(FromDisk(d)) == d
  {
    assert ToDisk(FromDisk(d)).objects == d.objects;
  }

  /** Every pin a restart keeps was listed by the index, and has all its objects on disk. */
  lemma BootPins(files: map<Key, Bytes>, index: Index)
    ensures var pins := LoadedPins(Recs(index), files);
      Rooted(pins) && AllListed(index, pins) && Referenced(pins) <= LoadedKeys(Recs(index), files) <= files.Keys
  {
    hide LoadedPins, LoadedKeys, Complete;
    var recs := Recs(index);
    var pins := LoadedPins(recs, files);
    forall k | k in pins
      ensures pins[k].root == k && |pins[k].objects| > 0 && Listed(index, pins[k])
      ensures forall o :: o in pins[k].objects ==> o in LoadedKeys(recs, files)
    {
      LoadedPinsHold(recs, files, k);
      var i :| Source(recs, files, pins[k], i);
      SourceListed(recs, files, pins[k], i);
    }
  }

  lemma SourceListed(recs: seq<DiskRec>, files: map<Key, Bytes>, r: Rec, i: int)
    requires Source(recs, files, r, i)
    ensures ToDisk(r) in recs
  {
    ToFromDisk(recs[i]);
  }

  /** A restart of any disk whose index names each root once is closed, whatever the files hold. */
  lemma BootClosed(files: map<Key, Bytes>, index: Index)
    requires index != Unusable && UniqueRoots(Recs(index))
    ensures Closed(Boot(files, index)) && Tracked(Boot(files, index))
  {
    hide LoadedPins, LoadedKeys, UniqueRoots, Rooted, AllListed, Referenced, Total;
    BootPins(files, index);
    UniqueRootsReferenced(Recs(index), files);
    assert SizesOn(LoadedKeys(Recs(index), files), files).Keys == LoadedKeys(Recs(index), files);
  }

  lemma CrashTracked(c: Config, m: Machine, m': Machine)
    requires Closed(m) && StoreStep(c, m, m', Crash)
    ensures Tracked(m') && Closed(m')
  {
    BootClosed(m.s.files, m.s.index);
  }

  /** One step, crashes included, keeps the store closed exactly when it is fine. */
  lemma StepClosed(c: Config, m: Machine, m': Machine, step: Step)
    requires Closed(m) && Tracked(m) && StoreStep(c, m, m', step)
    ensures Tracked(m') && (Closed(m') <==> Fine(m, step))
  {
    hide Closed, Tracked, StoreStep, Survives, StillNamedBy, Uncommitted;
    match step
    case StartPin(_, _, _, _) => StartTracked(c, m, m', step);
    case CountPresent => ScanTracked(c, m, m', step);
    case CheckNew(_) => ScanTracked(c, m, m', step);
    case GiveUp => StoreTracked(c, m, m', step);
    case StoreOk => StoreTracked(c, m, m', step);
    case StoreFail => StoreTracked(c, m, m', step);
    case Register => RegisterTracked(c, m, m');
    case Commit => CommitTracked(c, m, m');
    case CommitOk(recs) => CommitOkTracked(c, m, m', recs);
    case CommitFail => CommitFailTracked(c, m, m');
    case Uncommit => UncommitTracked(c, m, m');
    case Rollback => RollbackTracked(c, m, m');
    case Release => ReleaseTracked(c, m, m');
    case Unpin(root) => UnpinTracked(c, m, m', root);
    case Quarantine(bad) => QuarantineTracked(c, m, m', bad);
    case RemoveFile(_) => RemoveTracked(c, m, m', step);
    case RemovalDone => RemoveTracked(c, m, m', step);
    case IndexOk(_) => IndexTracked(c, m, m', step);
    case IndexFail => IndexTracked(c, m, m', step);
    case MarkVerified(_) => MarkTracked(c, m, m', step);
    case Crash => CrashTracked(c, m, m');
  }

  // ----- whole runs -----

  ghost predicate AllFine(ms: seq<Machine>, steps: seq<Step>)
    requires |ms| == |steps| + 1
  {
    forall i :: 0 <= i < |steps| ==> Fine(ms[i], steps[i])
  }

  lemma {:induction false} RunClosed(c: Config, ms: seq<Machine>, steps: seq<Step>, n: nat)
    requires IsRun(c, ms, steps) && Closed(ms[0]) && Tracked(ms[0]) && n < |ms|
    requires forall i :: 0 <= i < n ==> Fine(ms[i], steps[i]) || Closed(ms[i + 1])
    ensures Closed(ms[n]) && Tracked(ms[n])
  {
    hide Closed, Tracked, StoreStep, Fine;
    if n > 0 {
      RunClosed(c, ms, steps, n - 1);
      StepClosed(c, ms[n - 1], ms[n], steps[n - 1]);
    }
  }

  /** A run from a restart, with crashes and quarantines anywhere, stays closed throughout exactly when every step is fine. */
  lemma RunClosedExact(c: Config, ms: seq<Machine>, steps: seq<Step>)
    requires IsRun(c, ms, steps) && Closed(ms[0]) && Tracked(ms[0])
    ensures (forall n :: 0 <= n < |ms| ==> Closed(ms[n])) <==> AllFine(ms, steps)
  {
    hide Closed, Tracked, StoreStep, Fine;
    if AllFine(ms, steps) {
      forall n | 0 <= n < |ms|
        ensures Closed(ms[n])
      {
        RunClosed(c, ms, steps, n);
      }
    }
    if forall n :: 0 <= n < |ms| ==> Closed(ms[n]) {
      forall i | 0 <= i < |steps|
        ensures Fine(ms[i], steps[i])
      {
        RunClosed(c, ms, steps, i);
        StepClosed(c, ms[i], ms[i + 1], steps[i]);
      }
    }
  }
}
