/**
 The autoscaler around the detector: a pool of nodes, ticks that read, decide and dispatch, and scale operations that run
 beside them. No change of size crosses a node bound when no operation ends between the decision of a tick and its dispatch;
 otherwise a change may cross a bound by one node, and does so exactly when the bound leaves no room at the dispatch.
 */
module Autoscale {
  import opened Common
  import D = Detector

  datatype Node = Node(id: string, addr: string, region: string)

  datatype Member = Member(node: Node, healthy: bool, draining: bool, load: real)

  type Members = map<string, Member>

  predicate Routable(m: Member) {
    m.healthy && !m.draining
  }

  // ----- the order in which nodes are given up -----

  /** Lexicographic order of ids. */
  predicate Less(a: string, b: string) {
    |b| > 0 && (|a| == 0 || a[0] < b[0] || (a[0] == b[0] && Less(a[1..], b[1..])))
  }

  /** One id is less than another when it is a proper part of its front, or smaller at the first place where they differ. */
  lemma {:induction false} LessExact(a: string, b: string)
    ensures Less(a, b) <==> exists i :: Differs(a, b, i)
    decreases |a|
  {
    if Less(a, b) {
      if |a| == 0 || a[0] < b[0] {
        assert Differs(a, b, 0);
      } else {
        LessExact(a[1..], b[1..]);
        var i :| Differs(a[1..], b[1..], i);
        assert a[..i + 1] == [a[0]] + a[1..][..i] && b[..i + 1] == [b[0]] + b[1..][..i];
        assert Differs(a, b, i + 1);
      }
    }
    forall i | Differs(a, b, i)
      ensures Less(a, b)
    {
      if i > 0 {
        assert a[..i][0] == a[0] && b[..i][0] == b[0];
        assert a[1..][..i - 1] == a[..i][1..] && b[1..][..i - 1] == b[..i][1..];
        assert Differs(a[1..], b[1..], i - 1);
        LessExact(a[1..], b[1..]);
      }
    }
  }

  ghost predicate Differs(a: string, b: string, i: int) {
    0 <= i <= |a| && i < |b| && a[..i] == b[..i] && (i == |a| || a[i] < b[i])
  }

  lemma {:induction false} LessTrans(a: string, b: string, c: string)
    requires Less(a, b) && Less(b, c)
    ensures Less(a, c)
  {
    if |a| > 0 && a[0] == b[0] == c[0] {
      LessTrans(a[1..], b[1..], c[1..]);
    }
  }

  lemma {:induction false} LessTotal(a: string, b: string)
    ensures a != b ==> Less(a, b) || Less(b, a)
  {
    if |a| > 0 && |b| > 0 && a[0] == b[0] {
      LessTotal(a[1..], b[1..]);
      assert a == [a[0]] + a[1..] && b == [b[0]] + b[1..];
    }
  }

  /** Whether one node is given up before another: first what serves nobody, then the least loaded, then by id. */
  predicate Before(ms: Members, a: string, b: string)
    requires a in ms && b in ms
  {
    if Routable(ms[a]) != Routable(ms[b]) then !Routable(ms[a])
    else if ms[a].load != ms[b].load then ms[a].load < ms[b].load
    else Less(a, b)
  }

  lemma BeforeTrans(ms: Members, a: string, b: string, c: string)
    requires a in ms && b in ms && c in ms && Before(ms, a, b) && Before(ms, b, c)
    ensures Before(ms, a, c)
  {
    if Less(a, b) && Less(b, c) {
      LessTrans(a, b, c);
    }
  }

  lemma BeforeTotal(ms: Members, a: string, b: string)
    requires a in ms && b in ms && a != b
    ensures Before(ms, a, b) || Before(ms, b, a)
  {
    LessTotal(a, b);
  }

  /** The node given up first, of all but self. */
  ghost predicate First(ms: Members, self: string, id: string) {
    id in ms && id != self && forall k :: k in ms && k != self && k != id ==> Before(ms, id, k)
  }

  // ----- the pool -----

  /** White space as Unicode defines it. */
  predicate IsSpace(c: char) {
    || c in "\t\n\r " || c == '\U{B}' || c == '\U{C}' || c == '\U{85}' || c == '\U{A0}' || c == '\U{1680}'
    || '\U{2000}' <= c <= '\U{200A}' || c == '\U{2028}' || c == '\U{2029}' || c == '\U{202F}' || c == '\U{205F}' || c == '\U{3000}'
  }

  predicate Blank(s: string) {
    forall c :: c in s ==> IsSpace(c)
  }

  function Added(ms: Members, n: Node): Members {
    if Blank(n.id) then ms
    else if n.id in ms then ms[n.id := ms[n.id].(node := n)]
    else ms[n.id := Member(n, true, false, 0.0)]
  }

  function Marked(ms: Members, id: string, draining: bool): Members {
    if id in ms then ms[id := ms[id].(draining := draining)] else ms
  }

  class Pool {
    var members: Members

    constructor ()
      ensures members == map[]
    {
      members := map[];
    }

    method Add(n: Node)
      modifies this
      ensures members == Added(old(members), n)
      ensures Blank(n.id) ==> members == old(members)
      ensures !Blank(n.id) ==>
        && n.id in members && members[n.id].node == n
        && (if n.id in old(members) then members[n.id] == old(members)[n.id].(node := n)
            else members[n.id].healthy && !members[n.id].draining && members[n.id].load == 0.0)
        && forall k :: k != n.id ==> (k in members <==> k in old(members)) && (k in members ==> members[k] == old(members)[k])
    {
      if Blank(n.id) {
        return;
      }
      if n.id in members {
        members := members[n.id := members[n.id].(node := n)];
        return;
      }
      members := members[n.id := Member(n, true, false, 0.0)];
    }

    /** Picks the node to give up, the same one in whatever order the members are visited; none if there is only self. */
    method DrainCandidate(self: string) returns (best: Option<string>)
      ensures best.None? <==> members.Keys <= {self}
      ensures best.Some? ==> First(members, self, best.value)
      ensures best.Some? ==> best.value in members && best.value != self && forall k :: k in members && k != self && k != best.value ==>
        var m, n := members[best.value], members[k];
        if (m.healthy && !m.draining) != (n.healthy && !n.draining) then !m.healthy || m.draining
        else m.load < n.load || (m.load == n.load && Less(best.value, k))
    {
      hide Before, Less;
      best := None;
      var left := members.Keys;
      while left != {}
        invariant left <= members.Keys
        invariant best.None? ==> members.Keys <= left + {self}
        invariant best.Some? ==> best.value in members && best.value != self && best.value !in left
        invariant best.Some? ==>
          forall k :: k in members && k !in left && k != self && k != best.value ==> Before(members, best.value, k)
        decreases left
      {
        var k :| k in left;
        left := left - {k};
        if k != self {
          if best.None? {
            best := Some(k);
          } else {
            BeforeTotal(members, k, best.value);
            if Before(members, k, best.value) {
              forall x | x in members && x !in left && x != self && x != k && x != best.value
                ensures Before(members, k, x)
              {
                BeforeTrans(members, k, best.value, x);
              }
              best := Some(k);
            }
          }
        }
      }
      if best.Some? {
        FirstMeans(members, self, best.value);
      }
    }
  }

  /** What it means to go first. */
  lemma FirstMeans(ms: Members, self: string, id: string)
    requires First(ms, self, id)
    ensures forall k :: k in ms && k != self && k != id ==>
      var m, n := ms[id], ms[k];
      if (m.healthy && !m.draining) != (n.healthy && !n.draining) then !m.healthy || m.draining
      else m.load < n.load || (m.load == n.load && Less(id, k))
  {
    hide Less;
  }

  lemma FirstUnique(ms: Members, self: string, a: string, b: string)
    requires First(ms, self, a) && First(ms, self, b)
    ensures a == b
  {
    hide Before;
    if a != b {
      BeforeAsym(ms, a, b);
    }
  }

  lemma BeforeAsym(ms: Members, a: string, b: string)
    requires a in ms && b in ms && Before(ms, a, b) && a != b
    ensures !Before(ms, b, a)
  {
    if Less(a, b) && Less(b, a) {
      LessTrans(a, b, a);
      LessIrreflexive(a);
    }
  }

  lemma {:induction false} LessIrreflexive(a: string)
    ensures !Less(a, a)
  {
    if |a| > 0 {
      LessIrreflexive(a[1..]);
    }
  }

  // ----- the machine -----

  /** A scale operation under way; Finished has yet to clear the flag. */
  datatype Op = Provision | Decommission | Teardown(id: string) | Finished

  /** The flag and the operations it guards, the detector, and a decision a tick has yet to dispatch. */
  datatype World = World(pool: Members, det: D.State, scaling: bool, ops: seq<Op>, pending: D.Action)

  datatype Step =
    | Decide(ratio: real, now: int)
    | Dispatch
    | Provisioned(i: nat, node: Option<Node>)
    | Choose(i: nat, candidate: Option<string>)
    | Decommissioned(i: nat, ok: bool)
    | Release(i: nat)
    | Report(id: string, healthy: bool, load: real)

  function Decided(c: D.Config, w: World, ratio: real, now: int): World {
    var (det, action) := D.Observed(c, w.det, ratio, |w.pool|, now);
    w.(det := det, pending := action)
  }

  /** Starts the pending operation unless one is in flight, in which case the decision is dropped. */
  function Dispatched(w: World): World {
    if w.pending.NoAction? then w
    else if w.scaling then w.(pending := D.NoAction)
    else w.(scaling := true, pending := D.NoAction,
            ops := w.ops + [if w.pending.ScaleUp? then Provision else Decommission])
  }

  ghost predicate Next(c: D.Config, self: string, w: World, step: Step, w': World) {
    match step
    case Decide(ratio, now) => w.pending.NoAction? && w' == Decided(c, w, ratio, now)
    case Dispatch => !w.pending.NoAction? && w' == Dispatched(w)
    case Provisioned(i, node) =>
      && i < |w.ops| && w.ops[i].Provision?
      && w' == w.(ops := w.ops[i := Finished], pool := if node.Some? then Added(w.pool, node.value) else w.pool)
    case Choose(i, id) =>
      && i < |w.ops| && w.ops[i].Decommission?
      && (if id.Some? then First(w.pool, self, id.value) else w.pool.Keys <= {self})
      && w' == if id.Some? then w.(ops := w.ops[i := Teardown(id.value)], pool := Marked(w.pool, id.value, true))
               else w.(ops := w.ops[i := Finished])
    case Decommissioned(i, ok) =>
      && i < |w.ops| && w.ops[i].Teardown?
      && w' == w.(ops := w.ops[i := Finished],
                  pool := if ok then w.pool - {w.ops[i].id} else Marked(w.pool, w.ops[i].id, false))
    case Release(i) =>
      && i < |w.ops| && w.ops[i].Finished?
      && w' == w.(ops := Without(w.ops, i), scaling := false)
    case Report(id, healthy, load) =>
      w' == if id in w.pool then w.(pool := w.pool[id := w.pool[id].(healthy := healthy, load := load)]) else w
  }

  /** Nothing is under way. The pool is whatever it is: too small, too large, with self or without. */
  ghost predicate Start(w: World) {
    w == World(w.pool, D.INITIAL, false, [], D.NoAction)
  }

  ghost predicate IsRun(c: D.Config, self: string, ws: seq<World>, steps: seq<Step>) {
    && |ws| == |steps| + 1 && Start(ws[0])
    && forall i :: 0 <= i < |steps| ==> Next(c, self, ws[i], steps[i], ws[i + 1])
  }

  predicate Ends(step: Step) {
    step.Provisioned? || step.Decommissioned?
  }

  /** No operation ends while a decision waits for its dispatch. */
  ghost predicate Undisturbed(ws: seq<World>, steps: seq<Step>)
    requires |ws| == |steps| + 1
  {
    forall i :: 0 <= i < |steps| && Ends(steps[i]) ==> ws[i].pending.NoAction?
  }

  ghost predicate Growing(w: World) {
    |w.ops| == 1 && w.ops[0].Provision?
  }

  ghost predicate Shrinking(w: World) {
    |w.ops| == 1 && (w.ops[0].Decommission? || w.ops[0].Teardown?)
  }

  /** The flag guards at most one operation, and self is not the one torn down. */
  ghost predicate Guarded(self: string, w: World) {
    && |w.ops| <= 1 && (w.scaling <==> |w.ops| == 1)
    && forall i :: 0 <= i < |w.ops| && w.ops[i].Teardown? ==> w.ops[i].id != self && w.ops[i].id in w.pool
  }

  /** What is decided or under way still has room. */
  ghost predicate Roomy(c: D.Config, w: World) {
    && (Growing(w) || w.pending.ScaleUp? ==> D.Room(c, true, |w.pool|))
    && (Shrinking(w) || w.pending.ScaleDown? ==> D.Room(c, false, |w.pool|))
  }

  /** What is decided or under way has room for itself, or would have but for one node. */
  ghost predicate NearlyRoomy(c: D.Config, w: World) {
    && (Growing(w) ==> D.Room(c, true, |w.pool| - 1))
    && (w.pending.ScaleUp? ==> D.Room(c, true, |w.pool| - if Growing(w) then 0 else 1))
    && (Shrinking(w) ==> D.Room(c, false, |w.pool| + 1))
    && (w.pending.ScaleDown? ==> D.Room(c, false, |w.pool| + if Shrinking(w) then 0 else 1))
  }

  /** A step crosses neither bound by more than the slack, and does not lose self. */
  ghost predicate Within(c: D.Config, self: string, w: World, w': World, slack: nat) {
    && (|w'.pool| > |w.pool| && c.maxNodes > 0 ==> |w'.pool| <= c.maxNodes + slack)
    && (|w'.pool| < |w.pool| ==> |w'.pool| >= c.minNodes - slack)
    && (self in w.pool ==> self in w'.pool)
  }

  /** What a step may do to the pool. */
  lemma SizeStep(c: D.Config, self: string, w: World, step: Step, w': World)
    requires Guarded(self, w) && Next(c, self, w, step, w')
    ensures !Ends(step) ==> w'.pool.Keys == w.pool.Keys && |w'.pool| == |w.pool|
    ensures step.Provisioned? ==> Growing(w) && |w.pool| <= |w'.pool| <= |w.pool| + 1
    ensures step.Decommissioned? ==> Shrinking(w) && |w.pool| - 1 <= |w'.pool| <= |w.pool|
    ensures self in w.pool ==> self in w'.pool
  {
    hide First, D.Observed, Blank, Added;
    if step.Provisioned? {
      ProvisionedStep(c, self, w, step, w');
    } else if step.Decommissioned? {
      DecommissionedStep(c, self, w, step, w');
    } else {
      KeysCount(w.pool);
      KeysCount(w'.pool);
    }
  }

  lemma ProvisionedStep(c: D.Config, self: string, w: World, step: Step, w': World)
    requires Guarded(self, w) && Next(c, self, w, step, w') && step.Provisioned?
    ensures Growing(w) && |w.pool| <= |w'.pool| <= |w.pool| + 1 && w.pool.Keys <= w'.pool.Keys
  {
    hide Blank, Added;
    if step.node.Some? {
      AddedCount(w.pool, step.node.value);
    }
  }

  lemma DecommissionedStep(c: D.Config, self: string, w: World, step: Step, w': World)
    requires Guarded(self, w) && Next(c, self, w, step, w') && step.Decommissioned?
    ensures Shrinking(w) && |w.pool| - 1 <= |w'.pool| <= |w.pool| && (self in w.pool ==> self in w'.pool)
  {
    var id := w.ops[step.i].id;
    RemovedCount(w.pool, id);
    KeysCount(w.pool);
    KeysCount(w'.pool);
    assert Marked(w.pool, id, false).Keys == w.pool.Keys;
  }

  lemma KeysCount(ms: Members)
    ensures |ms| == |ms.Keys|
  {
  }

  lemma AddedCount(ms: Members, n: Node)
    ensures Added(ms, n).Keys == if Blank(n.id) then ms.Keys else ms.Keys + {n.id}
    ensures |ms| <= |Added(ms, n)| <= |ms| + 1
  {
    hide Blank;
    KeysCount(ms);
    KeysCount(Added(ms, n));
    assert n.id in ms ==> ms.Keys + {n.id} == ms.Keys;
  }

  lemma RemovedCount(ms: Members, id: string)
    requires id in ms
    ensures |ms - {id}| == |ms| - 1
  {
    KeysCount(ms);
    KeysCount(ms - {id});
    assert (ms - {id}).Keys == ms.Keys - {id};
  }

  lemma GuardedStep(c: D.Config, self: string, w: World, step: Step, w': World)
    requires Guarded(self, w) && Next(c, self, w, step, w')
    ensures Guarded(self, w')
  {
    hide D.Observed, Before, Blank;
    SizeStep(c, self, w, step, w');
  }

  /** A decision had room when it was made. */
  lemma DecidedRoom(c: D.Config, w: World, ratio: real, now: int)
    ensures var a := Decided(c, w, ratio, now).pending;
      && (a.ScaleUp? ==> D.Room(c, true, |w.pool|))
      && (a.ScaleDown? ==> D.Room(c, false, |w.pool|))
  {
  }

  lemma UndisturbedStep(c: D.Config, self: string, w: World, step: Step, w': World)
    requires Guarded(self, w) && Next(c, self, w, step, w') && (Ends(step) ==> w.pending.NoAction?)
    requires Roomy(c, w)
    ensures Roomy(c, w') && Within(c, self, w, w', 0)
  {
    hide D.Observed, Before, Blank, First, Added, Marked;
    SizeStep(c, self, w, step, w');
    if step.Decide? {
      DecidedRoom(c, w, step.ratio, step.now);
    }
  }

  lemma AnyStep(c: D.Config, self: string, w: World, step: Step, w': World)
    requires Guarded(self, w) && Next(c, self, w, step, w') && NearlyRoomy(c, w)
    ensures NearlyRoomy(c, w') && Within(c, self, w, w', 1)
  {
    hide D.Observed, Before, Blank, First, Added, Marked;
    SizeStep(c, self, w, step, w');
    if step.Decide? {
      DecidedRoom(c, w, step.ratio, step.now);
    }
  }

  lemma {:induction false} RunGuarded(c: D.Config, self: string, ws: seq<World>, steps: seq<Step>, n: nat)
    requires IsRun(c, self, ws, steps) && n < |ws|
    ensures Guarded(self, ws[n]) && NearlyRoomy(c, ws[n])
    decreases n
  {
    hide Next;
    if n > 0 {
      RunGuarded(c, self, ws, steps, n - 1);
      assert Next(c, self, ws[n - 1], steps[n - 1], ws[n]);
      GuardedStep(c, self, ws[n - 1], steps[n - 1], ws[n]);
      AnyStep(c, self, ws[n - 1], steps[n - 1], ws[n]);
    }
  }

  lemma {:induction false} RunRoomy(c: D.Config, self: string, ws: seq<World>, steps: seq<Step>, n: nat)
    requires IsRun(c, self, ws, steps) && Undisturbed(ws, steps) && n < |ws|
    ensures Roomy(c, ws[n])
    decreases n
  {
    hide Next, Guarded;
    if n > 0 {
      RunRoomy(c, self, ws, steps, n - 1);
      RunGuarded(c, self, ws, steps, n - 1);
      assert Next(c, self, ws[n - 1], steps[n - 1], ws[n]);
      UndisturbedStep(c, self, ws[n - 1], steps[n - 1], ws[n]);
    }
  }

  /**
   In every run in which no operation ends while a decision is pending, from a pool of any size: one operation at most,
   no growth past the ceiling, no removal below the floor, and self stays.
   */
  lemma BoundsKept(c: D.Config, self: string, ws: seq<World>, steps: seq<Step>, n: nat)
    requires IsRun(c, self, ws, steps) && Undisturbed(ws, steps) && n < |steps|
    ensures |ws[n].ops| <= 1 && Within(c, self, ws[n], ws[n + 1], 0)
  {
    hide Next, Roomy;
    RunGuarded(c, self, ws, steps, n);
    RunRoomy(c, self, ws, steps, n);
    assert Next(c, self, ws[n], steps[n], ws[n + 1]);
    UndisturbedStep(c, self, ws[n], steps[n], ws[n + 1]);
  }

  /** A pool that starts within both bounds therefore stays within them. */
  lemma {:induction false} BoundsHold(c: D.Config, self: string, ws: seq<World>, steps: seq<Step>, n: nat)
    requires IsRun(c, self, ws, steps) && Undisturbed(ws, steps) && n < |ws|
    requires (c.maxNodes > 0 ==> |ws[0].pool| <= c.maxNodes) && |ws[0].pool| >= c.minNodes
    ensures (c.maxNodes > 0 ==> |ws[n].pool| <= c.maxNodes) && |ws[n].pool| >= c.minNodes
    decreases n
  {
    hide IsRun, Undisturbed;
    if n > 0 {
      assert |ws| == |steps| + 1 by { RunLength(c, self, ws, steps); }
      BoundsHold(c, self, ws, steps, n - 1);
      BoundsKept(c, self, ws, steps, n - 1);
    }
  }

  lemma RunLength(c: D.Config, self: string, ws: seq<World>, steps: seq<Step>)
    requires IsRun(c, self, ws, steps)
    ensures |ws| == |steps| + 1
  {
  }

  /** In every run at all, from a pool of any size, a change crosses a bound by one node at most. */
  lemma BoundsMissedByOne(c: D.Config, self: string, ws: seq<World>, steps: seq<Step>, n: nat)
    requires IsRun(c, self, ws, steps) && n < |steps|
    ensures |ws[n].ops| <= 1 && Within(c, self, ws[n], ws[n + 1], 1)
  {
    hide Next, NearlyRoomy;
    RunGuarded(c, self, ws, steps, n);
    assert Next(c, self, ws[n], steps[n], ws[n + 1]);
    AnyStep(c, self, ws[n], steps[n], ws[n + 1]);
  }

  // ----- no node is left draining -----

  /** The node being torn down. */
  ghost predicate TornDown(w: World, k: string) {
    |w.ops| == 1 && w.ops[0] == Teardown(k)
  }

  /** A node is draining just while it is being torn down, unless it was draining from the start. */
  ghost predicate DrainsFor(start: Members, w: World) {
    && (forall k :: k in w.pool && w.pool[k].draining ==> TornDown(w, k) || (k in start && start[k].draining))
    && (forall k :: k in w.pool && TornDown(w, k) ==> w.pool[k].draining)
  }

  lemma DrainStep(c: D.Config, self: string, start: Members, w: World, step: Step, w': World)
    requires Guarded(self, w) && Next(c, self, w, step, w') && DrainsFor(start, w)
    ensures DrainsFor(start, w')
    ensures step.Decommissioned? && !step.ok ==> w.ops[step.i].id in w'.pool && !w'.pool[w.ops[step.i].id].draining
  {
    hide D.Observed, First, Blank;
    if step.Provisioned? {
      AddDrains(c, self, start, w, step, w');
    } else if step.Choose? || step.Decommissioned? {
      MarkDrains(c, self, start, w, step, w');
    }
  }

  lemma MarkDrains(c: D.Config, self: string, start: Members, w: World, step: Step, w': World)
    requires Guarded(self, w) && Next(c, self, w, step, w') && DrainsFor(start, w) && (step.Choose? || step.Decommissioned?)
    ensures DrainsFor(start, w')
    ensures step.Decommissioned? && !step.ok ==> w.ops[step.i].id in w'.pool && !w'.pool[w.ops[step.i].id].draining
  {
    hide Before;
  }

  lemma AddDrains(c: D.Config, self: string, start: Members, w: World, step: Step, w': World)
    requires Guarded(self, w) && Next(c, self, w, step, w') && DrainsFor(start, w) && step.Provisioned?
    ensures DrainsFor(start, w')
  {
    hide Blank;
  }

  /** In every run a node is draining only while it is torn down, so a decommission that fails strands no node. */
  lemma {:induction false} RunDrains(c: D.Config, self: string, ws: seq<World>, steps: seq<Step>, n: nat)
    requires IsRun(c, self, ws, steps) && n < |ws|
    ensures DrainsFor(ws[0].pool, ws[n])
    decreases n
  {
    hide Next, Guarded, NearlyRoomy, DrainsFor;
    if n == 0 {
      StartDrains(ws[0]);
    } else {
      RunDrains(c, self, ws, steps, n - 1);
      RunGuarded(c, self, ws, steps, n - 1);
      assert Next(c, self, ws[n - 1], steps[n - 1], ws[n]);
      DrainStep(c, self, ws[0].pool, ws[n - 1], steps[n - 1], ws[n]);
    }
  }

  lemma StartDrains(w: World)
    requires Start(w)
    ensures DrainsFor(w.pool, w)
  {
  }

  // ----- exactly when an operation crosses a bound -----

  /** A dispatch that starts an operation. */
  ghost predicate Starts(w: World, step: Step) {
    step.Dispatch? && !w.pending.NoAction? && !w.scaling
  }

  lemma {:induction false} SizeKept(c: D.Config, self: string, ws: seq<World>, steps: seq<Step>, a: nat, n: nat)
    requires IsRun(c, self, ws, steps) && a <= n < |ws| && forall i :: a <= i < n ==> !Ends(steps[i])
    ensures |ws[n].pool| == |ws[a].pool|
    decreases n
  {
    hide Next, Guarded, NearlyRoomy;
    if a < n {
      SizeKept(c, self, ws, steps, a, n - 1);
      RunGuarded(c, self, ws, steps, n - 1);
      assert Next(c, self, ws[n - 1], steps[n - 1], ws[n]);
      SizeStep(c, self, ws[n - 1], steps[n - 1], ws[n]);
    }
  }

  /**
   An operation that changes the size crosses its bound exactly when the bound left no room at its dispatch, whatever the
   size was when it was decided on.
   */
  lemma CrossesExact(c: D.Config, self: string, ws: seq<World>, steps: seq<Step>, a: nat, b: nat)
    requires IsRun(c, self, ws, steps) && a < b < |steps| && Starts(ws[a], steps[a])
    requires Ends(steps[b]) && forall i :: a < i < b ==> !Ends(steps[i]) && !Starts(ws[i], steps[i])
    requires |ws[b + 1].pool| != |ws[b].pool|
    ensures var up := ws[a].pending.ScaleUp?;
      && (up <==> |ws[b + 1].pool| > |ws[b].pool|)
      && (D.Room(c, up, |ws[a].pool|) <==>
          if up then c.maxNodes > 0 ==> |ws[b + 1].pool| <= c.maxNodes else |ws[b + 1].pool| >= c.minNodes)
  {
    hide Next, Guarded, NearlyRoomy;
    SizeKept(c, self, ws, steps, a + 1, b);
    StartedRun(c, self, ws, steps, a, b);
    RunGuarded(c, self, ws, steps, a);
    RunGuarded(c, self, ws, steps, b);
    assert Next(c, self, ws[a], steps[a], ws[a + 1]) && Next(c, self, ws[b], steps[b], ws[b + 1]);
    SizeStep(c, self, ws[a], steps[a], ws[a + 1]);
    SizeStep(c, self, ws[b], steps[b], ws[b + 1]);
  }

  /** The operation that was started is under way, or it has come to nothing. */
  ghost predicate UnderWay(w: World, up: bool) {
    (Growing(w) ==> up) && (Shrinking(w) ==> !up)
  }

  lemma StartedStep(c: D.Config, self: string, w: World, step: Step, w': World)
    requires Guarded(self, w) && Next(c, self, w, step, w') && Starts(w, step)
    ensures UnderWay(w', w.pending.ScaleUp?)
  {
  }

  lemma UnderWayStep(c: D.Config, self: string, w: World, step: Step, w': World, up: bool)
    requires Guarded(self, w) && UnderWay(w, up) && Next(c, self, w, step, w') && !Starts(w, step)
    ensures UnderWay(w', up)
  {
    hide D.Observed, First, Added, Marked;
  }

  lemma {:induction false} StartedRun(c: D.Config, self: string, ws: seq<World>, steps: seq<Step>, a: nat, n: nat)
    requires IsRun(c, self, ws, steps) && a < n < |ws| && Starts(ws[a], steps[a])
    requires forall i :: a < i < n ==> !Starts(ws[i], steps[i])
    ensures UnderWay(ws[n], ws[a].pending.ScaleUp?)
    decreases n
  {
    hide Next, Guarded, NearlyRoomy, Starts, UnderWay;
    RunGuarded(c, self, ws, steps, n - 1);
    assert Next(c, self, ws[n - 1], steps[n - 1], ws[n]);
    if a + 1 == n {
      StartedStep(c, self, ws[a], steps[a], ws[n]);
    } else {
      StartedRun(c, self, ws, steps, a, n - 1);
      UnderWayStep(c, self, ws[n - 1], steps[n - 1], ws[n], ws[a].pending.ScaleUp?);
    }
  }

  // ----- runs that miss a bound -----

  const EAGER: D.Config := D.Config(0.8, 0.3, 0, 0, 1, 2)
  const EAGER_DOWN: D.Config := D.Config(0.8, 0.3, 0, 0, 2, 0)

  function Idle(id: string): Member {
    Member(Node(id, "", ""), true, false, 0.0)
  }

  function Overshoot(): (seq<World>, seq<Step>) {
    var one := map["a" := Idle("a")];
    var two := one["b" := Idle("b")];
    var three := two["c" := Idle("c")];
    var d := D.INITIAL;
    var d0 := D.State(None, None, Some(0));
    ([World(one, d, false, [], D.NoAction),
      World(one, d0, false, [], D.ScaleUp),
      World(one, d0, true, [Provision], D.NoAction),
      World(one, d0, true, [Provision], D.ScaleUp),
      World(two, d0, true, [Finished], D.ScaleUp),
      World(two, d0, false, [], D.ScaleUp),
      World(two, d0, true, [Provision], D.NoAction),
      World(three, d0, true, [Finished], D.NoAction)],
     [Decide(1.0, 0), Dispatch, Decide(1.0, 0), Provisioned(0, Some(Node("b", "", ""))), Release(0), Dispatch,
      Provisioned(0, Some(Node("c", "", "")))])
  }

  /** The pool grows to three nodes under a ceiling of two. */
  lemma CeilingMissed()
    ensures var (ws, steps) := Overshoot();
      IsRun(EAGER, "a", ws, steps) && |ws[7].pool| == 3 == EAGER.maxNodes + 1
  {
    hide Blank, First;
    var (ws, steps) := Overshoot();
    NotBlank();
    forall i | 0 <= i < |steps|
      ensures Next(EAGER, "a", ws[i], steps[i], ws[i + 1])
    {
      OvershootStep(i);
    }
    assert ws[7].pool.Keys == {"a", "b", "c"};
    KeysCount(ws[7].pool);
    KeysCount(ws[0].pool);
    assert ws[0].pool.Keys == {"a"};
  }

  lemma NotBlank()
    ensures !Blank("b") && !Blank("c")
  {
    assert 'b' in "b" && 'c' in "c";
  }

  lemma OvershootStep(i: nat)
    requires i < 7
    ensures var (ws, steps) := Overshoot(); Next(EAGER, "a", ws[i], steps[i], ws[i + 1])
  {
    hide Blank, First;
    NotBlank();
    var one := map["a" := Idle("a")];
    KeysCount(one);
    assert one.Keys == {"a"};
  }

  function Undershoot(): (seq<World>, seq<Step>) {
    var one := map["a" := Idle("a")];
    var two := one["c" := Idle("c")];
    var three := two["b" := Idle("b")];
    var d := D.INITIAL;
    var d0 := D.State(None, None, Some(0));
    ([World(three, d, false, [], D.NoAction),
      World(three, d0, false, [], D.ScaleDown),
      World(three, d0, true, [Decommission], D.NoAction),
      World(Marked(three, "b", true), d0, true, [Teardown("b")], D.NoAction),
      World(Marked(three, "b", true), d0, true, [Teardown("b")], D.ScaleDown),
      World(two, d0, true, [Finished], D.ScaleDown),
      World(two, d0, false, [], D.ScaleDown),
      World(two, d0, true, [Decommission], D.NoAction),
      World(Marked(two, "c", true), d0, true, [Teardown("c")], D.NoAction),
      World(one, d0, true, [Finished], D.NoAction)],
     [Decide(0.1, 0), Dispatch, Choose(0, Some("b")), Decide(0.1, 0), Decommissioned(0, true), Release(0), Dispatch,
      Choose(0, Some("c")), Decommissioned(0, true)])
  }

  /** The pool shrinks to one node above a floor of two. */
  lemma FloorMissed()
    ensures var (ws, steps) := Undershoot();
      IsRun(EAGER_DOWN, "a", ws, steps) && |ws[9].pool| == 1 == EAGER_DOWN.minNodes - 1
  {
    hide Next;
    var (ws, steps) := Undershoot();
    forall i | 0 <= i < |steps|
      ensures Next(EAGER_DOWN, "a", ws[i], steps[i], ws[i + 1])
    {
      UndershootStep(i);
    }
    UndershootSizes();
  }

  lemma UndershootSizes()
    ensures var ws := Undershoot().0; |ws[0].pool| == |ws[3].pool| == 3 && |ws[9].pool| == 1
  {
    var ws := Undershoot().0;
    KeysCount(ws[0].pool);
    KeysCount(ws[3].pool);
    KeysCount(ws[9].pool);
    assert ws[0].pool.Keys == ws[3].pool.Keys == {"a", "b", "c"} && ws[9].pool.Keys == {"a"};
  }

  lemma UndershootStep(i: nat)
    requires i < 9
    ensures var (ws, steps) := Undershoot(); Next(EAGER_DOWN, "a", ws[i], steps[i], ws[i + 1])
  {
    hide Next;
    if i in {4, 8} {
      UndershootRemovals(i);
    } else {
      UndershootOthers(i);
    }
  }

  lemma UndershootRemovals(i: nat)
    requires i in {4, 8}
    ensures var (ws, steps) := Undershoot(); Next(EAGER_DOWN, "a", ws[i], steps[i], ws[i + 1])
  {
    hide Less, First, D.Observed;
    var (ws, steps) := Undershoot();
    if i == 4 {
      assert Marked(ws[2].pool, "b", true) - {"b"} == ws[5].pool;
    } else {
      assert Marked(ws[7].pool, "c", true) - {"c"} == ws[9].pool;
    }
  }

  lemma UndershootOthers(i: nat)
    requires i < 9 && i !in {4, 8}
    ensures var (ws, steps) := Undershoot(); Next(EAGER_DOWN, "a", ws[i], steps[i], ws[i + 1])
  {
    hide Less, First, Marked;
    UndershootSizes();
    UndershootFirst();
  }

  lemma UndershootFirst()
    ensures var ws := Undershoot().0; First(ws[2].pool, "a", "b") && First(ws[7].pool, "a", "c")
  {
    assert Less("b", "c");
  }
}
