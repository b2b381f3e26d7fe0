/**
 What a pin is to do, decided before it touches the store: the objects it is to add, or the first reason to refuse it. The
 step-by-step plan is shown to be a condition on the whole list of wanted objects.
 */
module PinPlan {
  import opened Common
  import opened Manifest
  import opened PinModel
  import opened PinRuns

  datatype PinError = Budget | SourceFailed(error: Error) | Unverified(error: Error) | Io | NotFound | Forbidden

  datatype Judged = Take(body: Bytes) | Refuse(why: PinError)

  /** What happens to one object a pin wants and the store does not hold. */
  ghost function Judge(c: Config, k: Key, got: Result<Bytes>, pinBytes: nat, bytes: int): Judged {
    if got.Err? then Refuse(SourceFailed(got.error))
    else
      var body := got.value;
      var gate := VerifyKey(c.h, k, body);
      if gate.Err? then Refuse(Unverified(gate.error))
      else if c.maxObjBytes > 0 && |body| > c.maxObjBytes then Refuse(Budget)
      else if c.maxPinBytes > 0 && pinBytes + |body| > c.maxPinBytes then Refuse(Budget)
      else if c.maxBytes > 0 && bytes + |body| > c.maxBytes then Refuse(Budget)
      else Take(body)
  }

  /** The objects a pin is to add, or why it is to be refused. */
  datatype Plan = Gathered(added: map<Key, Bytes>) | Refused(why: PinError)

  /** The plan for the objects from the i-th on. */
  ghost function Gather(c: Config, objects: map<Key, nat>, bytes: int, ws: seq<Key>, i: nat, pinBytes: nat,
                        added: map<Key, Bytes>, rootBody: Bytes, src: Key -> Result<Bytes>): Plan
    requires i <= |ws|
    decreases |ws| - i
  {
    if i == |ws| then Gathered(added)
    else if ws[i] in objects then
      Gather(c, objects, bytes, ws, i + 1, pinBytes + objects[ws[i]], added, rootBody, src)
    else
      var j := Judge(c, ws[i], if i == 0 then Ok(rootBody) else src(ws[i]), pinBytes, bytes);
      if j.Refuse? then Refused(j.why)
      else
        var n := |j.body|;
        Gather(c, objects[ws[i] := n], bytes + n, ws, i + 1, pinBytes + n, added[ws[i] := j.body], rootBody, src)
  }

  lemma GatherNext(c: Config, objects: map<Key, nat>, bytes: int, ws: seq<Key>, i: nat, pinBytes: nat,
                   added: map<Key, Bytes>, rootBody: Bytes, src: Key -> Result<Bytes>)
    requires i <= |ws|
    ensures Gather(c, objects, bytes, ws, i, pinBytes, added, rootBody, src) ==
      if i == |ws| then Gathered(added)
      else if ws[i] in objects then
        Gather(c, objects, bytes, ws, i + 1, pinBytes + objects[ws[i]], added, rootBody, src)
      else
        var j := Judge(c, ws[i], if i == 0 then Ok(rootBody) else src(ws[i]), pinBytes, bytes);
        if j.Refuse? then Refused(j.why)
        else
          Gather(c, objects[ws[i] := |j.body|], bytes + |j.body|, ws, i + 1, pinBytes + |j.body|, added[ws[i] := j.body],
                 rootBody, src)
  {
    hide Judge;
  }

  /** The plan for a root that is not pinned yet. */
  ghost function Planned(c: Config, s: State, root: Key, src: Key -> Result<Bytes>): Plan {
    if c.maxPins > 0 && |s.pins| >= c.maxPins then Refused(Budget)
    else if src(root).Err? then Refused(SourceFailed(src(root).error))
    else
      var wants := Wants(c.h, root, src(root).value);
      if wants.Err? then Refused(SourceFailed(wants.error))
      else Gather(c, s.objects, s.bytes, wants.value, 0, 0, map[], src(root).value, src)
  }

  // ----- the plan as a condition -----

  /** A request as it stands before the pin: the limits, what is held, what is wanted, and where it is fetched. */
  datatype Ask = Ask(
    c: Config, objects: map<Key, nat>, bytes: int, wants: seq<Key>, rootBody: Bytes, src: Key -> Result<Bytes>)

  function Got(a: Ask, i: nat): Result<Bytes>
    requires i < |a.wants|
  {
    if i == 0 then Ok(a.rootBody) else a.src(a.wants[i])
  }

  /** The bytes of the first n wanted objects, those held at the size they are counted with. */
  function SizeUpTo(a: Ask, n: nat): nat
    requires n <= |a.wants|
  {
    if n == 0 then 0 else
      SizeUpTo(a, n - 1) +
      if a.wants[n - 1] in a.objects then a.objects[a.wants[n - 1]] else |Got(a, n - 1).GetOr([])|
  }

  /** The bytes of those among them that are not held. */
  function NewUpTo(a: Ask, n: nat): nat
    requires n <= |a.wants|
  {
    if n == 0 then 0 else NewUpTo(a, n - 1) + if a.wants[n - 1] in a.objects then 0 else |Got(a, n - 1).GetOr([])|
  }

  /** A wanted object is held, or is to be had, genuine, and fits every budget after all before it. */
  ghost predicate Fits(a: Ask, i: nat)
    requires i < |a.wants|
  {
    a.wants[i] in a.objects ||
    var got := Got(a, i);
    && got.Ok? && GenuineUnder(a.c.h, a.wants[i], got.value)
    && (a.c.maxObjBytes > 0 ==> |got.value| <= a.c.maxObjBytes)
    && (a.c.maxPinBytes > 0 ==> SizeUpTo(a, i + 1) <= a.c.maxPinBytes)
    && (a.c.maxBytes > 0 ==> a.bytes + NewUpTo(a, i + 1) <= a.c.maxBytes)
  }

  /** Why a wanted object that does not fit is refused. */
  ghost predicate Refuses(a: Ask, i: nat, why: PinError)
    requires i < |a.wants|
  {
    && !Fits(a, i)
    && var got := Got(a, i);
    if got.Err? then why == SourceFailed(got.error)
    else if GenuineUnder(a.c.h, a.wants[i], got.value) then why == Budget
    else why.Unverified?
  }

  /** What has been added once the first n wanted objects are in. */
  ghost predicate AddedBy(a: Ask, n: nat, added: map<Key, Bytes>)
    requires n <= |a.wants|
  {
    && (forall k :: k in added ==> k in a.wants[..n] && k !in a.objects)
    && (forall i :: 0 <= i < n && a.wants[i] !in a.objects ==>
      a.wants[i] in added && Got(a, i).Ok? && added[a.wants[i]] == Got(a, i).value)
  }

  /** The store while the plan is carried out: as it was, but for the objects added. */
  ghost predicate HeldStill(a: Ask, n: nat, objects: map<Key, nat>)
    requires n <= |a.wants|
  {
    forall i :: n <= i < |a.wants| ==>
      && (a.wants[i] in objects <==> a.wants[i] in a.objects)
      && (a.wants[i] in objects ==> objects[a.wants[i]] == a.objects[a.wants[i]])
  }

  lemma UpToNext(a: Ask, i: nat)
    requires i < |a.wants|
    ensures var held, n := a.wants[i] in a.objects, |Got(a, i).GetOr([])|;
      && SizeUpTo(a, i + 1) == SizeUpTo(a, i) + (if held then a.objects[a.wants[i]] else n)
      && NewUpTo(a, i + 1) == NewUpTo(a, i) + if held then 0 else n
  {
  }

  lemma JudgeExact(a: Ask, i: nat)
    requires i < |a.wants| && a.wants[i] !in a.objects
    ensures var j := Judge(a.c, a.wants[i], Got(a, i), SizeUpTo(a, i), a.bytes + NewUpTo(a, i));
      if j.Take? then Fits(a, i) && Got(a, i) == Ok(j.body) else Refuses(a, i, j.why)
  {
    hide VerifyKey, GenuineUnder, SizeUpTo, NewUpTo;
    UpToNext(a, i);
    if Got(a, i).Ok? {
      VerifyKeyExact(a.c.h, a.wants[i], Got(a, i).value);
    }
  }

  lemma AddedNext(a: Ask, i: nat, added: map<Key, Bytes>)
    requires NoRepeats(a.wants) && i < |a.wants| && AddedBy(a, i, added)
    ensures a.wants[i] in a.objects ==> AddedBy(a, i + 1, added)
    ensures a.wants[i] !in a.objects && Got(a, i).Ok? ==> AddedBy(a, i + 1, added[a.wants[i] := Got(a, i).value])
  {
    hide Got;
    assert a.wants[..i + 1] == a.wants[..i] + [a.wants[i]];
  }

  lemma HeldNext(a: Ask, i: nat, objects: map<Key, nat>, n: nat)
    requires NoRepeats(a.wants) && i < |a.wants| && HeldStill(a, i, objects)
    ensures HeldStill(a, i + 1, objects) && HeldStill(a, i + 1, objects[a.wants[i] := n])
  {
  }

  /** A plan from the i-th object on goes through with each of them, or stops at the first that does not fit. */
  ghost predicate Decides(a: Ask, i: nat, plan: Plan) {
    if plan.Gathered? then
      && (forall t :: i <= t < |a.wants| ==> Fits(a, t))
      && AddedBy(a, |a.wants|, plan.added)
    else exists t | i <= t < |a.wants| :: Refuses(a, t, plan.why) && forall u :: i <= u < t ==> Fits(a, u)
  }

  lemma DecidesFront(a: Ask, i: nat, plan: Plan)
    requires i < |a.wants| && Fits(a, i) && Decides(a, i + 1, plan)
    ensures Decides(a, i, plan)
  {
    hide Fits, Refuses, AddedBy;
  }

  lemma DecidesRefused(a: Ask, i: nat, why: PinError)
    requires i < |a.wants| && Refuses(a, i, why)
    ensures Decides(a, i, Refused(why))
  {
    hide Fits, Refuses, AddedBy;
  }

  lemma DecidesDone(a: Ask, added: map<Key, Bytes>)
    requires AddedBy(a, |a.wants|, added)
    ensures Decides(a, |a.wants|, Gathered(added))
  {
    hide Fits, Refuses, AddedBy;
  }

  lemma {:induction false} GatherExact(a: Ask, i: nat, objects: map<Key, nat>, added: map<Key, Bytes>)
    requires NoRepeats(a.wants) && i <= |a.wants| && HeldStill(a, i, objects) && AddedBy(a, i, added)
    ensures Decides(a, i, Gather(a.c, objects, a.bytes + NewUpTo(a, i), a.wants, i, SizeUpTo(a, i), added, a.rootBody, a.src))
    decreases |a.wants| - i
  {
    hide Gather, Judge, Fits, Refuses, AddedBy, Decides, SizeUpTo, NewUpTo, HeldStill, NoRepeats;
    GatherNext(a.c, objects, a.bytes + NewUpTo(a, i), a.wants, i, SizeUpTo(a, i), added, a.rootBody, a.src);
    if i == |a.wants| {
      DecidesDone(a, added);
    } else {
      var k := a.wants[i];
      UpToNext(a, i);
      AddedNext(a, i, added);
      HeldAt(a, i, objects);
      if k in a.objects {
        HeldNext(a, i, objects, 0);
        GatherExact(a, i + 1, objects, added);
        HeldFits(a, i);
        DecidesFront(a, i, Gather(a.c, objects, a.bytes + NewUpTo(a, i + 1), a.wants, i + 1, SizeUpTo(a, i + 1), added, a.rootBody, a.src));
      } else {
        JudgeExact(a, i);
        var j := Judge(a.c, k, Got(a, i), SizeUpTo(a, i), a.bytes + NewUpTo(a, i));
        if j.Take? {
          var n := |j.body|;
          HeldNext(a, i, objects, n);
          GatherExact(a, i + 1, objects[k := n], added[k := j.body]);
          DecidesFront(a, i, Gather(a.c, objects[k := n], a.bytes + NewUpTo(a, i + 1), a.wants, i + 1, SizeUpTo(a, i + 1),
                                    added[k := j.body], a.rootBody, a.src));
        } else {
          DecidesRefused(a, i, j.why);
        }
      }
    }
  }

  lemma HeldAt(a: Ask, i: nat, objects: map<Key, nat>)
    requires i < |a.wants| && HeldStill(a, i, objects)
    ensures a.wants[i] in objects <==> a.wants[i] in a.objects
    ensures a.wants[i] in objects ==> objects[a.wants[i]] == a.objects[a.wants[i]]
  {
  }

  lemma HeldFits(a: Ask, i: nat)
    requires i < |a.wants| && a.wants[i] in a.objects
    ensures Fits(a, i)
  {
  }

  /** What a pin of a root asks for, when it is to be had and can be read. */
  ghost function AskFor(c: Config, s: State, root: Key, src: Key -> Result<Bytes>): Ask
    requires src(root).Ok?
  {
    Ask(c, s.objects, s.bytes, Wants(c.h, root, src(root).value).GetOr([]), src(root).value, src)
  }

  /** A root that is not pinned can be pinned: there is room, it is to be had, it can be read, and all it names fits. */
  ghost predicate Pinnable(c: Config, s: State, root: Key, src: Key -> Result<Bytes>) {
    && (c.maxPins > 0 ==> |s.pins| < c.maxPins)
    && src(root).Ok? && root.Key?
    && (root.kind == ManifestKind ==> VerifiedChunks(c.h, root.addr, src(root).value).Ok?)
    && var a := AskFor(c, s, root, src);
    forall i :: 0 <= i < |a.wants| ==> Fits(a, i)
  }

  /** The plan for a root goes through exactly when it can be pinned, and then adds exactly what is named and not held. */
  lemma PlannedExact(c: Config, s: State, root: Key, src: Key -> Result<Bytes>)
    ensures var plan := Planned(c, s, root, src);
      && (plan.Gathered? <==> Pinnable(c, s, root, src))
      && (plan.Gathered? ==> var a := AskFor(c, s, root, src); AddedBy(a, |a.wants|, plan.added))
  {
    hide Gather, Wants, VerifiedChunks, Fits, AddedBy, NoRepeats;
    if src(root).Ok? {
      WantsExact(c.h, root, src(root).value);
      if Wants(c.h, root, src(root).value).Ok? {
        WantsNoRepeats(c.h, root, src(root).value);
        var a := AskFor(c, s, root, src);
        NothingAdded(a);
        GatherExact(a, 0, s.objects, map[]);
        RefusesUnfit(a);
      }
    }
  }

  lemma NothingAdded(a: Ask)
    ensures AddedBy(a, 0, map[]) && HeldStill(a, 0, a.objects)
  {
  }

  lemma RefusesUnfit(a: Ask)
    ensures forall t, why :: 0 <= t < |a.wants| && Refuses(a, t, why) ==> !Fits(a, t)
  {
  }

  /** A refusal names the first object that does not fit and what is wrong with it. */
  lemma RefusedExact(c: Config, s: State, root: Key, src: Key -> Result<Bytes>)
    requires Planned(c, s, root, src).Refused?
    ensures var why := Planned(c, s, root, src).why;
      if c.maxPins > 0 && |s.pins| >= c.maxPins then why == Budget
      else if src(root).Err? then why == SourceFailed(src(root).error)
      else if !(root.Key? && (root.kind == ManifestKind ==> VerifiedChunks(c.h, root.addr, src(root).value).Ok?)) then why.SourceFailed?
      else
        var a := AskFor(c, s, root, src);
        exists t | 0 <= t < |a.wants| :: Refuses(a, t, why) && forall u :: 0 <= u < t ==> Fits(a, u)
  {
    hide Gather, Wants, VerifiedChunks, Fits, Refuses, AddedBy, NoRepeats;
    if src(root).Ok? {
      WantsExact(c.h, root, src(root).value);
      if Wants(c.h, root, src(root).value).Ok? {
        WantsNoRepeats(c.h, root, src(root).value);
        var a := AskFor(c, s, root, src);
        NothingAdded(a);
        GatherExact(a, 0, s.objects, map[]);
      }
    }
  }
}
