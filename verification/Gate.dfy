/**
 The entitlement gate: a cache of control-plane decisions per account, consulted by connects, by live sessions and by the
 revocation sweep, any number of which run at once. A revoke the control plane has answered is never forgotten, and
 nothing but such an answer makes one.
 */
module Gate {
  import opened Common

  datatype Entitlement = Entitlement(allowed: bool, overQuota: bool, revoked: bool)

  /** What came back from the control plane: nothing, or a status with a body that may not decode. */
  datatype Response = NoResponse | Response(status: int, body: Option<Entitlement>)

  datatype Answer = Revoke | Blip | Clean(allowed: bool, overQuota: bool)

  datatype Decision = Decision(allowed: bool, overQuota: bool, revoked: bool, expires: int)

  type Cache = map<string, Decision>

  const DEFAULT_TTL: int := 30_000_000_000

  /** A missing account or an explicit flag is a definitive revoke; every other failure is a transient error. */
  function Classify(r: Response): Answer {
    if r.NoResponse? then Blip
    else if r.status == 404 then Revoke
    else if r.status != 200 || r.body.None? then Blip
    else if r.body.value.revoked then Revoke
    else Clean(r.body.value.allowed, r.body.value.overQuota)
  }

  /** The control plane says the account or credential is gone: not found, or marked as revoked. */
  predicate SaysRevoked(r: Response) {
    r.Response? && (r.status == 404 || (r.status == 200 && r.body.Some? && r.body.value.revoked))
  }

  /** The control plane gives an entitlement that is not revoked. */
  predicate SaysEntitled(r: Response) {
    r.Response? && r.status == 200 && r.body.Some? && !r.body.value.revoked
  }

  /** The control plane lets the account through: entitled, allowed and within its quota. */
  predicate SaysAllowed(r: Response) {
    SaysEntitled(r) && r.body.value.allowed && !r.body.value.overQuota
  }

  /** Exactly which responses revoke, which are an entitlement, and that every other one is a transient error. */
  lemma ClassifyExact(r: Response)
    ensures Classify(r).Revoke? <==> SaysRevoked(r)
    ensures Classify(r).Clean? <==> SaysEntitled(r)
    ensures Classify(r).Blip? <==> !SaysRevoked(r) && !SaysEntitled(r)
    ensures SaysEntitled(r) ==> Classify(r) == Clean(r.body.value.allowed, r.body.value.overQuota)
  {
  }

  predicate Verdict(d: Decision) {
    d.allowed && !d.overQuota && !d.revoked
  }

  predicate Fresh(c: Cache, a: string, now: int) {
    a in c && now <= c[a].expires
  }

  predicate Revoked(c: Cache, a: string) {
    a in c && c[a].revoked
  }

  function Recorded(c: Cache, a: string, answer: Answer, expires: int): Cache {
    match answer
    case Revoke => c[a := Decision(false, a in c && c[a].overQuota, true, expires)]
    case Blip => c
    case Clean(allowed, overQuota) => c[a := Decision(allowed && !Revoked(c, a), overQuota, Revoked(c, a), expires)]
  }

  function Marked(c: Cache, a: string, now: int, ttl: int): Cache {
    var d := if a in c then c[a] else Decision(false, false, false, now + ttl);
    c[a := d.(overQuota := true, expires := if d.expires < now then now + ttl else d.expires)]
  }

  // ----- the object -----

  class EntitlementGate {
    const enabled: bool
    const ttl: nat
    var cache: Cache

    constructor (enabled: bool, ttl: int)
      ensures this.enabled == enabled && this.ttl == (if ttl <= 0 then DEFAULT_TTL else ttl) && cache == map[]
    {
      this.enabled, this.ttl, cache := enabled, if ttl <= 0 then DEFAULT_TTL else ttl, map[];
    }

    /** Takes in an answer; a revoke is kept even when a later answer looks clean. */
    method Refresh(a: string, response: Response, now: int) returns (answer: Answer)
      modifies this
      ensures answer == Classify(response) && cache == Recorded(old(cache), a, answer, now + ttl)
      ensures old(Revoked(cache, a)) || SaysRevoked(response) <==> Revoked(cache, a)
      ensures !SaysRevoked(response) && !SaysEntitled(response) ==> cache == old(cache)
      ensures SaysRevoked(response) ==> !cache[a].allowed && cache[a].expires == now + ttl
      ensures SaysEntitled(response) ==>
        && cache[a].allowed == (response.body.value.allowed && !old(Revoked(cache, a)))
        && cache[a].overQuota == response.body.value.overQuota && cache[a].expires == now + ttl
      ensures forall b :: b != a ==> (b in cache <==> b in old(cache)) && (b in cache ==> cache[b] == old(cache[b]))
    {
      answer := Classify(response);
      if answer.Revoke? {
        var d := if a in cache then cache[a] else Decision(false, false, false, 0);
        cache := cache[a := d.(revoked := true, allowed := false, expires := now + ttl)];
      } else if answer.Clean? {
        var d := Decision(answer.allowed, answer.overQuota, false, now + ttl);
        if a in cache && cache[a].revoked {
          d := d.(revoked := true, allowed := false);
        }
        cache := cache[a := d];
      }
    }

    /** Whether an account may open a tunnel; without a fresh decision an error refuses. */
    method AllowConnect(a: string, response: Response, now: int) returns (ok: bool)
      modifies this
      ensures !enabled || a == "" ==> ok && cache == old(cache)
      ensures enabled && a != "" && a in old(cache) && now <= old(cache)[a].expires ==>
        && cache == old(cache)
        && (ok <==> cache[a].allowed && !cache[a].overQuota && !cache[a].revoked)
      ensures enabled && a != "" && !(a in old(cache) && now <= old(cache)[a].expires) ==>
        && cache == Recorded(old(cache), a, Classify(response), now + ttl)
        && (ok <==> SaysAllowed(response) && !(a in old(cache) && old(cache)[a].revoked))
      ensures enabled && a != "" && (old(Revoked(cache, a)) || Revoked(cache, a)) ==> !ok && Revoked(cache, a)
    {
      if !enabled || a == "" {
        return true;
      }
      if Fresh(cache, a, now) {
        return Verdict(cache[a]);
      }
      var answer := Refresh(a, response, now);
      if !answer.Clean? {
        return false;
      }
      return Verdict(cache[a]);
    }

    /** Whether a live session may go on; a transient error leaves it to the last known decision. */
    method AllowContinue(a: string, response: Response, now: int) returns (ok: bool)
      modifies this
      ensures !enabled || a == "" ==> ok && cache == old(cache)
      ensures enabled && a != "" && a in old(cache) && now <= old(cache)[a].expires ==>
        && cache == old(cache)
        && (ok <==> cache[a].allowed && !cache[a].overQuota && !cache[a].revoked)
      ensures enabled && a != "" && !(a in old(cache) && (old(cache)[a].revoked || now <= old(cache)[a].expires)) ==>
        && cache == Recorded(old(cache), a, Classify(response), now + ttl)
        && (ok <==> if SaysRevoked(response) then false
                    else if SaysEntitled(response) then SaysAllowed(response)
                    else a in old(cache) ==> old(cache)[a].allowed && !old(cache)[a].overQuota)
      ensures enabled && a != "" && (old(Revoked(cache, a)) || Revoked(cache, a)) ==> !ok && Revoked(cache, a)
    {
      if !enabled || a == "" {
        return true;
      }
      if Revoked(cache, a) {
        return false;
      }
      if Fresh(cache, a, now) {
        return Verdict(cache[a]);
      }
      var answer := Refresh(a, response, now);
      if answer.Revoke? {
        return false;
      }
      if answer.Blip? {
        return if a in cache then Verdict(cache[a]) else true;
      }
      return Verdict(cache[a]);
    }

    /** Whether the sweep is to cut an account: exactly when a revoke is on record afterwards. */
    method DefinitivelyRevoked(a: string, response: Response, now: int) returns (cut: bool)
      modifies this
      ensures cut <==> enabled && a != "" && Revoked(cache, a)
      ensures enabled && a != "" ==>
        (cut <==> old(Revoked(cache, a)) || (!(a in old(cache) && now <= old(cache)[a].expires) && SaysRevoked(response)))
      ensures enabled && a != "" && !old(Revoked(cache, a)) ==>
        cache == if old(Fresh(cache, a, now)) then old(cache) else Recorded(old(cache), a, Classify(response), now + ttl)
      ensures !enabled || a == "" || old(Revoked(cache, a)) ==> cache == old(cache)
    {
      if !enabled || a == "" {
        return false;
      }
      if Revoked(cache, a) {
        return true;
      }
      if Fresh(cache, a, now) {
        return cache[a].revoked;
      }
      var answer := Refresh(a, response, now);
      if !answer.Clean? {
        return answer.Revoke?;
      }
      return cache[a].revoked;
    }

    method MarkOverQuota(a: string, now: int)
      modifies this
      ensures cache == if enabled && a != "" then Marked(old(cache), a, now, ttl) else old(cache)
      ensures forall b :: Revoked(cache, b) <==> Revoked(old(cache), b)
      ensures enabled && a != "" ==>
        && a in cache && cache[a].overQuota && cache[a].expires >= now
        && (a in old(cache) ==> cache[a].allowed == old(cache)[a].allowed && cache[a].expires >= old(cache)[a].expires)
        && forall b :: b != a ==> (b in cache <==> b in old(cache)) && (b in cache ==> cache[b] == old(cache)[b])
    {
      if !enabled || a == "" {
        return;
      }
      var d := if a in cache then cache[a] else Decision(false, false, false, now + ttl);
      d := d.(overQuota := true);
      if d.expires < now {
        d := d.(expires := now + ttl);
      }
      cache := cache[a := d];
    }
  }

  // ----- every interleaving -----

  datatype Kind = Connect | Continue | Sweep

  /** Where a caller stands; the cache is locked for one access at a time. */
  datatype Place = Checking | Looking | Asking | Falling | Done(yes: bool)

  datatype Caller = Caller(kind: Kind, account: string, place: Place)

  datatype World = World(cache: Cache, callers: map<nat, Caller>)

  datatype Step =
    | Begin(id: nat, kind: Kind, account: string)
    | Check(id: nat)
    | Look(id: nat, now: int)
    | Answered(id: nat, response: Response, expires: int)
    | Fall(id: nat)
    | Mark(account: string, now: int, ttl: int)

  /** What a decision means to each kind of caller. */
  predicate Says(kind: Kind, d: Decision) {
    if kind.Sweep? then d.revoked else Verdict(d)
  }

  /** The answer that turns an account away. */
  predicate Refusal(kind: Kind, yes: bool) {
    yes == kind.Sweep?
  }

  function Moved(w: World, id: nat, place: Place): World
    requires id in w.callers
  {
    w.(callers := w.callers[id := w.callers[id].(place := place)])
  }

  /** Where an answer leaves the caller that asked. */
  function After(kind: Kind, answer: Answer, d: Decision): Place {
    match answer
    case Revoke => Done(kind.Sweep?)
    case Blip => if kind.Continue? then Falling else Done(false)
    case Clean(_, _) => Done(Says(kind, d))
  }

  ghost predicate Next(w: World, step: Step, w': World) {
    match step
    case Begin(id, kind, account) =>
      && id !in w.callers
      && w' == w.(callers := w.callers[id := Caller(kind, account, if kind.Connect? then Looking else Checking)])
    case Check(id) =>
      && id in w.callers && w.callers[id].place.Checking?
      && var x := w.callers[id];
      w' == Moved(w, id, if Revoked(w.cache, x.account) then Done(x.kind.Sweep?) else Looking)
    case Look(id, now) =>
      && id in w.callers && w.callers[id].place.Looking?
      && var x := w.callers[id];
      w' == Moved(w, id, if Fresh(w.cache, x.account, now) then Done(Says(x.kind, w.cache[x.account])) else Asking)
    case Answered(id, response, expires) =>
      && id in w.callers && w.callers[id].place.Asking?
      && var x, answer := w.callers[id], Classify(response);
      var c := Recorded(w.cache, x.account, answer, expires);
      w' == Moved(w, id, After(x.kind, answer, if x.account in c then c[x.account] else Decision(false, false, false, 0))).(cache := c)
    case Fall(id) =>
      && id in w.callers && w.callers[id].place.Falling?
      && var x := w.callers[id];
      w' == Moved(w, id, Done(if x.account in w.cache then Verdict(w.cache[x.account]) else true))
    case Mark(account, now, ttl) => w' == w.(cache := Marked(w.cache, account, now, ttl))
  }

  ghost predicate IsRun(ws: seq<World>, steps: seq<Step>) {
    && |ws| == |steps| + 1 && ws[0] == World(map[], map[])
    && forall i :: 0 <= i < |steps| ==> Next(ws[i], steps[i], ws[i + 1])
  }

  /** A step in which the control plane revokes, or clears, an account. */
  ghost predicate Revokes(w: World, step: Step, a: string) {
    step.Answered? && step.id in w.callers && w.callers[step.id].account == a && SaysRevoked(step.response)
  }

  ghost predicate Clears(w: World, step: Step, a: string) {
    step.Answered? && step.id in w.callers && w.callers[step.id].account == a && SaysAllowed(step.response)
  }

  /** A step in which a caller for an account gets its result. */
  ghost predicate Finishes(w: World, w': World, id: nat, a: string) {
    && id in w.callers && w.callers[id].account == a && !w.callers[id].place.Done?
    && id in w'.callers && w'.callers[id].place.Done?
  }

  /** A connect waits only at a lookup or for an answer; only live sessions fall back on an old decision. */
  ghost predicate Placed(w: World) {
    forall id :: id in w.callers ==>
      var x := w.callers[id];
      (x.place.Checking? ==> !x.kind.Connect?) && (x.place.Falling? ==> x.kind.Continue?)
  }

  lemma StepRevoked(w: World, step: Step, w': World, a: string)
    requires Next(w, step, w')
    ensures Revoked(w'.cache, a) <==> Revoked(w.cache, a) || Revokes(w, step, a)
  {
  }

  lemma StepPlaced(w: World, step: Step, w': World)
    requires Next(w, step, w') && Placed(w)
    ensures Placed(w')
  {
    hide Recorded, Marked, Fresh, Revoked, Classify;
  }

  /** A sweep that was past its check before the revoke, and whose own question failed. */
  ghost predicate SweepBlind(w: World, step: Step, id: nat) {
    && id in w.callers && w.callers[id].kind.Sweep?
    && step.Answered? && step.id == id && !SaysRevoked(step.response) && !SaysEntitled(step.response)
  }

  /** With a revoke on record, a caller that gets its result is turned away unless it is such a sweep. */
  lemma StepRefuses(w: World, step: Step, w': World, id: nat, a: string)
    requires Next(w, step, w') && Placed(w) && Revoked(w.cache, a) && Finishes(w, w', id, a)
    ensures Refusal(w.callers[id].kind, w'.callers[id].place.yes) <==> !SweepBlind(w, step, id)
  {
    hide Marked, Classify;
    if step.Answered? {
      ClassifyExact(step.response);
    }
  }

  lemma {:induction false} RunPlaced(ws: seq<World>, steps: seq<Step>, n: nat)
    requires IsRun(ws, steps) && n < |ws|
    ensures Placed(ws[n])
    decreases n
  {
    hide Next;
    if n > 0 {
      RunPlaced(ws, steps, n - 1);
      assert Next(ws[n - 1], steps[n - 1], ws[n]);
      StepPlaced(ws[n - 1], steps[n - 1], ws[n]);
    }
  }

  /** An account is on record as revoked exactly when an answer revoked it: transient errors and marks never do, nothing undoes it. */
  lemma {:induction false} RevokedExact(ws: seq<World>, steps: seq<Step>, n: nat, a: string)
    requires IsRun(ws, steps) && n < |ws|
    ensures Revoked(ws[n].cache, a) <==> exists i | 0 <= i < n :: Revokes(ws[i], steps[i], a)
    decreases n
  {
    hide Next, Revokes, Revoked;
    if n == 0 {
      assert !Revoked(ws[0].cache, a) by {
        EmptyClean(a);
      }
    } else {
      RevokedExact(ws, steps, n - 1, a);
      assert Next(ws[n - 1], steps[n - 1], ws[n]);
      StepRevoked(ws[n - 1], steps[n - 1], ws[n], a);
    }
  }

  lemma EmptyClean(a: string)
    ensures !Revoked(map[], a)
  {
  }

  /** After an answer revokes an account, every caller for it without a result yet is turned away, save a blind sweep. */
  lemma RevokeIsFinal(ws: seq<World>, steps: seq<Step>, i: nat, j: nat, id: nat, a: string)
    requires IsRun(ws, steps) && i < j < |steps|
    requires Revokes(ws[i], steps[i], a) && Finishes(ws[j], ws[j + 1], id, a)
    ensures Refusal(ws[j].callers[id].kind, ws[j + 1].callers[id].place.yes) <==> !SweepBlind(ws[j], steps[j], id)
  {
    hide Next, Revokes, Revoked, Placed, SweepBlind;
    RevokedExact(ws, steps, j, a);
    RunPlaced(ws, steps, j);
    assert Next(ws[j], steps[j], ws[j + 1]);
    StepRefuses(ws[j], steps[j], ws[j + 1], id, a);
  }

  /** A sweep that looks for a revoke once there is one finds it. */
  lemma SweepCuts(ws: seq<World>, steps: seq<Step>, i: nat, j: nat, id: nat, a: string)
    requires IsRun(ws, steps) && i < j < |steps| && Revokes(ws[i], steps[i], a)
    requires steps[j] == Check(id) && id in ws[j].callers && ws[j].callers[id].account == a
    ensures ws[j + 1].callers[id].place == Done(ws[j].callers[id].kind.Sweep?)
  {
    hide Revokes, Revoked;
    RevokedExact(ws, steps, j, a);
    assert Next(ws[j], steps[j], ws[j + 1]);
  }

  /** A sweep and a connect: the connect's answer revokes, the sweep's own question then fails. */
  function Overtaken(): (seq<World>, seq<Step>) {
    var gone := map["a" := Decision(false, false, true, 0)];
    var sweep := (p: Place) => map[0 := Caller(Sweep, "a", p)];
    var both := (p: Place, q: Place) => map[0 := Caller(Sweep, "a", p), 1 := Caller(Connect, "a", q)];
    ([World(map[], map[]),
      World(map[], sweep(Checking)),
      World(map[], sweep(Looking)),
      World(map[], sweep(Asking)),
      World(map[], both(Asking, Looking)),
      World(map[], both(Asking, Asking)),
      World(gone, both(Asking, Done(false))),
      World(gone, both(Done(false), Done(false)))],
     [Begin(0, Sweep, "a"), Check(0), Look(0, 0), Begin(1, Connect, "a"), Look(1, 0), Answered(1, Response(404, None), 0),
      Answered(0, NoResponse, 0)])
  }

  /** Such a sweep leaves a revoked account alone for one round. */
  lemma SweepMisses()
    ensures var (ws, steps) := Overtaken();
      && IsRun(ws, steps) && Revokes(ws[5], steps[5], "a")
      && Finishes(ws[6], ws[7], 0, "a") && !Refusal(Sweep, ws[7].callers[0].place.yes)
  {
    var (ws, steps) := Overtaken();
    forall i | 0 <= i < |steps|
      ensures Next(ws[i], steps[i], ws[i + 1])
    {
      OvertakenStep(i);
    }
  }

  lemma OvertakenStep(i: nat)
    requires i < 7
    ensures var (ws, steps) := Overtaken(); Next(ws[i], steps[i], ws[i + 1])
  {
    hide Next;
    if i < 4 {
      OvertakenAlone(i);
    } else {
      OvertakenBoth(i);
    }
  }

  lemma OvertakenAlone(i: nat)
    requires i < 4
    ensures var (ws, steps) := Overtaken(); Next(ws[i], steps[i], ws[i + 1])
  {
  }

  lemma OvertakenBoth(i: nat)
    requires 4 <= i < 7
    ensures var (ws, steps) := Overtaken(); Next(ws[i], steps[i], ws[i + 1])
  {
  }

  // ----- what lets an account through -----

  ghost predicate Allowed(c: Cache, a: string) {
    a in c && c[a].allowed && !c[a].overQuota && !c[a].revoked
  }

  /** A step that leaves a decision on an account as it is: neither an entitlement or a revoke for it, nor a quota mark on it. */
  ghost predicate LeavesAlone(w: World, step: Step, a: string) {
    && !(step.Mark? && step.account == a)
    && !(step.Answered? && step.id in w.callers && w.callers[step.id].account == a
         && (SaysRevoked(step.response) || SaysEntitled(step.response)))
  }

  /** An account is on record as allowed exactly when an answer just cleared it, or it was before and nothing was decided on it. */
  lemma StepAllowed(w: World, step: Step, w': World, a: string)
    requires Next(w, step, w')
    ensures Allowed(w'.cache, a) <==>
      (Clears(w, step, a) && !Revoked(w.cache, a)) || (Allowed(w.cache, a) && LeavesAlone(w, step, a))
  {
  }

  /** A connect that gets its result is let in exactly by a fresh decision on record, or by an answer that clears it. */
  lemma StepConnects(w: World, step: Step, w': World, id: nat, a: string)
    requires Next(w, step, w') && Placed(w) && Finishes(w, w', id, a) && w.callers[id].kind.Connect?
    ensures w'.callers[id].place.yes <==>
      if step.Look? then Allowed(w.cache, a) else Clears(w, step, a) && !Revoked(w.cache, a)
  {
  }

  /** A live session that gets its result goes on by the same, and also when its question failed and no decision forbids it. */
  lemma StepContinues(w: World, step: Step, w': World, id: nat, a: string)
    requires Next(w, step, w') && Placed(w) && Finishes(w, w', id, a) && w.callers[id].kind.Continue?
    ensures w'.callers[id].place.yes <==>
      match step
      case Check(_) => false
      case Look(_, _) => Allowed(w.cache, a)
      case Fall(_) => a in w.cache ==> Allowed(w.cache, a)
      case _ => Clears(w, step, a) && !Revoked(w.cache, a)
    ensures step.Answered? ==> SaysRevoked(step.response) || SaysEntitled(step.response)
  {
  }

  lemma {:induction false} AllowedCleared(ws: seq<World>, steps: seq<Step>, n: nat, a: string)
    requires IsRun(ws, steps) && n < |ws| && Allowed(ws[n].cache, a)
    ensures exists i | 0 <= i < n :: Clears(ws[i], steps[i], a)
    decreases n
  {
    hide Next, Clears;
    if n > 0 {
      assert Next(ws[n - 1], steps[n - 1], ws[n]);
      StepAllowed(ws[n - 1], steps[n - 1], ws[n], a);
      if Allowed(ws[n - 1].cache, a) {
        AllowedCleared(ws, steps, n - 1, a);
      }
    }
  }

  /** A connect succeeds only on the word of the control plane: errors alone never let one in. */
  lemma ConnectNeedsAnswer(ws: seq<World>, steps: seq<Step>, j: nat, id: nat, a: string)
    requires IsRun(ws, steps) && j < |steps| && Finishes(ws[j], ws[j + 1], id, a)
    requires ws[j].callers[id].kind.Connect? && ws[j + 1].callers[id].place.yes
    ensures exists i | 0 <= i <= j :: Clears(ws[i], steps[i], a)
  {
    hide Next, Clears, Placed, Allowed;
    RunPlaced(ws, steps, j);
    assert Next(ws[j], steps[j], ws[j + 1]);
    StepConnects(ws[j], steps[j], ws[j + 1], id, a);
    if Allowed(ws[j].cache, a) {
      AllowedCleared(ws, steps, j, a);
    }
  }
}
