/**
 Replay protection of signed signaling frames: a freshness window on the signed timestamp, and a first-in first-out cache
 of the nonces already acted on. A frame is judged in one step once its signature check has come back.
 */
module Replay {
  const NONCE_CACHE_MAX: nat := 1_000
  const MAX_FRAME_AGE_MS: int := 30_000
  const MAX_CLOCK_SKEW_MS: int := 5_000

  /** What is known of a frame's signature: no key is held, a field it must carry is missing, it fails, or it holds. */
  datatype Check = NoKey | Unsigned | Forged | Verified

  /** A frame at the moment it is judged: an offer, answer or candidate, or else a join that claims the newer protocol. */
  datatype Event = Event(join: bool, sender: string, nonce: string, ts: int, check: Check, now: int)

  /** Remembered keys, oldest first, and the peers pinned to the newer protocol. */
  datatype State = State(seen: seq<string>, pinned: set<string>)

  function Key(e: Event): string {
    if e.join then "join:" + e.sender + ":" + e.nonce else e.sender + ":" + e.nonce
  }

  predicate Fresh(e: Event) {
    !(e.ts > e.now + MAX_CLOCK_SKEW_MS || e.now - e.ts > MAX_FRAME_AGE_MS)
  }

  predicate Accepts(seen: seq<string>, e: Event) {
    e.check.Verified? && Fresh(e) && Key(e) !in seen
  }

  function Remembered(seen: seq<string>, key: string): seq<string> {
    (if |seen| >= NONCE_CACHE_MAX then seen[1..] else seen) + [key]
  }

  function Judged(s: State, e: Event): State {
    if Accepts(s.seen, e) then
      State(Remembered(s.seen, Key(e)), if e.join then s.pinned + {e.sender} else s.pinned)
    else s
  }

  // ----- the object -----

  class Guard {
    const requireAuth: bool
    var seen: seq<string>
    var pinned: set<string>

    ghost function S(): State
      reads this
    {
      State(seen, pinned)
    }

    constructor (requireAuth: bool)
      ensures this.requireAuth == requireAuth && S() == State([], {})
    {
      this.requireAuth, seen, pinned := requireAuth, [], {};
    }

    method Remember(key: string)
      modifies this`seen
      ensures seen == Remembered(old(seen), key)
    {
      if |seen| >= NONCE_CACHE_MAX {
        seen := seen[1..];
      }
      seen := seen + [key];
    }

    /** Judges an offer, answer or candidate; a peer without a key passes unless authentication is required. */
    method Signal(sender: string, nonce: string, ts: int, check: Check, now: int) returns (delivered: bool)
      modifies this
      ensures var e := Event(false, sender, nonce, ts, check, now);
        && S() == Judged(old(S()), e)
        && delivered == if check.NoKey? then !requireAuth else Accepts(old(seen), e)
    {
      if check.NoKey? {
        return !requireAuth;
      }
      if check.Unsigned? || check.Forged? {
        return false;
      }
      if ts > now + MAX_CLOCK_SKEW_MS || now - ts > MAX_FRAME_AGE_MS {
        return false;
      }
      var key := sender + ":" + nonce;
      if key in seen {
        return false;
      }
      Remember(key);
      return true;
    }

    /** Pins the sender of a verified, fresh and unrepeated join. */
    method Join(sender: string, nonce: string, ts: int, check: Check, now: int)
      modifies this
      ensures S() == Judged(old(S()), Event(true, sender, nonce, ts, check, now))
    {
      if check.Verified? {
        var fresh' := !(ts > now + MAX_CLOCK_SKEW_MS || now - ts > MAX_FRAME_AGE_MS);
        var key := "join:" + sender + ":" + nonce;
        if fresh' && key !in seen {
          Remember(key);
          pinned := pinned + {sender};
        }
      }
    }
  }

  // ----- whole runs -----

  function Run(events: seq<Event>): State {
    if |events| == 0 then State([], {}) else Judged(Run(events[..|events| - 1]), events[|events| - 1])
  }

  /** Whether the i-th frame of a run is acted on as a verified frame. */
  predicate Accepted(events: seq<Event>, i: nat)
    requires i < |events|
  {
    Accepts(Run(events[..i]).seen, events[i])
  }

  /** The frames of a run that were acted on, in order. */
  function Acted(events: seq<Event>): seq<Event> {
    if |events| == 0 then [] else
      var n := |events| - 1;
      Acted(events[..n]) + if Accepted(events, n) then [events[n]] else []
  }

  function Keys(es: seq<Event>): seq<string> {
    seq(|es|, i requires 0 <= i < |es| => Key(es[i]))
  }

  function Last(ks: seq<string>, n: nat): seq<string> {
    if |ks| <= n then ks else ks[|ks| - n..]
  }

  lemma ActedNext(events: seq<Event>, n: nat)
    requires n < |events|
    ensures Acted(events[..n + 1]) == Acted(events[..n]) + if Accepted(events, n) then [events[n]] else []
    ensures Run(events[..n + 1]) == Judged(Run(events[..n]), events[n])
  {
    assert events[..n + 1][..n] == events[..n];
  }

  /** The cache holds exactly the keys of the last thousand frames acted on. */
  lemma {:induction false} CacheIsLast(events: seq<Event>, n: nat)
    requires n <= |events|
    ensures Run(events[..n]).seen == Last(Keys(Acted(events[..n])), NONCE_CACHE_MAX)
    decreases n
  {
    hide Run, Acted, Key, Fresh;
    if n == 0 {
      RunEmpty(events[..0]);
    } else {
      CacheIsLast(events, n - 1);
      ActedNext(events, n - 1);
      if Accepted(events, n - 1) {
        LastNext(Acted(events[..n - 1]), events[n - 1]);
      } else {
        assert Acted(events[..n]) == Acted(events[..n - 1]);
      }
    }
  }

  lemma RunEmpty(events: seq<Event>)
    requires |events| == 0
    ensures Run(events) == State([], {}) && Acted(events) == []
  {
  }

  lemma LastNext(es: seq<Event>, e: Event)
    ensures Last(Keys(es + [e]), NONCE_CACHE_MAX) == Remembered(Last(Keys(es), NONCE_CACHE_MAX), Key(e))
  {
    hide Key;
    assert Keys(es + [e]) == Keys(es) + [Key(e)];
  }

  /** A frame is acted on exactly when it is verified, fresh, and its key is not among the last thousand acted on. */
  lemma AcceptedExact(events: seq<Event>, i: nat)
    requires i < |events|
    ensures Accepted(events, i) <==>
      && events[i].check.Verified? && events[i].ts - 5_000 <= events[i].now <= events[i].ts + 30_000
      && Key(events[i]) !in Last(Keys(Acted(events[..i])), 1_000)
  {
    hide Run, Acted, Key, Keys, Last;
    CacheIsLast(events, i);
  }

  /** A frame acted on stays at its place in the record. */
  lemma {:induction false} ActedAt(events: seq<Event>, i: nat, j: nat)
    requires i < j <= |events| && Accepted(events, i)
    ensures |Acted(events[..i])| < |Acted(events[..j])| && Acted(events[..j])[|Acted(events[..i])|] == events[i]
    decreases j
  {
    hide Run, Acted, Accepts;
    ActedNext(events, j - 1);
    if i < j - 1 {
      ActedAt(events, i, j - 1);
    }
  }

  /** Acting on the same sender and nonce twice takes a thousand other frames acted on in between. */
  lemma TwiceNeedsThousand(events: seq<Event>, i: nat, j: nat)
    requires i < j < |events| && Accepted(events, i) && Accepted(events, j) && Key(events[i]) == Key(events[j])
    ensures |Acted(events[..j])| - |Acted(events[..i + 1])| >= NONCE_CACHE_MAX
  {
    hide Run, Acted, Key, Accepted;
    AcceptedExact(events, j);
    ActedAt(events, i, j);
    ActedNext(events, i);
    var ks, p := Keys(Acted(events[..j])), |Acted(events[..i])|;
    assert ks[p] == Key(events[j]);
    LastHolds(ks, NONCE_CACHE_MAX, p);
  }

  lemma LastHolds(ks: seq<string>, n: nat, p: nat)
    requires p < |ks|
    ensures p >= |ks| - n ==> ks[p] in Last(ks, n)
  {
    if |ks| > n && p >= |ks| - n {
      assert Last(ks, n)[p - (|ks| - n)] == ks[p];
    }
  }

  const WINDOW: int := MAX_FRAME_AGE_MS + MAX_CLOCK_SKEW_MS

  /** No span of 35 seconds sees more than 1001 frames acted on. */
  ghost predicate Moderate(events: seq<Event>) {
    forall i, j | 0 <= i <= j < |events| && Accepted(events, i) && Accepted(events, j)
                  && events[j].now - events[i].now <= WINDOW ::
      |Acted(events[..j + 1])| - |Acted(events[..i])| <= NONCE_CACHE_MAX + 1
  }

  /** At that rate no signed frame is acted on twice. */
  lemma NeverTwice(events: seq<Event>, i: nat, j: nat)
    requires Moderate(events) && i < j < |events|
    requires Key(events[i]) == Key(events[j]) && events[i].ts == events[j].ts
    ensures !(Accepted(events, i) && Accepted(events, j))
  {
    hide Run, Acted, Key, Moderate;
    if Accepted(events, i) && Accepted(events, j) {
      ModerateAt(events, i, j);
      TwiceNeedsThousand(events, i, j);
      ActedNext(events, i);
      ActedNext(events, j);
    }
  }

  lemma ModerateAt(events: seq<Event>, i: nat, j: nat)
    requires Moderate(events) && i <= j < |events| && Accepted(events, i) && Accepted(events, j)
    requires events[j].now - events[i].now <= WINDOW
    ensures |Acted(events[..j + 1])| - |Acted(events[..i])| <= NONCE_CACHE_MAX + 1
  {
  }

  // ----- keys tell frames apart -----

  /** Neither the sender's id nor the prefix that marks joins can be mistaken for part of a key. */
  predicate PlainSender(e: Event) {
    ':' !in e.sender && e.sender != "join"
  }

  ghost predicate SameFrame(e: Event, f: Event) {
    e.join == f.join && e.sender == f.sender && e.nonce == f.nonce
  }

  lemma ColonSplits(a: string, b: string, x: string, y: string)
    requires ':' !in a && ':' !in b && a + ":" + x == b + ":" + y
    ensures a == b && x == y
  {
    var s := a + ":" + x;
    assert s[|a|] == ':' && s[|b|] == ':';
    assert forall i :: 0 <= i < |a| ==> s[i] == a[i] && a[i] in a;
    assert forall i :: 0 <= i < |b| ==> s[i] == b[i] && b[i] in b;
    assert |a| == |b|;
    assert s[..|a|] == a && s[..|b|] == b && s[|a| + 1..] == x && s[|b| + 1..] == y;
  }

  /** Frames of plain senders share a key exactly when they agree in kind, sender and nonce. */
  lemma KeyExact(e: Event, f: Event)
    requires PlainSender(e) && PlainSender(f)
    ensures Key(e) == Key(f) <==> SameFrame(e, f)
  {
    if Key(e) == Key(f) {
      var x, y := e.sender + ":" + e.nonce, f.sender + ":" + f.nonce;
      assert e.join ==> Key(e) == "join" + ":" + x;
      assert f.join ==> Key(f) == "join" + ":" + y;
      if e.join && f.join {
        ColonSplits("join", "join", x, y);
        ColonSplits(e.sender, f.sender, e.nonce, f.nonce);
      } else if e.join {
        ColonSplits("join", f.sender, x, f.nonce);
      } else if f.join {
        ColonSplits(e.sender, "join", e.nonce, y);
      } else {
        ColonSplits(e.sender, f.sender, e.nonce, f.nonce);
      }
    }
  }

  /** A sender named after the prefix can use up the key of another sender's join. */
  lemma JoinKeyClash(ts: int, now: int)
    ensures var e, f := Event(false, "join", "a:n", ts, Verified, now), Event(true, "a", "n", ts, Verified, now);
      Key(e) == Key(f) && !SameFrame(e, f)
  {
  }

  /** The frame was acted on among the last thousand. */
  ghost predicate ActedLately(events: seq<Event>, i: nat, e: Event)
    requires i <= |events|
  {
    var es := Acted(events[..i]);
    exists j | 0 <= j < |es| && j >= |es| - NONCE_CACHE_MAX :: SameFrame(es[j], e)
  }

  /** Among plain senders a frame is refused as a repeat only for that very frame: others' nonces do not count against it. */
  lemma OwnHistory(events: seq<Event>, i: nat)
    requires i < |events| && forall j :: 0 <= j < |events| ==> PlainSender(events[j])
    ensures Accepted(events, i) <==> events[i].check.Verified? && Fresh(events[i]) && !ActedLately(events, i, events[i])
  {
    hide Run, Acted, Key, Keys, Last, Accepted, SameFrame, PlainSender;
    AcceptedExact(events, i);
    LateKeys(events, i);
  }

  lemma LateKeys(events: seq<Event>, i: nat)
    requires i < |events| && forall j :: 0 <= j < |events| ==> PlainSender(events[j])
    ensures Key(events[i]) in Last(Keys(Acted(events[..i])), NONCE_CACHE_MAX) <==> ActedLately(events, i, events[i])
  {
    hide Run, Acted, Key, SameFrame, PlainSender;
    var es, e := Acted(events[..i]), events[i];
    var ks := Keys(es);
    forall j | 0 <= j < |es|
      ensures ks[j] == Key(e) <==> SameFrame(es[j], e)
    {
      ActedFrom(events, i, es[j]);
      KeyExact(es[j], e);
    }
    var off := if |ks| <= NONCE_CACHE_MAX then 0 else |ks| - NONCE_CACHE_MAX;
    var last := Last(ks, NONCE_CACHE_MAX);
    assert forall j :: 0 <= j < |last| ==> last[j] == ks[j + off];
    if ActedLately(events, i, e) {
      var j :| 0 <= j < |es| && j >= |es| - NONCE_CACHE_MAX && SameFrame(es[j], e);
      assert last[j - off] == Key(e);
    }
  }

  /** Whatever was acted on was one of the frames. */
  lemma {:induction false} ActedFrom(events: seq<Event>, n: nat, e: Event)
    requires n <= |events| && e in Acted(events[..n])
    ensures exists j :: 0 <= j < n && events[j] == e
    decreases n
  {
    hide Run, Acted, Accepts;
    if n == 0 {
      RunEmpty(events[..0]);
    } else {
      ActedNext(events, n - 1);
      if e in Acted(events[..n - 1]) {
        ActedFrom(events, n - 1, e);
      }
    }
  }

  // ----- the bound is tight -----

  /** A frame at time 0, a thousand others at the same time, and the first frame again. */
  function Flood(): seq<Event> {
    seq(NONCE_CACHE_MAX + 2, i => Event(false, "a", seq(i % (NONCE_CACHE_MAX + 1), _ => 'x'), 0, Verified, 0))
  }

  lemma FloodKeys(i: nat, j: nat)
    requires i < |Flood()| && j < |Flood()|
    ensures Key(Flood()[i]) == Key(Flood()[j]) <==> i % (NONCE_CACHE_MAX + 1) == j % (NONCE_CACHE_MAX + 1)
  {
    var x, y := Flood()[i], Flood()[j];
    assert |Key(x)| == 2 + |x.nonce| && |Key(y)| == 2 + |y.nonce|;
  }

  lemma {:induction false} FloodActed(n: nat)
    requires n <= |Flood()|
    ensures Acted(Flood()[..n]) == Flood()[..n]
    decreases n
  {
    hide Run, Acted, Key, Flood, Accepted, Keys;
    if n == 0 {
      RunEmpty(Flood()[..0]);
    } else {
      FloodActed(n - 1);
      FloodAccepts(n - 1);
      ActedNext(Flood(), n - 1);
    }
  }

  lemma FloodAccepts(n: nat)
    requires n < |Flood()| && Acted(Flood()[..n]) == Flood()[..n]
    ensures Accepted(Flood(), n)
  {
    hide Run, Acted, Key, Accepted, Keys, Last;
    AcceptedExact(Flood(), n);
    FloodNew(n);
  }

  lemma FloodNew(n: nat)
    requires n < |Flood()|
    ensures Key(Flood()[n]) !in Last(Keys(Flood()[..n]), NONCE_CACHE_MAX)
  {
    hide Key, Flood, Keys, Last;
    var ks := Keys(Flood()[..n]);
    var last := Last(ks, NONCE_CACHE_MAX);
    FloodLength();
    LastLength(ks, NONCE_CACHE_MAX);
    forall k | 0 <= k < |last|
      ensures last[k] != Key(Flood()[n])
    {
      FloodOther(n, k);
    }
  }

  lemma FloodOther(n: nat, k: nat)
    requires n < |Flood()| && k < |Last(Keys(Flood()[..n]), NONCE_CACHE_MAX)|
    ensures Last(Keys(Flood()[..n]), NONCE_CACHE_MAX)[k] != Key(Flood()[n])
  {
    hide Key, Flood, Keys, Last;
    FloodLength();
    var i := LastAt(Flood()[..n], k);
    FloodKeys(i, n);
    WithinCycle(i, n);
  }

  /** Which frame the k-th remembered key belongs to. */
  lemma LastAt(es: seq<Event>, k: nat) returns (i: nat)
    requires k < |Last(Keys(es), NONCE_CACHE_MAX)|
    ensures i < |es| && i >= |es| - NONCE_CACHE_MAX && Last(Keys(es), NONCE_CACHE_MAX)[k] == Key(es[i])
  {
    hide Key;
    i := if |es| <= NONCE_CACHE_MAX then k else k + |es| - NONCE_CACHE_MAX;
  }

  lemma WithinCycle(i: nat, n: nat)
    requires n - NONCE_CACHE_MAX <= i < n < NONCE_CACHE_MAX + 2
    ensures i % (NONCE_CACHE_MAX + 1) != n % (NONCE_CACHE_MAX + 1)
  {
  }

  lemma LastLength(ks: seq<string>, n: nat)
    ensures |Last(ks, n)| == if |ks| <= n then |ks| else n
  {
  }

  lemma FloodLength()
    ensures |Flood()| == NONCE_CACHE_MAX + 2
  {
  }

  /** With one frame more the first frame is acted on again, within the same instant. */
  lemma ThousandSuffice()
    ensures var events := Flood();
      && |events| == NONCE_CACHE_MAX + 2 && events[0] == events[NONCE_CACHE_MAX + 1]
      && Accepted(events, 0) && Accepted(events, NONCE_CACHE_MAX + 1)
  {
    hide Run, Acted, Key, Accepted;
    FloodActed(0);
    FloodAccepts(0);
    FloodActed(NONCE_CACHE_MAX + 1);
    FloodAccepts(NONCE_CACHE_MAX + 1);
  }

  // ----- pins -----

  /** Joins pin a peer exactly when one of them was acted on; a pin is never taken back. */
  lemma {:induction false} PinnedExact(events: seq<Event>, n: nat, peer: string)
    requires n <= |events|
    ensures peer in Run(events[..n]).pinned <==>
      exists i | 0 <= i < n && Accepted(events, i) :: events[i].join && events[i].sender == peer
    decreases n
  {
    hide Run, Accepts, Acted;
    if n == 0 {
      RunEmpty(events[..0]);
    } else {
      PinnedExact(events, n - 1, peer);
      ActedNext(events, n - 1);
    }
  }
}
