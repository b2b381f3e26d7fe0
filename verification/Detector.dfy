/**
 The saturation detector of the autoscaler: two watermarks, a sustain time, a cooldown and bounds on the node count.
 Every decision is characterised by the readings seen so far, without the detector's timers.
 */
module Detector {
  import opened Common

  const SECOND: int := 1_000_000_000

  /** Durations are nanoseconds; a maxNodes of 0 is no ceiling. */
  datatype Config = Config(high: real, low: real, sustain: int, cooldown: int, minNodes: int, maxNodes: int)

  datatype Action = NoAction | ScaleUp | ScaleDown

  /** Since when the ratio is past each watermark, and when the last action fired. */
  datatype State = State(above: Option<int>, below: Option<int>, last: Option<int>)

  const INITIAL: State := State(None, None, None)

  ghost predicate Sane(c: Config) {
    0.0 < c.low < c.high && c.sustain >= 0 && c.cooldown >= 0 && c.minNodes >= 1
  }

  function DurationField(v: int, default: int): int {
    if v < 0 then 0 else if v == 0 then default else v
  }

  /** Fills in defaults; whatever was asked for, the watermarks end up apart. */
  function WithDefaults(c: Config): (r: Config)
    ensures Sane(r)
    ensures Sane(c) && c.sustain > 0 && c.cooldown > 0 ==> r == c
    ensures r.high == (if c.high > 0.0 then c.high else 0.80)
    ensures c.low > 0.0 && c.low < r.high ==> r.low == c.low
    ensures c.low <= 0.0 && 0.30 < r.high ==> r.low == 0.30
    ensures c.low >= r.high || (c.low <= 0.0 && 0.30 >= r.high) ==> r.low == r.high / 2.0
    ensures r.sustain == (if c.sustain > 0 then c.sustain else if c.sustain == 0 then 60 * SECOND else 0)
    ensures r.cooldown == (if c.cooldown > 0 then c.cooldown else if c.cooldown == 0 then 180 * SECOND else 0)
    ensures r.minNodes == (if c.minNodes > 0 then c.minNodes else 1) && r.maxNodes == c.maxNodes
  {
    var high := if c.high <= 0.0 then 0.80 else c.high;
    var low := if c.low <= 0.0 then 0.30 else c.low;
    Config(high, if low >= high then high / 2.0 else low,
           DurationField(c.sustain, 60 * SECOND), DurationField(c.cooldown, 180 * SECOND),
           if c.minNodes <= 0 then 1 else c.minNodes, c.maxNodes)
  }

  predicate CooledDown(c: Config, s: State, now: int) {
    s.last.None? || now - s.last.value >= c.cooldown
  }

  function Since(t: Option<int>, now: int): int {
    if t.Some? then t.value else now
  }

  /** Whether the node count leaves room to act. */
  predicate Room(c: Config, up: bool, nodes: int) {
    if up then !(c.maxNodes > 0 && nodes >= c.maxNodes) else nodes > c.minNodes
  }

  function Observed(c: Config, s: State, ratio: real, nodes: int, now: int): (State, Action) {
    if ratio >= c.high then
      var t := Since(s.above, now);
      if now - t >= c.sustain && CooledDown(c, s, now) && Room(c, true, nodes) then
        (State(None, None, Some(now)), ScaleUp)
      else (State(Some(t), None, s.last), NoAction)
    else if ratio <= c.low then
      var t := Since(s.below, now);
      if now - t >= c.sustain && CooledDown(c, s, now) && Room(c, false, nodes) then
        (State(None, None, Some(now)), ScaleDown)
      else (State(None, Some(t), s.last), NoAction)
    else (State(None, None, s.last), NoAction)
  }

  class Detector {
    const c: Config
    var aboveSince: Option<int>
    var belowSince: Option<int>
    var lastAction: Option<int>

    ghost function S(): State
      reads this
    {
      State(aboveSince, belowSince, lastAction)
    }

    constructor (config: Config)
      ensures c == WithDefaults(config) && S() == INITIAL
    {
      c := WithDefaults(config);
      aboveSince, belowSince, lastAction := None, None, None;
    }

    method Observe(ratio: real, nodes: int, now: int) returns (action: Action)
      modifies this
      ensures (S(), action) == Observed(c, old(S()), ratio, nodes, now)
    {
      if ratio >= c.high {
        belowSince := None;
        if aboveSince.None? {
          aboveSince := Some(now);
        }
        if now - aboveSince.value < c.sustain {
          return NoAction;
        }
        if lastAction.Some? && now - lastAction.value < c.cooldown {
          return NoAction;
        }
        if c.maxNodes > 0 && nodes >= c.maxNodes {
          return NoAction;
        }
        lastAction, aboveSince := Some(now), None;
        return ScaleUp;
      } else if ratio <= c.low {
        aboveSince := None;
        if belowSince.None? {
          belowSince := Some(now);
        }
        if now - belowSince.value < c.sustain {
          return NoAction;
        }
        if lastAction.Some? && now - lastAction.value < c.cooldown {
          return NoAction;
        }
        if nodes <= c.minNodes {
          return NoAction;
        }
        lastAction, belowSince := Some(now), None;
        return ScaleDown;
      } else {
        aboveSince, belowSince := None, None;
        return NoAction;
      }
    }
  }

  // ----- whole runs -----

  datatype Reading = Reading(ratio: real, nodes: int, now: int)

  function Run(c: Config, rs: seq<Reading>): State {
    if |rs| == 0 then INITIAL else
      var r := rs[|rs| - 1];
      Observed(c, Run(c, rs[..|rs| - 1]), r.ratio, r.nodes, r.now).0
  }

  /** What the i-th reading of a run makes the detector do. */
  function Act(c: Config, rs: seq<Reading>, i: nat): Action
    requires i < |rs|
  {
    Observed(c, Run(c, rs[..i]), rs[i].ratio, rs[i].nodes, rs[i].now).1
  }

  predicate Past(c: Config, up: bool, ratio: real) {
    if up then ratio >= c.high else ratio <= c.low
  }

  function Timer(s: State, up: bool): Option<int> {
    if up then s.above else s.below
  }

  /** The i-th to the last but one of n readings are past a watermark and none of them led to an action. */
  ghost predicate Unbroken(c: Config, rs: seq<Reading>, up: bool, i: nat, n: nat)
    requires n <= |rs|
  {
    i < n && forall k :: i <= k < n ==> Past(c, up, rs[k].ratio) && Act(c, rs, k) == NoAction
  }

  /** Where the unbroken run that the first n readings end in begins. */
  ghost function Start(c: Config, rs: seq<Reading>, up: bool, n: nat): Option<nat>
    requires n <= |rs|
  {
    if n == 0 || !Past(c, up, rs[n - 1].ratio) || Act(c, rs, n - 1) != NoAction then None
    else if Start(c, rs, up, n - 1).Some? then Start(c, rs, up, n - 1)
    else Some(n - 1)
  }

  lemma RunNext(c: Config, rs: seq<Reading>, n: nat)
    requires n < |rs|
    ensures var r, s := rs[n], Run(c, rs[..n]);
      (Run(c, rs[..n + 1]), Act(c, rs, n)) == Observed(c, s, r.ratio, r.nodes, r.now)
  {
    assert rs[..n + 1][..n] == rs[..n];
  }

  /** The start of a run is the earliest one there is. */
  lemma {:induction false} StartEarliest(c: Config, rs: seq<Reading>, up: bool, n: nat, i: nat)
    requires n <= |rs|
    ensures var st := Start(c, rs, up, n);
      && (st.Some? ==> Unbroken(c, rs, up, st.value, n))
      && (Unbroken(c, rs, up, i, n) ==> st.Some? && st.value <= i)
    decreases n
  {
    hide Act, Past;
    if n > 0 {
      StartEarliest(c, rs, up, n - 1, i);
    }
  }

  /** Each timer holds the time at which the current run past its watermark began. */
  lemma {:induction false} TimerIsStart(c: Config, rs: seq<Reading>, up: bool, n: nat)
    requires Sane(c) && n <= |rs|
    ensures var st := Start(c, rs, up, n);
      && (st.Some? ==> st.value < n)
      && Timer(Run(c, rs[..n]), up) == if st.Some? then Some(rs[st.value].now) else None
    decreases n
  {
    hide Run, Act, CooledDown, Room;
    if n == 0 {
      RunEmpty(c, rs[..0]);
    } else {
      TimerIsStart(c, rs, up, n - 1);
      RunNext(c, rs, n - 1);
    }
  }

  lemma RunEmpty(c: Config, rs: seq<Reading>)
    requires |rs| == 0
    ensures Run(c, rs) == INITIAL
  {
  }

  /** The last action is the latest of all actions so far. */
  lemma {:induction false} LastIsLatest(c: Config, rs: seq<Reading>, n: nat, k: nat) returns (w: nat)
    requires Sane(c) && n <= |rs|
    ensures var last := Run(c, rs[..n]).last;
      && (k < n && Act(c, rs, k) != NoAction ==> last.Some? && rs[k].now <= last.value)
      && (last.Some? ==> w < n && Act(c, rs, w) != NoAction && rs[w].now == last.value)
    decreases n
  {
    hide Run, Act, Room, Since;
    w := 0;
    if n == 0 {
      RunEmpty(c, rs[..0]);
    } else {
      w := LastIsLatest(c, rs, n - 1, k);
      RunNext(c, rs, n - 1);
      if Act(c, rs, n - 1) != NoAction {
        w := n - 1;
      }
    }
  }

  /** Any two actions of a run are at least a cooldown apart, whatever the clock did. */
  lemma CooldownApart(c: Config, rs: seq<Reading>, i: nat, j: nat)
    requires Sane(c) && i < j < |rs| && Act(c, rs, i) != NoAction && Act(c, rs, j) != NoAction
    ensures rs[j].now - rs[i].now >= c.cooldown
  {
    hide Run, Room, Since;
    var w := LastIsLatest(c, rs, j, i);
  }

  ghost predicate ClockForward(rs: seq<Reading>) {
    forall i, j :: 0 <= i < j < |rs| ==> rs[i].now <= rs[j].now
  }

  /** Readings past a watermark, up to and including the j-th, for at least the sustain time and without an action. */
  ghost predicate Sustained(c: Config, rs: seq<Reading>, up: bool, i: nat, j: nat)
    requires j < |rs|
  {
    i <= j && rs[j].now - rs[i].now >= c.sustain && (i < j ==> Unbroken(c, rs, up, i, j))
  }

  ghost predicate Apart(c: Config, rs: seq<Reading>, j: nat)
    requires j < |rs|
  {
    forall k :: 0 <= k < j && Act(c, rs, k) != NoAction ==> rs[j].now - rs[k].now >= c.cooldown
  }

  lemma CooledDownExact(c: Config, rs: seq<Reading>, j: nat)
    requires Sane(c) && j < |rs|
    ensures CooledDown(c, Run(c, rs[..j]), rs[j].now) <==> Apart(c, rs, j)
  {
    hide Run, Act;
    if CooledDown(c, Run(c, rs[..j]), rs[j].now) {
      forall k | 0 <= k < j && Act(c, rs, k) != NoAction
        ensures rs[j].now - rs[k].now >= c.cooldown
      {
        var w := LastIsLatest(c, rs, j, k);
      }
    } else {
      var w := LastIsLatest(c, rs, j, 0);
    }
  }

  lemma SustainExact(c: Config, rs: seq<Reading>, up: bool, j: nat)
    requires Sane(c) && ClockForward(rs) && j < |rs|
    ensures rs[j].now - Since(Timer(Run(c, rs[..j]), up), rs[j].now) >= c.sustain <==> exists i :: Sustained(c, rs, up, i, j)
  {
    hide Run, Act, Start, Unbroken;
    TimerIsStart(c, rs, up, j);
    var st := Start(c, rs, up, j);
    var first := if st.Some? then st.value else j;
    StartEarliest(c, rs, up, j, first);
    if rs[j].now - rs[first].now >= c.sustain {
      assert Sustained(c, rs, up, first, j);
    }
    forall i | Sustained(c, rs, up, i, j)
      ensures rs[j].now - rs[first].now >= c.sustain
    {
      StartEarliest(c, rs, up, j, i);
    }
  }

  /** When the detector acts, told from the readings alone. */
  lemma ActExact(c: Config, rs: seq<Reading>, up: bool, j: nat)
    requires Sane(c) && ClockForward(rs) && j < |rs|
    ensures Act(c, rs, j) == (if up then ScaleUp else ScaleDown) <==>
      && (if up then rs[j].ratio >= c.high else rs[j].ratio <= c.low)
      && (if up then c.maxNodes <= 0 || rs[j].nodes < c.maxNodes else rs[j].nodes > c.minNodes)
      && Apart(c, rs, j) && exists i :: Sustained(c, rs, up, i, j)
  {
    hide Run, Apart, Sustained, CooledDown;
    SustainExact(c, rs, up, j);
    CooledDownExact(c, rs, j);
  }
}
