/**
 The keyed blob queue behind the signal exchange and the mailbox: deposits, pickups that delete nothing, acknowledgements
 and a lazy sweep, within per-key quotas. What a recipient sees is shown to be what a log of all deposits implies.
 */
module Rendezvous {
  import opened Common

  datatype Blob = Blob(id: string, from: string, to: string, payload: Bytes, depositedAt: int, expiresAt: int)

  datatype Caps = Caps(
    maxBlobBytes: int, maxPerKeyBlobs: int, maxPerKeyBytes: int, defaultTtl: int, maxTtl: int, maxKeys: int, sweepEvery: int)

  datatype DepositResult = DepositOk | TooLarge | QuotaFull | Capacity

  /** The queue's maps and the time of its last sweep, None before the first. */
  datatype State = State(byKey: map<string, seq<Blob>>, bytes: map<string, int>, swept: Option<int>)

  function PendingOf(m: map<string, seq<Blob>>, k: string): seq<Blob> {
    if k in m then m[k] else []
  }

  // ----- filters -----

  function Size(bs: seq<Blob>): nat {
    if |bs| == 0 then 0 else Size(bs[..|bs| - 1]) + |bs[|bs| - 1].payload|
  }

  /** The blobs that have not expired, in order. */
  function Live(bs: seq<Blob>, now: int): (r: seq<Blob>)
    ensures |r| <= |bs| && Size(r) <= Size(bs)
    ensures forall b :: b in r <==> b in bs && now < b.expiresAt
  {
    if |bs| == 0 then [] else
      var front, b := Live(bs[..|bs| - 1], now), bs[|bs| - 1];
      SizeNext(front, b);
      if now < b.expiresAt then front + [b] else front
  }

  /** The blobs an acknowledgement does not name, in order. */
  function Unacked(bs: seq<Blob>, ids: set<string>): (r: seq<Blob>)
    ensures |r| <= |bs| && Size(r) <= Size(bs)
    ensures forall b :: b in r <==> b in bs && b.id !in ids
  {
    if |bs| == 0 then [] else
      var front, b := Unacked(bs[..|bs| - 1], ids), bs[|bs| - 1];
      SizeNext(front, b);
      if b.id in ids then front else front + [b]
  }

  lemma SizeNext(bs: seq<Blob>, b: Blob)
    ensures Size(bs + [b]) == Size(bs) + |b.payload|
  {
    assert (bs + [b])[..|bs|] == bs;
  }

  lemma LiveNext(bs: seq<Blob>, b: Blob, now: int)
    ensures Live(bs + [b], now) == if now < b.expiresAt then Live(bs, now) + [b] else Live(bs, now)
  {
    assert (bs + [b])[..|bs|] == bs;
  }

  lemma UnackedNext(bs: seq<Blob>, b: Blob, ids: set<string>)
    ensures Unacked(bs + [b], ids) == if b.id in ids then Unacked(bs, ids) else Unacked(bs, ids) + [b]
  {
    assert (bs + [b])[..|bs|] == bs;
  }

  lemma PrefixNext(bs: seq<Blob>, i: nat)
    requires i < |bs|
    ensures bs[..i + 1] == bs[..i] + [bs[i]]
  {
  }

  /** Once expired, always expired: filtering again later is filtering later. */
  lemma {:induction false} LiveLater(bs: seq<Blob>, t: int, t': int)
    requires t <= t'
    ensures Live(Live(bs, t), t') == Live(bs, t')
  {
    if |bs| > 0 {
      LiveLater(bs[..|bs| - 1], t, t');
      if t < bs[|bs| - 1].expiresAt {
        LiveNext(Live(bs[..|bs| - 1], t), bs[|bs| - 1], t');
      }
    }
  }

  lemma {:induction false} LiveUnacked(bs: seq<Blob>, ids: set<string>, t: int)
    ensures Live(Unacked(bs, ids), t) == Unacked(Live(bs, t), ids)
  {
    if |bs| > 0 {
      var front, b := bs[..|bs| - 1], bs[|bs| - 1];
      LiveUnacked(front, ids, t);
      LiveNext(Unacked(front, ids), b, t);
      UnackedNext(Live(front, t), b, ids);
    }
  }

  // ----- operations on values -----

  ghost predicate WithinQuota(c: Caps, k: string, bs: seq<Blob>) {
    && 0 < |bs| <= c.maxPerKeyBlobs && Size(bs) <= c.maxPerKeyBytes
    && forall i :: 0 <= i < |bs| ==> bs[i].to == k && |bs[i].payload| <= c.maxBlobBytes
  }

  /** Counters are exact, no key is empty, and every quota and the key cap hold. */
  ghost predicate Valid(c: Caps, s: State) {
    && s.bytes.Keys == s.byKey.Keys
    && |s.byKey| <= c.maxKeys
    && forall k :: k in s.byKey ==> WithinQuota(c, k, s.byKey[k]) && s.bytes[k] == Size(s.byKey[k])
  }

  function SweptKeys(m: map<string, seq<Blob>>, now: int): map<string, seq<Blob>> {
    map k | k in m && |Live(m[k], now)| > 0 :: Live(m[k], now)
  }

  function Sizes(m: map<string, seq<Blob>>): map<string, int> {
    map k | k in m :: Size(m[k])
  }

  predicate SweepDue(c: Caps, s: State, now: int) {
    s.swept.None? || now - s.swept.value >= c.sweepEvery
  }

  function Swept(c: Caps, s: State, now: int): State {
    if !SweepDue(c, s, now) then s else
      State(SweptKeys(s.byKey, now), Sizes(SweptKeys(s.byKey, now)), Some(now))
  }

  function Deposited(c: Caps, s0: State, b: Blob, now: int): (State, DepositResult) {
    if |b.payload| > c.maxBlobBytes then (s0, TooLarge) else
      var s := Swept(c, s0, now);
      var pending, used := PendingOf(s.byKey, b.to), if b.to in s.bytes then s.bytes[b.to] else 0;
      if b.to !in s.byKey && |s.byKey| >= c.maxKeys then (s, Capacity)
      else if |pending| >= c.maxPerKeyBlobs || used + |b.payload| > c.maxPerKeyBytes then (s, QuotaFull)
      else (s.(byKey := s.byKey[b.to := pending + [b]], bytes := s.bytes[b.to := used + |b.payload|]), DepositOk)
  }

  function Acked(s: State, key: string, ids: set<string>): State {
    if key !in s.byKey then s else
      var kept := Unacked(s.byKey[key], ids);
      if |kept| == 0 then s.(byKey := s.byKey - {key}, bytes := s.bytes - {key})
      else s.(byKey := s.byKey[key := kept], bytes := s.bytes[key := Size(kept)])
  }

  // ----- every operation keeps the quotas -----

  lemma SubsetKeys(m: map<string, seq<Blob>>, n: map<string, seq<Blob>>)
    requires n.Keys <= m.Keys
    ensures |n| <= |m|
  {
    SubsetSize(n.Keys, m.Keys);
    assert |n| == |n.Keys| && |m| == |m.Keys|;
  }

  lemma {:induction false} SubsetSize(x: set<string>, y: set<string>)
    requires x <= y
    ensures |x| <= |y|
    decreases x
  {
    if x != {} {
      var k :| k in x;
      SubsetSize(x - {k}, y - {k});
    }
  }

  lemma LiveQuota(c: Caps, k: string, bs: seq<Blob>, now: int)
    requires WithinQuota(c, k, bs) && |Live(bs, now)| > 0
    ensures WithinQuota(c, k, Live(bs, now))
  {
    var r := Live(bs, now);
    forall i | 0 <= i < |r|
      ensures r[i].to == k && |r[i].payload| <= c.maxBlobBytes
    {
      assert r[i] in bs;
    }
  }

  lemma UnackedQuota(c: Caps, k: string, bs: seq<Blob>, ids: set<string>)
    requires WithinQuota(c, k, bs) && |Unacked(bs, ids)| > 0
    ensures WithinQuota(c, k, Unacked(bs, ids))
  {
    var r := Unacked(bs, ids);
    forall i | 0 <= i < |r|
      ensures r[i].to == k && |r[i].payload| <= c.maxBlobBytes
    {
      assert r[i] in bs;
    }
  }

  lemma SweptValid(c: Caps, s: State, now: int)
    requires Valid(c, s)
    ensures Valid(c, Swept(c, s, now))
  {
    hide Live, Size, WithinQuota;
    if SweepDue(c, s, now) {
      var m := SweptKeys(s.byKey, now);
      SubsetKeys(s.byKey, m);
      forall k | k in m
        ensures WithinQuota(c, k, m[k])
      {
        LiveQuota(c, k, s.byKey[k], now);
      }
    }
  }

  lemma DepositedValid(c: Caps, s0: State, b: Blob, now: int)
    requires Valid(c, s0)
    ensures Valid(c, Deposited(c, s0, b, now).0)
  {
    hide Live, Size, Swept;
    SweptValid(c, s0, now);
    var s := Swept(c, s0, now);
    SizeNext(PendingOf(s.byKey, b.to), b);
    EmptySize();
    if b.to !in s.byKey {
      assert |s.byKey[b.to := [b]]| == |s.byKey| + 1;
    }
  }

  /**
   The answer to a deposit of n bytes, told from what is pending after the sweep: the blob's own size first, then room for
   a new recipient, then the recipient's quotas.
   */
  ghost predicate Answers(c: Caps, s: State, to: string, n: nat, res: DepositResult) {
    var bs := PendingOf(s.byKey, to);
    && (res == TooLarge <==> n > c.maxBlobBytes)
    && (res == Capacity <==> n <= c.maxBlobBytes && |bs| == 0 && |s.byKey| >= c.maxKeys)
    && (res == QuotaFull <==>
      && n <= c.maxBlobBytes && (|bs| > 0 || |s.byKey| < c.maxKeys)
      && (|bs| >= c.maxPerKeyBlobs || Size(bs) + n > c.maxPerKeyBytes))
    && (res == DepositOk <==>
      && n <= c.maxBlobBytes && (|bs| > 0 || |s.byKey| < c.maxKeys)
      && |bs| < c.maxPerKeyBlobs && Size(bs) + n <= c.maxPerKeyBytes)
  }

  lemma DepositAnswers(c: Caps, s0: State, b: Blob, now: int)
    requires Valid(c, s0)
    ensures Answers(c, Swept(c, s0, now), b.to, |b.payload|, Deposited(c, s0, b, now).1)
  {
    hide Live, Size, Swept;
    SweptValid(c, s0, now);
    EmptySize();
    var s := Swept(c, s0, now);
    assert b.to in s.byKey ==> WithinQuota(c, b.to, s.byKey[b.to]) && s.bytes[b.to] == Size(s.byKey[b.to]);
  }

  /** After a sweep every key shows its live blobs. */
  lemma SweptShows(m: map<string, seq<Blob>>, now: int)
    ensures forall k :: PendingOf(SweptKeys(m, now), k) == Live(PendingOf(m, k), now)
  {
    hide Live;
    EmptyLive([], now);
  }

  lemma EmptySize()
    ensures Size([]) == 0
  {
  }

  lemma AckedValid(c: Caps, s: State, key: string, ids: set<string>)
    requires Valid(c, s)
    ensures Valid(c, Acked(s, key, ids))
  {
    hide Unacked, Size, WithinQuota;
    if key in s.byKey {
      if |Unacked(s.byKey[key], ids)| > 0 {
        UnackedQuota(c, key, s.byKey[key], ids);
      } else {
        SubsetKeys(s.byKey, s.byKey - {key});
      }
    }
  }

  // ----- the object -----

  class Queue {
    const c: Caps
    var byKey: map<string, seq<Blob>>
    var bytes: map<string, int>
    var swept: Option<int>

    ghost function S(): State
      reads this
    {
      State(byKey, bytes, swept)
    }

    /** An empty queue; a missing key cap or sweep interval takes its default. */
    constructor (caps: Caps)
      ensures S() == State(map[], map[], None) && Valid(c, S())
      ensures c == WithDefaults(caps)
      ensures c.maxKeys == (if caps.maxKeys <= 0 then 100_000 else caps.maxKeys)
      ensures c.sweepEvery == (if caps.sweepEvery <= 0 then 60 * SECOND else caps.sweepEvery)
      ensures c == caps.(maxKeys := c.maxKeys, sweepEvery := c.sweepEvery)
    {
      c := WithDefaults(caps);
      byKey, bytes, swept := map[], map[], None;
    }

    /** Keeps the live blobs of one key and adds up their sizes. */
    method FilterLive(pending: seq<Blob>, now: int) returns (kept: seq<Blob>, live: nat)
      ensures kept == Live(pending, now) && live == Size(kept)
    {
      hide Live, Size;
      kept, live := [], 0;
      EmptySize();
      EmptyLive(pending[..0], now);
      for i := 0 to |pending|
        invariant kept == Live(pending[..i], now) && live == Size(kept)
      {
        var b := pending[i];
        PrefixNext(pending, i);
        LiveNext(pending[..i], b, now);
        SizeNext(kept, b);
        if now < b.expiresAt {
          kept, live := kept + [b], live + |b.payload|;
        }
      }
      assert pending[..|pending|] == pending;
    }

    /** Reaps expired blobs, at most once per sweep interval. */
    method Sweep(now: int)
      requires Valid(c, S())
      modifies this
      ensures Valid(c, S()) && S() == Swept(c, old(S()), now)
      ensures if old(swept).Some? && now - old(swept).value < c.sweepEvery then S() == old(S())
              else swept == Some(now) && forall k :: PendingOf(byKey, k) == Live(PendingOf(old(byKey), k), now)
    {
      hide Live, Size, Valid, PartSwept, SweptKeys, Sizes;
      SweptShows(byKey, now);
      SweptValid(c, S(), now);
      if swept.Some? && now - swept.value < c.sweepEvery {
        return;
      }
      SweptExact(c, S());
      swept := Some(now);
      var left := byKey.Keys;
      PartSweptEnds(byKey, now);
      while left != {}
        invariant left <= old(byKey).Keys && swept == Some(now)
        invariant byKey == PartSwept(old(byKey), left, now) && bytes == Sizes(byKey)
        decreases left
      {
        var k :| k in left;
        PartSweptNext(old(byKey), left, k, now);
        SizesNext(byKey, k, Live(byKey[k], now));
        var kept, live := FilterLive(byKey[k], now);
        if |kept| == 0 {
          byKey, bytes := byKey - {k}, bytes - {k};
        } else {
          byKey, bytes := byKey[k := kept], bytes[k := live];
        }
        left := left - {k};
      }
    }

    /** Stores a blob for a recipient, or says which cap refused it. */
    method Deposit(id: string, from: string, to: string, payload: Bytes, ttl: int, now: int) returns (res: DepositResult)
      requires Valid(c, S())
      modifies this
      ensures Valid(c, S())
      ensures (S(), res) == Deposited(c, old(S()), Blob(id, from, to, payload, now, now + ttl), now)
      ensures Answers(c, Swept(c, old(S()), now), to, |payload|, res)
      ensures if res == TooLarge then S() == old(S())
              else
                var s := Swept(c, old(S()), now);
                if res != DepositOk then S() == s
                else
                  && swept == s.swept
                  && byKey == s.byKey[to := PendingOf(s.byKey, to) + [Blob(id, from, to, payload, now, now + ttl)]]
    {
      hide Live, Size, Valid, Swept, Answers;
      var b := Blob(id, from, to, payload, now, now + ttl);
      DepositAnswers(c, S(), b, now);
      DepositedValid(c, S(), b, now);
      if |payload| > c.maxBlobBytes {
        return TooLarge;
      }
      Sweep(now);
      var pending := if to in byKey then byKey[to] else [];
      if to !in byKey && |byKey| >= c.maxKeys {
        return Capacity;
      }
      if |pending| >= c.maxPerKeyBlobs {
        return QuotaFull;
      }
      var used := if to in bytes then bytes[to] else 0;
      if used + |payload| > c.maxPerKeyBytes {
        return QuotaFull;
      }
      byKey := byKey[to := pending + [b]];
      bytes := bytes[to := used + |payload|];
      res := DepositOk;
    }

    /** The live blobs of a key, in deposit order, left where they are. */
    method Pickup(key: string, now: int) returns (out: seq<Blob>)
      requires Valid(c, S())
      modifies this
      ensures Valid(c, S()) && S() == Swept(c, old(S()), now)
      ensures out == Live(PendingOf(byKey, key), now)
    {
      hide Live, Size, Valid, Swept;
      Sweep(now);
      var pending := if key in byKey then byKey[key] else [];
      var live;
      out, live := FilterLive(pending, now);
    }

    /** Splits off the named blobs: what stays, how many go and how many bytes go with them. */
    method FilterUnacked(pending: seq<Blob>, del: set<string>) returns (kept: seq<Blob>, removed: nat, freed: nat)
      ensures kept == Unacked(pending, del) && removed == |pending| - |kept| && freed == Size(pending) - Size(kept)
    {
      hide Unacked, Size;
      kept, removed, freed := [], 0, 0;
      EmptySize();
      EmptyUnacked(pending[..0], del);
      assert pending[..0] == [];
      for i := 0 to |pending|
        invariant kept == Unacked(pending[..i], del) && removed + |kept| == i && freed + Size(kept) == Size(pending[..i])
      {
        var b := pending[i];
        PrefixNext(pending, i);
        UnackedNext(pending[..i], b, del);
        SizeNext(pending[..i], b);
        SizeNext(kept, b);
        if b.id in del {
          removed, freed := removed + 1, freed + |b.payload|;
        } else {
          kept := kept + [b];
        }
      }
      assert pending[..|pending|] == pending;
    }

    /** Deletes the named blobs of a key; unknown ids are skipped. The byte counter never needs its clamp at zero. */
    method Ack(key: string, ids: seq<string>) returns (removed: nat)
      requires Valid(c, S())
      modifies this
      ensures Valid(c, S()) && S() == Acked(old(S()), key, set id | id in ids)
      ensures removed == |PendingOf(old(byKey), key)| - |PendingOf(byKey, key)|
      ensures PendingOf(byKey, key) == Unacked(PendingOf(old(byKey), key), set id | id in ids)
      ensures forall k :: k != key ==> PendingOf(byKey, k) == PendingOf(old(byKey), k)
    {
      hide Unacked, Size, Valid, Sizes;
      var del := set id | id in ids;
      AckedValid(c, S(), key, del);
      SweptExact(c, S());
      var pending := if key in byKey then byKey[key] else [];
      KeyKept(c, S(), key);
      if |ids| == 0 {
        NoIds(pending, del);
        return 0;
      }
      if |pending| == 0 {
        EmptyUnacked(pending, del);
        return 0;
      }
      var kept, freed;
      kept, removed, freed := FilterUnacked(pending, del);
      if |kept| == 0 {
        byKey, bytes := byKey - {key}, bytes - {key};
      } else {
        byKey := byKey[key := kept];
        var used := bytes[key] - freed;
        bytes := bytes[key := if used < 0 then 0 else used];
      }
    }
  }

  lemma KeyKept(c: Caps, s: State, k: string)
    requires Valid(c, s)
    ensures k in s.byKey <==> |PendingOf(s.byKey, k)| > 0
    ensures k in s.byKey ==>
      && k in s.bytes && s.bytes[k] == Size(s.byKey[k])
      && s.byKey[k := s.byKey[k]] == s.byKey && s.bytes[k := s.bytes[k]] == s.bytes
  {
    hide Size;
  }

  function WithDefaults(caps: Caps): Caps {
    caps.(maxKeys := if caps.maxKeys <= 0 then 100_000 else caps.maxKeys,
          sweepEvery := if caps.sweepEvery <= 0 then 60_000_000_000 else caps.sweepEvery)
  }

  lemma EmptyLive(bs: seq<Blob>, now: int)
    requires |bs| == 0
    ensures Live(bs, now) == []
  {
  }

  lemma EmptyUnacked(bs: seq<Blob>, ids: set<string>)
    requires |bs| == 0
    ensures Unacked(bs, ids) == []
  {
  }

  lemma {:induction false} NoIds(bs: seq<Blob>, ids: set<string>)
    requires ids == {}
    ensures Unacked(bs, ids) == bs
  {
    hide Unacked, Size;
    if |bs| == 0 {
      EmptyUnacked(bs, ids);
    } else {
      var front, b := bs[..|bs| - 1], bs[|bs| - 1];
      assert bs == front + [b];
      NoIds(front, ids);
      UnackedNext(front, b, ids);
    }
  }

  lemma SweptExact(c: Caps, s: State)
    requires Valid(c, s)
    ensures s.bytes == Sizes(s.byKey)
  {
    hide Size, WithinQuota;
  }

  /** A sweep under way: the keys in left are still to be visited. */
  ghost function PartSwept(m: map<string, seq<Blob>>, left: set<string>, now: int): map<string, seq<Blob>> {
    map k | k in m && (k in left || |Live(m[k], now)| > 0) :: if k in left then m[k] else Live(m[k], now)
  }

  lemma PartSweptEnds(m: map<string, seq<Blob>>, now: int)
    ensures PartSwept(m, m.Keys, now) == m && PartSwept(m, {}, now) == SweptKeys(m, now)
  {
    hide Live;
  }

  lemma PartSweptNext(m: map<string, seq<Blob>>, left: set<string>, k: string, now: int)
    requires k in left && left <= m.Keys
    ensures var p, kept := PartSwept(m, left, now), Live(m[k], now);
      && k in p && p[k] == m[k]
      && PartSwept(m, left - {k}, now) == if |kept| == 0 then p - {k} else p[k := kept]
  {
    hide Live;
  }

  lemma SizesNext(m: map<string, seq<Blob>>, k: string, bs: seq<Blob>)
    ensures Sizes(m - {k}) == Sizes(m) - {k} && Sizes(m[k := bs]) == Sizes(m)[k := Size(bs)]
  {
    hide Size;
  }

  // ----- whole runs -----

  datatype Call = DepositCall(b: Blob, now: int) | PickupCall(key: string, now: int) | AckCall(key: string, ids: set<string>, now: int)

  function Apply(c: Caps, s: State, call: Call): State {
    match call
    case DepositCall(b, now) => Deposited(c, s, b, now).0
    case PickupCall(_, now) => Swept(c, s, now)
    case AckCall(key, ids, _) => Acked(s, key, ids)
  }

  const EMPTY: State := State(map[], map[], None)

  function Run(c: Caps, calls: seq<Call>): State {
    if |calls| == 0 then EMPTY else Apply(c, Run(c, calls[..|calls| - 1]), calls[|calls| - 1])
  }

  /** Whether a call of a run is a deposit that was taken. */
  predicate Taken(c: Caps, calls: seq<Call>, i: nat)
    requires i < |calls|
  {
    calls[i].DepositCall? && Deposited(c, Run(c, calls[..i]), calls[i].b, calls[i].now).1 == DepositOk
  }

  /** In every run a deposit is taken exactly when its size, the key cap and the recipient's quotas after the sweep allow it. */
  lemma TakenExact(c: Caps, calls: seq<Call>, i: nat)
    requires c.maxKeys >= 0 && i < |calls| && calls[i].DepositCall?
    ensures var b := calls[i].b;
      var s := Swept(c, Run(c, calls[..i]), calls[i].now);
      var bs := PendingOf(s.byKey, b.to);
      Taken(c, calls, i) <==>
        && |b.payload| <= c.maxBlobBytes && (|bs| > 0 || |s.byKey| < c.maxKeys)
        && |bs| < c.maxPerKeyBlobs && Size(bs) + |b.payload| <= c.maxPerKeyBytes
  {
    hide Swept, Deposited, Run, Size, Valid;
    RunValid(c, calls[..i]);
    DepositAnswers(c, Run(c, calls[..i]), calls[i].b, calls[i].now);
  }

  /** What one call adds to or strikes from the log of a key. */
  function Logged(call: Call, taken: bool, log: seq<Blob>, k: string): seq<Blob> {
    match call
    case DepositCall(b, _) => if taken && b.to == k then log + [b] else log
    case PickupCall(_, _) => log
    case AckCall(key, ids, _) => if key == k then Unacked(log, ids) else log
  }

  /** All a key was ever sent and has not acknowledged, in deposit order: no sweep, no expiry. */
  function Log(c: Caps, calls: seq<Call>, k: string): seq<Blob> {
    if |calls| == 0 then [] else
      var n := |calls| - 1;
      Logged(calls[n], Taken(c, calls, n), Log(c, calls[..n], k), k)
  }

  ghost predicate ClockForward(calls: seq<Call>) {
    forall i, j :: 0 <= i < j < |calls| ==> calls[i].now <= calls[j].now
  }

  /** At this time and ever after, the queue and the log show a key the same blobs. */
  ghost predicate Agrees(s: State, log: seq<Blob>, k: string, t: int) {
    Live(PendingOf(s.byKey, k), t) == Live(log, t)
  }

  lemma AgreesLater(s: State, log: seq<Blob>, k: string, t: int, t': int)
    requires Agrees(s, log, k, t) && t <= t'
    ensures Agrees(s, log, k, t')
  {
    hide Live;
    LiveLater(PendingOf(s.byKey, k), t, t');
    LiveLater(log, t, t');
  }

  lemma SweptPending(c: Caps, s: State, k: string, t: int)
    ensures Live(PendingOf(Swept(c, s, t).byKey, k), t) == Live(PendingOf(s.byKey, k), t)
  {
    hide Live;
    EmptyLive([], t);
    LiveLater(PendingOf(s.byKey, k), t, t);
  }

  lemma DepositAgrees(c: Caps, s: State, b: Blob, now: int, log: seq<Blob>, k: string)
    requires Agrees(s, log, k, now)
    ensures var (s', res) := Deposited(c, s, b, now);
      Agrees(s', if res == DepositOk && b.to == k then log + [b] else log, k, now)
  {
    hide Live, Size, Swept;
    SweptPending(c, s, k, now);
    LiveNext(log, b, now);
    LiveNext(PendingOf(Swept(c, s, now).byKey, k), b, now);
  }

  lemma AckAgrees(s: State, key: string, ids: set<string>, now: int, log: seq<Blob>, k: string)
    requires Agrees(s, log, k, now)
    ensures Agrees(Acked(s, key, ids), if key == k then Unacked(log, ids) else log, k, now)
  {
    hide Live, Unacked, Size;
    LiveUnacked(log, ids, now);
    LiveUnacked(PendingOf(s.byKey, k), ids, now);
    EmptyUnacked([], ids);
  }

  lemma ApplyAgrees(c: Caps, s: State, call: Call, taken: bool, log: seq<Blob>, k: string)
    requires Agrees(s, log, k, call.now)
    requires taken <==> call.DepositCall? && Deposited(c, s, call.b, call.now).1 == DepositOk
    ensures Agrees(Apply(c, s, call), Logged(call, taken, log, k), k, call.now)
  {
    hide Live, Unacked, Size, Swept, Deposited, Acked;
    match call
    case DepositCall(b, now) => DepositAgrees(c, s, b, now, log, k);
    case PickupCall(_, now) => SweptPending(c, s, k, now);
    case AckCall(key, ids, now) => AckAgrees(s, key, ids, now, log, k);
  }

  /** In every run under a forward clock the queue shows each key exactly the live part of its log. */
  lemma {:induction false} RunAgrees(c: Caps, calls: seq<Call>, k: string, t: int)
    requires ClockForward(calls) && (|calls| > 0 ==> calls[|calls| - 1].now <= t)
    ensures Agrees(Run(c, calls), Log(c, calls, k), k, t)
    decreases |calls|
  {
    hide Live, Unacked, Size, Swept, Apply, Agrees, Deposited;
    if |calls| == 0 {
      EmptyAgrees(c, calls, k, t);
    } else {
      var n := |calls| - 1;
      var call := calls[n];
      RunAgrees(c, calls[..n], k, call.now);
      ApplyAgrees(c, Run(c, calls[..n]), call, Taken(c, calls, n), Log(c, calls[..n], k), k);
      AgreesLater(Run(c, calls), Log(c, calls, k), k, call.now, t);
    }
  }

  lemma EmptyAgrees(c: Caps, calls: seq<Call>, k: string, t: int)
    requires |calls| == 0
    ensures Agrees(Run(c, calls), Log(c, calls, k), k, t)
  {
  }

  /** What a pickup returns at the end of any run: the log's live blobs, in deposit order. */
  lemma PickupIsLiveLog(c: Caps, calls: seq<Call>, key: string, now: int)
    requires ClockForward(calls) && (|calls| > 0 ==> calls[|calls| - 1].now <= now)
    ensures Live(PendingOf(Swept(c, Run(c, calls), now).byKey, key), now) == Live(Log(c, calls, key), now)
  {
    hide Live, Swept;
    RunAgrees(c, calls, key, now);
    SweptPending(c, Run(c, calls), key, now);
  }

  /** A blob that was taken is in every later pickup until it is acknowledged or expires. */
  lemma DeliveredUntilAcked(c: Caps, calls: seq<Call>, i: nat, now: int)
    requires ClockForward(calls) && (|calls| > 0 ==> calls[|calls| - 1].now <= now)
    requires i < |calls| && Taken(c, calls, i) && now < calls[i].b.expiresAt
    requires forall j :: i < j < |calls| && calls[j].AckCall? && calls[j].key == calls[i].b.to ==> calls[i].b.id !in calls[j].ids
    ensures calls[i].b in Live(PendingOf(Swept(c, Run(c, calls), now).byKey, calls[i].b.to), now)
  {
    hide Run, Swept, Live, Log;
    PickupIsLiveLog(c, calls, calls[i].b.to, now);
    InLog(c, calls, i);
  }

  lemma {:induction false} InLog(c: Caps, calls: seq<Call>, i: nat)
    requires i < |calls| && Taken(c, calls, i)
    requires forall j :: i < j < |calls| && calls[j].AckCall? && calls[j].key == calls[i].b.to ==> calls[i].b.id !in calls[j].ids
    ensures calls[i].b in Log(c, calls, calls[i].b.to)
    decreases |calls|
  {
    hide Run, Deposited;
    var n := |calls| - 1;
    if i < n {
      assert calls[..n][..i] == calls[..i];
      InLog(c, calls[..n], i);
    }
  }

  lemma {:induction false} RunValid(c: Caps, calls: seq<Call>)
    requires c.maxKeys >= 0
    ensures Valid(c, Run(c, calls))
    decreases |calls|
  {
    hide Swept, Deposited, Acked;
    if |calls| > 0 {
      var n := |calls| - 1;
      var s := Run(c, calls[..n]);
      RunValid(c, calls[..n]);
      match calls[n]
      case DepositCall(b, now) => DepositedValid(c, s, b, now);
      case PickupCall(_, now) => SweptValid(c, s, now);
      case AckCall(key, ids, _) => AckedValid(c, s, key, ids);
    }
  }

  // ----- time to live -----

  const TWO_TO_63: int := 0x8000_0000_0000_0000
  const SECOND: int := 1_000_000_000

  /** The value a 64-bit signed integer takes for x. */
  function Wrap64(x: int): int {
    (x + TWO_TO_63) % (2 * TWO_TO_63) - TWO_TO_63
  }

  /** A requested lifetime in seconds, brought into the queue's range; the multiplication is 64-bit. */
  function ClampTtl(c: Caps, seconds: int): int {
    if seconds <= 0 then c.defaultTtl else
      var d := Wrap64(seconds * SECOND);
      if d > c.maxTtl then c.maxTtl else d
  }

  /**
   Without a request the default holds. With one, the clamp is the smaller of request and ceiling exactly when the product
   fits or wraps to at least the ceiling.
   */
  lemma ClampExact(c: Caps, seconds: int)
    requires seconds < TWO_TO_63 && 0 <= c.maxTtl < TWO_TO_63
    ensures seconds <= 0 ==> ClampTtl(c, seconds) == c.defaultTtl
    ensures seconds > 0 ==>
      (ClampTtl(c, seconds) == (if seconds * SECOND > c.maxTtl then c.maxTtl else seconds * SECOND) <==>
       seconds * SECOND < TWO_TO_63 || Wrap64(seconds * SECOND) >= c.maxTtl)
  {
  }

  /** A request of 9223372037 seconds wraps to a lifetime in the past. */
  lemma ClampWraps(c: Caps)
    requires 0 <= c.maxTtl
    ensures ClampTtl(c, 9_223_372_037) < 0
  {
  }
}
