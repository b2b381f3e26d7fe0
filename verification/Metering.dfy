/**
 Usage metering: deltas gathered in memory, drained into reports with stable ids, and posted at least once to a control
 plane that applies each id once, over a network that loses, delays and repeats messages.
 */
module Metering {
  import opened Common
  import opened Sums

  datatype Delta = Delta(bytes: nat, sessions: nat)

  datatype Item = Item(account: string, bytes: nat, sessions: nat)

  /** A report id: the boot nonce of the process and a number within the boot. */
  datatype Id = Id(boot: nat, number: nat)

  datatype Report = Report(id: Id, items: seq<Item>)

  datatype Caps = Caps(maxAccounts: nat, maxRetryBatches: nat)

  /** The two things that are billed. */
  datatype Unit = Bytes | Sessions

  // ----- amounts -----

  function Amount(it: Item, u: Unit): nat {
    if u == Bytes then it.bytes else it.sessions
  }

  /** What a list of items says about one account. */
  function Due(items: seq<Item>, a: string, u: Unit): nat {
    if |items| == 0 then 0 else
      Due(items[..|items| - 1], a, u) + if items[|items| - 1].account == a then Amount(items[|items| - 1], u) else 0
  }

  lemma DueNext(items: seq<Item>, it: Item, a: string, u: Unit)
    ensures Due(items + [it], a, u) == Due(items, a, u) + if it.account == a then Amount(it, u) else 0
  {
    assert (items + [it])[..|items|] == items;
  }

  /** What a ledger holds for one account. */
  function At(m: map<string, Delta>, a: string, u: Unit): nat {
    if a !in m then 0 else if u == Bytes then m[a].bytes else m[a].sessions
  }

  function Credit(m: map<string, Delta>, a: string, bytes: nat, sessions: nat): map<string, Delta> {
    m[a := Delta(At(m, a, Bytes) + bytes, At(m, a, Sessions) + sessions)]
  }

  /** A ledger after each item of a list is added to it. */
  function CreditAll(m: map<string, Delta>, items: seq<Item>): map<string, Delta> {
    if |items| == 0 then m else
      var it := items[|items| - 1];
      Credit(CreditAll(m, items[..|items| - 1]), it.account, it.bytes, it.sessions)
  }

  lemma {:induction false} CreditAllAt(m: map<string, Delta>, items: seq<Item>, a: string, u: Unit)
    ensures At(CreditAll(m, items), a, u) == At(m, a, u) + Due(items, a, u)
  {
    if |items| > 0 {
      CreditAllAt(m, items[..|items| - 1], a, u);
    }
  }

  /** The items say exactly what the pending deltas say. */
  ghost predicate Drains(items: seq<Item>, pending: map<string, Delta>) {
    forall a, u :: Due(items, a, u) == At(pending, a, u)
  }

  // ----- the meter -----

  /** The pending deltas after one recorded amount; a new account past the cap is dropped. */
  function Record(c: Caps, pending: map<string, Delta>, a: string, bytes: nat, sessions: nat): map<string, Delta> {
    if a == "" || (a !in pending && |pending| >= c.maxAccounts) then pending else Credit(pending, a, bytes, sessions)
  }

  /** The oldest batches go when the queue would be too long. */
  function Shed(c: Caps, queue: seq<Report>): seq<Report> {
    if |queue| > c.maxRetryBatches then queue[..|queue| - c.maxRetryBatches] else []
  }

  function Kept(c: Caps, queue: seq<Report>): (r: seq<Report>)
    ensures Shed(c, queue) + r == queue
    ensures |r| == if |queue| <= c.maxRetryBatches then |queue| else c.maxRetryBatches
  {
    if |queue| > c.maxRetryBatches then queue[|queue| - c.maxRetryBatches..] else queue
  }

  class Meter {
    const c: Caps
    const boot: nat
    var pending: map<string, Delta>
    var retry: seq<Report>
    var number: nat

    constructor (caps: Caps, bootId: nat)
      ensures c == caps && boot == bootId && pending == map[] && retry == [] && number == 0
    {
      c, boot := caps, bootId;
      pending, retry, number := map[], [], 0;
    }

    method AddBytes(a: string, n: int)
      modifies this`pending
      ensures pending == if n > 0 then Record(c, old(pending), a, n, 0) else old(pending)
      ensures a != "" && n > 0 && (a in old(pending) || |old(pending)| < c.maxAccounts) ==>
        var d := if a in old(pending) then old(pending)[a] else Delta(0, 0);
        pending == old(pending)[a := Delta(d.bytes + n, d.sessions)]
      ensures a == "" || n <= 0 || (a !in old(pending) && |old(pending)| >= c.maxAccounts) ==> pending == old(pending)
    {
      if a == "" || n <= 0 {
        return;
      }
      if a !in pending {
        if |pending| >= c.maxAccounts {
          return;
        }
        pending := pending[a := Delta(0, 0)];
      }
      pending := pending[a := pending[a].(bytes := pending[a].bytes + n)];
    }

    method AddSession(a: string)
      modifies this`pending
      ensures pending == Record(c, old(pending), a, 0, 1)
      ensures a != "" && (a in old(pending) || |old(pending)| < c.maxAccounts) ==>
        var d := if a in old(pending) then old(pending)[a] else Delta(0, 0);
        pending == old(pending)[a := Delta(d.bytes, d.sessions + 1)]
      ensures a == "" || (a !in old(pending) && |old(pending)| >= c.maxAccounts) ==> pending == old(pending)
    {
      if a == "" {
        return;
      }
      if a !in pending {
        if |pending| >= c.maxAccounts {
          return;
        }
        pending := pending[a := Delta(0, 0)];
      }
      pending := pending[a := pending[a].(sessions := pending[a].sessions + 1)];
    }

    /** Empties the pending deltas into items, one per account with something to report. */
    method Drain() returns (items: seq<Item>)
      modifies this`pending
      ensures pending == map[] && Drains(items, old(pending))
      ensures forall i :: 0 <= i < |items| ==> items[i].bytes > 0 || items[i].sessions > 0
      ensures forall i, j :: 0 <= i < j < |items| ==> items[i].account != items[j].account
    {
      hide Due;
      items := [];
      var left := pending.Keys;
      DrainNone(pending);
      while left != {}
        invariant pending == old(pending) && left <= pending.Keys
        invariant Drains(items, pending - left)
        invariant forall i :: 0 <= i < |items| ==> items[i].account in pending && items[i].account !in left
        invariant forall i :: 0 <= i < |items| ==> items[i].bytes > 0 || items[i].sessions > 0
        invariant forall i, j :: 0 <= i < j < |items| ==> items[i].account != items[j].account
        decreases left
      {
        var a :| a in left;
        var d := pending[a];
        DrainNext(items, pending, left, a);
        if !(d.bytes == 0 && d.sessions == 0) {
          items := items + [Item(a, d.bytes, d.sessions)];
        }
        left := left - {a};
      }
      assert pending - {} == pending;
      pending := map[];
    }

    method TakeRetry() returns (out: seq<Report>)
      modifies this`retry
      ensures out == old(retry) && retry == []
    {
      out := retry;
      retry := [];
    }

    /** Puts batches back; of a queue that is too long the newest stay. */
    method Requeue(batches: seq<Report>)
      modifies this`retry
      ensures retry == if |batches| == 0 then old(retry) else Kept(c, old(retry) + batches)
      ensures |batches| > 0 ==>
        var queue := old(retry) + batches;
        && |retry| == (if |queue| <= c.maxRetryBatches then |queue| else c.maxRetryBatches)
        && retry == queue[|queue| - |retry|..]
    {
      if |batches| == 0 {
        return;
      }
      retry := retry + batches;
      if |retry| > c.maxRetryBatches {
        retry := retry[|retry| - c.maxRetryBatches..];
      }
    }

    method NextReportId() returns (id: Id)
      modifies this`number
      ensures number == old(number) + 1 && id == Id(boot, number)
    {
      number := number + 1;
      id := Id(boot, number);
    }

    /**
     One flush with nothing running beside it: old batches first, under their old ids, then what was pending. Every batch
     whose post fails is kept for the next flush, unless there are too many of them and it is among the oldest.
     */
    method FlushOnce() returns (ghost items: seq<Item>, ghost sent: seq<Report>, ghost oks: seq<bool>)
      modifies this
      ensures pending == map[] && Drains(items, old(pending))
      ensures number == old(number) + if |items| > 0 then 1 else 0
      ensures sent == old(retry) + if |items| > 0 then [Report(Id(boot, number), items)] else []
      ensures |oks| == |sent|
      ensures retry == Kept(c, Failed(sent, oks))
      ensures |sent| <= c.maxRetryBatches || |retry| < c.maxRetryBatches ==>
        forall i :: 0 <= i < |sent| && !oks[i] ==> sent[i] in retry
      ensures forall r :: r in retry ==> exists i :: 0 <= i < |sent| && !oks[i] && sent[i] == r
    {
      hide Due, Drains, Failed, Kept, Shed;
      var batches := TakeRetry();
      var newItems := Drain();
      items := newItems;
      if |newItems| > 0 {
        var id := NextReportId();
        batches := batches + [Report(id, newItems)];
      }
      sent := batches;
      var failed: seq<Report> := [];
      oks := [];
      FailedNone(batches[..0]);
      for i := 0 to |batches|
        invariant |oks| == i && failed == Failed(batches[..i], oks)
        invariant pending == map[] && retry == [] && number == old(number) + if |items| > 0 then 1 else 0
      {
        var ok: bool := *;  // the meter learns only whether a good answer came back
        FailedNext(batches, oks, i, ok);
        oks := oks + [ok];
        if !ok {
          failed := failed + [batches[i]];
        }
      }
      assert batches[..|batches|] == batches;
      Requeue(failed);
      if |failed| == 0 {
        KeptNone(c, failed);
      }
      FailedKept(c, sent, oks);
      assert [] + failed == failed;
    }
  }

  lemma KeptNone(c: Caps, queue: seq<Report>)
    requires |queue| == 0
    ensures Kept(c, queue) == queue
  {
  }

  /** What is kept of the failed posts, told without the queue's own functions. */
  lemma FailedKept(c: Caps, sent: seq<Report>, oks: seq<bool>)
    requires |sent| == |oks|
    ensures var retry := Kept(c, Failed(sent, oks));
      && (|sent| <= c.maxRetryBatches || |retry| < c.maxRetryBatches ==>
          forall i :: 0 <= i < |sent| && !oks[i] ==> sent[i] in retry)
      && (forall r :: r in retry ==> exists i :: 0 <= i < |sent| && !oks[i] && sent[i] == r)
  {
    hide Failed;
    FailedExact(sent, oks);
    assert forall r :: r in Kept(c, Failed(sent, oks)) ==> r in Failed(sent, oks);
  }

  lemma {:induction false} FailedExact(bs: seq<Report>, oks: seq<bool>)
    requires |bs| == |oks|
    ensures |Failed(bs, oks)| <= |bs| && forall i :: 0 <= i < |bs| && !oks[i] ==> bs[i] in Failed(bs, oks)
    ensures forall r :: r in Failed(bs, oks) ==> exists i :: 0 <= i < |bs| && !oks[i] && bs[i] == r
    decreases |bs|
  {
    if |bs| > 0 {
      var n := |bs| - 1;
      FailedExact(bs[..n], oks[..n]);
      forall i | 0 <= i < |bs| && !oks[i]
        ensures bs[i] in Failed(bs, oks)
      {
        if i < n {
          assert bs[..n][i] == bs[i];
        }
      }
      forall r | r in Failed(bs, oks)
        ensures exists i :: 0 <= i < |bs| && !oks[i] && bs[i] == r
      {
        if r in Failed(bs[..n], oks[..n]) {
          var i :| 0 <= i < n && !oks[..n][i] && bs[..n][i] == r;
          assert bs[i] == r && !oks[i];
        }
      }
    }
  }

  /** The batches whose post did not succeed, in order. */
  function Failed(bs: seq<Report>, oks: seq<bool>): seq<Report>
    requires |bs| == |oks|
  {
    if |bs| == 0 then [] else
      var n := |bs| - 1;
      if oks[n] then Failed(bs[..n], oks[..n]) else Failed(bs[..n], oks[..n]) + [bs[n]]
  }

  lemma FailedNone(bs: seq<Report>)
    requires |bs| == 0
    ensures Failed(bs, []) == []
  {
  }

  lemma FailedNext(bs: seq<Report>, oks: seq<bool>, i: nat, ok: bool)
    requires |oks| == i < |bs|
    ensures Failed(bs[..i + 1], oks + [ok]) == if ok then Failed(bs[..i], oks) else Failed(bs[..i], oks) + [bs[i]]
  {
    assert bs[..i + 1][..i] == bs[..i] && (oks + [ok])[..i] == oks;
  }

  lemma DrainNone(pending: map<string, Delta>)
    ensures Drains([], pending - pending.Keys)
  {
  }

  lemma DrainNext(items: seq<Item>, pending: map<string, Delta>, left: set<string>, a: string)
    requires a in left && left <= pending.Keys && Drains(items, pending - left)
    ensures var d := pending[a];
      Drains(if d.bytes == 0 && d.sessions == 0 then items else items + [Item(a, d.bytes, d.sessions)], pending - (left - {a}))
  {
    hide Due;
    var d := pending[a];
    var less, more := pending - left, pending - (left - {a});
    var next := if d.bytes == 0 && d.sessions == 0 then items else items + [Item(a, d.bytes, d.sessions)];
    forall b, u
      ensures Due(next, b, u) == At(more, b, u)
    {
      DueNext(items, Item(a, d.bytes, d.sessions), b, u);
      assert Due(items, b, u) == At(less, b, u);
    }
  }

  // ----- the protocol -----

  /** Where the flush loop stands. */
  datatype Flush =
    | Idle
    | Took(batches: seq<Report>)
    | Sending(batches: seq<Report>, next: nat, failed: seq<Report>)

  /**
   The meter, the messages on their way, the control plane, and the books the theorem is about: what was recorded, what
   a restart lost before it was drained, and the batches given up on.
   */
  datatype World = World(
    pending: map<string, Delta>, retry: seq<Report>, number: nat, boot: nat, flush: Flush,
    sent: set<Report>,
    applied: set<Id>, billed: map<string, Delta>,
    recorded: map<string, Delta>, lost: map<string, Delta>, abandoned: seq<Report>,
    minted: map<Id, seq<Item>>, boots: set<nat>)

  /** Batches the flush loop holds. */
  function Held(f: Flush): seq<Report> {
    match f
    case Idle => []
    case Took(bs) => bs
    case Sending(bs, n, failed) => if n <= |bs| then failed + bs[n..] else failed
  }

  /** Every batch not yet known to be applied: given up, queued, or in the loop's hands. */
  function Outstanding(w: World): seq<Report> {
    w.abandoned + (w.retry + Held(w.flush))
  }

  datatype Step =
    | AddBytes(account: string, n: nat) | AddSession(account: string)
    | TakeRetry | Drain(items: seq<Item>) | Send | Ack | Fail | Requeue
    | Deliver(r: Report) | Restart(boot: nat, items: seq<Item>)

  ghost predicate Next(c: Caps, w: World, w': World, step: Step) {
    match step
    case AddBytes(a, n) => n > 0 && w' == Recorded(c, w, a, n, 0)
    case AddSession(a) => w' == Recorded(c, w, a, 0, 1)
    case TakeRetry =>
      w.flush == Idle && w' == w.(retry := [], flush := Took(w.retry))
    case Drain(items) =>
      && w.flush.Took? && Drains(items, w.pending)
      && var id := Id(w.boot, w.number + 1);
      && w' == if |items| == 0 then w.(pending := map[], flush := Sending(w.flush.batches, 0, []))
        else w.(pending := map[], number := w.number + 1, minted := w.minted[id := items],
                flush := Sending(w.flush.batches + [Report(id, items)], 0, []))
    case Send =>
      && w.flush.Sending? && w.flush.next < |w.flush.batches|
      && w' == w.(sent := w.sent + {w.flush.batches[w.flush.next]})
    case Ack =>
      && w.flush.Sending? && w.flush.next < |w.flush.batches| && w.flush.batches[w.flush.next].id in w.applied
      && w' == w.(flush := w.flush.(next := w.flush.next + 1))
    case Fail =>
      && w.flush.Sending? && w.flush.next < |w.flush.batches|
      && w' == w.(flush := w.flush.(next := w.flush.next + 1, failed := w.flush.failed + [w.flush.batches[w.flush.next]]))
    case Requeue =>
      && w.flush.Sending? && w.flush.next == |w.flush.batches|
      && var queue := w.retry + w.flush.failed;
      && w' == w.(flush := Idle, retry := Kept(c, queue), abandoned := w.abandoned + Shed(c, queue))
    case Deliver(r) =>
      && r in w.sent
      && w' == if r.id in w.applied then w
        else w.(applied := w.applied + {r.id}, billed := CreditAll(w.billed, r.items))
    case Restart(boot, items) =>
      && boot !in w.boots && Drains(items, w.pending)
      && w' == w.(pending := map[], retry := [], number := 0, boot := boot, flush := Idle,
                  lost := CreditAll(w.lost, items), abandoned := Outstanding(w), boots := w.boots + {boot})
  }

  function Recorded(c: Caps, w: World, a: string, bytes: nat, sessions: nat): World {
    if a == "" || (a !in w.pending && |w.pending| >= c.maxAccounts) then w
    else w.(pending := Credit(w.pending, a, bytes, sessions), recorded := Credit(w.recorded, a, bytes, sessions))
  }

  // ----- the invariant -----

  /** What each minted report owes an account. */
  function Owing(minted: map<Id, seq<Item>>, a: string, u: Unit): map<Id, nat> {
    map id | id in minted :: Due(minted[id], a, u)
  }

  function Only(m: map<Id, nat>, ids: set<Id>): map<Id, nat> {
    map id | id in m && id in ids :: m[id]
  }

  /** Every amount recorded is pending, lost with a process, or in a minted report; what is billed is what was applied. */
  ghost predicate Balanced(w: World, a: string, u: Unit) {
    && At(w.recorded, a, u) == At(w.pending, a, u) + At(w.lost, a, u) + Total(Owing(w.minted, a, u))
    && At(w.billed, a, u) == Total(Only(Owing(w.minted, a, u), w.applied))
  }

  ghost predicate DistinctIds(rs: seq<Report>) {
    forall i, j :: 0 <= i < j < |rs| ==> rs[i].id != rs[j].id
  }

  ghost predicate IsMinted(w: World, r: Report) {
    r.id in w.minted && w.minted[r.id] == r.items
  }

  /** Ids are minted once, reports never change, and a minted report that is not applied is still held somewhere. */
  ghost predicate Traceable(w: World) {
    && w.applied <= w.minted.Keys
    && DistinctIds(Outstanding(w))
    && (forall i :: 0 <= i < |Outstanding(w)| ==> IsMinted(w, Outstanding(w)[i]))
    && (forall r :: r in w.sent ==> IsMinted(w, r))
    && (forall id :: id in w.minted && id !in w.applied ==> exists i :: 0 <= i < |Outstanding(w)| && Outstanding(w)[i].id == id)
    && w.boot in w.boots
    && (forall id :: id in w.minted ==> id.boot in w.boots && (id.boot == w.boot ==> id.number <= w.number))
    && (w.flush.Sending? ==> w.flush.next <= |w.flush.batches|)
  }

  lemma CreditAt(m: map<string, Delta>, b: string, bytes: nat, sessions: nat, a: string, u: Unit)
    ensures At(Credit(m, b, bytes, sessions), a, u) ==
      At(m, a, u) + if a != b then 0 else if u == Bytes then bytes else sessions
  {
  }

  lemma RecordedBalanced(c: Caps, w: World, b: string, bytes: nat, sessions: nat, a: string, u: Unit)
    requires Balanced(w, a, u)
    ensures Balanced(Recorded(c, w, b, bytes, sessions), a, u)
    ensures Recorded(c, w, b, bytes, sessions).pending == Record(c, w.pending, b, bytes, sessions)
  {
    hide Total, Due, Credit, Owing, Only;
    CreditAt(w.pending, b, bytes, sessions, a, u);
    CreditAt(w.recorded, b, bytes, sessions, a, u);
  }

  lemma MintBalanced(w: World, id: Id, items: seq<Item>, a: string, u: Unit)
    requires Balanced(w, a, u) && Drains(items, w.pending) && id !in w.minted && w.applied <= w.minted.Keys
    ensures Balanced(w.(pending := map[], minted := w.minted[id := items]), a, u)
  {
    hide Total, Due;
    var owing, more := Owing(w.minted, a, u), Owing(w.minted[id := items], a, u);
    assert more == owing[id := Due(items, a, u)];
    TotalWith(owing, id, Due(items, a, u));
    assert Only(more, w.applied) == Only(owing, w.applied);
  }

  lemma EmptyBalanced(w: World, a: string, u: Unit)
    requires Balanced(w, a, u) && Drains([], w.pending)
    ensures Balanced(w.(pending := map[]), a, u)
  {
    hide Total, Owing, Only;
  }

  lemma DeliverBalanced(w: World, r: Report, a: string, u: Unit)
    requires Balanced(w, a, u) && IsMinted(w, r) && r.id !in w.applied
    ensures Balanced(w.(applied := w.applied + {r.id}, billed := CreditAll(w.billed, r.items)), a, u)
  {
    hide Total, Due, CreditAll;
    var owing := Owing(w.minted, a, u);
    assert Only(owing, w.applied + {r.id}) == Only(owing, w.applied)[r.id := Due(r.items, a, u)];
    TotalWith(Only(owing, w.applied), r.id, Due(r.items, a, u));
    CreditAllAt(w.billed, r.items, a, u);
  }

  lemma RestartBalanced(w: World, items: seq<Item>, a: string, u: Unit)
    requires Balanced(w, a, u) && Drains(items, w.pending)
    ensures Balanced(w.(pending := map[], lost := CreditAll(w.lost, items)), a, u)
  {
    hide Total, Due, CreditAll, Owing, Only;
    CreditAllAt(w.lost, items, a, u);
  }

  /** Only the books matter to the balance. */
  lemma SameBooks(w: World, w': World, a: string, u: Unit)
    requires Balanced(w, a, u) && w'.recorded == w.recorded && w'.pending == w.pending && w'.lost == w.lost
    requires w'.minted == w.minted && w'.billed == w.billed && w'.applied == w.applied
    ensures Balanced(w', a, u)
  {
  }

  lemma StepBalanced(c: Caps, w: World, w': World, step: Step, a: string, u: Unit)
    requires Traceable(w) && Balanced(w, a, u) && Next(c, w, w', step)
    ensures Balanced(w', a, u)
  {
    hide Balanced, Total, Due, Drains, Recorded, CreditAll, Outstanding, DistinctIds;
    match step
    case AddBytes(b, n) => RecordedBalanced(c, w, b, n, 0, a, u);
    case AddSession(b) => RecordedBalanced(c, w, b, 0, 1, a, u);
    case Drain(items) =>
      if |items| == 0 {
        assert items == [];
        EmptyBalanced(w, a, u);
        SameBooks(w.(pending := map[]), w', a, u);
      } else {
        var id := Id(w.boot, w.number + 1);
        MintBalanced(w, id, items, a, u);
        SameBooks(w.(pending := map[], minted := w.minted[id := items]), w', a, u);
      }
    case Deliver(r) =>
      if r.id !in w.applied {
        DeliverBalanced(w, r, a, u);
      }
    case Restart(_, items) =>
      RestartBalanced(w, items, a, u);
      SameBooks(w.(pending := map[], lost := CreditAll(w.lost, items)), w', a, u);
    case _ => SameBooks(w, w', a, u);
  }

  // ----- reports are never forged, split or forgotten -----

  lemma RequeueSame(c: Caps, ab: seq<Report>, queue: seq<Report>)
    ensures (ab + Shed(c, queue)) + Kept(c, queue) == ab + queue
  {
  }

  lemma FailKept(c: Caps, w: World, w': World)
    requires Next(c, w, w', Fail)
    ensures Outstanding(w') == Outstanding(w)
  {
    hide Due, Drains, CreditAll, Credit, Kept, Shed;
    var f := w.flush;
    assert f.failed + f.batches[f.next..] == (f.failed + [f.batches[f.next]]) + f.batches[f.next + 1..];
  }

  lemma RequeueKept(c: Caps, w: World, w': World)
    requires Next(c, w, w', Requeue) && w.flush.next <= |w.flush.batches|
    ensures Outstanding(w') == Outstanding(w)
  {
    hide Due, Drains, CreditAll, Credit, Kept, Shed;
    var f := w.flush;
    assert f.batches[f.next..] == [] && Held(f) == f.failed;
    RequeueSame(c, w.abandoned, w.retry + f.failed);
    assert w'.retry + [] == w'.retry;
  }

  /** All steps but a mint and an acknowledgement leave the outstanding batches as they are. */
  lemma OutstandingKept(c: Caps, w: World, w': World, step: Step)
    requires Next(c, w, w', step) && (w.flush.Sending? ==> w.flush.next <= |w.flush.batches|)
    requires !step.Ack? && (step.Drain? ==> |step.items| == 0)
    ensures Outstanding(w') == Outstanding(w)
  {
    hide Due, Drains, CreditAll, Credit, Kept, Shed;
    match step
    case Drain(items) =>
      assert Held(w'.flush) == w.flush.batches;
    case Fail => FailKept(c, w, w');
    case Requeue => RequeueKept(c, w, w');
    case _ =>
  }

  lemma TraceableKept(c: Caps, w: World, w': World, step: Step)
    requires Traceable(w) && Next(c, w, w', step) && !step.Ack? && (step.Drain? ==> |step.items| == 0)
    ensures Traceable(w')
  {
    hide Due, Drains, CreditAll, Credit, Kept, Shed, DistinctIds, Outstanding;
    OutstandingKept(c, w, w', step);
    if step.Send? {
      HeldOutstanding(w);
    }
  }

  /** The batch being sent is outstanding. */
  lemma HeldOutstanding(w: World)
    requires w.flush.Sending? && w.flush.next < |w.flush.batches|
    ensures exists i :: 0 <= i < |Outstanding(w)| && Outstanding(w)[i] == w.flush.batches[w.flush.next]
  {
    var i := |w.abandoned| + |w.retry| + |w.flush.failed|;
    assert Outstanding(w)[i] == w.flush.batches[w.flush.next];
  }

  lemma MintOutstanding(c: Caps, w: World, w': World, items: seq<Item>)
    requires Next(c, w, w', Drain(items)) && |items| > 0
    ensures Outstanding(w') == Outstanding(w) + [Report(Id(w.boot, w.number + 1), items)]
  {
    hide Due, Drains;
    var r := Report(Id(w.boot, w.number + 1), items);
    assert Held(w'.flush) == w.flush.batches + [r];
  }

  lemma MintTraceable(c: Caps, w: World, w': World, items: seq<Item>)
    requires Traceable(w) && Next(c, w, w', Drain(items)) && |items| > 0
    ensures Traceable(w')
  {
    hide Due, Drains, Outstanding;
    var r := Report(Id(w.boot, w.number + 1), items);
    var o, o' := Outstanding(w), Outstanding(w');
    MintOutstanding(c, w, w', items);
    assert r.id !in w.minted;
    forall id | id in w'.minted && id !in w'.applied
      ensures exists i :: 0 <= i < |o'| && o'[i].id == id
    {
      if id == r.id {
        assert o'[|o|].id == id;
      } else {
        var i :| 0 <= i < |o| && o[i].id == id;
        assert o'[i].id == id;
      }
    }
  }

  /** An acknowledgement takes one batch off, and it is an applied one. */
  lemma AckOutstanding(c: Caps, w: World, w': World, p: nat)
    requires Next(c, w, w', Ack) && p == |w.abandoned| + |w.retry| + |w.flush.failed|
    ensures p < |Outstanding(w)| && Outstanding(w)[p].id in w.applied
    ensures Outstanding(w') == Without(Outstanding(w), p)
  {
    var o := Outstanding(w);
    assert o[p] == w.flush.batches[w.flush.next];
    assert Held(w'.flush) == w.flush.failed + w.flush.batches[w.flush.next + 1..];
    assert Outstanding(w') == o[..p] + o[p + 1..];
  }

  lemma CutDistinct(o: seq<Report>, p: nat)
    requires p < |o| && DistinctIds(o)
    ensures DistinctIds(Without(o, p))
  {
    forall i, j | 0 <= i < j < |o| - 1
      ensures Without(o, p)[i].id != Without(o, p)[j].id
    {
      var i', j' := if i < p then i else i + 1, if j < p then j else j + 1;
      assert o[i'].id != o[j'].id;
    }
  }

  lemma AckTraceable(c: Caps, w: World, w': World)
    requires Traceable(w) && Next(c, w, w', Ack)
    ensures Traceable(w')
  {
    hide Outstanding, DistinctIds, Without;
    var p := |w.abandoned| + |w.retry| + |w.flush.failed|;
    AckOutstanding(c, w, w', p);
    var o, o' := Outstanding(w), Outstanding(w');
    CutDistinct(o, p);
    WithoutLength(o, p);
    forall i | 0 <= i < |o'|
      ensures IsMinted(w, o'[i])
    {
      WithoutAt(o, p, i);
    }
    forall id | id in w.minted && id !in w.applied
      ensures exists i :: 0 <= i < |o'| && o'[i].id == id
    {
      var i :| 0 <= i < |o| && o[i].id == id;
      WithoutKeeps(o, p, i);
    }
  }

  lemma StepTraceable(c: Caps, w: World, w': World, step: Step)
    requires Traceable(w) && Next(c, w, w', step)
    ensures Traceable(w')
  {
    hide Traceable, Next;
    if step.Ack? {
      AckTraceable(c, w, w');
    } else if step.Drain? && |step.items| > 0 {
      MintTraceable(c, w, w', step.items);
    } else {
      TraceableKept(c, w, w', step);
    }
  }

  // ----- whole runs -----

  /** A meter that has just started, before anything is recorded. */
  predicate Fresh(w: World) {
    && w.pending == map[] && w.retry == [] && w.flush == Idle && w.sent == {} && w.applied == {} && w.billed == map[]
    && w.recorded == map[] && w.lost == map[] && w.abandoned == [] && w.minted == map[] && w.boots == {w.boot}
  }

  ghost predicate IsRun(c: Caps, ws: seq<World>, steps: seq<Step>) {
    |ws| == |steps| + 1 && Fresh(ws[0]) && forall i :: 0 <= i < |steps| ==> Next(c, ws[i], ws[i + 1], steps[i])
  }

  lemma {:induction false} RunInvariant(c: Caps, ws: seq<World>, steps: seq<Step>, n: nat, a: string, u: Unit)
    requires IsRun(c, ws, steps) && n < |ws|
    ensures Traceable(ws[n]) && Balanced(ws[n], a, u)
  {
    if n == 0 {
      FreshBalanced(ws[0], a, u);
    } else {
      hide Traceable, Balanced, Next;
      RunInvariant(c, ws, steps, n - 1, a, u);
      StepTraceable(c, ws[n - 1], ws[n], steps[n - 1]);
      StepBalanced(c, ws[n - 1], ws[n], steps[n - 1], a, u);
    }
  }

  lemma FreshBalanced(w: World, a: string, u: Unit)
    requires Fresh(w)
    ensures Traceable(w) && Balanced(w, a, u)
  {
    hide Total, Due;
    TotalEmpty(Owing(w.minted, a, u));
    TotalEmpty(Only(Owing(w.minted, a, u), w.applied));
  }

  // ----- when a report is given up -----

  /** A step that gives up on a report: a restart that loses it, or a queue too long for it, of which the oldest go. */
  ghost predicate GivesUp(c: Caps, w: World, step: Step, r: Report) {
    || (step.Restart? && (r in w.retry || r in Held(w.flush)))
    || (step.Requeue? && w.flush.Sending?
        && var queue := w.retry + w.flush.failed;
        |queue| > c.maxRetryBatches && r in queue[..|queue| - c.maxRetryBatches])
  }

  lemma GivenUpStep(c: Caps, w: World, w': World, step: Step, r: Report)
    requires Next(c, w, w', step)
    ensures r in w'.abandoned <==> r in w.abandoned || GivesUp(c, w, step, r)
  {
    hide Due, Drains, CreditAll, Credit, Held, Kept;
  }

  /** A report is given up only by a restart or by a queue over its cap, and in no other way. */
  lemma {:induction false} GivenUpExact(c: Caps, ws: seq<World>, steps: seq<Step>, n: nat, r: Report)
    requires IsRun(c, ws, steps) && n < |ws|
    ensures r in ws[n].abandoned <==> exists i | 0 <= i < n :: GivesUp(c, ws[i], steps[i], r)
    decreases n
  {
    hide Next, GivesUp;
    if n > 0 {
      GivenUpExact(c, ws, steps, n - 1, r);
      GivenUpStep(c, ws[n - 1], ws[n], steps[n - 1], r);
    }
  }

  /** What a flush has left over is queued for the next one, or given up for want of room. */
  lemma RequeuedStep(c: Caps, w: World, w': World, r: Report)
    requires Next(c, w, w', Requeue) && r in w.retry + w.flush.failed
    ensures r in w'.retry || GivesUp(c, w, Requeue, r)
  {
    var queue := w.retry + w.flush.failed;
    assert Shed(c, queue) + Kept(c, queue) == queue;
  }

  ghost function IdsOf(rs: seq<Report>): set<Id> {
    set i | 0 <= i < |rs| :: rs[i].id
  }

  /** What the reports with these ids owe an account. */
  ghost function Owed(w: World, ids: set<Id>, a: string, u: Unit): nat {
    Total(Only(Owing(w.minted, a, u), ids))
  }

  lemma TotalByIds(m: map<Id, nat>, x: set<Id>, y: set<Id>)
    requires m.Keys <= x + y && x !! y
    ensures Total(m) == Total(Only(m, x)) + Total(Only(m, y))
  {
    hide Total;
    TotalSplit(Only(m, x), Only(m, y));
    assert Only(m, x) + Only(m, y) == m;
  }

  lemma OnlyTwice(m: map<Id, nat>, x: set<Id>, y: set<Id>)
    requires x !! y
    ensures Total(Only(m, x + y)) == Total(Only(m, x)) + Total(Only(m, y))
  {
    hide Total;
    TotalSplit(Only(m, x), Only(m, y));
    assert Only(m, x) + Only(m, y) == Only(m, x + y);
  }

  lemma OutstandingIds(w: World)
    requires DistinctIds(Outstanding(w))
    ensures IdsOf(w.abandoned) !! IdsOf(w.retry + Held(w.flush))
    ensures IdsOf(Outstanding(w)) == IdsOf(w.abandoned) + IdsOf(w.retry + Held(w.flush))
  {
    var x, y := w.abandoned, w.retry + Held(w.flush);
    var o := Outstanding(w);
    assert forall i :: 0 <= i < |x| ==> o[i] == x[i];
    assert forall i :: 0 <= i < |y| ==> o[|x| + i] == y[i];
  }

  /**
   Exactly-once billing. In every run, for every account, what was recorded is what has been billed, plus what is
   pending, plus what a restart lost before a drain, plus what the batches not yet applied owe, queued or given up. A
   batch is billed at most once however often it is sent, delivered or retried, so an account is never over-billed.
   */
  lemma ExactlyOnce(c: Caps, ws: seq<World>, steps: seq<Step>, n: nat, a: string, u: Unit)
    requires IsRun(c, ws, steps) && n < |ws|
    ensures var w := ws[n];
      && At(w.recorded, a, u) == At(w.billed, a, u) + At(w.pending, a, u) + At(w.lost, a, u)
         + Owed(w, IdsOf(w.retry + Held(w.flush)) - w.applied, a, u) + Owed(w, IdsOf(w.abandoned) - w.applied, a, u)
      && At(w.billed, a, u) <= At(w.recorded, a, u)
  {
    hide Total, Due, Outstanding, IdsOf, Held, Only, Owing, Next;
    RunInvariant(c, ws, steps, n, a, u);
    var w := ws[n];
    var m, queued, given := Owing(w.minted, a, u), IdsOf(w.retry + Held(w.flush)), IdsOf(w.abandoned);
    OutstandingIds(w);
    Accounted(w, m.Keys, a, u);
    OnlyTwice(m, queued - w.applied, given - w.applied);
    assert (queued - w.applied) + (given - w.applied) == (queued + given) - w.applied;
    TotalByIds(m, w.applied, (queued + given) - w.applied);
  }

  /** Every minted report is applied or outstanding. */
  lemma Accounted(w: World, ids: set<Id>, a: string, u: Unit)
    requires Traceable(w) && ids == Owing(w.minted, a, u).Keys
    ensures ids <= w.applied + (IdsOf(Outstanding(w)) - w.applied)
  {
    hide Due, Outstanding;
    assert ids == w.minted.Keys;
  }
}
