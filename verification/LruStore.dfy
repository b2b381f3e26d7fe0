/**
 The cache beside the pin store: a size-capped list with a map into it. The object is proved against a list model, and
 the list model against the history of calls: order is recency, eviction takes a least recently used suffix.
 */
module LruStore {
  import opened Common

  /** One cached object, as the model sees it. */
  datatype Cell = Cell(key: string, body: Bytes, at: int)

  /** Caps and lifetime; a value of zero or less switches one off. */
  datatype Caps = Caps(maxBytes: int, maxObjBytes: int, ttl: int)

  function Sum(v: seq<Cell>): nat {
    if |v| == 0 then 0 else Sum(v[..|v| - 1]) + |v[|v| - 1].body|
  }

  lemma {:induction false} SumCat(a: seq<Cell>, b: seq<Cell>)
    ensures Sum(a + b) == Sum(a) + Sum(b)
  {
    if |b| == 0 {
      assert a + b == a;
    } else {
      SumCat(a, b[..|b| - 1]);
      assert (a + b)[..|a + b| - 1] == a + b[..|b| - 1];
    }
  }

  /** The place of a key, or -1. */
  function Find(v: seq<Cell>, key: string): (i: int)
    ensures -1 <= i < |v|
    ensures i >= 0 ==> v[i].key == key
    ensures i < 0 ==> forall j :: 0 <= j < |v| ==> v[j].key != key
  {
    if |v| == 0 then -1
    else if v[|v| - 1].key == key then |v| - 1
    else Find(v[..|v| - 1], key)
  }

  function Expired(c: Caps, cell: Cell, now: int): bool {
    c.ttl > 0 && now - cell.at >= c.ttl
  }

  function TooBig(c: Caps, body: Bytes): bool {
    (c.maxObjBytes > 0 && |body| > c.maxObjBytes) || (c.maxBytes > 0 && |body| > c.maxBytes)
  }

  /** The longest front part within the cap. */
  function Fit(v: seq<Cell>, cap: int): (r: seq<Cell>)
    ensures r <= v
    ensures cap > 0 ==> Sum(r) <= cap
    ensures |r| < |v| ==> cap > 0 && Sum(v[..|r| + 1]) > cap
  {
    if cap > 0 && Sum(v) > cap then
      var r := Fit(v[..|v| - 1], cap);
      assert v[..|v| - 1][..|r|] == v[..|r|];
      assert |r| < |v| - 1 ==> v[..|v| - 1][..|r| + 1] == v[..|r| + 1];
      assert |r| == |v| - 1 ==> v[..|r| + 1] == v;
      r
    else v
  }

  /** The list after a lookup: a hit moves to the front, an expired entry goes, a miss changes nothing. */
  function AfterGet(c: Caps, v: seq<Cell>, key: string, now: int): seq<Cell> {
    var i := Find(v, key);
    if i < 0 then v
    else if Expired(c, v[i], now) then Without(v, i)
    else [v[i]] + Without(v, i)
  }

  /** What a lookup returns. */
  function Hit(c: Caps, v: seq<Cell>, key: string, now: int): Option<Cell> {
    var i := Find(v, key);
    if i < 0 || Expired(c, v[i], now) then None else Some(v[i])
  }

  /** The list after a store: an object over a cap is not stored, a held one is refreshed, a new one evicts from the back. */
  function AfterPut(c: Caps, v: seq<Cell>, key: string, body: Bytes, now: int): seq<Cell> {
    if TooBig(c, body) then v else
      var i := Find(v, key);
      if i >= 0 then [v[i].(at := now)] + Without(v, i)
      else Fit([Cell(key, body, now)] + v, c.maxBytes)
  }

  ghost predicate DistinctKeys(v: seq<Cell>) {
    forall i, j :: 0 <= i < j < |v| ==> v[i].key != v[j].key
  }

  // ----- the object -----

  /** What the map holds for a key. */
  datatype Entry = Entry(body: Bytes, at: int)

  function CellOf(items: map<string, Entry>, k: string): Cell {
    if k in items then Cell(k, items[k].body, items[k].at) else Cell(k, [], 0)
  }

  /** The model list of a key order and a map. */
  function Cells(ll: seq<string>, items: map<string, Entry>): (v: seq<Cell>)
    ensures |v| == |ll| && forall i :: 0 <= i < |ll| ==> v[i] == CellOf(items, ll[i])
  {
    seq(|ll|, i requires 0 <= i < |ll| => CellOf(items, ll[i]))
  }

  /** The order and the map hold the same keys, each once. */
  ghost predicate Linked(ll: seq<string>, items: map<string, Entry>) {
    && (forall i, j :: 0 <= i < j < |ll| ==> ll[i] != ll[j])
    && (forall i :: 0 <= i < |ll| ==> ll[i] in items)
    && (forall k :: k in items ==> k in ll)
  }

  class Store {
    const c: Caps
    var ll: seq<string>             // front is the most recently used
    var items: map<string, Entry>
    var bytes: int

    ghost function View(): seq<Cell>
      reads this
    {
      Cells(ll, items)
    }

    /** The map and the list agree, and the counter is exact. */
    ghost predicate Exact()
      reads this
    {
      Linked(ll, items) && bytes == Sum(View())
    }

    ghost predicate Valid()
      reads this
    {
      Exact() && (c.maxBytes > 0 ==> bytes <= c.maxBytes)
    }

    constructor (caps: Caps)
      ensures Valid() && c == caps && View() == []
    {
      c := caps;
      ll, items, bytes := [], map[], 0;
    }

    /** The place of a held key in the list. */
    method Place(key: string) returns (i: nat)
      requires Linked(ll, items) && key in items
      ensures i < |ll| && ll[i] == key && Find(View(), key) == i
    {
      i := 0;
      while ll[i] != key
        invariant i < |ll| && key in ll[i..]
        decreases |ll| - i
      {
        i := i + 1;
      }
      FindIs(View(), key, i);
    }

    /** Unlinks the entry at a place. */
    method RemoveAt(i: nat)
      requires Exact() && i < |ll|
      modifies this
      ensures Exact() && View() == Without(old(View()), i)
      ensures items == old(items) - {old(ll)[i]} && ll == Without(old(ll), i)
    {
      hide Sum, Without;
      SumWithout(View(), i);
      RemoveLinked(ll, items, i);
      var key := ll[i];
      bytes := bytes - |items[key].body|;
      ll := Without(ll, i);
      items := items - {key};
    }

    method MoveToFront(i: nat)
      requires Exact() && i < |ll|
      modifies this`ll
      ensures Exact() && View() == [old(View())[i]] + Without(old(View()), i) && ll[0] == old(ll)[i]
    {
      hide Sum, Without;
      SumWithout(View(), i);
      SumFront(View()[i], Without(View(), i));
      FrontLinked(ll, items, i);
      ll := [ll[i]] + Without(ll, i);
    }

    /** Drops entries from the back until the cap holds. */
    method Evict()
      requires Exact()
      modifies this
      ensures Exact() && View() == Fit(old(View()), c.maxBytes) && ll <= old(ll)
      ensures forall k :: k in items ==> k in old(items) && items[k] == old(items)[k]
    {
      hide Sum, Fit, Linked;
      FitStep(View(), c.maxBytes);
      while c.maxBytes > 0 && bytes > c.maxBytes && |ll| > 0
        invariant Exact() && Fit(View(), c.maxBytes) == Fit(old(View()), c.maxBytes) && ll <= old(ll)
        invariant forall k :: k in items ==> k in old(items) && items[k] == old(items)[k]
        decreases |ll|
      {
        FitStep(View(), c.maxBytes);
        WithoutLast(View());
        WithoutLast(ll);
        RemoveAt(|ll| - 1);
      }
      FitStep(View(), c.maxBytes);
    }

    /** A lookup. */
    method Get(key: string, now: int) returns (r: Option<Cell>)
      requires Valid()
      modifies this
      ensures Valid()
      ensures r == Hit(c, old(View()), key, now)
      ensures View() == AfterGet(c, old(View()), key, now)
      ensures r.Some? <==> key in old(items) && (c.ttl <= 0 || now - old(items)[key].at < c.ttl)
      ensures r.Some? ==> r.value == Cell(key, old(items)[key].body, old(items)[key].at) && |ll| > 0 && ll[0] == key
      ensures items == if r.Some? || key !in old(items) then old(items) else old(items) - {key}
    {
      hide Sum, Linked;
      if key !in items {
        NotFound(ll, items, key);
        return None;
      }
      HeldFound(ll, items, key);
      var i := Place(key);
      var e := items[key];
      SumBound(c, View(), key, now);
      if c.ttl > 0 && now - e.at >= c.ttl {
        RemoveAt(i);
        return None;
      }
      MoveToFront(i);
      r := Some(Cell(key, e.body, e.at));
    }

    /** A store of verified bytes. */
    method Put(key: string, body: Bytes, now: int)
      requires Valid()
      modifies this
      ensures Valid()
      ensures View() == AfterPut(c, old(View()), key, body, now)
      ensures (c.maxObjBytes > 0 && |body| > c.maxObjBytes) || (c.maxBytes > 0 && |body| > c.maxBytes) ==>
        ll == old(ll) && items == old(items)
      ensures !(c.maxObjBytes > 0 && |body| > c.maxObjBytes) && !(c.maxBytes > 0 && |body| > c.maxBytes) ==>
        && |ll| > 0 && ll[0] == key && key in items
        && (if key in old(items) then items == old(items)[key := old(items)[key].(at := now)]
            else items[key] == Entry(body, now) && forall k :: k in items && k != key ==> k in old(items) && items[k] == old(items)[k])
    {
      hide Sum, Linked, Fit;
      if (c.maxObjBytes > 0 && |body| > c.maxObjBytes) || (c.maxBytes > 0 && |body| > c.maxBytes) {
        return;
      }
      if key in items {
        HeldFound(ll, items, key);
        Refresh(key, now);
      } else {
        NotFound(ll, items, key);
        Insert(key, body, now);
      }
    }

    /** A held entry is not replaced: its time is renewed and it moves to the front. */
    method Refresh(key: string, now: int)
      requires Valid() && key in items
      modifies this
      ensures Valid() && Find(old(View()), key) >= 0
      ensures var i := Find(old(View()), key); View() == [old(View())[i].(at := now)] + Without(old(View()), i)
      ensures |ll| > 0 && ll[0] == key && items == old(items)[key := old(items)[key].(at := now)]
    {
      hide Sum, Linked;
      var i := Place(key);
      WithoutSame(View(), i, View()[i].(at := now));
      Touch(key, i, now);
      MoveToFront(i);
    }

    method Insert(key: string, body: Bytes, now: int)
      requires Valid() && key !in items && (c.maxBytes > 0 ==> |body| <= c.maxBytes)
      modifies this
      ensures Valid() && View() == Fit([Cell(key, body, now)] + old(View()), c.maxBytes)
      ensures |ll| > 0 && ll[0] == key && key in items && items[key] == Entry(body, now)
      ensures forall k :: k in items && k != key ==> k in old(items) && items[k] == old(items)[k]
    {
      hide Sum, Linked, Fit;
      FirstFits(Cell(key, body, now), View(), c.maxBytes);
      PushNew(key, body, now);
      Evict();
      HeadHeld(ll, items);
    }

    /** Refreshes the time of a held entry. */
    method Touch(key: string, i: nat, now: int)
      requires Exact() && i < |ll| && ll[i] == key && key in items
      modifies this`items
      ensures Exact() && View() == old(View())[i := old(View())[i].(at := now)]
      ensures items == old(items)[key := old(items)[key].(at := now)]
    {
      hide Sum;
      SumTouched(View(), i, now);
      items := items[key := items[key].(at := now)];
      assert View() == old(View())[i := old(View())[i].(at := now)];
    }

    method PushNew(key: string, body: Bytes, now: int)
      requires Exact() && key !in items
      modifies this
      ensures Exact() && View() == [Cell(key, body, now)] + old(View())
      ensures ll == [key] + old(ll) && items == old(items)[key := Entry(body, now)]
    {
      hide Sum;
      SumFront(Cell(key, body, now), View());
      items := items[key := Entry(body, now)];
      ll := [key] + ll;
      bytes := bytes + |body|;
      assert View() == [Cell(key, body, now)] + old(View());
    }
  }

  lemma HeadHeld(ll: seq<string>, items: map<string, Entry>)
    requires Linked(ll, items) && |ll| > 0
    ensures ll[0] in items
  {
  }

  /** An object no larger than the cap is never the one to go. */
  lemma FirstFits(x: Cell, v: seq<Cell>, cap: int)
    requires cap > 0 ==> |x.body| <= cap
    ensures |Fit([x] + v, cap)| > 0
    ensures cap > 0 ==> Sum(Fit([x] + v, cap)) <= cap
  {
    hide Sum;
    SumOne(x);
    assert ([x] + v)[..0 + 1] == [x];
  }

  lemma CutDistinct(ll: seq<string>, i: nat)
    requires i < |ll| && forall a, b :: 0 <= a < b < |ll| ==> ll[a] != ll[b]
    ensures forall a, b :: 0 <= a < b < |ll| - 1 ==> Without(ll, i)[a] != Without(ll, i)[b]
    ensures forall a :: 0 <= a < |ll| - 1 ==> Without(ll, i)[a] != ll[i]
  {
    forall a | 0 <= a < |ll| - 1
      ensures Without(ll, i)[a] != ll[i]
    {
      assert a < i ==> ll[a] != ll[i];
      assert a >= i ==> ll[i] != ll[a + 1];
    }
    forall a, b | 0 <= a < b < |ll| - 1
      ensures Without(ll, i)[a] != Without(ll, i)[b]
    {
      var a', b' := if a < i then a else a + 1, if b < i then b else b + 1;
      assert ll[a'] != ll[b'];
    }
  }

  /** Cutting a key out of the order cuts its cell out of the model list. */
  lemma CutCells(ll: seq<string>, items: map<string, Entry>, i: nat)
    requires i < |ll|
    ensures Cells(Without(ll, i), items) == Without(Cells(ll, items), i)
  {
    hide Without, Cells, CellOf;
    WithoutLength(ll, i);
    WithoutLength(Cells(ll, items), i);
    forall j | 0 <= j < |ll| - 1
      ensures Cells(Without(ll, i), items)[j] == Without(Cells(ll, items), i)[j]
    {
      WithoutAt(ll, i, j);
      WithoutAt(Cells(ll, items), i, j);
    }
  }

  lemma OtherCells(ll: seq<string>, items: map<string, Entry>, k: string)
    requires forall j :: 0 <= j < |ll| ==> ll[j] != k
    ensures Cells(ll, items - {k}) == Cells(ll, items)
  {
    hide Cells;
  }

  lemma RemoveLinked(ll: seq<string>, items: map<string, Entry>, i: nat)
    requires Linked(ll, items) && i < |ll|
    ensures Linked(Without(ll, i), items - {ll[i]})
    ensures Cells(Without(ll, i), items - {ll[i]}) == Without(Cells(ll, items), i)
  {
    hide Cells, Without;
    WithoutLength(ll, i);
    CutDistinct(ll, i);
    CutCells(ll, items, i);
    forall j | 0 <= j < |ll| - 1
      ensures Without(ll, i)[j] in items
    {
      WithoutAt(ll, i, j);
    }
    OtherCells(Without(ll, i), items, ll[i]);
    forall k | k in items && k != ll[i]
      ensures k in Without(ll, i)
    {
      var j :| 0 <= j < |ll| && ll[j] == k;
      WithoutKeeps(ll, i, j);
    }
  }

  lemma FrontLinked(ll: seq<string>, items: map<string, Entry>, i: nat)
    requires Linked(ll, items) && i < |ll|
    ensures Linked([ll[i]] + Without(ll, i), items)
    ensures Cells([ll[i]] + Without(ll, i), items) == [Cells(ll, items)[i]] + Without(Cells(ll, items), i)
  {
    hide Cells, Without;
    CutDistinct(ll, i);
    CutCells(ll, items, i);
    ConsCells(ll[i], Without(ll, i), items);
    ConsLinked(ll, items, i);
  }

  lemma ConsCells(k: string, ll: seq<string>, items: map<string, Entry>)
    ensures Cells([k] + ll, items) == [CellOf(items, k)] + Cells(ll, items)
  {
    hide Cells, CellOf;
  }

  lemma ConsLinked(ll: seq<string>, items: map<string, Entry>, i: nat)
    requires Linked(ll, items) && i < |ll|
    ensures Linked([ll[i]] + Without(ll, i), items)
  {
    hide Without;
    CutDistinct(ll, i);
    WithoutLength(ll, i);
    var r, moved := Without(ll, i), [ll[i]] + Without(ll, i);
    forall j | 0 <= j < |moved|
      ensures moved[j] in items
    {
      if j > 0 { WithoutAt(ll, i, j - 1); }
    }
    forall k | k in items
      ensures k in moved
    {
      var j :| 0 <= j < |ll| && ll[j] == k;
      if j != i {
        WithoutKeeps(ll, i, j);
      }
    }
  }

  lemma NotFound(ll: seq<string>, items: map<string, Entry>, key: string)
    requires Linked(ll, items) && key !in items
    ensures Find(Cells(ll, items), key) == -1
  {
  }

  lemma HeldFound(ll: seq<string>, items: map<string, Entry>, key: string)
    requires Linked(ll, items) && key in items
    ensures Find(Cells(ll, items), key) >= 0
  {
    var j :| 0 <= j < |ll| && ll[j] == key;
    FindIs(Cells(ll, items), key, j);
  }

  /** A lookup never needs more room. */
  lemma SumBound(c: Caps, v: seq<Cell>, key: string, now: int)
    ensures Sum(AfterGet(c, v, key, now)) <= Sum(v)
  {
    hide Sum;
    var i := Find(v, key);
    if i >= 0 {
      SumWithout(v, i);
      SumFront(v[i], Without(v, i));
    }
  }

  lemma SumTouched(v: seq<Cell>, i: nat, now: int)
    requires i < |v|
    ensures Sum(v[i := v[i].(at := now)]) == Sum(v)
  {
    hide Sum;
    var w := v[i := v[i].(at := now)];
    SumWithout(v, i);
    SumWithout(w, i);
    assert Without(v, i) == Without(w, i);
  }

  lemma WithoutSame(v: seq<Cell>, i: nat, x: Cell)
    requires i < |v|
    ensures Without(v[i := x], i) == Without(v, i)
  {
  }

  lemma WithoutLast<T>(v: seq<T>)
    requires |v| > 0
    ensures Without(v, |v| - 1) == v[..|v| - 1]
  {
  }

  lemma FindIs(v: seq<Cell>, key: string, i: nat)
    requires i < |v| && v[i].key == key && DistinctKeys(v)
    ensures Find(v, key) == i
  {
  }

  lemma SumWithout(v: seq<Cell>, i: nat)
    requires i < |v|
    ensures Sum(v) == Sum(Without(v, i)) + |v[i].body|
  {
    hide Sum;
    SumCat(v[..i], v[i + 1..]);
    SumCat(v[..i], [v[i]]);
    SumCat(v[..i] + [v[i]], v[i + 1..]);
    SumOne(v[i]);
    assert v == v[..i] + [v[i]] + v[i + 1..];
  }

  lemma SumOne(x: Cell)
    ensures Sum([x]) == |x.body|
  {
    assert [x][..0] == [];
  }

  lemma SumFront(x: Cell, v: seq<Cell>)
    ensures Sum([x] + v) == |x.body| + Sum(v)
  {
    hide Sum;
    SumCat([x], v);
    SumOne(x);
  }

  lemma FitStep(v: seq<Cell>, cap: int)
    ensures Fit(v, cap) == if cap > 0 && Sum(v) > cap && |v| > 0 then Fit(v[..|v| - 1], cap) else v
  {
  }

  // ----- whole runs -----

  datatype Call = GetCall(key: string, now: int) | PutCall(key: string, body: Bytes, now: int)

  function Apply(c: Caps, v: seq<Cell>, call: Call): seq<Cell> {
    match call
    case GetCall(key, now) => AfterGet(c, v, key, now)
    case PutCall(key, body, now) => AfterPut(c, v, key, body, now)
  }

  /** The list after a sequence of calls on an empty store. */
  function Run(c: Caps, calls: seq<Call>): seq<Cell> {
    if |calls| == 0 then [] else Apply(c, Run(c, calls[..|calls| - 1]), calls[|calls| - 1])
  }

  /** A call that uses a key: a lookup, or a store that is not rejected. */
  predicate Uses(c: Caps, call: Call, k: string) {
    call.key == k && (call.PutCall? ==> !TooBig(c, call.body))
  }

  /** The last call that used a key, or -1. */
  function LastUse(c: Caps, calls: seq<Call>, k: string): (t: int)
    ensures -1 <= t < |calls| && (t >= 0 ==> Uses(c, calls[t], k))
    ensures forall j :: t < j < |calls| ==> !Uses(c, calls[j], k)
  {
    if |calls| == 0 then -1
    else if Uses(c, calls[|calls| - 1], k) then |calls| - 1
    else LastUse(c, calls[..|calls| - 1], k)
  }

  /** The list is in order of last use, latest first. */
  ghost predicate ByRecency(c: Caps, calls: seq<Call>, v: seq<Cell>) {
    && (forall i :: 0 <= i < |v| ==> LastUse(c, calls, v[i].key) >= 0)
    && (forall i, j :: 0 <= i < j < |v| ==> LastUse(c, calls, v[i].key) > LastUse(c, calls, v[j].key))
  }

  /** A longer history leaves the order alone when its last call does not use any key of the list. */
  lemma RecencyKept(c: Caps, calls: seq<Call>, v: seq<Cell>)
    requires |calls| > 0 && ByRecency(c, calls[..|calls| - 1], v)
    requires forall i :: 0 <= i < |v| ==> !Uses(c, calls[|calls| - 1], v[i].key)
    ensures ByRecency(c, calls, v)
  {
    var front := calls[..|calls| - 1];
    assert forall i :: 0 <= i < |v| ==> LastUse(c, calls, v[i].key) == LastUse(c, front, v[i].key);
  }

  /** Putting the cell of the key just used in front keeps the order. */
  lemma RecencyFront(c: Caps, calls: seq<Call>, x: Cell, v: seq<Cell>)
    requires |calls| > 0 && ByRecency(c, calls, v) && Uses(c, calls[|calls| - 1], x.key)
    requires forall i :: 0 <= i < |v| ==> v[i].key != x.key
    ensures ByRecency(c, calls, [x] + v)
  {
    hide LastUse;
    var n := |calls| - 1;
    assert LastUse(c, calls, x.key) == n by { LastUseNow(c, calls, x.key); }
    forall i | 0 <= i < |v|
      ensures LastUse(c, calls, v[i].key) < n
    {
      LastUseOther(c, calls, v[i].key);
    }
  }

  lemma LastUseNow(c: Caps, calls: seq<Call>, k: string)
    requires |calls| > 0 && Uses(c, calls[|calls| - 1], k)
    ensures LastUse(c, calls, k) == |calls| - 1
  {
  }

  lemma LastUseOther(c: Caps, calls: seq<Call>, k: string)
    requires |calls| > 0 && calls[|calls| - 1].key != k
    ensures LastUse(c, calls, k) < |calls| - 1
  {
  }

  lemma RecencyCut(c: Caps, calls: seq<Call>, v: seq<Cell>, i: nat)
    requires ByRecency(c, calls, v) && i < |v|
    ensures ByRecency(c, calls, Without(v, i))
    ensures forall j :: 0 <= j < |v| - 1 ==> Without(v, i)[j].key != v[i].key
  {
    hide LastUse;
    var w := Without(v, i);
    assert forall j :: 0 <= j < |w| ==> w[j] == v[if j < i then j else j + 1];
  }

  /** In every run the list is in order of last use and within the cap. */
  lemma {:induction false} RunByRecency(c: Caps, calls: seq<Call>)
    ensures ByRecency(c, calls, Run(c, calls))
    ensures c.maxBytes > 0 ==> Sum(Run(c, calls)) <= c.maxBytes
    decreases |calls|
  {
    hide ByRecency, Sum, Apply;
    if |calls| == 0 {
      EmptyRun(c, calls);
    } else {
      var front := calls[..|calls| - 1];
      RunByRecency(c, front);
      ApplyByRecency(c, calls, Run(c, front));
      if c.maxBytes > 0 {
        ApplyWithin(c, Run(c, front), calls[|calls| - 1]);
      }
    }
  }

  lemma EmptyRun(c: Caps, calls: seq<Call>)
    requires |calls| == 0
    ensures ByRecency(c, calls, Run(c, calls)) && Sum(Run(c, calls)) == 0
  {
  }

  /** No call takes the list over the cap. */
  lemma ApplyWithin(c: Caps, v: seq<Cell>, call: Call)
    requires c.maxBytes > 0 && Sum(v) <= c.maxBytes
    ensures Sum(Apply(c, v, call)) <= c.maxBytes
  {
    hide Sum, Fit;
    var i := Find(v, call.key);
    if i >= 0 {
      SumWithout(v, i);
      SumFront(v[i], Without(v, i));
      SumFront(v[i].(at := call.now), Without(v, i));
    } else if call.PutCall? {
      FitWithin([Cell(call.key, call.body, call.now)] + v, c.maxBytes);
    }
  }

  lemma FitWithin(v: seq<Cell>, cap: int)
    ensures cap > 0 ==> Sum(Fit(v, cap)) <= cap
  {
  }

  lemma ApplyByRecency(c: Caps, calls: seq<Call>, v: seq<Cell>)
    requires |calls| > 0 && ByRecency(c, calls[..|calls| - 1], v)
    ensures ByRecency(c, calls, Apply(c, v, calls[|calls| - 1]))
  {
    hide ByRecency, Sum, Fit, Without;
    var front, call := calls[..|calls| - 1], calls[|calls| - 1];
    var i := Find(v, call.key);
    if call.PutCall? && TooBig(c, call.body) {
      RecencyKept(c, calls, v);
    } else if i < 0 {
      RecencyKept(c, calls, v);
      if call.PutCall? {
        var x := Cell(call.key, call.body, call.now);
        RecencyFront(c, calls, x, v);
        RecencyFit(c, calls, [x] + v);
      }
    } else {
      RecencyCut(c, front, v, i);
      CutOthers(v, i);
      RecencyKept(c, calls, Without(v, i));
      RecencyFront(c, calls, v[i], Without(v, i));
      RecencyFront(c, calls, v[i].(at := call.now), Without(v, i));
    }
  }

  lemma CutOthers(v: seq<Cell>, i: nat)
    requires i < |v|
    ensures |Without(v, i)| == |v| - 1
  {
  }

  lemma RecencyFit(c: Caps, calls: seq<Call>, v: seq<Cell>)
    requires ByRecency(c, calls, v)
    ensures ByRecency(c, calls, Fit(v, c.maxBytes))
  {
    hide LastUse, Sum;
  }

  /**
   Eviction in every run: storing a new object keeps it, drops no more than the cap demands, and each object dropped
   was last used before each object kept.
   */
  lemma EvictsLeastRecentlyUsed(c: Caps, calls: seq<Call>, key: string, body: Bytes, now: int)
    requires !TooBig(c, body) && Find(Run(c, calls), key) < 0
    ensures var v, w := [Cell(key, body, now)] + Run(c, calls), AfterPut(c, Run(c, calls), key, body, now);
      && 0 < |w| <= |v| && w == v[..|w|]
      && (|w| < |v| ==> c.maxBytes > 0 && Sum(v[..|w| + 1]) > c.maxBytes)
      && (forall i, j :: 1 <= i < |w| <= j < |v| ==> LastUse(c, calls, v[i].key) > LastUse(c, calls, v[j].key))
  {
    hide Sum, LastUse, Run;
    RunByRecency(c, calls);
    var v := [Cell(key, body, now)] + Run(c, calls);
    var w := AfterPut(c, Run(c, calls), key, body, now);
    SumOne(v[0]);
    assert v[..0 + 1] == [v[0]];
    forall i, j | 1 <= i < |w| <= j < |v|
      ensures LastUse(c, calls, v[i].key) > LastUse(c, calls, v[j].key)
    {
      assert v[i] == Run(c, calls)[i - 1] && v[j] == Run(c, calls)[j - 1];
    }
  }

  function BodyOf(v: seq<Cell>, k: string): Option<Bytes> {
    if Find(v, k) < 0 then None else Some(v[Find(v, k)].body)
  }

  /** The call that stored a live entry: the key was absent before it, and has had its bytes ever since. */
  ghost predicate StoredBy(c: Caps, calls: seq<Call>, k: string, b: Bytes, i: int) {
    && 0 <= i < |calls| && calls[i].PutCall? && calls[i].key == k && calls[i].body == b
    && BodyOf(Run(c, calls[..i]), k) == None
    && forall j :: i < j <= |calls| ==> BodyOf(Run(c, calls[..j]), k) == Some(b)
  }

  /** One call either leaves a held key's bytes alone, drops it, or stores it when it was absent. */
  lemma ApplyBody(c: Caps, v: seq<Cell>, call: Call, k: string)
    requires DistinctKeys(v) && DistinctKeys(Apply(c, v, call))
    ensures var b, b' := BodyOf(v, k), BodyOf(Apply(c, v, call), k);
      b' == None || b' == b || (b == None && call.PutCall? && call.key == k && b' == Some(call.body))
  {
    hide Sum;
    var w := Apply(c, v, call);
    var i := Find(w, k);
    if i >= 0 {
      CellOrigin(c, v, call, i);
    }
  }

  lemma HeldCell(v: seq<Cell>, j: nat)
    requires DistinctKeys(v) && j < |v|
    ensures BodyOf(v, v[j].key) == Some(v[j].body)
  {
    FindIs(v, v[j].key, j);
  }

  lemma CutHeldCell(v: seq<Cell>, p: nat, j: nat)
    requires DistinctKeys(v) && p < |v| && j < |v| - 1
    ensures |Without(v, p)| == |v| - 1 && BodyOf(v, Without(v, p)[j].key) == Some(Without(v, p)[j].body)
  {
    hide BodyOf, DistinctKeys;
    HeldCell(v, if j < p then j else j + 1);
  }

  /** Every cell of the new list is an old cell up to its time, or the one just stored. */
  lemma CellOrigin(c: Caps, v: seq<Cell>, call: Call, i: nat)
    requires DistinctKeys(v) && i < |Apply(c, v, call)|
    ensures var x := Apply(c, v, call)[i];
      BodyOf(v, x.key) == Some(x.body)
      || (BodyOf(v, x.key) == None && call.PutCall? && call.key == x.key && call.body == x.body)
  {
    hide Sum, DistinctKeys, Without, BodyOf;
    var p := Find(v, call.key);
    if call.PutCall? && TooBig(c, call.body) {
      HeldCell(v, i);
    } else if p < 0 {
      if call.PutCall? && i == 0 {
        AbsentBody(v, call.key);
      } else {
        HeldCell(v, if call.PutCall? then i - 1 else i);
      }
    } else {
      HeldCell(v, p);
      CutOthers(v, p);
      var j := if call.GetCall? && Expired(c, v[p], call.now) then i else i - 1;
      if 0 <= j < |v| - 1 {
        CutHeldCell(v, p, j);
      }
    }
  }

  lemma AbsentBody(v: seq<Cell>, k: string)
    requires Find(v, k) < 0
    ensures BodyOf(v, k) == None
  {
  }

  lemma RunDistinct(c: Caps, calls: seq<Call>)
    ensures DistinctKeys(Run(c, calls))
  {
    hide LastUse, Run;
    RunByRecency(c, calls);
  }

  /** Whatever a lookup returns in any run is what the store that began the entry's life was given. */
  lemma {:induction false} LiveSinceStored(c: Caps, calls: seq<Call>, k: string)
    requires BodyOf(Run(c, calls), k).Some?
    ensures exists i :: StoredBy(c, calls, k, BodyOf(Run(c, calls), k).value, i)
    decreases |calls|
  {
    hide Sum, Fit, BodyOf, Apply;
    var n := |calls| - 1;
    var b := BodyOf(Run(c, calls), k).value;
    EmptyBody(k);
    var front := calls[..n];
    RunDistinct(c, front);
    RunDistinct(c, calls);
    ApplyBody(c, Run(c, front), calls[n], k);
    assert calls[..|calls|] == calls;
    if BodyOf(Run(c, front), k) == None {
      assert StoredBy(c, calls, k, b, n);
    } else {
      LiveSinceStored(c, front, k);
      var i :| StoredBy(c, front, k, b, i);
      StoredStill(c, calls, k, b, i);
    }
  }

  lemma EmptyBody(k: string)
    ensures BodyOf([], k) == None
  {
  }

  lemma StoredStill(c: Caps, calls: seq<Call>, k: string, b: Bytes, i: nat)
    requires |calls| > 0 && StoredBy(c, calls[..|calls| - 1], k, b, i) && BodyOf(Run(c, calls), k) == Some(b)
    ensures StoredBy(c, calls, k, b, i)
  {
    hide Run, BodyOf;
    var front := calls[..|calls| - 1];
    assert forall j :: 0 <= j < |calls| ==> front[..j] == calls[..j];
    assert calls[..|calls|] == calls;
  }

  // ----- lifetimes -----

  /** A store of a key that the caps let through. */
  predicate Stores(c: Caps, call: Call, k: string) {
    && call.PutCall? && call.key == k
    && (c.maxObjBytes > 0 ==> |call.body| <= c.maxObjBytes) && (c.maxBytes > 0 ==> |call.body| <= c.maxBytes)
  }

  /** The i-th call is the last that stored a key. */
  ghost predicate LastStored(c: Caps, calls: seq<Call>, k: string, i: int) {
    0 <= i < |calls| && Stores(c, calls[i], k) && forall j :: i < j < |calls| ==> !Stores(c, calls[j], k)
  }

  /** A call leaves an entry's time alone, unless it stores its key. */
  lemma ApplyTimes(c: Caps, v: seq<Cell>, call: Call, i: nat)
    requires DistinctKeys(v) && i < |Apply(c, v, call)|
    ensures var x := Apply(c, v, call)[i]; if Stores(c, call, x.key) then x.at == call.now else x in v
  {
    hide Sum, Without;
    var p := Find(v, call.key);
    if p >= 0 && !(call.PutCall? && TooBig(c, call.body)) {
      WithoutLength(v, p);
      var j := if call.GetCall? && Expired(c, v[p], call.now) then i else i - 1;
      if 0 <= j < |v| - 1 {
        WithoutAt(v, p, j);
      }
    }
  }

  lemma {:induction false} RunTimes(c: Caps, calls: seq<Call>, x: Cell)
    requires x in Run(c, calls)
    ensures exists i :: LastStored(c, calls, x.key, i) && calls[i].now == x.at
    decreases |calls|
  {
    hide Apply, Stores;
    var n := |calls| - 1;
    var front := calls[..n];
    var i :| 0 <= i < |Run(c, calls)| && Run(c, calls)[i] == x;
    RunDistinct(c, front);
    ApplyTimes(c, Run(c, front), calls[n], i);
    if Stores(c, calls[n], x.key) {
      assert LastStored(c, calls, x.key, n);
    } else {
      RunTimes(c, front, x);
      var j :| LastStored(c, front, x.key, j) && front[j].now == x.at;
      assert LastStored(c, calls, x.key, j);
    }
  }

  /** In every run a held object is returned exactly within its lifetime, counted from the last call that stored it. */
  lemma HitExact(c: Caps, calls: seq<Call>, key: string, now: int)
    ensures var v := Run(c, calls);
      if Find(v, key) < 0 then Hit(c, v, key, now) == None
      else exists i | LastStored(c, calls, key, i) ::
        && v[Find(v, key)].at == calls[i].now
        && (Hit(c, v, key, now).Some? <==> c.ttl <= 0 || now - calls[i].now < c.ttl)
        && (Hit(c, v, key, now).Some? ==> Hit(c, v, key, now).value == v[Find(v, key)])
  {
    hide Run, Stores;
    var v := Run(c, calls);
    if Find(v, key) >= 0 {
      RunTimes(c, calls, v[Find(v, key)]);
    }
  }
}
