/** What the byte budget means for a whole trace of lookups.

    With allocations and reads succeeding, the resident list is always the longest prefix of the recency
    order that fits the budget, as long as no lookup has to bypass a cache that already holds something.
    Then a larger budget contains a smaller one after every lookup.
*/
module LruInclusion {
  import opened Arithmetic
  import opened Counters
  import opened ExpertCache

  /** A trace of lookups; the charge of an item belongs to its key. */
  type Trace = seq<Item>

  const WORKING: Env := Env(true, true, true)

  predicate ChargesConsistent(trace: Trace) {
    forall i, j :: 0 <= i < |trace| && 0 <= j < |trace| && trace[i].key == trace[j].key ==> trace[i] == trace[j]
  }

  /** The resident list after a trace, from an empty cache. */
  function Resident(trace: Trace, capacity: nat): seq<Item> {
    if trace == [] then []
    else Access(Resident(trace[..|trace| - 1], capacity), trace[|trace| - 1], capacity, WORKING).0
  }

  /** How lookup `i` of the trace ends. */
  function Outcome(trace: Trace, capacity: nat, i: nat): Lookup
    requires i < |trace|
  {
    Access(Resident(trace[..i], capacity), trace[i], capacity, WORKING).1
  }

  /** Every item looked up so far, most recent first. */
  function Recency(trace: Trace): seq<Item> {
    if trace == [] then []
    else
      var x := trace[|trace| - 1];
      [x] + Without(Recency(trace[..|trace| - 1]), x.key)
  }

  /** A list without the item of this key. */
  function Without(items: seq<Item>, key: Key): (r: seq<Item>)
    ensures forall x :: x in r ==> x in items
  {
    var i := Find(items, key);
    if i < |items| then items[..i] + items[i + 1..] else items
  }

  /** Items of the same key are the same item. */
  predicate Agrees(items: seq<Item>, x: Item) {
    forall j :: 0 <= j < |items| && items[j].key == x.key ==> items[j] == x
  }

  /** The longest prefix whose total fits. */
  function Longest(items: seq<Item>, capacity: int): (r: seq<Item>)
    ensures r <= items
    decreases |items|
  {
    if items == [] || items[0].charge > capacity then []
    else [items[0]] + Longest(items[1..], capacity - items[0].charge)
  }

  lemma TotalCons(x: Item, rest: seq<Item>)
    ensures Total([x] + rest) == x.charge + Total(rest)
  {
    assert [x][..0] == [];
    TotalConcat([x], rest);
  }

  lemma {:induction false} LongestFits(items: seq<Item>, capacity: nat)
    ensures Total(Longest(items, capacity)) <= capacity
  {
    if items == [] || items[0].charge > capacity {
    } else {
      LongestFits(items[1..], capacity - items[0].charge);
      TotalCons(items[0], Longest(items[1..], capacity - items[0].charge));
    }
  }

  lemma {:induction false} LongestBeats(items: seq<Item>, capacity: nat, n: nat)
    requires n <= |items| && Total(items[..n]) <= capacity
    ensures n <= |Longest(items, capacity)|
  {
    hide Total;
    if n == 0 {
    } else {
      var x, rest := items[0], items[1..];
      assert items[..n] == [x] + rest[..n - 1];
      TotalCons(x, rest[..n - 1]);
      LongestBeats(rest, capacity - x.charge, n - 1);
    }
  }

  /** `Longest` is what its name says: it fits, and no longer prefix does. */
  lemma LongestIsLongest(items: seq<Item>, capacity: nat)
    ensures Total(Longest(items, capacity)) <= capacity
    ensures forall n :: 0 <= n <= |items| && Total(items[..n]) <= capacity ==> n <= |Longest(items, capacity)|
  {
    hide Total, Longest;
    LongestFits(items, capacity);
    forall n | 0 <= n <= |items| && Total(items[..n]) <= capacity
      ensures n <= |Longest(items, capacity)|
    {
      LongestBeats(items, capacity, n);
    }
  }

  /** A prefix that fits and cannot be extended by one item is the longest one. */
  lemma LongestUnique(items: seq<Item>, capacity: nat, n: nat)
    requires n <= |items| && Total(items[..n]) <= capacity
    requires n < |items| ==> Total(items[..n + 1]) > capacity
    ensures Longest(items, capacity) == items[..n]
  {
    hide Total, Longest;
    var longest := Longest(items, capacity);
    LongestIsLongest(items, capacity);
    assert items[..|longest|] == longest;
    if |longest| > n {
      TotalMonotone(items, n + 1, |longest|);
    }
  }

  lemma {:induction false} TotalMonotone(items: seq<Item>, m: nat, n: nat)
    requires m <= n <= |items|
    ensures Total(items[..m]) <= Total(items[..n])
  {
    if m < n {
      TotalMonotone(items, m, n - 1);
      assert items[..n][..n - 1] == items[..n - 1];
    }
  }

  /** The longest fitting prefix fits, and one item more does not. */
  lemma LongestStops(items: seq<Item>, capacity: nat)
    ensures var n := |Longest(items, capacity)|;
            && Longest(items, capacity) == items[..n] && Total(items[..n]) <= capacity
            && (n < |items| ==> Total(items[..n + 1]) > capacity)
  {
    hide Total, Longest;
    LongestIsLongest(items, capacity);
  }

  /** Evicting down to a budget keeps the longest prefix that fits it. */
  lemma {:induction false} EvictIsLongest(items: seq<Item>, room: nat)
    ensures Evict(items, room) == Longest(items, room)
  {
    assert Total([]) == 0;
    hide Total, Longest;
    if Total(items) <= room {
      assert items[..|items|] == items;
      LongestUnique(items, room, |items|);
    } else {
      var front := items[..|items| - 1];
      EvictIsLongest(front, room);
      LongestStops(front, room);
      var k := |Longest(front, room)|;
      assert front[..k] == items[..k];
      assert items[..k + 1] == if k < |front| then front[..k + 1] else items;
      LongestUnique(items, room, k);
    }
  }

  // ---------- The resident list ----------

  /** No lookup that exceeds the budget follows one that fits it. */
  predicate NoLateBypass(trace: Trace, capacity: nat) {
    forall i, j :: 0 <= i < j < |trace| && trace[i].charge <= capacity ==> trace[j].charge <= capacity
  }

  lemma {:induction false} ResidentFits(trace: Trace, capacity: nat)
    ensures DistinctKeys(Resident(trace, capacity)) && Total(Resident(trace, capacity)) <= capacity
  {
    if trace == [] {
    } else {
      ResidentFits(trace[..|trace| - 1], capacity);
      AccessKeepsInvariant(Resident(trace[..|trace| - 1], capacity), trace[|trace| - 1], capacity, WORKING);
    }
  }

  lemma {:induction false} RecencyFromTrace(trace: Trace)
    ensures forall x :: x in Recency(trace) ==> x in trace
  {
    if trace == [] {
    } else {
      var before, last := trace[..|trace| - 1], trace[|trace| - 1];
      RecencyFromTrace(before);
      forall x | x in Recency(trace)
        ensures x in trace
      {
        assert x == last || x in Recency(before);
      }
    }
  }

  lemma {:induction false} NothingFits(trace: Trace, capacity: nat)
    requires forall i :: 0 <= i < |trace| ==> trace[i].charge > capacity
    ensures Resident(trace, capacity) == []
  {
    if trace == [] {
    } else {
      NothingFits(trace[..|trace| - 1], capacity);
    }
  }

  /** A hit moves the same item to the front of both lists. */
  lemma HitStep(recent: seq<Item>, x: Item, capacity: nat)
    requires Agrees(recent, x)
    requires var resident := Longest(recent, capacity); Find(resident, x.key) < |resident|
    ensures var resident := Longest(recent, capacity);
            Longest([x] + Without(recent, x.key), capacity) == Promoted(resident, Find(resident, x.key))
  {
    hide Total, Without, Promoted;
    var resident := Longest(recent, capacity);
    var i, n := Find(resident, x.key), |resident|;
    LongestIsLongest(recent, capacity);
    assert resident == recent[..n];
    var moved := [x] + Without(recent, x.key);
    MovesAlike(recent, n, x);
    TotalPromoted(resident, i);
    if n < |recent| {
      SameNext(moved, recent, n, Total(resident));
    }
    LongestUnique(moved, capacity, n);
  }

  /** Moving an item found among the first `n` to the front touches only those. */
  lemma MovesAlike(recent: seq<Item>, n: nat, x: Item)
    requires Agrees(recent, x) && n <= |recent| && Find(recent[..n], x.key) < n
    ensures var moved := [x] + Without(recent, x.key);
            && |moved| == |recent| && moved[..n] == Promoted(recent[..n], Find(recent[..n], x.key))
            && (n < |recent| ==> moved[n] == recent[n])
  {
    hide Find;
    var front := recent[..n];
    var i := Find(front, x.key);
    assert forall j :: 0 <= j < n ==> front[j] == recent[j];
    FindIs(recent, x.key, i);
    var moved := [x] + Without(recent, x.key);
    forall j | 0 <= j < n
      ensures moved[j] == Promoted(front, i)[j]
    {
      if j > i {
        assert moved[j] == recent[j];
      } else if j > 0 {
        assert moved[j] == recent[j - 1];
      }
    }
  }

  lemma SameNext(moved: seq<Item>, recent: seq<Item>, n: nat, total: nat)
    requires n < |moved| && n < |recent| && moved[n] == recent[n]
    requires Total(moved[..n]) == Total(recent[..n]) == total
    ensures Total(moved[..n + 1]) == Total(recent[..n + 1])
  {
    assert moved[..n + 1][..n] == moved[..n] && recent[..n + 1][..n] == recent[..n];
  }

  /** A miss evicts to make room; what is kept is the longest prefix of the rest of the recency order. */
  lemma MissStep(recent: seq<Item>, x: Item, capacity: nat)
    requires x.charge <= capacity && Agrees(recent, x)
    requires var resident := Longest(recent, capacity); Find(resident, x.key) == |resident|
    ensures Evict(Longest(recent, capacity), capacity - x.charge) ==
            Longest(Without(recent, x.key), capacity - x.charge)
  {
    hide Total, Evict, Longest;
    var resident, room, i := Longest(recent, capacity), capacity - x.charge, Find(recent, x.key);
    var rest, n := Without(recent, x.key), |resident|;
    LongestIsLongest(recent, capacity);
    assert forall j :: 0 <= j < n ==> resident[j] == recent[j];
    assert i >= n;
    assert resident == recent[..n] == rest[..n];
    EvictIsLongest(resident, room);
    LongestIsLongest(resident, room);
    var k := |Longest(resident, room)|;
    assert resident[..k] == rest[..k] == Longest(resident, room);
    if k < |rest| {
      if k < n {
        assert resident[..k + 1] == rest[..k + 1];
      } else {
        assert resident[..n] == resident;
        NextDoesNotFit(recent, x, capacity, n);
      }
    }
    LongestUnique(rest, room, k);
  }

  lemma TotalStep(items: seq<Item>, n: nat)
    requires n < |items|
    ensures Total(items[..n + 1]) == Total(items[..n]) + items[n].charge
  {
    assert items[..n + 1][..n] == items[..n];
  }

  lemma NextDoesNotFit(recent: seq<Item>, x: Item, capacity: nat, n: nat)
    requires x.charge <= capacity && Agrees(recent, x) && n <= Find(recent, x.key) && n < |Without(recent, x.key)|
    requires n < |recent| ==> Total(recent[..n + 1]) > capacity
    requires Total(recent[..n]) <= capacity - x.charge
    ensures Total(Without(recent, x.key)[..n + 1]) > capacity - x.charge
  {
    hide Total;
    TotalStep(recent, n);
    assert Without(recent, x.key)[..n + 1] == recent[..n + 1];
  }

  /** Absent failures, and with no late bypass, the resident list is the longest prefix of the recency order
      that fits the budget. */
  lemma {:induction false} ResidentIsLongest(trace: Trace, capacity: nat)
    requires ChargesConsistent(trace) && NoLateBypass(trace, capacity)
    ensures Resident(trace, capacity) == Longest(Recency(trace), capacity)
  {
    hide Total, Evict, Promoted, Without, Recency, Longest, Access, NoLateBypass, ChargesConsistent;
    if trace == [] {
      EmptyRecency();
    } else {
      var before, x := trace[..|trace| - 1], trace[|trace| - 1];
      PrefixConditions(trace, capacity);
      ResidentIsLongest(before, capacity);
      RecencyAgrees(trace);
      RecencyStep(trace);
      if x.charge > capacity {
        NothingFits(before, capacity);
      }
      LongestStep(Recency(before), x, capacity);
    }
  }

  lemma PrefixConditions(trace: Trace, capacity: nat)
    requires trace != [] && ChargesConsistent(trace) && NoLateBypass(trace, capacity)
    ensures var before := trace[..|trace| - 1];
            && ChargesConsistent(before) && NoLateBypass(before, capacity)
            && (trace[|trace| - 1].charge > capacity ==>
                  forall i :: 0 <= i < |before| ==> before[i].charge > capacity)
  {
  }

  /** One lookup takes the longest fitting prefix to the longest fitting prefix. */
  lemma LongestStep(recent: seq<Item>, x: Item, capacity: nat)
    requires Agrees(recent, x) && (x.charge > capacity ==> Longest(recent, capacity) == [])
    ensures Access(Longest(recent, capacity), x, capacity, WORKING).0 ==
            Longest([x] + Without(recent, x.key), capacity)
  {
    hide Total, Evict, Promoted, Without;
    var resident := Longest(recent, capacity);
    if x.charge <= capacity {
      if Find(resident, x.key) < |resident| {
        HitStep(recent, x, capacity);
      } else {
        MissStep(recent, x, capacity);
        assert ([x] + Without(recent, x.key))[1..] == Without(recent, x.key);
      }
    }
  }

  lemma EmptyRecency()
    ensures forall capacity :: Longest(Recency([]), capacity) == []
  {
  }

  lemma RecencyStep(trace: Trace)
    requires trace != []
    ensures var x := trace[|trace| - 1];
            Recency(trace) == [x] + Without(Recency(trace[..|trace| - 1]), x.key)
  {
  }

  lemma RecencyAgrees(trace: Trace)
    requires trace != [] && ChargesConsistent(trace)
    ensures Agrees(Recency(trace[..|trace| - 1]), trace[|trace| - 1])
  {
    var before, x := trace[..|trace| - 1], trace[|trace| - 1];
    var recent := Recency(before);
    RecencyFromTrace(before);
    forall j | 0 <= j < |recent| && recent[j].key == x.key
      ensures recent[j] == x
    {
      assert recent[j] in recent;
      assert recent[j] in before;
    }
  }

  // ---------- Exactly when ----------

  /** The property after every lookup of the trace. */
  predicate AlwaysLongest(trace: Trace, capacity: nat) {
    forall n :: 0 <= n <= |trace| ==> Resident(trace[..n], capacity) == Longest(Recency(trace[..n]), capacity)
  }

  /** Once a lookup has fitted, the cache is never empty again. */
  lemma {:induction false} StaysFilled(trace: Trace, capacity: nat, i: nat)
    requires i < |trace| && trace[i].charge <= capacity
    ensures Resident(trace, capacity) != []
  {
    var n := |trace| - 1;
    if i < n {
      StaysFilled(trace[..n], capacity, i);
    }
  }

  /** An item that exceeds the budget is never resident, so it is bypassed and changes nothing. */
  lemma OversizedBypasses(trace: Trace, capacity: nat, x: Item)
    requires ChargesConsistent(trace + [x]) && x.charge > capacity
    ensures Access(Resident(trace, capacity), x, capacity, WORKING) == (Resident(trace, capacity), Bypass)
  {
    var resident := Resident(trace, capacity);
    var i := Find(resident, x.key);
    ResidentFits(trace, capacity);
    ResidentFromTrace(trace, capacity);
    if i < |resident| {
      assert resident[i] in resident;
      var j :| 0 <= j < |trace| && trace[j] == resident[i];
      assert (trace + [x])[j].key == (trace + [x])[|trace|].key;
      ItemWithin(resident, i);
    }
  }

  lemma {:induction false} ItemWithin(items: seq<Item>, i: nat)
    requires i < |items|
    ensures items[i].charge <= Total(items)
  {
    if i < |items| - 1 {
      ItemWithin(items[..|items| - 1], i);
    }
  }

  lemma {:induction false} ResidentFromTrace(trace: Trace, capacity: nat)
    ensures forall x :: x in Resident(trace, capacity) ==> x in trace
  {
    if trace == [] {
    } else {
      var before, last := trace[..|trace| - 1], trace[|trace| - 1];
      ResidentFromTrace(before, capacity);
      AccessFrom(Resident(before, capacity), last, capacity);
    }
  }

  lemma AccessFrom(items: seq<Item>, x: Item, capacity: nat)
    ensures forall y :: y in Access(items, x, capacity, WORKING).0 ==> y in items || y == x
  {
  }

  /** The resident list is the longest fitting prefix after every lookup if and only if no lookup that
      exceeds the budget follows one that fits. */
  lemma LongestExactly(trace: Trace, capacity: nat)
    requires ChargesConsistent(trace)
    ensures AlwaysLongest(trace, capacity) <==> NoLateBypass(trace, capacity)
  {
    if NoLateBypass(trace, capacity) {
      forall n | 0 <= n <= |trace|
        ensures Resident(trace[..n], capacity) == Longest(Recency(trace[..n]), capacity)
      {
        ResidentIsLongest(trace[..n], capacity);
      }
    } else {
      var i, j :| 0 <= i < j < |trace| && trace[i].charge <= capacity && trace[j].charge > capacity;
      var before := trace[..j];
      assert trace[..j + 1] == before + [trace[j]];
      assert trace[..j + 1][..j] == before;
      StaysFilled(before, capacity, i);
      OversizedBypasses(before, capacity, trace[j]);
      assert Longest(Recency(trace[..j + 1]), capacity) == [];
      assert Resident(trace[..j + 1], capacity) != [];
    }
  }

  // ---------- Inclusion ----------

  lemma {:induction false} LongestMonotone(items: seq<Item>, small: int, large: int)
    requires small <= large
    ensures Longest(items, small) <= Longest(items, large)
  {
    if items != [] && items[0].charge <= small {
      LongestMonotone(items[1..], small - items[0].charge, large - items[0].charge);
    }
  }

  predicate AllFit(trace: Trace, capacity: nat) {
    forall i :: 0 <= i < |trace| ==> trace[i].charge <= capacity
  }

  /** The stack property: when every charge fits the smaller budget, the larger cache holds everything the
      smaller one holds, in the same order, after every lookup. */
  lemma Inclusion(trace: Trace, small: nat, large: nat)
    requires ChargesConsistent(trace) && AllFit(trace, small) && small <= large
    ensures Resident(trace, small) <= Resident(trace, large)
  {
    ResidentIsLongest(trace, small);
    ResidentIsLongest(trace, large);
    LongestMonotone(Recency(trace), small, large);
  }

  function Hits(trace: Trace, capacity: nat): nat {
    if trace == [] then 0
    else Hits(trace[..|trace| - 1], capacity) + (if Outcome(trace, capacity, |trace| - 1).Hit? then 1 else 0)
  }

  /** Bytes read: the payload of every item that was not a hit. */
  function BytesRead(trace: Trace, capacity: nat): int {
    if trace == [] then 0
    else
      BytesRead(trace[..|trace| - 1], capacity) +
      (if Outcome(trace, capacity, |trace| - 1).Hit? then 0 else trace[|trace| - 1].charge - HEADER)
  }

  /** A larger budget never has fewer hits and never reads more bytes. */
  lemma {:induction false} LargerIsNoWorse(trace: Trace, small: nat, large: nat)
    requires ChargesConsistent(trace) && AllFit(trace, small) && small <= large
    requires forall i :: 0 <= i < |trace| ==> trace[i].charge >= HEADER
    ensures Hits(trace, small) <= Hits(trace, large)
    ensures BytesRead(trace, large) <= BytesRead(trace, small)
  {
    if trace == [] {
    } else {
      var n := |trace| - 1;
      LargerIsNoWorse(trace[..n], small, large);
      Inclusion(trace[..n], small, large);
      HitInPrefix(Resident(trace[..n], small), Resident(trace[..n], large), trace[n].key);
    }
  }

  lemma HitInPrefix(short: seq<Item>, long: seq<Item>, key: Key)
    requires short <= long
    ensures Find(short, key) < |short| ==> Find(long, key) < |long|
  {
    var i := Find(short, key);
    if i < |short| {
      assert long[i] == short[i];
      assert !(forall j :: 0 <= j < |long| ==> long[j].key != key);
    }
  }

  lemma OneMore(trace: Trace, x: Item, capacity: nat)
    ensures var (after, how) := Access(Resident(trace, capacity), x, capacity, WORKING);
            && Resident(trace + [x], capacity) == after
            && Hits(trace + [x], capacity) == Hits(trace, capacity) + (if how.Hit? then 1 else 0)
            && BytesRead(trace + [x], capacity) ==
              BytesRead(trace, capacity) + (if how.Hit? then 0 else x.charge - HEADER)
  {
    assert (trace + [x])[..|trace|] == trace;
  }

  /** A routed matrix of one expert with 16 columns. */
  function Small(rows: nat): Matrix {
    Matrix(Nvfp4, true, 1, rows, 16, seq(rows * 8, _ => 0), seq(rows, _ => 0))
  }

  lemma SmallCharge(rows: nat)
    requires rows <= 32
    ensures Small(rows).Valid() && Small(rows).Charge() == HEADER + 9 * rows
  {
    OffsetIsProduct(rows, 8);
    OffsetIsProduct(rows, 1);
    OffsetIsProduct(1, rows * 8);
    OffsetIsProduct(1, rows);
  }

  /** Without the condition both claims fail.  Two matrices of 16 and 32 rows, one expert each, charges 192 and 336, and
      budgets of the same sizes: the expert that only the larger cache can store evicts what the smaller one still
      holds, and the smaller one goes on holding what is no longer most recent. */
  lemma LargerCanBeWorse()
    ensures var x, y := Item(Key(0, 0), Small(16).Charge()), Item(Key(1, 0), Small(32).Charge());
            var trace := [x, y, x];
            && Small(16).Valid() && Small(32).Valid() && x.charge == 192 && y.charge == 336
            && ChargesConsistent(trace) && !NoLateBypass(trace, 192) && !AlwaysLongest(trace, 192)
            && Hits(trace, 192) == 1 && Hits(trace, 336) == 0
            && BytesRead(trace, 192) == 432 && BytesRead(trace, 336) == 576
  {
    hide Access, Resident, Hits, BytesRead, AlwaysLongest;
    SmallCharge(16);
    SmallCharge(32);
    var x, y := Item(Key(0, 0), Small(16).Charge()), Item(Key(1, 0), Small(32).Charge());
    Scenario(x, y, 192);
    Scenario(x, y, 336);
    LongestExactly([x, y, x], 192);
    assert [x, y, x][0].charge <= 192 < [x, y, x][1].charge;
  }

  lemma Scenario(x: Item, y: Item, capacity: nat)
    requires x.key != y.key && x.charge == 192 && y.charge == 336 && (capacity == 192 || capacity == 336)
    ensures Hits([x, y, x], capacity) == (if capacity == 192 then 1 else 0)
    ensures BytesRead([x, y, x], capacity) == (if capacity == 192 then 432 else 576)
  {
    hide Resident, Hits, BytesRead;
    EmptyTrace(capacity);
    assert [x][..0] == [] && Total([x]) == 192 && Evict([], 0) == [] && Evict([], 144) == [] && Evict([x], 0) == [];
    OneMore([], x, capacity);
    assert [] + [x] == [x];
    OneMore([x], y, capacity);
    assert [x] + [y] == [x, y];
    assert [y][..0] == [] && Total([y]) == 336 && Evict([y], 144) == [];
    OneMore([x, y], x, capacity);
    assert [x, y] + [x] == [x, y, x];
  }

  lemma EmptyTrace(capacity: nat)
    ensures Resident([], capacity) == [] && Hits([], capacity) == 0 && BytesRead([], capacity) == 0
  {
  }

  // ---------- The cache over a trace ----------

  /** A lookup of an expert of a matrix. */
  datatype Request = Request(matrix: nat, expert: nat)

  predicate Routed(matrices: seq<Matrix>, requests: seq<Request>) {
    forall i :: 0 <= i < |requests|
                ==> requests[i].matrix < |matrices| && matrices[requests[i].matrix].routed
                    && requests[i].expert < matrices[requests[i].matrix].experts
  }

  /** The trace of some requests: the charge of an expert is that of its matrix. */
  function TraceOf(matrices: seq<Matrix>, requests: seq<Request>): (trace: Trace)
    requires Routed(matrices, requests)
    ensures |trace| == |requests| && ChargesConsistent(trace)
    ensures forall i :: 0 <= i < |trace| ==> trace[i] == ItemOf(matrices, requests[i]) && trace[i].charge >= HEADER
  {
    seq(|requests|, i requires 0 <= i < |requests| => ItemOf(matrices, requests[i]))
  }

  function ItemOf(matrices: seq<Matrix>, r: Request): Item
    requires r.matrix < |matrices|
  {
    Item(Key(r.matrix, r.expert), matrices[r.matrix].Charge())
  }

  /** A run of lookups on an empty cache, with the bytes streamed for those that bypass it: the chain of entries is the
      resident list of the trace, and the counters count its hits and its bytes. */
  method RunTrace(c: Cache, requests: seq<Request>)
    requires c.Valid() && c.list == [] && Routed(c.matrices, requests)
    modifies c
    ensures c.Valid()
    ensures var trace := TraceOf(c.matrices, requests);
            && Items(c.list) == Resident(trace, c.capacity)
            && Hits(trace, c.capacity) <= |trace|
            && c.hits == Saturate(old(c.hits) + Hits(trace, c.capacity))
            && c.misses == Saturate(old(c.misses) + |trace| - Hits(trace, c.capacity))
            && BytesRead(trace, c.capacity) >= 0
            && c.bytesRead == Saturate(old(c.bytesRead) + BytesRead(trace, c.capacity))
  {
    hide Access, Resident, Hits, BytesRead, Evicted;
    hide Cache.Valid;
    c.Counters();
    ghost var trace := TraceOf(c.matrices, requests);
    EmptyTrace(c.capacity);
    assert trace[..0] == [];
    for i := 0 to |requests|
      invariant c.Valid() && forall k :: 0 <= k < |c.list| ==> fresh(c.list[k])
      invariant Items(c.list) == Resident(trace[..i], c.capacity)
      invariant Hits(trace[..i], c.capacity) <= i && BytesRead(trace[..i], c.capacity) >= 0
      invariant c.hits == Saturate(old(c.hits) + Hits(trace[..i], c.capacity))
      invariant c.misses == Saturate(old(c.misses) + i - Hits(trace[..i], c.capacity))
      invariant c.bytesRead == Saturate(old(c.bytesRead) + BytesRead(trace[..i], c.capacity))
    {
      var r := requests[i];
      assert trace[..i + 1] == trace[..i] + [trace[i]];
      OneMore(trace[..i], trace[i], c.capacity);
      ghost var before := c.list;
      var how := LookUp(c, r);
      assert forall k :: 0 <= k < |c.list| ==> c.list[k] in c.list;
    }
    assert trace[..|requests|] == trace;
  }

  /** One lookup, and the stream that follows a bypass. */
  method LookUp(c: Cache, r: Request) returns (how: Lookup)
    requires c.Valid() && Routed(c.matrices, [r])
    modifies c, c.list
    ensures c.Valid() && forall e :: e in c.list ==> e in old(c.list) || fresh(e)
    ensures r == [r][0] && var M := c.matrices[r.matrix];
            && (Items(c.list), how) == Access(old(Items(c.list)), ItemOf(c.matrices, r), c.capacity, WORKING)
            && c.hits == Saturate(old(c.hits) + if how.Hit? then 1 else 0)
            && c.misses == Saturate(old(c.misses) + if how.Hit? then 0 else 1)
            && c.bytesRead == Saturate(old(c.bytesRead) + if how.Hit? then 0 else M.Charge() - HEADER)
  {
    hide Evicted;
    hide Cache.Valid;
    assert r == [r][0];
    var M := c.matrices[r.matrix];
    var ok, entry;
    ok, entry, how := c.CachedExpert(r.matrix, r.expert, WORKING);
    if how.Bypass? {
      var data := c.Read(M.ExpertData(), true);
      var scales := c.Read(M.ExpertScales(), true);
    }
  }

  /** The same requests on two empty caches: when every charge fits the smaller budget, the larger cache holds whatever
      the smaller one holds, has no fewer hits and reads no more bytes. */
  method CompareBudgets(small: Cache, large: Cache, requests: seq<Request>)
    requires small.Valid() && large.Valid() && small != large && small.list == large.list == []
    requires small.matrices == large.matrices && small.capacity <= large.capacity && Routed(small.matrices, requests)
    requires small.hits == large.hits == small.bytesRead == large.bytesRead == 0
    requires AllFit(TraceOf(small.matrices, requests), small.capacity)
    modifies small, large
    ensures small.Valid() && large.Valid() && Items(small.list) <= Items(large.list)
    ensures small.hits <= large.hits && large.bytesRead <= small.bytesRead
  {
    hide Resident, Hits, BytesRead, AllFit;
    hide Cache.Valid;
    RunTrace(small, requests);
    RunTrace(large, requests);
    ghost var trace := TraceOf(small.matrices, requests);
    Inclusion(trace, small.capacity, large.capacity);
    LargerIsNoWorse(trace, small.capacity, large.capacity);
  }
}
