/** The byte-budgeted LRU cache of routed experts.

    `Access` says what one lookup does to the recency list of `(key, charge)` items.  The class keeps that
    list as doubly linked entries, most recent first, and is proved to follow `Access` on every path:
    hit, miss, bypass, failed allocation and failed reads.
*/
module ExpertCache {
  import opened Wrappers
  import opened Arithmetic
  import opened Counters
  import opened Octets

  // ---------- Matrices ----------

  datatype Kind = Bf16 | Nvfp4

  /** A bound matrix: its shape and the bytes of its tensors, which never change.  `routed` says that it is
      the w13 or down projection of a layer with routed experts. */
  datatype Matrix = Matrix(kind: Kind, routed: bool, experts: nat, rows: nat, columns: nat, data: Bytes,
                           scales: Bytes)
  {
    /** Bytes of one row of weights and of one row of block scales. */
    function RowBytes(): nat {
      if kind.Bf16? then columns * 2 else columns / 2
    }

    function ScaleBytes(): nat {
      if kind.Bf16? then 0 else columns / 16
    }

    /** Bytes of one expert. */
    function ExpertData(): nat { Offset(rows, RowBytes()) }

    function ExpertScales(): nat { Offset(rows, ScaleBytes()) }

    predicate Valid() {
      && |data| == Offset(experts, ExpertData()) && |scales| == Offset(experts, ExpertScales())
      && HEADER + |data| + |scales| <= SIZE_MAX
      && (routed ==> kind.Nvfp4?) && (kind.Nvfp4? ==> columns % 16 == 0)
    }

    function DataOf(expert: nat): (r: Bytes)
      requires Valid() && expert < experts
      ensures |r| == ExpertData()
    {
      RowFits(expert, experts, ExpertData());
      data[Offset(expert, ExpertData())..Offset(expert, ExpertData()) + ExpertData()]
    }

    function ScalesOf(expert: nat): (r: Bytes)
      requires Valid() && expert < experts
      ensures |r| == ExpertScales()
    {
      RowFits(expert, experts, ExpertScales());
      scales[Offset(expert, ExpertScales())..Offset(expert, ExpertScales()) + ExpertScales()]
    }

    /** What an entry for one of this matrix's experts costs. */
    function Charge(): nat {
      HEADER + ExpertData() + ExpertScales()
    }
  }

  /** Size of the entry header on a 64-bit platform. */
  const HEADER: nat := 48

  // ---------- The recency list ----------

  datatype Key = Key(matrix: nat, expert: nat)

  datatype Item = Item(key: Key, charge: nat)

  function Total(items: seq<Item>): nat {
    if items == [] then 0 else Total(items[..|items| - 1]) + items[|items| - 1].charge
  }

  /** Where a key is in the list, or the length of the list. */
  function Find(items: seq<Item>, key: Key): (i: nat)
    ensures i <= |items|
    ensures i < |items| ==> items[i].key == key
    ensures forall j :: 0 <= j < i ==> items[j].key != key
  {
    if items == [] then 0
    else if items[0].key == key then 0
    else 1 + Find(items[1..], key)
  }

  /** Move the item at `i` to the front. */
  function Promoted<T>(items: seq<T>, i: nat): (r: seq<T>)
    requires i < |items|
    ensures |r| == |items|
  {
    [items[i]] + items[..i] + items[i + 1..]
  }

  /** Drop items from the old end until the rest fits in `room` bytes. */
  function Evict(items: seq<Item>, room: nat): (r: seq<Item>)
    ensures r <= items && Total(r) <= room
  {
    if Total(items) <= room then items else Evict(items[..|items| - 1], room)
  }

  /** What the environment does during a lookup. */
  datatype Env = Env(allocates: bool, readsData: bool, readsScales: bool)

  datatype Lookup = Hit | Stored | Bypass | Failed

  /** One lookup: the list after it and how it ended. */
  function Access(items: seq<Item>, item: Item, capacity: nat, env: Env): (seq<Item>, Lookup) {
    var i := Find(items, item.key);
    if i < |items| then (Promoted(items, i), Hit)
    else if item.charge > capacity then (items, Bypass)
    else
      var kept := Evict(items, capacity - item.charge);
      if !env.allocates then (kept, Bypass)
      else if !env.readsData || !env.readsScales then (kept, Failed)
      else ([item] + kept, Stored)
  }

  /** How many items a lookup evicts. */
  function Evicted(items: seq<Item>, item: Item, capacity: nat): nat {
    if Find(items, item.key) < |items| || item.charge > capacity then 0
    else |items| - |Evict(items, capacity - item.charge)|
  }

  /** The read calls of a lookup; a call that fails counts, and ends it. */
  function CallsOf(how: Lookup, env: Env): nat {
    match how
    case Stored => 2
    case Failed => if env.readsData then 2 else 1
    case _ => 0
  }

  /** The bytes a lookup reads; a call that fails reads none. */
  function BytesOf(how: Lookup, env: Env, M: Matrix): nat {
    match how
    case Stored => M.ExpertData() + M.ExpertScales()
    case Failed => if env.readsData then M.ExpertData() else 0
    case _ => 0
  }

  predicate DistinctKeys(items: seq<Item>) {
    forall i, j :: 0 <= i < j < |items| ==> items[i].key != items[j].key
  }

  lemma {:induction false} TotalConcat(a: seq<Item>, b: seq<Item>)
    ensures Total(a + b) == Total(a) + Total(b)
  {
    if b == [] {
      assert a + b == a;
    } else {
      TotalConcat(a, b[..|b| - 1]);
      assert (a + b)[..|a + b| - 1] == a + b[..|b| - 1];
    }
  }

  lemma TotalSwap(a: seq<Item>, x: seq<Item>, b: seq<Item>)
    ensures Total(a + x + b) == Total(x + a + b)
  {
    TotalConcat(a + x, b);
    TotalConcat(a, x);
    TotalConcat(x + a, b);
    TotalConcat(x, a);
  }

  lemma SplitAt<T>(items: seq<T>, i: nat)
    requires i < |items|
    ensures items[..i] + [items[i]] + items[i + 1..] == items
  {
  }

  lemma TotalPromoted(items: seq<Item>, i: nat)
    requires i < |items|
    ensures Total(Promoted(items, i)) == Total(items)
  {
    hide Total;
    SplitAt(items, i);
    TotalSwap(items[..i], [items[i]], items[i + 1..]);
  }

  /** A lookup keeps the keys distinct and the total within the capacity, whatever the environment does. */
  lemma AccessKeepsInvariant(items: seq<Item>, item: Item, capacity: nat, env: Env)
    requires DistinctKeys(items) && Total(items) <= capacity
    ensures var after := Access(items, item, capacity, env).0;
            DistinctKeys(after) && Total(after) <= capacity
  {
    hide Total;
    var i := Find(items, item.key);
    if i < |items| {
      TotalPromoted(items, i);
    } else if item.charge <= capacity {
      var kept := Evict(items, capacity - item.charge);
      TotalConcat([item], kept);
      TotalOne(item);
      assert forall j :: 0 <= j < |kept| ==> kept[j] == items[j];
    }
  }

  lemma TotalOne(item: Item)
    ensures Total([item]) == item.charge
  {
    assert [item][..0] == [];
  }

  // ---------- The linked entries ----------

  /** An entry.  Everything but the links is set before the entry is published and never changes. */
  class Entry {
    var newer: Entry?
    var older: Entry?
    const matrix: nat
    const expert: nat
    const charge: nat
    const dataBytes: nat
    const payload: Bytes

    constructor (matrix: nat, expert: nat, charge: nat, dataBytes: nat, payload: Bytes)
      ensures this.matrix == matrix && this.expert == expert && this.charge == charge
      ensures this.dataBytes == dataBytes && this.payload == payload
      ensures newer == null && older == null
    {
      this.matrix, this.expert, this.charge, this.dataBytes, this.payload := matrix, expert, charge, dataBytes, payload;
      newer, older := null, null;
    }

    function AsItem(): Item {
      Item(Key(matrix, expert), charge)
    }
  }

  function Items(list: seq<Entry>): (r: seq<Item>)
    ensures |r| == |list|
  {
    seq(|list|, i requires 0 <= i < |list| => list[i].AsItem())
  }

  /** The entry at a position, or null outside the list. */
  function At(list: seq<Entry>, i: int): Entry? {
    if 0 <= i < |list| then list[i] else null
  }

  /** The links of the entries spell the list in both directions. */
  ghost predicate Linked(list: seq<Entry>)
    reads list
  {
    && (forall i {:trigger list[i].newer} :: 0 <= i < |list| ==> list[i].newer == At(list, i - 1))
    && (forall i {:trigger list[i].older} :: 0 <= i < |list| ==> list[i].older == At(list, i + 1))
  }

  ghost predicate Distinct(list: seq<Entry>) {
    forall i, j :: 0 <= i < j < |list| ==> list[i] != list[j]
  }

  /** When the neighbours of the entry at `i` point past it, the rest of the list is linked. */
  lemma ClosedUp(before: seq<Entry>, i: nat, list: seq<Entry>)
    requires 0 < i < |before| && list == before[..i] + before[i + 1..] && Distinct(before)
    requires forall k {:trigger before[k].older} :: 0 <= k < |before| ==>
                           before[k].older == (if k == i - 1 then At(before, i + 1) else At(before, k + 1))
    requires forall k {:trigger before[k].newer} :: 0 <= k < |before| ==>
                           before[k].newer == (if k == i + 1 then before[i - 1] else At(before, k - 1))
    ensures Linked(list) && Distinct(list) && before[i] !in list
  {
    forall j | 0 <= j < |list|
      ensures list[j].newer == At(list, j - 1) && list[j].older == At(list, j + 1) && list[j] != before[i]
    {
      var k := if j < i then j else j + 1;
      assert list[j] == before[k];
    }
  }

  class Cache {
    const matrices: seq<Matrix>
    const capacity: nat
    var head: Entry?
    ghost var list: seq<Entry>

    // InklingRuntimeStats
    var bytesRead: nat
    var readCalls: nat
    var hits: nat
    var misses: nat
    var evictions: nat
    var cacheBytes: nat
    var peakBytes: nat

    /** The payload of an entry is the expert it is filed under. */
    predicate Faithful(e: Entry) {
      && e.matrix < |matrices| && matrices[e.matrix].Valid() && matrices[e.matrix].routed
      && e.expert < matrices[e.matrix].experts
      && e.charge == matrices[e.matrix].Charge() && e.dataBytes == matrices[e.matrix].ExpertData()
      && e.payload == matrices[e.matrix].DataOf(e.expert) + matrices[e.matrix].ScalesOf(e.expert)
    }

    ghost predicate Valid()
      reads this, list
    {
      && (forall m :: 0 <= m < |matrices| ==> matrices[m].Valid())
      && capacity <= PTRDIFF_MAX
      && head == At(list, 0) && Linked(list) && Distinct(list)
      && (forall i :: 0 <= i < |list| ==> Faithful(list[i]))
      && DistinctKeys(Items(list))
      && Total(Items(list)) == cacheBytes <= peakBytes <= capacity
      && bytesRead <= UINT64_MAX && readCalls <= UINT64_MAX
      && hits <= UINT64_MAX && misses <= UINT64_MAX && evictions <= UINT64_MAX
    }

    constructor (matrices: seq<Matrix>, capacity: nat)
      requires forall m :: 0 <= m < |matrices| ==> matrices[m].Valid()
      requires capacity <= PTRDIFF_MAX
      ensures Valid() && list == [] && this.matrices == matrices && this.capacity == capacity
    {
      this.matrices, this.capacity := matrices, capacity;
      head, list := null, [];
      bytesRead, readCalls, hits, misses, evictions, cacheBytes, peakBytes := 0, 0, 0, 0, 0, 0, 0;
    }

    lemma Counters()
      requires Valid()
      ensures hits <= UINT64_MAX && misses <= UINT64_MAX && bytesRead <= UINT64_MAX
    {
    }

    /** inkling_context_reset_stats: the entries stay and the peak restarts at what they use. */
    method ResetStats()
      requires Valid()
      modifies this
      ensures Valid() && list == old(list) && cacheBytes == peakBytes == old(cacheBytes)
      ensures bytesRead == readCalls == hits == misses == evictions == 0
    {
      bytesRead, readCalls, hits, misses, evictions := 0, 0, 0, 0, 0;
      peakBytes := cacheBytes;
    }

    /** The first half of promote: take the entry at `i` out of the chain.  Its own links go stale. */
    method Unlink(e: Entry, ghost i: nat)
      requires head == At(list, 0) && Linked(list) && Distinct(list) && 0 < i < |list| && list[i] == e
      modifies this`list, list
      ensures list == old(list)[..i] + old(list)[i + 1..]
      ensures head == At(list, 0) && Linked(list) && Distinct(list) && e !in list
    {
      ghost var before := list;
      assert e.newer == before[i - 1] && e.older == At(before, i + 1);
      e.newer.older := e.older;
      if e.older != null {
        e.older.newer := e.newer;
      }
      list := before[..i] + before[i + 1..];
      assert forall k {:trigger before[k].older} :: 0 <= k < |before| ==>
                           before[k].older == (if k == i - 1 then At(before, i + 1) else At(before, k + 1));
      assert forall k {:trigger before[k].newer} :: 0 <= k < |before| ==>
                           before[k].newer == (if k == i + 1 then before[i - 1] else At(before, k - 1));
      ClosedUp(before, i, list);
    }

    /** Put an entry that is not in the chain at the head. */
    method PushFront(e: Entry)
      requires head == At(list, 0) && Linked(list) && Distinct(list) && e !in list
      modifies this`list, this`head, list, e
      ensures list == [e] + old(list)
      ensures head == At(list, 0) && Linked(list) && Distinct(list)
    {
      ghost var before := list;
      e.newer := null;
      e.older := head;
      if head != null {
        head.newer := e;
      }
      head := e;
      list := [e] + before;
      forall j | 0 <= j < |list|
        ensures list[j].newer == At(list, j - 1) && list[j].older == At(list, j + 1)
      {
        if j > 0 {
          assert list[j] == before[j - 1];
        }
      }
    }

    /** promote: unlink the entry and put it at the head. */
    method Promote(e: Entry, ghost i: nat)
      requires head == At(list, 0) && Linked(list) && Distinct(list) && i < |list| && list[i] == e
      modifies this`list, this`head, list
      ensures list == Promoted(old(list), i)
      ensures head == At(list, 0) && Linked(list) && Distinct(list)
    {
      if e == head {
        assert i == 0;
        return;
      }
      Unlink(e, i);
      PushFront(e);
    }

    /** Walk to the tail. */
    method FindTail() returns (tail: Entry)
      requires head == At(list, 0) && Linked(list) && list != []
      ensures tail == list[|list| - 1]
    {
      tail := head;
      ghost var i := 0;
      while tail.older != null
        invariant 0 <= i < |list| && tail == list[i]
        decreases |list| - i
      {
        tail := tail.older;
        i := i + 1;
      }
      assert At(list, i + 1) == null;
    }

    /** Cut the tail off the chain. */
    method CutTail(tail: Entry)
      requires head == At(list, 0) && Linked(list) && Distinct(list) && list != [] && tail == list[|list| - 1]
      modifies this`head, this`list, list
      ensures list == old(list)[..|old(list)| - 1]
      ensures head == At(list, 0) && Linked(list) && Distinct(list)
    {
      ghost var before, n := list, |list| - 1;
      assert tail.newer == At(before, n - 1);
      if tail.newer != null {
        tail.newer.older := null;
      } else {
        head := null;
      }
      list := before[..n];
      assert forall k {:trigger list[k].newer} :: 0 <= k < n ==>
             list[k] == before[k] && list[k].newer == At(list, k - 1);
      assert forall k {:trigger list[k].older} :: 0 <= k < n ==>
             list[k] == before[k] && list[k].older == At(list, k + 1);
    }

    /** One turn of the eviction loop: the oldest entry goes. */
    method EvictTail()
      requires Valid() && list != []
      modifies this`head, this`list, this`cacheBytes, this`evictions, list
      ensures Valid() && list == old(list)[..|old(list)| - 1]
      ensures evictions == Saturate(old(evictions) + 1)
    {
      hide Faithful, Linked, Distinct, Items, DistinctKeys;
      ghost var before, n := list, |list| - 1;
      ItemsFront(before);
      var tail := FindTail();
      CutTail(tail);
      cacheBytes := cacheBytes - tail.charge;
      evictions := Saturate(evictions + 1);
    }

    /** The eviction loop: it always finds a tail, and stops with room for the new entry. */
    method EvictUntil(room: nat)
      requires Valid()
      modifies this`head, this`list, this`cacheBytes, this`evictions, list
      ensures Valid() && Items(list) == Evict(Items(old(list)), room) && list <= old(list)
      ensures evictions == Saturate(old(evictions) + |old(list)| - |list|)
    {
      hide Faithful, Linked, Distinct, DistinctKeys;
      while cacheBytes > room
        invariant Valid() && list <= old(list)
        invariant Evict(Items(list), room) == Evict(Items(old(list)), room)
        invariant evictions == Saturate(old(evictions) + |old(list)| - |list|)
        decreases |list|
      {
        ghost var before := list;
        EvictTail();
        ItemsFront(before);
      }
    }

    /** Walk from the head to the entry of this key. */
    method Search(matrix: nat, expert: nat) returns (entry: Entry?, ghost i: nat)
      requires Valid()
      ensures i == Find(Items(list), Key(matrix, expert))
      ensures entry == At(list, i)
      ensures entry != null ==> entry.matrix == matrix && entry.expert == expert
    {
      entry, i := head, 0;
      while entry != null
        invariant 0 <= i <= |list| && entry == At(list, i)
        invariant forall j :: 0 <= j < i ==> Items(list)[j].key != Key(matrix, expert)
        decreases |list| - i
      {
        assert entry == list[i];
        if entry.matrix == matrix && entry.expert == expert {
          break;
        }
        assert Items(list)[i].key == Key(entry.matrix, entry.expert);
        entry := entry.older;
        i := i + 1;
      }
      FindIs(Items(list), Key(matrix, expert), i);
    }

    /** inkling_context_read: count the call, and the bytes when it succeeds. */
    method Read(bytes: nat, succeeds: bool) returns (ok: bool)
      requires Valid()
      modifies this`readCalls, this`bytesRead
      ensures Valid() && ok == succeeds
      ensures readCalls == Saturate(old(readCalls) + 1)
      ensures bytesRead == Saturate(old(bytesRead) + (if ok then bytes else 0))
    {
      readCalls := Saturate(readCalls + 1);
      if succeeds {
        bytesRead := Saturate(bytesRead + bytes);
      }
      ok := succeeds;
    }

    /** The hit path: promote the entry and count it. */
    method CountHit(entry: Entry, ghost i: nat)
      requires Valid() && i < |list| && list[i] == entry
      modifies this`head, this`list, this`hits, list
      ensures Valid() && list == Promoted(old(list), i) && hits == Saturate(old(hits) + 1)
    {
      hide Faithful, Linked, Distinct, DistinctKeys, Items;
      ghost var before := list;
      Promote(entry, i);
      hits := Saturate(hits + 1);
      PromotedItems(before, i);
      assert forall j :: 0 <= j < |list| ==> list[j] in before;
    }

    /** The publishing half of a miss: both reads, then the entry goes to the head. */
    method Publish(m: nat, expert: nat, env: Env) returns (entry: Entry?)
      requires Valid() && m < |matrices| && expert < matrices[m].experts && matrices[m].routed
      requires cacheBytes + matrices[m].Charge() <= capacity
      requires forall j :: 0 <= j < |list| ==> Items(list)[j].key != Key(m, expert)
      modifies this`head, this`list, this`cacheBytes, this`peakBytes, this`readCalls, this`bytesRead, list
      ensures Valid()
      ensures entry != null <==> env.readsData && env.readsScales
      ensures entry == null ==> list == old(list) && cacheBytes == old(cacheBytes)
      ensures entry != null ==>
                && fresh(entry) && list == [entry] + old(list)
                && entry.matrix == m && entry.expert == expert && entry.charge == matrices[m].Charge()
      ensures var M := matrices[m];
              bytesRead == Saturate(old(bytesRead) + (if env.readsData then M.ExpertData() else 0) +
                                    (if env.readsData && env.readsScales then M.ExpertScales() else 0))
      ensures readCalls == Saturate(old(readCalls) + if env.readsData then 2 else 1)
    {
      hide Linked, Distinct, Items, DistinctKeys;
      var M := matrices[m];
      var ok := Read(M.ExpertData(), env.readsData);
      if ok {
        ok := Read(M.ExpertScales(), env.readsScales);
      }
      if !ok {
        return null;
      }
      entry := new Entry(m, expert, M.Charge(), M.ExpertData(), M.DataOf(expert) + M.ScalesOf(expert));
      Insert(entry);
    }

    /** Link a new entry in and account for it. */
    method Insert(entry: Entry)
      requires Valid() && Faithful(entry) && entry !in list && cacheBytes + entry.charge <= capacity
      requires forall j :: 0 <= j < |list| ==> Items(list)[j].key != entry.AsItem().key
      modifies this`head, this`list, this`cacheBytes, this`peakBytes, list, entry
      ensures Valid() && list == [entry] + old(list)
    {
      hide Faithful, Linked, Distinct, DistinctKeys, Items;
      ghost var before := list;
      PushFront(entry);
      cacheBytes := cacheBytes + entry.charge;
      if cacheBytes > peakBytes {
        peakBytes := cacheBytes;
      }
      PushedItems(before, entry);
    }

    /** cached_expert.  `entry` is null when the caller has to stream the expert. */
    method CachedExpert(m: nat, expert: nat, env: Env) returns (ok: bool, entry: Entry?, how: Lookup)
      requires Valid() && m < |matrices| && expert < matrices[m].experts
      modifies this, list
      ensures Valid()
      ensures !matrices[m].routed ==>
                ok && entry == null && how == Bypass && list == old(list) && evictions == old(evictions)
      ensures matrices[m].routed ==>
                (Items(list), how) ==
                Access(old(Items(list)), Item(Key(m, expert), matrices[m].Charge()), capacity, env)
      ensures ok <==> how != Failed
      ensures entry != null <==> how.Hit? || how.Stored?
      ensures entry != null ==> entry in list && entry.matrix == m && entry.expert == expert
      ensures forall e :: e in list ==> e in old(list) || fresh(e)
      ensures matrices[m].routed ==>
                evictions == Saturate(old(evictions) +
                                      Evicted(old(Items(list)), Item(Key(m, expert), matrices[m].Charge()), capacity))
      ensures readCalls == Saturate(old(readCalls) + CallsOf(how, env))
      ensures bytesRead == Saturate(old(bytesRead) + BytesOf(how, env, matrices[m]))
      ensures hits == Saturate(old(hits) + (if how.Hit? then 1 else 0))
      ensures misses == Saturate(old(misses) + (if matrices[m].routed && !how.Hit? then 1 else 0))
    {
      hide Linked, Distinct, Items, DistinctKeys, Faithful;
      if !matrices[m].routed {
        return true, null, Bypass;
      }
      ghost var i;
      entry, i := Search(m, expert);
      if entry != null {
        ghost var before := list;
        CountHit(entry, i);
        PromotedItems(before, i);
        return true, entry, Hit;
      }
      misses := Saturate(misses + 1);
      ok, entry, how := Miss(m, expert, env);
    }

    /** The miss path of cached_expert. */
    method Miss(m: nat, expert: nat, env: Env) returns (ok: bool, entry: Entry?, how: Lookup)
      requires Valid() && m < |matrices| && expert < matrices[m].experts && matrices[m].routed
      requires Find(Items(list), Key(m, expert)) == |list|
      modifies this`head, this`list, this`cacheBytes, this`peakBytes, this`readCalls, this`bytesRead,
               this`evictions, list
      ensures Valid()
      ensures (Items(list), how) == Access(old(Items(list)), Item(Key(m, expert), matrices[m].Charge()), capacity, env)
      ensures ok <==> how != Failed
      ensures entry != null <==> how.Stored?
      ensures entry != null ==> entry in list && entry.matrix == m && entry.expert == expert
      ensures forall e :: e in list ==> e in old(list) || fresh(e)
      ensures evictions == Saturate(old(evictions) +
                                    Evicted(old(Items(list)), Item(Key(m, expert), matrices[m].Charge()), capacity))
      ensures readCalls == Saturate(old(readCalls) + CallsOf(how, env))
      ensures bytesRead == Saturate(old(bytesRead) + BytesOf(how, env, matrices[m]))
      ensures !how.Hit?
    {
      hide Linked, Distinct, DistinctKeys, Faithful, Total, Evict, Promoted;
      var charge := matrices[m].Charge();
      if charge > capacity || charge > PTRDIFF_MAX {
        return true, null, Bypass;
      }
      EvictUntil(capacity - charge);
      if !env.allocates {
        return true, null, Bypass;
      }
      ghost var kept := list;
      assert Items(kept) <= Items(old(list));
      entry := Publish(m, expert, env);
      if entry == null {
        return false, null, Failed;
      }
      PushedItems(kept, entry);
      return true, entry, Stored;
    }
  }

  /** Dropping the tail of the chain drops the last item. */
  lemma ItemsFront(list: seq<Entry>)
    requires list != []
    ensures var n := |list| - 1;
            && Items(list[..n]) == Items(list)[..n]
            && Total(Items(list)) == Total(Items(list[..n])) + list[n].charge
            && (DistinctKeys(Items(list)) ==> DistinctKeys(Items(list[..n])))
  {
    var n := |list| - 1;
    assert Items(list[..n]) == Items(list)[..n];
    assert Items(list)[n] == list[n].AsItem();
  }

  lemma PromotedItems(list: seq<Entry>, i: nat)
    requires i < |list|
    ensures Items(Promoted(list, i)) == Promoted(Items(list), i)
    ensures Total(Items(Promoted(list, i))) == Total(Items(list))
    ensures DistinctKeys(Items(list)) ==> DistinctKeys(Items(Promoted(list, i)))
  {
    TotalPromoted(Items(list), i);
  }

  lemma PushedItems(list: seq<Entry>, e: Entry)
    ensures Items([e] + list) == [e.AsItem()] + Items(list)
    ensures Total(Items([e] + list)) == e.charge + Total(Items(list))
    ensures DistinctKeys(Items(list)) && (forall j :: 0 <= j < |list| ==> Items(list)[j].key != e.AsItem().key) ==>
              DistinctKeys(Items([e] + list))
  {
    assert Items([e] + list) == [e.AsItem()] + Items(list);
    TotalConcat([e.AsItem()], Items(list));
    assert [e.AsItem()][..0] == [];
    assert Total([e.AsItem()]) == e.charge;
  }

  lemma FindIs(items: seq<Item>, key: Key, i: nat)
    requires i <= |items| && (forall j :: 0 <= j < i ==> items[j].key != key)
    requires i < |items| ==> items[i].key == key
    ensures i == Find(items, key)
  {
    var f := Find(items, key);
    assert !(f < i) by {
      if f < i {
        assert false;
      }
    }
  }
}
