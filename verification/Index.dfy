/** The open-addressing tensor index of inkling_index.c and the binding of one shard's header.

    `Table` is the representation invariant of the slot array; it is kept for any hash function.  The class
    follows the source: `FindSlot` probes, `Load` inserts, `FindTensor` looks up, `BindTensors` publishes the
    metadata of one shard after checking all of it.
*/
module Index {
  import opened Wrappers
  import opened Arithmetic
  import opened Counters
  import opened Tensors
  import opened Pigeonhole

  // ---------- Masks and probing ----------

  predicate PowerOfTwo(n: nat): (r: bool)
    ensures r ==> n > 0
  {
    n == 1 || (n > 1 && n % 2 == 0 && PowerOfTwo(n / 2))
  }

  /** Bitwise and. */
  function And(a: nat, b: nat): nat {
    if b == 0 then 0 else (a % 2) * (b % 2) + 2 * And(a / 2, b / 2)
  }

  /** Masking with a power of two less one is the remainder. */
  lemma {:induction false} MaskIsRemainder(a: nat, n: nat)
    requires PowerOfTwo(n)
    ensures And(a, n - 1) == a % n
  {
    if n > 1 {
      MaskIsRemainder(a / 2, n / 2);
      assert (n - 1) / 2 == n / 2 - 1 && (n - 1) % 2 == 1;
      HalvedRemainder(a, n / 2);
    }
  }

  lemma HalvedRemainder(a: nat, m: nat)
    requires m > 0
    ensures a % (2 * m) == a % 2 + 2 * ((a / 2) % m)
  {
    var r, q := (a / 2) % m, (a / 2) / m;
    assert a / 2 == m * q + r;
    assert (2 * m) * q == 2 * (m * q);
    RemainderIs(a, 2 * m, q, 2 * r + a % 2);
  }

  lemma RemainderIs(a: nat, n: nat, q: int, r: nat)
    requires n > 0 && a == n * q + r && r < n
    ensures a % n == r
  {
    assert a == n * (a / n) + a % n;
    assert (a / n - q) * n == r - a % n;
    OnlyZero(a / n - q, n, r - a % n);
  }

  /** The slot `k` steps after `home` in a circle of `n` slots. */
  function At(home: nat, k: nat, n: nat): (s: nat)
    requires home < n && k <= n
    ensures s < n
  {
    if home + k < n then home + k else home + k - n
  }

  /** How many steps lead from `home` to `s`. */
  function Distance(home: nat, s: nat, n: nat): (k: nat)
    requires home < n && s < n
    ensures k < n && At(home, k, n) == s
    ensures forall j :: 0 <= j < n && At(home, j, n) == s ==> j == k
  {
    if home <= s then s - home else s + n - home
  }

  function Home(hash: string -> nat, name: string, n: nat): (h: nat)
    requires n > 0
    ensures h < n
  {
    hash(name) % n
  }

  /** Every slot on the way from the home of `name` to `slot` is taken. */
  predicate Reached(hash: string -> nat, slots: seq<nat>, name: string, slot: nat)
    requires slot < |slots|
  {
    var h := Home(hash, name, |slots|);
    forall k :: 0 <= k < Distance(h, slot, |slots|) ==> slots[At(h, k, |slots|)] != 0
  }

  /** A slot holds an entry number plus one, or zero; `place` says where each entry is. */
  predicate Table(hash: string -> nat, slots: seq<nat>, names: seq<string>, place: seq<nat>) {
    && |names| < |slots| && |place| == |names| && NoRepeats(names)
    && (forall e :: 0 <= e < |names| ==> place[e] < |slots| && slots[place[e]] == e + 1)
    && (forall s :: 0 <= s < |slots| && slots[s] != 0 ==> slots[s] <= |names| && place[slots[s] - 1] == s)
    && (forall e :: 0 <= e < |names| ==> Reached(hash, slots, names[e], place[e]))
  }

  /** A probe cannot go all the way round: it meets an empty slot. */
  lemma ProbeEnds(hash: string -> nat, slots: seq<nat>, names: seq<string>, place: seq<nat>, home: nat)
    requires Table(hash, slots, names, place) && home < |slots|
    ensures exists k :: 0 <= k < |slots| && slots[At(home, k, |slots|)] == 0
  {
    if forall s :: 0 <= s < |slots| ==> slots[s] != 0 {
      forall s, t | 0 <= s < t < |slots|
        ensures slots[s] != slots[t]
      {
        assert place[slots[s] - 1] == s && place[slots[t] - 1] == t;
      }
      ElementsCount(slots);
      var all := Below(|names| + 1) - {0};
      assert Below(|names| + 1) == all + {0};
      SubsetSize(Elements(slots), all);
    } else {
      var s :| 0 <= s < |slots| && slots[s] == 0;
      var k := Distance(home, s, |slots|);
      assert slots[At(home, k, |slots|)] == 0;
    }
  }

  lemma SlotInRange(hash: string -> nat, slots: seq<nat>, names: seq<string>, place: seq<nat>, s: nat)
    requires Table(hash, slots, names, place) && s < |slots|
    ensures slots[s] <= |names|
  {
  }

  lemma NextSlot(home: nat, k: nat, n: nat)
    requires home < n && k < n && PowerOfTwo(n)
    ensures And(At(home, k, n) + 1, n - 1) == At(home, k + 1, n)
  {
    hide And, PowerOfTwo;
    var s := At(home, k, n);
    MaskIsRemainder(s + 1, n);
    RemainderIs(s + 1, n, if s + 1 < n then 0 else 1, if s + 1 < n then s + 1 else 0);
  }

  lemma FirstSlot(hash: string -> nat, name: string, n: nat)
    requires PowerOfTwo(n)
    ensures And(hash(name), n - 1) == Home(hash, name, n) == At(Home(hash, name, n), 0, n)
  {
    MaskIsRemainder(hash(name), n);
  }

  /** The slots passed so far were taken. */
  lemma PassedMeansReached(hash: string -> nat, slots: seq<nat>, name: string, probe: nat)
    requires probe < |slots|
    requires forall k :: 0 <= k < probe ==> slots[At(Home(hash, name, |slots|), k, |slots|)] != 0
    ensures Reached(hash, slots, name, At(Home(hash, name, |slots|), probe, |slots|))
  {
  }

  /** The slot holds an entry with another name. */
  predicate Passes(slots: seq<nat>, names: seq<string>, name: string, s: nat) {
    s < |slots| && 0 < slots[s] <= |names| && names[slots[s] - 1] != name
  }

  /** When a probe reaches an empty slot without a match, no entry has the name. */
  lemma EmptySlotMeansAbsent(hash: string -> nat, slots: seq<nat>, names: seq<string>, place: seq<nat>, name: string,
                             probe: nat)
    requires Table(hash, slots, names, place) && probe < |slots|
    requires slots[At(Home(hash, name, |slots|), probe, |slots|)] == 0
    requires forall k :: 0 <= k < probe ==> Passes(slots, names, name, At(Home(hash, name, |slots|), k, |slots|))
    ensures name !in names
  {
    forall e | 0 <= e < |names|
      ensures names[e] != name
    {
      EntryOnTheWay(hash, slots, names, place, e, probe);
    }
  }

  /** A probe for the name of entry `e` that ends at an empty slot has passed the slot of `e`. */
  lemma EntryOnTheWay(hash: string -> nat, slots: seq<nat>, names: seq<string>, place: seq<nat>, e: nat, probe: nat)
    requires Table(hash, slots, names, place) && e < |names| && probe < |slots|
    ensures var h := Home(hash, names[e], |slots|);
            slots[At(h, probe, |slots|)] == 0
            ==> exists k :: 0 <= k < probe && slots[At(h, k, |slots|)] == e + 1
  {
    var h := Home(hash, names[e], |slots|);
    var d := Distance(h, place[e], |slots|);
    assert Reached(hash, slots, names[e], place[e]) && slots[At(h, d, |slots|)] == e + 1;
  }

  /** Filling the empty slot a probe ended at keeps the invariant. */
  lemma InsertKeepsTable(hash: string -> nat, slots: seq<nat>, names: seq<string>, place: seq<nat>, name: string,
                         slot: nat)
    requires Table(hash, slots, names, place) && slot < |slots| && slots[slot] == 0
    requires Reached(hash, slots, name, slot) && |names| + 1 < |slots| && name !in names
    ensures Table(hash, slots[slot := |names| + 1], names + [name], place + [slot])
  {
    var now, all, at := slots[slot := |names| + 1], names + [name], place + [slot];
    forall e | 0 <= e < |all|
      ensures Reached(hash, now, all[e], at[e])
    {
      assert Reached(hash, slots, all[e], at[e]);
    }
  }

  // ---------- Loading ----------

  const SHARD_LIMIT: nat := 64
  const INDEX_MAX_BYTES: nat := 0x100_0000

  /** A member of the weight map; the shard is absent when the JSON value is not a string. */
  datatype Mapping = Mapping(name: string, shard: Option<string>)

  predicate WellFormed(m: Mapping) {
    && 0 < |m.name| < NAME_LIMIT && '\0' !in m.name
    && m.shard.Some? && 0 < |m.shard.value| < SHARD_LIMIT
    && '\0' !in m.shard.value && '/' !in m.shard.value && '\\' !in m.shard.value
    && m.shard.value != "." && m.shard.value != ".."
  }

  /** Members that are refused: a name that is empty, has 128 bytes or more or holds a zero byte; a shard that is no
      string, is empty, has 64 bytes or more, or leads out of the directory. */
  lemma RefusedMembers(name: string, shard: string, a: string, b: string)
    ensures |name| == 0 || |name| >= 128 || '\0' in name ==> !WellFormed(Mapping(name, Some(shard)))
    ensures |shard| == 0 || |shard| >= 64 ==> !WellFormed(Mapping(name, Some(shard)))
    ensures !WellFormed(Mapping(name, None))
    ensures !WellFormed(Mapping(name, Some("."))) && !WellFormed(Mapping(name, Some("..")))
    ensures !WellFormed(Mapping(name, Some(a + "/" + b))) && !WellFormed(Mapping(name, Some(a + "\\" + b)))
  {
    assert (a + "/" + b)[|a|] == '/' && (a + "\\" + b)[|a|] == '\\';
  }

  function ShardsOf(s: seq<Tensor>): set<string> {
    set i | 0 <= i < |s| :: s[i].shard
  }

  /** Shard numbers follow shard names, start at zero and leave no gaps. */
  ghost predicate Numbered(s: seq<Tensor>, shards: nat) {
    && SameShardSameNumber(s) && (forall i :: 0 <= i < |s| ==> s[i].shardId < shards)
    && shards == |ShardsOf(s)| && shards <= UINT32_MAX
  }

  /** Doubling from two until twice the count fits; fails when the size would overflow. */
  method SlotCount(count: nat) returns (r: Option<nat>)
    requires 0 < count <= SIZE_MAX / 2
    ensures r.Some? ==> PowerOfTwo(r.value) && 2 * count <= r.value && (r.value == 2 || r.value < 4 * count)
    ensures r.None? ==> 4 * count > SIZE_MAX
  {
    var n := 2;
    while n < count * 2
      invariant n >= 2 && PowerOfTwo(n) && (n == 2 || n < 4 * count)
      decreases 2 * count - n
    {
      if n > SIZE_MAX / 2 {
        return None;
      }
      n := n * 2;
    }
    r := Some(n);
  }

  /** `entries[..count]` are the tensors; a slot holds an entry number plus one. */
  class Index {
    const hash: string -> nat
    const slots: array<nat>
    const entries: array<Tensor>
    var count: nat
    var numShards: nat
    ghost var place: seq<nat>

    ghost predicate Valid()
      reads this, slots, entries
    {
      Sized() && Numbered(entries[..count], numShards)
    }

    ghost function Names(): seq<string>
      reads this, entries
      requires count <= entries.Length
    {
      NamesOf(entries[..count])
    }

    constructor (hash: string -> nat, capacity: nat, slotCount: nat)
      requires 0 < capacity && PowerOfTwo(slotCount) && 2 * capacity <= slotCount
      ensures Valid() && count == 0 && entries.Length == capacity && slots.Length == slotCount && this.hash == hash
      ensures fresh(slots) && fresh(entries) && numShards == 0
    {
      this.hash := hash;
      slots := new nat[slotCount](_ => 0);
      entries := new Tensor[capacity](_ => Tensor("", "", 0, UNBOUND));
      count, numShards, place := 0, 0, [];
      new;
      assert ShardsOf(entries[..0]) == {};
    }

    /** The part of the invariant that does not speak of shard numbers. */
    ghost predicate Sized()
      reads this, slots, entries
    {
      && PowerOfTwo(slots.Length) && 2 * entries.Length <= slots.Length && count <= entries.Length
      && Table(hash, slots[..], NamesOf(entries[..count]), place)
    }

    /** find_slot: probes from the home slot until a match or an empty slot; it always meets one. */
    method FindSlot(name: string) returns (slot: nat)
      requires Sized()
      ensures slot < slots.Length
      ensures name !in Names() ==> slots[slot] == 0 && Reached(hash, slots[..], name, slot)
      ensures name in Names() ==> 0 < slots[slot] <= count && entries[slots[slot] - 1].name == name
    {
      hide Numbered, Table, Reached, Home, At, And, NamesOf, PowerOfTwo;
      ghost var n, table, names := slots.Length, slots[..], Names();
      ghost var h := Home(hash, name, n);
      FirstSlot(hash, name, n);
      ProbeEnds(hash, table, names, place, h);
      slot := And(hash(name), slots.Length - 1);
      var probe := 0;
      while probe < slots.Length
        invariant probe <= n && slot == At(h, probe, n)
        invariant forall k :: 0 <= k < probe ==> Passes(table, names, name, At(h, k, n))
      {
        var entry := slots[slot];
        SlotInRange(hash, table, names, place, slot);
        if entry == 0 {
          EmptySlotMeansAbsent(hash, table, names, place, name, probe);
          PassedMeansReached(hash, table, name, probe);
          return;
        }
        if entries[entry - 1].name == name {
          assert names[entry - 1] == name;
          return;
        }
        NextSlot(h, probe, n);
        slot := And(slot + 1, slots.Length - 1);
        probe := probe + 1;
      }
      assert false;
    }

    /** inkling_index_find_tensor: the entry number, exactly when some entry has the name. */
    method FindTensor(name: string) returns (r: Option<nat>)
      requires Valid()
      ensures r.Some? <==> name in Names()
      ensures r.Some? ==> r.value < count && entries[r.value].name == name
      ensures r.Some? ==> forall e :: 0 <= e < count && entries[e].name == name ==> e == r.value
    {
      hide Numbered, Table, NamesOf;
      var slot := FindSlot(name);
      if slots[slot] == 0 {
        return None;
      }
      NamesAreDistinct();
      assert Names()[slots[slot] - 1] == name;
      assert forall e :: 0 <= e < count ==> Names()[e] == entries[e].name;
      return Some(slots[slot] - 1);
    }

    lemma InBounds()
      requires Valid()
      ensures count <= entries.Length
    {
    }

    lemma RoomForShard()
      requires Valid() && count < UINT32_MAX
      ensures numShards < UINT32_MAX && count <= entries.Length
    {
      ShardsBelow(entries[..count], numShards);
    }

    lemma NamesAreDistinct()
      requires Valid()
      ensures NoRepeats(Names())
    {
      hide Numbered, Reached, NoRepeats;
    }

    /** The number of the first earlier entry of the shard, or the next number; fails when numbers run out. */
    method ShardNumber(ghost name: string, shard: string) returns (ok: bool, id: nat)
      requires count < entries.Length && Numbered(entries[..count], numShards)
      modifies this`numShards
      ensures ok <==> shard in ShardsOf(entries[..count]) || old(numShards) < UINT32_MAX
      ensures ok ==> Numbered(entries[..count] + [Tensor(name, shard, id, UNBOUND)], numShards)
    {
      hide Numbered;
      ghost var before := entries[..count];
      var previous := 0;
      while previous < count
        invariant previous <= count && numShards == old(numShards)
        invariant forall i :: 0 <= i < previous ==> before[i].shard != shard
      {
        if entries[previous].shard == shard {
          id := entries[previous].shardId;
          assert before[previous].shard == shard;
          KnownShard(before, Tensor(name, shard, id, UNBOUND), numShards, previous);
          return true, id;
        }
        previous := previous + 1;
      }
      BelowLimit(before, numShards);
      if numShards == UINT32_MAX {
        return false, 0;
      }
      id := numShards;
      numShards := numShards + 1;
      NewShard(before, Tensor(name, shard, id, UNBOUND), id);
      return true, id;
    }

    /** One turn of the insertion loop: fails on an ill-formed member and on a name already present. */
    method Add(m: Mapping) returns (ok: bool)
      requires Valid() && count < entries.Length
      modifies this`count, this`numShards, this`place, slots, entries
      ensures ok <==> WellFormed(m) && m.name !in old(Names())
                      && (m.shard.value in old(ShardsOf(entries[..count])) || old(numShards) < UINT32_MAX)
      ensures ok ==> Valid() && count == old(count) + 1 && entries[..old(count)] == old(entries[..count])
      ensures ok ==> Added(entries[old(count)], m)
    {
      hide Numbered, Table, Reached, ShardsOf, PowerOfTwo;
      if !WellFormed(m) {
        return false;
      }
      var numbered, id := ShardNumber(m.name, m.shard.value);
      if !numbered {
        return false;
      }
      assert old(entries[..count]) == entries[..count];
      ok := Place(Tensor(m.name, m.shard.value, id, UNBOUND));
    }

    /** Writes the entry and its slot, unless the slot found is taken. */
    method Place(t: Tensor) returns (ok: bool)
      requires Sized() && count < entries.Length && Numbered(entries[..count] + [t], numShards)
      modifies this`count, this`place, slots, entries
      ensures ok <==> t.name !in old(Names())
      ensures ok ==> Valid() && count == old(count) + 1 && entries[..old(count)] == old(entries[..count])
      ensures ok ==> entries[old(count)] == t
    {
      hide Numbered, Table, Reached, PowerOfTwo;
      ghost var before, names := entries[..count], Names();
      ghost var table: seq<nat> := slots[..];
      ghost var filled: nat := |names| + 1;
      entries[count] := t;
      assert entries[..count] == before;
      var slot := FindSlot(t.name);
      if slots[slot] != 0 {
        return false;
      }
      InsertKeepsTable(hash, table, names, place, t.name, slot);
      slots[slot] := count + 1;
      assert slots[..] == table[slot := filled];
      count := count + 1;
      assert entries[..count] == before + [t];
      assert Names() == names + [t.name];
      place := place + [slot];
      return true;
    }

    /** bind_tensors: checks the whole shard, then publishes; a failure changes nothing. */
    method BindTensors(shard: string, header: seq<Described>) returns (ok: bool)
      requires Valid()
      modifies entries
      ensures Valid()
      ensures ok <==> Binds(old(entries[..count]), shard, header)
      ensures forall e :: 0 <= e < count ==>
                            entries[e] == if ok then Bound(old(entries[e]), header) else old(entries[e])
    {
      hide Numbered, Table, Reached, PowerOfTwo, Bound, Resolves, Expected;
      var expected := CountShard(shard);
      if expected == 0 || |header| != expected {
        return false;
      }
      ok := Check(shard, header);
      if ok {
        Publish(header);
      }
    }

    /** Every member names an entry of this shard. */
    method Check(shard: string, header: seq<Described>) returns (ok: bool)
      requires Valid()
      ensures ok <==> forall p :: 0 <= p < |header| ==> Resolves(entries[..count], shard, header[p].name)
      ensures ok ==> forall p :: 0 <= p < |header| ==> header[p].name in Names()
    {
      hide Numbered, Table, Reached, PowerOfTwo;
      ghost var before := entries[..count];
      assert forall e :: 0 <= e < count ==> Names()[e] == before[e].name;
      for position := 0 to |header|
        invariant forall p :: 0 <= p < position ==> Resolves(before, shard, header[p].name) && header[p].name in Names()
      {
        var entry := FindTensor(header[position].name);
        if entry.None? || entries[entry.value].shard != shard {
          assert !Resolves(before, shard, header[position].name);
          return false;
        }
        assert before[entry.value].name == header[position].name;
      }
      ok := true;
    }

    method CountShard(shard: string) returns (expected: nat)
      requires count <= entries.Length
      ensures expected == Expected(entries[..count], shard)
    {
      expected := 0;
      for entry := 0 to count
        invariant expected == Expected(entries[..entry], shard)
      {
        assert entries[..entry + 1][..entry] == entries[..entry];
        expected := expected + (if entries[entry].shard == shard then 1 else 0);
      }
    }

    method Publish(header: seq<Described>)
      requires count <= entries.Length && Valid() && forall p :: 0 <= p < |header| ==> header[p].name in Names()
      modifies entries
      ensures Valid() && Names() == old(Names())
      ensures forall e :: 0 <= e < count ==> entries[e] == Bound(old(entries[e]), header)
    {
      hide Numbered, Table, Reached, PowerOfTwo, NamesOf;
      hide Index.Sized;
      hide Index.Names;
      ghost var names := Names();
      for position := 0 to |header|
        invariant count <= entries.Length && Valid() && Names() == names
        invariant forall e :: 0 <= e < count ==> entries[e] == Bound(old(entries[e]), header[..position])
      {
        assert header[..position + 1][..position] == header[..position];
        PublishOne(header[position]);
      }
      assert header[..|header|] == header;
    }

    method PublishOne(h: Described)
      requires count <= entries.Length && Valid() && h.name in Names()
      modifies entries
      ensures Valid() && Names() == old(Names())
      ensures forall e :: 0 <= e < count
                          ==> entries[e] == old(entries[e]).(meta := if old(entries[e]).name == h.name then h.meta
                                                                     else old(entries[e]).meta)
    {
      hide Numbered, Table, Reached, PowerOfTwo;
      ghost var before, names := entries[..count], Names();
      NamesAreDistinct();
      var slot := FindSlot(h.name);
      var e := slots[slot] - 1;
      assert forall i :: 0 <= i < count ==> names[i] == before[i].name;
      entries[e] := entries[e].(meta := h.meta);
      assert Names() == names;
      SameNumbering(before, entries[..count], numShards);
    }
  }

  lemma SameNumbering(s: seq<Tensor>, t: seq<Tensor>, shards: nat)
    requires Numbered(s, shards) && |s| == |t|
    requires forall i :: 0 <= i < |s| ==> s[i].shard == t[i].shard && s[i].shardId == t[i].shardId
    ensures Numbered(t, shards)
  {
    assert ShardsOf(s) == ShardsOf(t);
  }

  // ---------- Binding one shard ----------

  function Expected(s: seq<Tensor>, shard: string): nat {
    if s == [] then 0
    else Expected(s[..|s| - 1], shard) + (if s[|s| - 1].shard == shard then 1 else 0)
  }

  /** Some entry has the name, and it belongs to the shard. */
  ghost predicate Resolves(s: seq<Tensor>, shard: string, name: string) {
    exists e :: 0 <= e < |s| && s[e].name == name && s[e].shard == shard
  }

  /** What bind_tensors checks before it publishes anything. */
  ghost predicate Binds(s: seq<Tensor>, shard: string, header: seq<Described>) {
    && |header| > 0 && |header| == Expected(s, shard)
    && forall p :: 0 <= p < |header| ==> Resolves(s, shard, header[p].name)
  }

  /** The entry after the members of the header are published in order. */
  function Bound(t: Tensor, header: seq<Described>): (r: Tensor)
    ensures r == t.(meta := r.meta)
  {
    if header == [] then t
    else
      var h := header[|header| - 1];
      var before := Bound(t, header[..|header| - 1]);
      before.(meta := if t.name == h.name then h.meta else before.meta)
  }

  /** When the names of the header are distinct, the check means: the header has exactly the shard's names. */
  lemma {:induction false} BindsExactly(s: seq<Tensor>, shard: string, header: seq<Described>)
    requires NoRepeats(NamesOf(s)) && NoRepeats(HeaderNames(header))
    ensures Binds(s, shard, header) <==> header != [] && Elements(HeaderNames(header)) == ShardNames(s, shard)
  {
    var names, wanted := HeaderNames(header), ShardNames(s, shard);
    ElementsCount(names);
    ShardNamesCount(s, shard);
    if Binds(s, shard, header) {
      forall x | x in Elements(names)
        ensures x in wanted
      {
        var p :| 0 <= p < |names| && names[p] == x;
        assert Resolves(s, shard, header[p].name);
      }
      SubsetSize(Elements(names), wanted);
    }
    if header != [] && Elements(names) == wanted {
      forall p | 0 <= p < |header|
        ensures Resolves(s, shard, header[p].name)
      {
        assert names[p] in Elements(names);
      }
    }
  }

  /** After a successful binding each entry of the shard has the metadata of the one member with its name; no other
      entry is touched. */
  lemma {:induction false} BindingIsBijective(s: seq<Tensor>, shard: string, header: seq<Described>, e: nat)
    requires NoRepeats(NamesOf(s)) && NoRepeats(HeaderNames(header)) && Binds(s, shard, header) && e < |s|
    ensures s[e].shard == shard
            ==> exists p :: 0 <= p < |header| && header[p].name == s[e].name
                            && Bound(s[e], header) == s[e].(meta := header[p].meta)
                            && forall q :: 0 <= q < |header| && header[q].name == s[e].name ==> q == p
    ensures s[e].shard != shard ==> Bound(s[e], header) == s[e]
  {
    var names := HeaderNames(header);
    BindsExactly(s, shard, header);
    if s[e].shard == shard {
      assert s[e].name in ShardNames(s, shard);
      var p :| 0 <= p < |names| && names[p] == s[e].name;
      forall q | 0 <= q < |header| && header[q].name == s[e].name
        ensures q == p
      {
        assert names[q] == names[p];
      }
      BoundAt(s[e], header, p);
    } else {
      forall q | 0 <= q < |header|
        ensures header[q].name != s[e].name
      {
        assert Resolves(s, shard, header[q].name);
        var f :| 0 <= f < |s| && s[f].name == header[q].name && s[f].shard == shard;
        assert NamesOf(s)[f] == s[f].name && NamesOf(s)[e] == s[e].name && f != e;
      }
      BoundNowhere(s[e], header);
    }
  }

  function HeaderNames(header: seq<Described>): (r: seq<string>)
    ensures |r| == |header| && forall p :: 0 <= p < |header| ==> r[p] == header[p].name
  {
    seq(|header|, p requires 0 <= p < |header| => header[p].name)
  }

  function ShardNames(s: seq<Tensor>, shard: string): set<string> {
    set e | 0 <= e < |s| && s[e].shard == shard :: s[e].name
  }

  lemma {:induction false} ShardNamesCount(s: seq<Tensor>, shard: string)
    requires NoRepeats(NamesOf(s))
    ensures |ShardNames(s, shard)| == Expected(s, shard)
  {
    if s == [] {
    } else {
      var n := |s| - 1;
      assert NamesOf(s)[..n] == NamesOf(s[..n]);
      ShardNamesCount(s[..n], shard);
      ShardNamesSnoc(s[..n], s[n], shard);
      assert s == s[..n] + [s[n]];
      forall e | 0 <= e < n
        ensures s[..n][e].name != s[n].name
      {
        assert NamesOf(s)[e] != NamesOf(s)[n];
      }
      assert s[n].name !in ShardNames(s[..n], shard);
    }
  }

  lemma ShardNamesSnoc(s: seq<Tensor>, t: Tensor, shard: string)
    ensures ShardNames(s + [t], shard) == ShardNames(s, shard) + (if t.shard == shard then {t.name} else {})
  {
    var all := s + [t];
    forall x | x in ShardNames(s, shard)
      ensures x in ShardNames(all, shard)
    {
      var e :| 0 <= e < |s| && s[e].shard == shard && s[e].name == x;
      assert all[e] == s[e];
    }
    if t.shard == shard {
      assert all[|s|].shard == shard && all[|s|].name == t.name;
    }
  }

  lemma {:induction false} BoundAt(t: Tensor, header: seq<Described>, p: nat)
    requires p < |header| && header[p].name == t.name
    requires forall q :: 0 <= q < |header| && header[q].name == t.name ==> q == p
    ensures Bound(t, header) == t.(meta := header[p].meta)
  {
    var n := |header| - 1;
    if p < n {
      BoundAt(t, header[..n], p);
    } else {
      BoundNowhere(t, header[..n]);
    }
  }

  lemma {:induction false} BoundNowhere(t: Tensor, header: seq<Described>)
    requires forall q :: 0 <= q < |header| ==> header[q].name != t.name
    ensures Bound(t, header) == t
  {
    if header == [] {
    } else {
      BoundNowhere(t, header[..|header| - 1]);
    }
  }

  // ---------- Loading the weight map ----------

  /** What the members of a weight map must satisfy; repeated names cannot come from the JSON parser. */
  ghost predicate Loadable(pairs: seq<Mapping>) {
    && pairs != [] && (forall i :: 0 <= i < |pairs| ==> WellFormed(pairs[i]))
    && (forall i, j :: 0 <= i < j < |pairs| ==> pairs[i].name != pairs[j].name)
  }

  /** inkling_index_load after the JSON is parsed: one entry per member, in order, or nothing at all. */
  method Load(hash: string -> nat, pairs: seq<Mapping>) returns (index: Index?)
    requires |pairs| <= INDEX_MAX_BYTES
    ensures index != null <==> Loadable(pairs)
    ensures index != null ==> fresh(index) && fresh(index.entries) && index.Valid()
    ensures index != null ==> index.hash == hash && index.count == |pairs|
    ensures index != null ==> forall i :: 0 <= i < |pairs| ==> Added(index.entries[i], pairs[i])
  {
    hide Numbered, Table, Reached, NamesOf, PowerOfTwo, WellFormed, Added;
    hide Index.Valid;
    if |pairs| == 0 {
      return null;
    }
    var slotCount := SlotCount(|pairs|);
    if slotCount.None? {
      return null;
    }
    var parsed := new Index(hash, |pairs|, slotCount.value);
    for position := 0 to |pairs|
      invariant parsed.Valid() && parsed.count == position && parsed.entries.Length == |pairs|
      invariant fresh(parsed) && fresh(parsed.slots) && fresh(parsed.entries) && parsed.hash == hash
      invariant forall i :: 0 <= i < position ==> Added(parsed.entries[i], pairs[i]) && WellFormed(pairs[i])
      invariant forall i, j :: 0 <= i < j < position ==> pairs[i].name != pairs[j].name
    {
      ghost var before := parsed.entries[..position];
      parsed.RoomForShard();
      NamesSoFar(before, pairs);
      assert WellFormed(pairs[position]) ==> (pairs[position].name !in parsed.Names()
                                              <==> forall i :: 0 <= i < position ==>
                                                                 pairs[i].name != pairs[position].name);
      var ok := parsed.Add(pairs[position]);
      if !ok {
        return null;
      }
      assert forall i :: 0 <= i < position ==> parsed.entries[i] == parsed.entries[..position][i] == before[i];
    }
    index := parsed;
  }

  lemma NamesSoFar(s: seq<Tensor>, pairs: seq<Mapping>)
    requires |s| <= |pairs| && forall i :: 0 <= i < |s| ==> Added(s[i], pairs[i])
    ensures forall i :: 0 <= i < |s| ==> NamesOf(s)[i] == pairs[i].name
  {
  }

  lemma ShardsBelow(s: seq<Tensor>, shards: nat)
    requires Numbered(s, shards) && |s| < UINT32_MAX
    ensures shards < UINT32_MAX
  {
    ShardsCount(s);
  }

  lemma {:induction false} ShardsCount(s: seq<Tensor>)
    ensures |ShardsOf(s)| <= |s|
  {
    if s == [] {
    } else {
      var n := |s| - 1;
      ShardsCount(s[..n]);
      ShardsSnoc(s[..n], s[n]);
      assert s == s[..n] + [s[n]];
    }
  }

  predicate Added(t: Tensor, m: Mapping) {
    m.shard.Some? && t.name == m.name && t.shard == m.shard.value && t.meta == UNBOUND
  }

  lemma ShardsSnoc(s: seq<Tensor>, t: Tensor)
    ensures ShardsOf(s + [t]) == ShardsOf(s) + {t.shard}
  {
    forall x | x in ShardsOf(s) + {t.shard}
      ensures x in ShardsOf(s + [t])
    {
      if x == t.shard {
        assert (s + [t])[|s|].shard == x;
      } else {
        var i :| 0 <= i < |s| && s[i].shard == x;
        assert (s + [t])[i].shard == x;
      }
    }
  }

  lemma KnownShard(s: seq<Tensor>, t: Tensor, shards: nat, i: nat)
    requires Numbered(s, shards) && i < |s| && s[i].shard == t.shard && s[i].shardId == t.shardId
    ensures Numbered(s + [t], shards)
  {
    ShardsSnoc(s, t);
    assert ShardsOf(s) + {t.shard} == ShardsOf(s);
    SameNumbers(s, t);
  }

  lemma NewShard(s: seq<Tensor>, t: Tensor, shards: nat)
    requires Numbered(s, shards) && t.shardId == shards < UINT32_MAX
    requires forall i :: 0 <= i < |s| ==> s[i].shard != t.shard
    ensures Numbered(s + [t], shards + 1)
  {
    ShardsSnoc(s, t);
    SameNumbers(s, t);
  }

  lemma BelowLimit(s: seq<Tensor>, shards: nat)
    requires Numbered(s, shards)
    ensures shards <= UINT32_MAX
  {
  }

  ghost predicate SameShardSameNumber(s: seq<Tensor>) {
    forall i, j :: 0 <= i < |s| && 0 <= j < |s| ==> (s[i].shardId == s[j].shardId <==> s[i].shard == s[j].shard)
  }

  lemma SameNumbers(s: seq<Tensor>, t: Tensor)
    requires SameShardSameNumber(s)
    requires forall i :: 0 <= i < |s| ==> (s[i].shardId == t.shardId <==> s[i].shard == t.shard)
    ensures SameShardSameNumber(s + [t])
  {
  }
}
