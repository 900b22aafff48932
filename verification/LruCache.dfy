/**
 * The cache as lrucache.c keeps it: entries linked through `next`, with `pthis` naming the pointer that holds the
 * entry, and counters updated in place. Each method is proved against the function of CacheModel.
 */
module LruCache {
  import opened Triggers
  import opened Options
  import opened Queues
  import opened CacheModel
  import CacheRuns

  /** An entry's address, which its list link gives away (STX_CACHE_ENTRY_PTR). */
  type Addr = int

  /** A pointer to a pointer to an entry. */
  datatype Slot = Null | Table(bucket: nat) | NextOf(entry: Entry)

  class Entry {
    const addr: Addr
    var key: Key
    var weight: nat
    var refCount: nat
    var deletePending: bool
    var next: Entry?
    var pthis: Slot

    /** stx_cache_entry_create */
    constructor (addr: Addr, key: Key, weight: nat)
      ensures this.addr == addr && this.key == key && this.weight == weight
      ensures refCount == 0 && !deletePending && next == null && pthis == Null
    {
      this.addr, this.key, this.weight := addr, key, weight;
      refCount, deletePending, next, pthis := 0, false, null, Null;
    }

    /** The fields say what the record says. */
    ghost predicate Is(r: Rec)
      reads `key, `weight, `refCount, `deletePending, `pthis
    {
      && key == r.key && weight == r.weight && refCount == r.refs && deletePending == r.pending
      && (pthis == Null <==> r.home == None)
    }
  }

  /** InvBut, but only OpenInv unfolds it. */
  ghost predicate Sound(f: Fns, s: Cache<Addr>, x: set<Addr>) {
    forall u {:trigger Opened(u)} :: Opened(u) ==> InvBut(f, s, x)
  }

  lemma OpenInv(f: Fns, s: Cache<Addr>, x: set<Addr>)
    requires Sound(f, s, x)
    ensures InvBut(f, s, x)
  {
    assert Opened(0);
  }

  class LruCache {
    const f: Fns
    const table: array<Entry?>
    const maxSize: nat
    const maxWeight: nat
    var memory: map<Addr, Entry>
    var lruList: seq<Addr>
    var curSize: int
    var curWeight: int
    var hits: nat
    var lookups: nat
    var inserts: int
    var deletes: int
    ghost var s: Cache<Addr>
    ghost var objs: set<Entry>  // every entry there ever was

    ghost predicate Addressed() reads `memory, `objs {
      forall a :: a in memory ==> memory[a] in objs && memory[a].addr == a
    }

    /** The fields say what the records say, but for the entries at x. */
    ghost predicate FieldsBut(x: set<Addr>)
      reads `memory, `objs, `s, objs`key, objs`weight, objs`refCount, objs`deletePending, objs`pthis
    {
      FieldsOf(s.rec, s.freed, x)
    }

    ghost predicate FieldsOf(rec: map<Addr, Rec>, freed: set<Addr>, x: set<Addr>)
      reads `memory, `objs, objs`key, objs`weight, objs`refCount, objs`deletePending, objs`pthis
    {
      && Addressed()
      && (forall a :: a in memory ==> a in rec && a !in freed && (a in x || memory[a].Is(rec[a])))
      && (forall a :: a in rec && a !in freed ==> a in memory)
    }

    lemma FieldsButOne(rec: map<Addr, Rec>, freed: set<Addr>, a: Addr, r: Rec)
      requires FieldsOf(rec, freed, {}) && a in rec
      ensures FieldsOf(rec[a := r], freed, {a})
    {
    }

    /** The entry at an address. */
    function At(a: Addr): (e: Entry?)
      reads `memory, `objs
      ensures Addressed() && e != null ==> e in objs && e.addr == a
    {
      if a in memory then memory[a] else null
    }

    /** Element i of a chain, NULL at its end. */
    ghost function Target(q: seq<Addr>, i: int): (e: Entry?)
      reads `memory, `objs
      ensures Addressed() && e != null ==> e in objs
    {
      if 0 <= i < |q| then At(q[i]) else null
    }

    /** The pointer that holds element i of chain b. */
    ghost function SlotOf(q: seq<Addr>, b: nat, i: int): (p: Slot)
      reads `memory, `objs
      ensures Addressed() && p.NextOf? ==> p.entry in objs
    {
      if i == 0 then Table(b) else if 0 < i <= |q| && At(q[i - 1]) != null then NextOf(At(q[i - 1])) else Null
    }

    function Deref(p: Slot): Entry?
      requires p != Null && (p.Table? ==> p.bucket < table.Length)
      reads table, (if p.NextOf? then {p.entry} else {})`next
    {
      match p case Table(b) => table[b] case NextOf(e) => e.next
    }

    /** `*p = e` */
    method Store(p: Slot, e: Entry?)
      requires p != Null && (p.Table? ==> p.bucket < table.Length)
      modifies table, (if p.NextOf? then {p.entry} else {})`next
      ensures Deref(p) == e
      ensures forall b :: 0 <= b < table.Length && p != Table(b) ==> table[b] == old(table[b])
    {
      match p
      case Table(b) => table[b] := e;
      case NextOf(d) => d.next := e;
    }

    /** `*pthis` is the entry itself, and `next` is the entry that follows. */
    ghost predicate LinkedAt(q: seq<Addr>, b: nat, i: nat)
      requires Addressed()
      reads `memory, `objs, objs`next, objs`pthis, table
    {
      && b < table.Length && i <= |q| && SlotOf(q, b, i) != Null && Deref(SlotOf(q, b, i)) == Target(q, i)
      && (i < |q| ==> Target(q, i) != null && Target(q, i).pthis == SlotOf(q, b, i))
    }

    ghost predicate Linked(chains: seq<seq<Addr>>)
      requires Addressed()
      reads `memory, `objs, objs`next, objs`pthis, table
    {
      && table.Length == |chains|
      && forall b, i {:trigger LinkedAt(chains[b], b, i)} :: 0 <= b < |chains| && 0 <= i <= |chains[b]| ==>
           LinkedAt(chains[b], b, i)
    }

    ghost predicate Counters() reads this {
      && lruList == s.lru && curSize == s.size && curWeight == s.weight && maxSize == s.maxSize
      && maxWeight == s.maxWeight
      && hits == s.hits && lookups == s.lookups && inserts == s.inserts && deletes == s.deletes
    }

    ghost predicate Represents()
      reads this, objs, table
    {
      FieldsBut({}) && Linked(s.chains) && Counters()
    }

    ghost predicate Valid()
      reads this, objs, table
    {
      Represents() && Sound(f, s, {})
    }

    /** stx_cache_create */
    constructor (f: Fns, hashSize: nat, maxSize: nat, maxWeight: nat)
      requires hashSize > 0
      ensures Valid() && s == CacheRuns.Init(hashSize, maxSize, maxWeight) && objs == {} && memory == map[]
      ensures fresh(table) && this.f == f
    {
      this.f, this.maxSize, this.maxWeight := f, maxSize, maxWeight;
      table := new Entry?[hashSize](_ => null);
      memory, lruList, curSize, curWeight, hits, lookups, inserts, deletes := map[], [], 0, 0, 0, 0, 0, 0;
      s, objs := CacheRuns.Init(hashSize, maxSize, maxWeight), {};
      new;
      CacheRuns.InitOk<Addr>(f, hashSize, maxSize, maxWeight);
    }

    /** stx_cache_entry_create, at a new address or that of a freed entry */
    method Create(addr: Addr, key: Key, weight: nat) returns (e: Entry)
      requires Valid() && (addr !in s.rec || addr in s.freed)
      modifies `memory, `s, `objs
      ensures Valid() && fresh(e) && e.addr == addr && memory == old(memory)[addr := e] && objs == old(objs) + {e}
      ensures s == CacheModel.Create(old(s), addr, key, weight) && Fresh(s, addr)
    {
      CreateSound(f, s, addr, key, weight);
      e := new Entry(addr, key, weight);
      Register(e);
    }

    method Register(e: Entry)
      requires Represents() && e !in objs && Nowhere(s.chains, e.addr) && (e.addr !in s.rec || e.addr in s.freed)
      requires e.Is(Rec(e.key, e.weight, 0, false, None))
      modifies `memory, `s, `objs
      ensures Represents() && memory == old(memory)[e.addr := e] && objs == old(objs) + {e}
      ensures s == CacheModel.Create(old(s), e.addr, e.key, e.weight)
    {
      memory, objs := memory[e.addr := e], objs + {e};
      s := CacheModel.Create(s, e.addr, e.key, e.weight);
      forall b, i | 0 <= b < |s.chains| && 0 <= i <= |s.chains[b]| ensures LinkedAt(s.chains[b], b, i) {
        assert old(LinkedAt(s.chains[b], b, i));
      }
    }

    /** A chained entry is what its pthis points to, and is on the LRU list exactly if unreferenced. */
    lemma PthisHoldsEntry(e: Entry)
      requires Valid() && At(e.addr) == e
      ensures e.refCount > 0 ==> e.pthis != Null
      ensures e.pthis != Null ==> (e.pthis.Table? ==> e.pthis.bucket < table.Length) && Deref(e.pthis) == e
      ensures e.pthis != Null ==> (e.addr in lruList <==> e.refCount == 0) && (e.refCount == 0 ==> !e.deletePending)
      ensures e.pthis == Null ==> e.addr !in lruList
    {
      OpenInv(f, s, {});
      if e.pthis != Null {
        var b := s.rec[e.addr].home.value;
        assert e.addr in s.chains[b];
        var i :| 0 <= i < |s.chains[b]| && s.chains[b][i] == e.addr;
        assert LinkedAt(s.chains[b], b, i);
      }
    }

    /** Takes element i out of chain b. */
    method Unlink(e: Entry, ghost chains: seq<seq<Addr>>, ghost b: nat, ghost i: nat)
      requires Addressed() && Linked(chains) && Distinct(chains)
      requires b < |chains| && i < |chains[b]| && chains[b][i] in memory && memory[chains[b][i]] == e
      modifies table, objs`next, objs`pthis
      ensures Addressed() && Linked(chains[b := RemoveAt(chains[b], i)])
      ensures forall d :: d in objs ==> (d.pthis == Null <==> old(d.pthis == Null))
    {
      ghost var q := chains[b];
      ghost var q' := RemoveAt(q, i);
      ghost var chains' := chains[b := q'];
      assert LinkedAt(q, b, i) && LinkedAt(q, b, i + 1);
      assert i > 0 ==> LinkedAt(q, b, i - 1);
      var p, n := e.pthis, e.next;
      Store(p, n);
      if n != null { n.pthis := p; }
      forall c, j | 0 <= c < |chains| && 0 <= j <= |chains'[c]| ensures LinkedAt(chains'[c], c, j) {
        if c != b || j < i {
          assert old(LinkedAt(chains[c], c, j));
          assert j > 0 ==> old(LinkedAt(chains[c], c, j - 1));
        } else {
          assert old(LinkedAt(q, b, j + 1));
          assert old(LinkedAt(q, b, j));
        }
      }
    }

    /** The part of stx_cache_entry_delete under `if (entry->pthis)`, for element i of chain b. */
    method Remove(e: Entry, ghost b: nat, ghost i: nat)
      requires Represents() && Distinct(s.chains) && At(e.addr) == e && Chained(s.rec, e.addr)
      requires s.rec[e.addr].home == Some(b)
      requires IsAt(s.chains, b, i, e.addr) && Without(s.chains[b], e.addr) == RemoveAt(s.chains[b], i)
      modifies `curSize, `curWeight, `deletes, `lruList, `s, table, objs`next, objs`pthis
      ensures s == Unchain(old(s), e.addr)
      ensures FieldsBut({e.addr}) && Linked(s.chains) && Counters()
    {
      Unlink(e, s.chains, b, i);
      Uncount(e);
    }

    method Uncount(e: Entry)
      requires FieldsBut({}) && Counters() && At(e.addr) == e && Chained(s.rec, e.addr)
      requires Linked(Unchain(s, e.addr).chains)
      modifies `curSize, `curWeight, `deletes, `lruList, `s
      ensures s == Unchain(old(s), e.addr)
      ensures FieldsBut({e.addr}) && Linked(s.chains) && Counters()
    {
      curSize := curSize - 1;
      curWeight := curWeight - e.weight;
      deletes := deletes + 1;
      lruList := Without(lruList, e.addr);
      FieldsButOne(s.rec, s.freed, e.addr, s.rec[e.addr].(home := None));
      s := Unchain(s, e.addr);
    }

    method Free(e: Entry)
      requires FieldsBut({e.addr}) && Linked(s.chains) && Counters() && At(e.addr) == e && Nowhere(s.chains, e.addr)
      modifies `memory, `s, e`pthis
      ensures memory == old(memory) - {e.addr} && s == old(s).(freed := old(s).freed + {e.addr})
      ensures Represents()
    {
      e.pthis := Null;
      memory := memory - {e.addr};
      s := s.(freed := s.freed + {e.addr});
      forall b, i | 0 <= b < |s.chains| && 0 <= i <= |s.chains[b]| ensures LinkedAt(s.chains[b], b, i) {
        assert old(LinkedAt(s.chains[b], b, i));
      }
    }

    method MarkPending(e: Entry)
      requires Represents() && At(e.addr) == e
      modifies `s, e`deletePending
      ensures s == SetRec(old(s), e.addr, old(s).rec[e.addr].(pending := true)) && Represents()
    {
      e.deletePending := true;
      s := SetRec(s, e.addr, s.rec[e.addr].(pending := true));
    }

    /** stx_cache_entry_delete */
    method EntryDelete(e: Entry)
      requires Represents() && At(e.addr) == e && Sound(f, s, {e.addr}) && (e.refCount > 0 ==> Sound(f, s, {}))
      modifies this, table, objs
      ensures Valid() && s == Delete(old(s), e.addr) && objs == old(objs)
      ensures memory == if e.addr in s.freed then old(memory) - {e.addr} else old(memory)
    {
      DeleteSound(f, s, e.addr);
      MarkPending(e);
      if e.refCount > 0 { return; }
      if e.pthis != Null {
        ghost var b, i := WhereIs(f, old(s), e.addr);
        Remove(e, b, i);
      } else {
        NowhereElse(f, old(s), e.addr);
      }
      Free(e);
    }

    /** The search loop of lookup and insertion. */
    method Search(b: nat, k: Key) returns (r: Option<Entry>)
      requires FieldsBut({}) && Linked(s.chains) && b < table.Length
      requires forall a :: a in s.chains[b] ==> a in s.rec && a !in s.freed
      ensures Find(f, s, s.chains[b], k) == if r.Some? then Some(r.value.addr) else None
      ensures r.Some? ==> At(r.value.addr) == r.value
    {
      ghost var q := s.chains[b];
      ghost var i := 0;
      assert LinkedAt(q, b, 0);
      var entry := table[b];
      while entry != null
        invariant 0 <= i <= |q| && entry == Target(q, i) && (entry == null ==> i == |q|)
        invariant Find(f, s, q, k) == Find(f, s, q[i..], k)
        decreases |q| - i
      {
        assert q[i] in q && memory[q[i]].Is(s.rec[q[i]]) && q[i..][1..] == q[i + 1..];
        if !entry.deletePending && f.cmp(k, entry.key) == 0 {
          return Some(entry);
        }
        assert LinkedAt(q, b, i + 1);
        assert i + 1 < |q| ==> q[i + 1] in q;
        entry := entry.next;
        i := i + 1;
      }
      r := None;
    }

    /** Search in the chain of the key. */
    method FindEntry(b: nat, k: Key) returns (r: Option<Entry>)
      requires Valid() && table.Length > 0 && b == Bucket(f, table.Length, k)
      ensures View(f, s, k) == if r.Some? then Some(r.value.addr) else None
      ensures r.Some? ==> At(r.value.addr) == r.value
    {
      LookupSound(f, s, k);
      r := Search(b, k);
    }

    /** The entry gains a reference and leaves the LRU list. */
    method Acquire(e: Entry)
      requires Represents() && At(e.addr) == e
      modifies `lruList, `s, e`refCount
      ensures Represents() && s == CacheModel.Acquire(old(s), e.addr)
    {
      if e.refCount == 0 {
        lruList := Without(lruList, e.addr);
      }
      s := CacheModel.Acquire(s, e.addr);
      e.refCount := e.refCount + 1;
    }

    method Tally(hit: bool)
      requires Represents()
      modifies `hits, `lookups, `s
      ensures Represents() && s == old(s).(lookups := old(s).lookups + 1, hits := old(s).hits + if hit then 1 else 0)
    {
      lookups := lookups + 1;
      if hit { hits := hits + 1; }
      s := s.(lookups := lookups, hits := hits);
    }

    /** stx_cache_entry_lookup */
    method EntryLookup(k: Key) returns (r: Option<Entry>)
      requires Valid()
      modifies `lruList, `hits, `lookups, `s, objs`refCount
      ensures Valid() && (s, if r.Some? then Some(r.value.addr) else None) == Lookup(f, old(s), k)
      ensures r.Some? ==> At(r.value.addr) == r.value
    {
      LookupSound(f, s, k);
      r := FindEntry(Bucket(f, table.Length, k), k);
      if r.Some? { Acquire(r.value); }
      Tally(r.Some?);
    }

    /** stx_cache_entry_release */
    method EntryRelease(e: Entry)
      requires Valid() && At(e.addr) == e
      modifies this, table, objs
      ensures Valid() && s == Release(old(s), e.addr) && objs == old(objs)
      ensures memory == if e.addr in s.freed then old(memory) - {e.addr} else old(memory)
    {
      ReleaseSound(f, s, e.addr);
      if e.refCount == 0 { return; }
      DropReference(e);
      if e.refCount == 0 && e.deletePending {
        EntryDelete(e);
      }
    }

    method DropReference(e: Entry)
      requires Represents() && At(e.addr) == e && e.refCount > 0
      modifies `lruList, `s, e`refCount
      ensures Represents() && s == Dropped(old(s), e.addr)
    {
      e.refCount := e.refCount - 1;
      s := Dropped(s, e.addr);
      if e.refCount == 0 {
        lruList := lruList + [e.addr];
      }
    }

    /** stx_cache_entry_getlru */
    method GetLru() returns (r: Option<Entry>)
      requires Valid()
      ensures r.None? <==> s.lru == []
      ensures r.Some? ==> At(r.value.addr) == r.value && r.value.addr == s.lru[0]
    {
      if lruList == [] { return None; }
      LruSound(f, s);
      var head := lruList[0];
      r := Some(memory[head]);
    }

    /** Deletes the entry that was released longest ago, if there is one. */
    method EvictFirst() returns (ok: bool)
      requires Valid()
      modifies this, table, objs
      ensures Valid() && objs == old(objs) && (ok <==> old(s).lru != [])
      ensures !ok ==> s == old(s) && memory == old(memory)
      ensures ok ==>
        && old(s).lru[0] in old(s).rec && old(s).rec[old(s).lru[0]].refs == 0 && s == Delete(old(s), old(s).lru[0])
        && |s.lru| < |old(s).lru| && s.freed == old(s).freed + {old(s).lru[0]}
        && memory == old(memory) - {old(s).lru[0]}
    {
      var victim := GetLru();
      if victim == None { return false; }
      EvictSound(f, s);
      EntryDelete(victim.value);
      ok := true;
    }

    /** The two capacity checks of stx_cache_entry_insert. */
    method MakeRoom(w: nat) returns (room: bool)
      requires Valid()
      modifies this, table, objs
      ensures Valid() && (s, room) == CacheModel.MakeRoom(old(s), w) && objs == old(objs)
      ensures forall a :: At(a) == if a in s.freed then null else old(At(a))
    {
      while curWeight + w > maxWeight
        invariant Valid() && Evict(s, w) == Evict(old(s), w) && objs == old(objs)
        invariant forall a :: At(a) == if a in s.freed then null else old(At(a))
        decreases |s.lru|
      {
        var ok := EvictFirst();
        if !ok { return false; }
      }
      if curSize >= maxSize {
        var ok := EvictFirst();
        if !ok { return false; }
      }
      room := true;
    }

    /** Puts an entry first in its chain. */
    method LinkFront(e: Entry, b: nat)
      requires Represents() && At(e.addr) == e && b < table.Length && Nowhere(s.chains, e.addr) && e.refCount == 0
      modifies this, table, objs
      ensures Represents() && s == Link(old(s), e.addr, b) && objs == old(objs) && memory == old(memory)
    {
      LinkPointers(e, b);
      CountIn(e, b);
    }

    method CountIn(e: Entry, b: nat)
      requires FieldsBut({e.addr}) && At(e.addr) == e && b < table.Length && |s.chains| == table.Length
      requires Linked(Link(s, e.addr, b).chains) && Counters() && e.Is(s.rec[e.addr].(home := Some(b)))
      modifies `curSize, `curWeight, `inserts, `s, e`refCount
      ensures Represents() && s == Link(old(s), e.addr, b)
    {
      e.refCount := e.refCount + 1;
      inserts := inserts + 1;
      curSize := curSize + 1;
      curWeight := curWeight + e.weight;
      s := Link(s, e.addr, b);
    }

    method LinkPointers(e: Entry, b: nat)
      requires Addressed() && Linked(s.chains) && At(e.addr) == e && b < table.Length && Nowhere(s.chains, e.addr)
      modifies table, objs`next, objs`pthis
      ensures Addressed() && Linked(s.chains[b := [e.addr] + s.chains[b]])
      ensures e.pthis != Null && forall d :: d in objs && d != e ==> (d.pthis == Null <==> old(d.pthis == Null))
    {
      ghost var q := s.chains[b];
      ghost var chains' := s.chains[b := [e.addr] + q];
      assert LinkedAt(q, b, 0);
      e.next := table[b];
      table[b] := e;
      e.pthis := Table(b);
      if e.next != null { e.next.pthis := NextOf(e); }
      forall c, j | 0 <= c < |chains'| && 0 <= j <= |chains'[c]| ensures LinkedAt(chains'[c], c, j) {
        if c != b {
          assert old(LinkedAt(s.chains[c], c, j));
          assert j > 0 ==> old(LinkedAt(s.chains[c], c, j - 1));
        } else if j > 0 {
          assert old(LinkedAt(q, b, j - 1));
          assert j > 1 ==> old(LinkedAt(q, b, j - 2));
        }
      }
    }

    /** stx_cache_entry_insert */
    method EntryInsert(e: Entry) returns (result: int)
      requires Valid() && Consistent(f) && At(e.addr) == e && Fresh(s, e.addr)
      modifies this, table, objs
      ensures Valid() && (s, result == 0) == Insert(f, old(s), e.addr) && objs == old(objs)
      ensures result == 0 || result == -1
      ensures forall a :: At(a) == if a in s.freed then null else old(At(a))
    {
      InsertSound(f, s, e.addr);
      var room := MakeRoom(e.weight);
      if !room { return -1; }
      AddEntry(e);
      result := 0;
    }

    /** The entry displaces another one under its key. */
    method AddEntry(e: Entry)
      requires Valid() && Consistent(f) && At(e.addr) == e && Fresh(s, e.addr)
      modifies this, table, objs
      ensures |old(s).chains| > 0 && s == Add(f, old(s), e.addr) && Represents() && objs == old(objs)
      ensures forall a :: At(a) == if a in s.freed then null else old(At(a))
    {
      AddSound(f, s, e.addr);
      var bucket := Bucket(f, table.Length, e.key);
      var dup := FindEntry(bucket, e.key);
      if dup.Some? { EntryDelete(dup.value); }
      LinkFront(e, bucket);
    }

    /** One turn of the inner loop of stx_cache_empty, at entry j of the chain q as it was. */
    method EmptyNext(entry: Entry, b: nat, ghost q: seq<Addr>, ghost j: nat) returns (nextEntry: Entry?)
      requires Valid() && b < |s.chains| && j < |q| && Rest(s.chains[b], q, j) && entry == At(q[j])
      modifies this, table, objs
      ensures Valid() && q[j] in old(s).rec && s == Delete(old(s), q[j]) && objs == old(objs)
      ensures |s.chains| == |old(s).chains| && Rest(s.chains[b], q, j + 1)
      ensures forall a :: At(a) == if a in s.freed then null else old(At(a))
      ensures j + 1 < |q| <==> nextEntry != null
      ensures j + 1 < |q| ==> nextEntry == At(q[j + 1])
    {
      assert LinkedAt(s.chains[b], b, |s.chains[b]| - (|q| - j) + 1);
      RestIsLive(f, s, b, q, j);
      DeleteFromRest(f, s, b, q, j);
      nextEntry := entry.next;
      EntryDelete(entry);
      if j + 1 < |q| { RestIsLive(f, s, b, q, j + 1); }
    }

    /** The inner loop of stx_cache_empty. */
    method EmptyChain(b: nat)
      requires Valid() && b < table.Length
      modifies this, table, objs
      ensures Valid() && s == DeleteAll(old(s), old(s).chains[b]) && objs == old(objs)
      ensures forall a :: At(a) == if a in s.freed then null else old(At(a))
    {
      ghost var q, j := s.chains[b], 0;
      assert LinkedAt(q, b, 0);
      if q != [] { RestIsLive(f, s, b, q, 0); }
      var entry := table[b];
      while entry != null
        invariant Valid() && objs == old(objs) && b < |s.chains|
        invariant forall a :: At(a) == if a in s.freed then null else old(At(a))
        invariant j <= |q| && Rest(s.chains[b], q, j) && (j < |q| <==> entry != null) && (j < |q| ==> entry == At(q[j]))
        invariant DeleteAll(s, q[j..]) == DeleteAll(old(s), q)
        decreases |q| - j
      {
        assert q[j..][1..] == q[j + 1..];
        entry := EmptyNext(entry, b, q, j);
        j := j + 1;
      }
    }

    /** stx_cache_empty */
    method Empty()
      requires Valid()
      modifies this, table, objs
      ensures Valid() && s == EmptyFrom(old(s), 0) && objs == old(objs)
    {
      var i := 0;
      while i < table.Length
        invariant i <= table.Length && Valid() && objs == old(objs)
        invariant EmptyFrom(s, i) == EmptyFrom(old(s), 0)
      {
        EmptyChain(i);
        i := i + 1;
      }
    }
  }

  ghost predicate IsAt(chains: seq<seq<Addr>>, b: nat, i: nat, a: Addr) {
    b < |chains| && i < |chains[b]| && chains[b][i] == a
  }

  ghost predicate Nowhere(chains: seq<seq<Addr>>, a: Addr) {
    forall b, i :: 0 <= b < |chains| && 0 <= i < |chains[b]| ==> chains[b][i] != a
  }

  lemma WhereIs(f: Fns, s: Cache<Addr>, a: Addr) returns (b: nat, i: nat)
    requires Sound(f, s, {a}) && Chained(s.rec, a)
    ensures Distinct(s.chains) && s.rec[a].home == Some(b) && IsAt(s.chains, b, i, a)
    ensures Without(s.chains[b], a) == RemoveAt(s.chains[b], i) && Nowhere(s.chains[b := Without(s.chains[b], a)], a)
  {
    OpenInv(f, s, {a});
    b := s.rec[a].home.value;
    assert a in s.chains[b];
    i :| 0 <= i < |s.chains[b]| && s.chains[b][i] == a;
    ChainsAreDistinct(s.chains, s.rec);
    WithoutIsRemoveAt(s.chains[b], i);
    var q := Without(s.chains[b], a);
    assert a !in q;
    assert forall j :: 0 <= j < |q| ==> q[j] in q;
  }

  lemma NowhereElse(f: Fns, s: Cache<Addr>, a: Addr)
    requires Sound(f, s, {a}) && !Chained(s.rec, a)
    ensures Nowhere(s.chains, a)
  {
    OpenInv(f, s, {a});
    forall b, i | 0 <= b < |s.chains| && 0 <= i < |s.chains[b]| ensures s.chains[b][i] != a {
      assert s.chains[b][i] in s.chains[b];
    }
  }

  lemma CreateSound(f: Fns, s: Cache<Addr>, a: Addr, key: Key, weight: nat)
    requires Sound(f, s, {}) && (a !in s.rec || a in s.freed)
    ensures Sound(f, CacheModel.Create(s, a, key, weight), {}) && Nowhere(s.chains, a)
  {
    OpenInv(f, s, {});
    CacheRuns.CreateKeeps(f, s, a, key, weight);
    forall b, i | 0 <= b < |s.chains| && 0 <= i < |s.chains[b]| ensures s.chains[b][i] != a {
      assert s.chains[b][i] in s.chains[b];
    }
  }

  lemma DeleteSound(f: Fns, s: Cache<Addr>, a: Addr)
    requires Sound(f, s, {a}) && a in s.rec && (s.rec[a].refs > 0 ==> Sound(f, s, {}))
    ensures Sound(f, Delete(s, a), {})
  {
    OpenInv(f, s, {a});
    if s.rec[a].refs > 0 { OpenInv(f, s, {}); }
    DeleteKeeps(f, s, a);
  }

  lemma LookupSound(f: Fns, s: Cache<Addr>, k: Key)
    requires Sound(f, s, {})
    ensures Sound(f, Lookup(f, s, k).0, {})
    ensures |s.chains| > 0 && forall a :: a in s.chains[Bucket(f, |s.chains|, k)] ==> a in s.rec && a !in s.freed
  {
    OpenInv(f, s, {});
    LookupKeeps(f, s, k);
  }

  /** One reference less; the last one puts the entry on the LRU list. */
  ghost function Dropped(s: Cache<Addr>, a: Addr): Cache<Addr>
    requires a in s.rec && s.rec[a].refs > 0
  {
    var r := s.rec[a];
    SetRec(s, a, r.(refs := r.refs - 1)).(lru := if r.refs == 1 then s.lru + [a] else s.lru)
  }

  lemma ReleaseSound(f: Fns, s: Cache<Addr>, a: Addr)
    requires Sound(f, s, {}) && a in s.rec
    ensures Sound(f, Release(s, a), {})
    ensures s.rec[a].refs == 1 ==> Sound(f, Dropped(s, a), {a})
  {
    OpenInv(f, s, {});
    ReleaseKeeps(f, s, a);
    if s.rec[a].refs == 1 { LastReleaseKeeps(f, s, a); }
  }

  lemma InsertSound(f: Fns, s: Cache<Addr>, a: Addr)
    requires Sound(f, s, {}) && Consistent(f) && Fresh(s, a)
    ensures Sound(f, Insert(f, s, a).0, {})
    ensures var s1 := CacheModel.MakeRoom(s, s.rec[a].weight).0;
      Fresh(s1, a) && s1.rec[a] == s.rec[a] && |s1.chains| == |s.chains|
  {
    OpenInv(f, s, {});
    var n := InsertKeeps(f, s, a);
    n := RoomKeeps(f, s, s.rec[a].weight);
    NotOnList(s, a, n);
  }

  /** Insertion once there is room. */
  lemma AddSound(f: Fns, s: Cache<Addr>, a: Addr)
    requires Sound(f, s, {}) && Consistent(f) && Fresh(s, a)
    ensures |s.chains| > 0
    ensures var dup := View(f, s, s.rec[a].key);
      && (dup.Some? ==> dup.value in s.rec && Sound(f, s, {dup.value}))
      && Fresh(Drop(s, dup), a) && Drop(s, dup).rec[a] == s.rec[a] && Nowhere(Drop(s, dup).chains, a)
  {
    OpenInv(f, s, {});
    var dup := View(f, s, s.rec[a].key);
    FoundIsChained(f, s, s.rec[a].key);
    DropKeeps(f, s, s.rec[a].key);
    FreshIsNowhere(f, Drop(s, dup), a);
  }

  lemma FreshIsNowhere(f: Fns, s: Cache<Addr>, a: Addr)
    requires Inv(f, s) && Fresh(s, a)
    ensures Nowhere(s.chains, a)
  {
    forall b, i | 0 <= b < |s.chains| && 0 <= i < |s.chains[b]| ensures s.chains[b][i] != a {
      assert s.chains[b][i] in s.chains[b];
    }
  }

  /** The rest q[j..] of a chain still ends it. */
  ghost predicate Rest(chain: seq<Addr>, q: seq<Addr>, j: nat)
    requires j <= |q|
  {
    |q| - j <= |chain| && forall k :: j <= k < |q| ==> chain[|chain| - |q| + k] == q[k]
  }

  lemma RestIsLive(f: Fns, s: Cache<Addr>, b: nat, q: seq<Addr>, j: nat)
    requires Sound(f, s, {}) && b < |s.chains| && j < |q| && Rest(s.chains[b], q, j)
    ensures q[j] in s.rec && q[j] !in s.freed
  {
    OpenInv(f, s, {});
    assert q[j] in s.chains[b];
  }

  /** Taking the first of the rest out of the chain leaves the others at its end. */
  lemma {:induction false} RestShrinks(chain: seq<Addr>, q: seq<Addr>, j: nat)
    requires NoDup(chain) && j < |q| && Rest(chain, q, j)
    ensures Rest(Without(chain, q[j]), q, j + 1) && (j + 1 < |q| ==> q[j + 1] != q[j])
  {
    WithoutIsRemoveAt(chain, |chain| - |q| + j);
  }

  lemma {:induction false} DeleteFromRest(f: Fns, s: Cache<Addr>, b: nat, q: seq<Addr>, j: nat)
    requires Sound(f, s, {}) && b < |s.chains| && j < |q| && Rest(s.chains[b], q, j) && q[j] in s.rec
    ensures var s' := Delete(s, q[j]);
      && Sound(f, s, {q[j]}) && |s'.chains| == |s.chains| && Rest(s'.chains[b], q, j + 1)
      && s'.freed <= s.freed + {q[j]} && (j + 1 < |q| ==> q[j + 1] != q[j])
  {
    OpenInv(f, s, {});
    assert q[j] in s.chains[b];
    RestShrinks(s.chains[b], q, j);
  }

  lemma EvictSound(f: Fns, s: Cache<Addr>)
    requires Sound(f, s, {}) && s.lru != []
    ensures s.lru[0] in s.rec && s.rec[s.lru[0]].refs == 0 && Sound(f, s, {s.lru[0]})
    ensures |Delete(s, s.lru[0]).lru| < |s.lru|
    ensures Delete(s, s.lru[0]).freed == s.freed + {s.lru[0]}
  {
    OpenInv(f, s, {});
    EvictHead(f, s);
  }

  lemma LruSound(f: Fns, s: Cache<Addr>)
    requires Sound(f, s, {}) && s.lru != []
    ensures s.lru[0] in s.rec && s.lru[0] !in s.freed && s.rec[s.lru[0]].refs == 0
  {
    OpenInv(f, s, {});
    HeadIsIn(s.lru);
  }

  lemma ChainsAreDistinct(chains: seq<seq<Addr>>, rec: map<Addr, Rec>)
    requires ChainsOk(chains, rec)
    ensures Distinct(chains)
  {
    forall b, i, c, j | 0 <= b < |chains| && 0 <= i < |chains[b]| && 0 <= c < |chains| && 0 <= j < |chains[c]|
                        && chains[b][i] == chains[c][j]
      ensures b == c && i == j
    {
      assert chains[b][i] in chains[b] && chains[c][j] in chains[c];
    }
  }

  lemma {:induction false} WithoutIsRemoveAt(q: seq<Addr>, i: nat)
    requires NoDup(q) && i < |q|
    ensures Without(q, q[i]) == RemoveAt(q, i)
  {
    PopNoDup(q);
    if i == 0 {
      WithoutOne(q[1..], map[], q[0]);
    } else {
      WithoutIsRemoveAt(q[1..], i - 1);
      assert q == [q[0]] + q[1..];
    }
  }

  /** No address is in two places. */
  ghost predicate Distinct(chains: seq<seq<Addr>>) {
    forall b, i, c, j ::
      0 <= b < |chains| && 0 <= i < |chains[b]| && 0 <= c < |chains| && 0 <= j < |chains[c]|
      && chains[b][i] == chains[c][j] ==>
      b == c && i == j
  }

  function RemoveAt(q: seq<Addr>, i: nat): seq<Addr>
    requires i < |q|
  {
    q[..i] + q[i + 1..]
  }
}
