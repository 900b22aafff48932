/**
 * The cache of lrucache.c as values: hash chains, entry records, the LRU list, counters and the two bounds. The
 * functions follow the entry operations; the lemmas say what every sequence of them keeps and how the cache is a map.
 */
module CacheModel {
  import opened Options
  import opened Queues

  /** What a key pointer stands for. */
  type Key = int

  /** key_hash_fn and key_cmp_fn */
  datatype Fns = Fns(hash: Key -> nat, cmp: (Key, Key) -> int)

  ghost predicate Consistent(f: Fns) {
    && (forall k :: f.cmp(k, k) == 0)
    && (forall k, l :: f.cmp(k, l) == 0 ==> f.cmp(l, k) == 0 && f.hash(k) == f.hash(l))
    && (forall k, l, m :: f.cmp(k, l) == 0 && f.cmp(l, m) == 0 ==> f.cmp(k, m) == 0)
  }

  /** home is the chain that pthis points into; None for NULL. */
  datatype Rec = Rec(key: Key, weight: nat, refs: nat, pending: bool, home: Option<nat>)

  datatype Cache<E> = Cache(chains: seq<seq<E>>, rec: map<E, Rec>, lru: seq<E>,
                            size: int, weight: int, maxSize: nat, maxWeight: nat,
                            hits: nat, lookups: nat, inserts: int, deletes: int, freed: set<E>)

  function Bucket(f: Fns, hashSize: nat, k: Key): (b: nat)
    ensures hashSize > 0 ==> b < hashSize
  {
    if hashSize == 0 then 0 else f.hash(k) % hashSize
  }

  /** pthis is set. */
  predicate Chained<E(==)>(rec: map<E, Rec>, e: E) {
    e in rec && rec[e].home.Some?
  }

  // ---------- Counting ----------

  function TotalLen<E>(chains: seq<seq<E>>): nat {
    if chains == [] then 0 else |chains[0]| + TotalLen(chains[1..])
  }

  function ChainWeight<E(==)>(q: seq<E>, rec: map<E, Rec>): nat {
    if q == [] then 0 else (if q[0] in rec then rec[q[0]].weight else 0) + ChainWeight(q[1..], rec)
  }

  function TotalWeight<E(==)>(chains: seq<seq<E>>, rec: map<E, Rec>): nat {
    if chains == [] then 0 else ChainWeight(chains[0], rec) + TotalWeight(chains[1..], rec)
  }

  lemma {:induction false} TotalsUpdate<E>(chains: seq<seq<E>>, rec: map<E, Rec>, b: nat, q: seq<E>)
    requires b < |chains|
    ensures TotalLen(chains[b := q]) == TotalLen(chains) - |chains[b]| + |q|
    ensures TotalWeight(chains[b := q], rec) ==
      TotalWeight(chains, rec) - ChainWeight(chains[b], rec) + ChainWeight(q, rec)
  {
    if b > 0 {
      TotalsUpdate(chains[1..], rec, b - 1, q);
      assert chains[b := q][1..] == chains[1..][b - 1 := q];
    } else {
      assert chains[b := q][1..] == chains[1..];
    }
  }

  /** Only the weights in the records matter. */
  lemma {:induction false} ChainWeightSame<E>(q: seq<E>, rec: map<E, Rec>, rec': map<E, Rec>)
    requires forall e :: e in q ==> (e in rec <==> e in rec') && (e in rec ==> rec[e].weight == rec'[e].weight)
    ensures ChainWeight(q, rec) == ChainWeight(q, rec')
  {
    if q != [] {
      assert q[0] in q;
      ChainWeightSame(q[1..], rec, rec');
    }
  }

  lemma {:induction false} TotalWeightSame<E>(chains: seq<seq<E>>, rec: map<E, Rec>, rec': map<E, Rec>)
    requires forall b, i :: 0 <= b < |chains| && 0 <= i < |chains[b]| ==>
      var e := chains[b][i]; e in rec && e in rec' && rec[e].weight == rec'[e].weight
    ensures TotalWeight(chains, rec) == TotalWeight(chains, rec')
  {
    if chains != [] {
      forall e | e in chains[0] ensures e in rec && e in rec' && rec[e].weight == rec'[e].weight {
        var i :| 0 <= i < |chains[0]| && chains[0][i] == e;
      }
      ChainWeightSame(chains[0], rec, rec');
      TotalWeightSame(chains[1..], rec, rec');
    }
  }

  lemma {:induction false} WithoutOne<E(!new)>(q: seq<E>, rec: map<E, Rec>, e: E)
    requires NoDup(q)
    ensures e in q && e in rec ==>
      |Without(q, e)| == |q| - 1 && ChainWeight(Without(q, e), rec) == ChainWeight(q, rec) - rec[e].weight
    ensures e !in q ==> Without(q, e) == q
  {
    if q != [] {
      PopNoDup(q);
      WithoutOne(q[1..], rec, e);
      assert q == [q[0]] + q[1..];
      if q[0] != e { assert ([q[0]] + Without(q[1..], e))[1..] == Without(q[1..], e); }
    }
  }

  // ---------- Entry operations ----------

  function SetRec<E(==)>(s: Cache<E>, e: E, r: Rec): Cache<E> {
    s.(rec := s.rec[e := r])
  }

  /** stx_cache_entry_create; the memory may be that of an entry freed before. */
  function Create<E(==)>(s: Cache<E>, e: E, key: Key, weight: nat): Cache<E> {
    SetRec(s, e, Rec(key, weight, 0, false, None)).(freed := s.freed - {e})
  }

  /** Takes a chained entry out of its chain and the LRU list. */
  function Unchain<E(==, !new)>(s: Cache<E>, e: E): Cache<E>
    requires Chained(s.rec, e)
  {
    var r, b := s.rec[e], s.rec[e].home.value;
    SetRec(s, e, r.(home := None)).(
      chains := if b < |s.chains| then s.chains[b := Without(s.chains[b], e)] else s.chains,
      size := s.size - 1, weight := s.weight - r.weight, deletes := s.deletes + 1, lru := Without(s.lru, e))
  }

  /** stx_cache_entry_delete */
  function Delete<E(==, !new)>(s: Cache<E>, e: E): Cache<E>
    requires e in s.rec
  {
    var s1 := SetRec(s, e, s.rec[e].(pending := true));
    if s.rec[e].refs > 0 then s1
    else (if Chained(s1.rec, e) then Unchain(s1, e) else s1).(freed := s.freed + {e})
  }

  /** The first entry of a chain with the key that is not pending deletion. */
  function Find<E(==, !new)>(f: Fns, s: Cache<E>, q: seq<E>, k: Key): (r: Option<E>)
    ensures r.Some? ==> r.value in q && r.value in s.rec && !s.rec[r.value].pending && f.cmp(k, s.rec[r.value].key) == 0
    ensures r.None? ==> forall e :: e in q && e in s.rec ==> s.rec[e].pending || f.cmp(k, s.rec[e].key) != 0
  {
    if q == [] then None
    else if q[0] in s.rec && !s.rec[q[0]].pending && f.cmp(k, s.rec[q[0]].key) == 0 then Some(q[0])
    else Find(f, s, q[1..], k)
  }

  /** The map that the cache implements. */
  function View<E(==, !new)>(f: Fns, s: Cache<E>, k: Key): Option<E> {
    if |s.chains| == 0 then None else Find(f, s, s.chains[Bucket(f, |s.chains|, k)], k)
  }

  /** Entry e gains a reference. */
  function Acquire<E(==, !new)>(s: Cache<E>, e: E): Cache<E>
    requires e in s.rec
  {
    SetRec(s, e, s.rec[e].(refs := s.rec[e].refs + 1)).(lru := if s.rec[e].refs == 0 then Without(s.lru, e) else s.lru)
  }

  /** What stx_cache_entry_lookup does about the entry it found. */
  function Found<E(==, !new)>(s: Cache<E>, r: Option<E>): Cache<E> {
    (if r.Some? && r.value in s.rec then Acquire(s, r.value) else s).(
      lookups := s.lookups + 1, hits := s.hits + if r.Some? && r.value in s.rec then 1 else 0)
  }

  /** stx_cache_entry_lookup */
  function Lookup<E(==, !new)>(f: Fns, s: Cache<E>, k: Key): (Cache<E>, Option<E>) {
    var r := View(f, s, k);
    (Found(s, r), r)
  }

  /** stx_cache_entry_release */
  function Release<E(==, !new)>(s: Cache<E>, e: E): Cache<E>
    requires e in s.rec
  {
    var r := s.rec[e];
    if r.refs == 0 then s
    else if r.refs > 1 then SetRec(s, e, r.(refs := r.refs - 1))
    else
      var s1 := SetRec(s, e, r.(refs := 0)).(lru := s.lru + [e]);
      if r.pending then Delete(s1, e) else s1
  }

  /** The loop of stx_cache_entry_insert that makes room for a weight. */
  function Evict<E(==, !new)>(s: Cache<E>, w: nat): (Cache<E>, bool)
    decreases |s.lru|
  {
    if s.weight + w <= s.maxWeight then (s, true)
    else if s.lru == [] || s.lru[0] !in s.rec then (s, false)
    else
      var s1 := Delete(s, s.lru[0]);
      if |s1.lru| < |s.lru| then Evict(s1, w) else (s1, false)
  }

  /** Makes room for one more entry. */
  function EvictOne<E(==, !new)>(s: Cache<E>): (Cache<E>, bool) {
    if s.size < s.maxSize then (s, true)
    else if s.lru == [] || s.lru[0] !in s.rec then (s, false)
    else (Delete(s, s.lru[0]), true)
  }

  /** Puts an unchained entry first in chain b, referenced by the caller. */
  function Link<E(==)>(s: Cache<E>, e: E, b: nat): Cache<E>
    requires e in s.rec && b < |s.chains|
  {
    var r := s.rec[e];
    SetRec(s, e, r.(refs := r.refs + 1, home := Some(b))).(
      chains := s.chains[b := [e] + s.chains[b]],
      inserts := s.inserts + 1, size := s.size + 1, weight := s.weight + r.weight)
  }

  /** The cache without the entry that duplicates a key. */
  function Drop<E(==, !new)>(s: Cache<E>, dup: Option<E>): (s': Cache<E>)
    ensures s'.rec.Keys == s.rec.Keys && |s'.chains| == |s.chains|
  {
    if dup.Some? && dup.value in s.rec then Delete(s, dup.value) else s
  }

  /** The rest of stx_cache_entry_insert, once there is room. */
  function Add<E(==, !new)>(f: Fns, s: Cache<E>, e: E): Cache<E>
    requires e in s.rec && |s.chains| > 0
  {
    var s1 := Drop(s, View(f, s, s.rec[e].key));
    Link(s1, e, Bucket(f, |s1.chains|, s.rec[e].key))
  }

  /** Room for one more entry of weight w. */
  function MakeRoom<E(==, !new)>(s: Cache<E>, w: nat): (Cache<E>, bool) {
    var (s1, room) := Evict(s, w);
    if room then EvictOne(s1) else (s1, false)
  }

  /** stx_cache_entry_insert */
  function Insert<E(==, !new)>(f: Fns, s: Cache<E>, e: E): (Cache<E>, bool)
    requires e in s.rec
  {
    var (s2, room) := MakeRoom(s, s.rec[e].weight);
    if room && e in s2.rec && |s2.chains| > 0 then (Add(f, s2, e), true) else (s2, false)
  }

  /** stx_cache_empty on the entries of q, in order. */
  function DeleteAll<E(==, !new)>(s: Cache<E>, q: seq<E>): Cache<E>
    decreases |q|
  {
    if q == [] then s else DeleteAll(if q[0] in s.rec then Delete(s, q[0]) else s, q[1..])
  }

  /** stx_cache_empty from bucket b on. */
  function EmptyFrom<E(==, !new)>(s: Cache<E>, b: nat): Cache<E>
    decreases |s.chains| - b
  {
    if b >= |s.chains| then s
    else
      var s1 := DeleteAll(s, s.chains[b]);
      if |s1.chains| == |s.chains| then EmptyFrom(s1, b + 1) else s1
  }

  // ---------- What every operation keeps ----------

  ghost predicate ChainsOk<E(!new)>(chains: seq<seq<E>>, rec: map<E, Rec>) {
    && |chains| > 0
    && (forall b {:trigger chains[b]} :: 0 <= b < |chains| ==> NoDup(chains[b]))
    && (forall b, e {:trigger e in chains[b]} :: 0 <= b < |chains| && e in chains[b] ==>
          e in rec && rec[e].home == Some(b))
    && (forall e {:trigger rec[e]} :: Chained(rec, e) ==>
          rec[e].home.value < |chains| && e in chains[rec[e].home.value])
  }

  /** On the LRU list exactly if chained and unreferenced, and then not pending deletion (but for x). */
  ghost predicate LruOk<E(!new)>(lru: seq<E>, rec: map<E, Rec>, x: set<E>) {
    && NoDup(lru)
    && (forall e {:trigger e in lru} :: e in lru ==>
          Chained(rec, e) && rec[e].refs == 0 && (e !in x ==> !rec[e].pending))
    && (forall e {:trigger rec[e]} :: Chained(rec, e) && rec[e].refs == 0 ==> e in lru)
    && (forall e {:trigger rec[e]} :: e in rec && rec[e].refs > 0 ==> Chained(rec, e))
  }

  /** Entries are in the chain of their hash; among those not pending deletion there is one per key. */
  ghost predicate KeysOk<E(!new)>(f: Fns, hashSize: nat, rec: map<E, Rec>) {
    && (forall e {:trigger rec[e]} :: Chained(rec, e) ==> rec[e].home.value == Bucket(f, hashSize, rec[e].key))
    && (forall d, e {:trigger Active(rec, d), Active(rec, e)} ::
          Active(rec, d) && Active(rec, e) && f.cmp(rec[d].key, rec[e].key) == 0 ==> d == e)
  }

  predicate Active<E(==)>(rec: map<E, Rec>, e: E) {
    Chained(rec, e) && !rec[e].pending
  }

  ghost predicate CountsOk<E(!new)>(s: Cache<E>) {
    && s.size == TotalLen(s.chains) && s.weight == TotalWeight(s.chains, s.rec)
    && s.size <= s.maxSize && s.weight <= s.maxWeight
    && s.inserts == s.deletes + s.size
  }

  ghost predicate FreedOk<E(!new)>(freed: set<E>, rec: map<E, Rec>) {
    forall e :: e in freed ==> e in rec && !Chained(rec, e)
  }

  ghost predicate InvBut<E(!new)>(f: Fns, s: Cache<E>, x: set<E>) {
    && ChainsOk(s.chains, s.rec) && LruOk(s.lru, s.rec, x) && KeysOk(f, |s.chains|, s.rec)
    && CountsOk(s) && FreedOk(s.freed, s.rec)
  }

  ghost predicate Inv<E(!new)>(f: Fns, s: Cache<E>) {
    InvBut(f, s, {})
  }

  lemma SameWeights<E(!new)>(s: Cache<E>, rec: map<E, Rec>)
    requires ChainsOk(s.chains, s.rec) && forall e :: Chained(s.rec, e) ==> e in rec && rec[e].weight == s.rec[e].weight
    ensures TotalWeight(s.chains, rec) == TotalWeight(s.chains, s.rec)
  {
    forall b, i | 0 <= b < |s.chains| && 0 <= i < |s.chains[b]| ensures Chained(s.rec, s.chains[b][i]) {
      assert s.chains[b][i] in s.chains[b];
    }
    TotalWeightSame(s.chains, s.rec, rec);
  }

  lemma UnchainChains<E(!new)>(s: Cache<E>, e: E)
    requires ChainsOk(s.chains, s.rec) && Chained(s.rec, e)
    ensures var s' := Unchain(s, e); ChainsOk(s'.chains, s'.rec)
  {
    var s' := Unchain(s, e);
    var b := s.rec[e].home.value;
    WithoutNoDup(s.chains[b], e);
    forall c, x | 0 <= c < |s'.chains| && x in s'.chains[c] ensures x in s'.rec && s'.rec[x].home == Some(c) {
      assert x in s.chains[c];
    }
  }

  lemma UnchainCounts<E(!new)>(s: Cache<E>, e: E)
    requires ChainsOk(s.chains, s.rec) && CountsOk(s) && Chained(s.rec, e)
    ensures CountsOk(Unchain(s, e))
  {
    var s' := Unchain(s, e);
    var b := s.rec[e].home.value;
    var q := s.chains[b];
    assert e in s.chains[b];
    WithoutOne(q, s'.rec, e);
    TotalsUpdate(s.chains, s'.rec, b, Without(q, e));
    SameWeights(s, s'.rec);
  }

  lemma KeysStay<E(!new)>(f: Fns, n: nat, rec: map<E, Rec>, e: E, r: Rec)
    requires KeysOk(f, n, rec) && e in rec && r.key == rec[e].key && (r.home == rec[e].home || r.home == None)
    requires rec[e].pending ==> r.pending
    ensures KeysOk(f, n, rec[e := r])
  {
    var rec' := rec[e := r];
    forall c, d | Active(rec', c) && Active(rec', d) && f.cmp(rec'[c].key, rec'[d].key) == 0 ensures c == d {
      assert Active(rec, c) && Active(rec, d);
    }
  }

  /** An unreferenced chained entry leaves the chains and the LRU list. */
  lemma UnchainKeeps<E(!new)>(f: Fns, s: Cache<E>, e: E)
    requires InvBut(f, s, {e}) && Chained(s.rec, e) && s.rec[e].refs == 0
    ensures Inv(f, Unchain(s, e))
  {
    UnchainChains(s, e);
    UnchainCounts(s, e);
    WithoutNoDup(s.lru, e);
    KeysStay(f, |s.chains|, s.rec, e, s.rec[e].(home := None));
  }

  /** Only the reference count or the pending mark of e changes. */
  lemma RecordKeeps<E(!new)>(f: Fns, s: Cache<E>, e: E, r: Rec, x: set<E>)
    requires InvBut(f, s, x) && e in s.rec && r == s.rec[e].(refs := r.refs, pending := r.pending)
    requires s.rec[e].pending ==> r.pending
    requires (r.refs == 0 <==> s.rec[e].refs == 0) && (r.pending && e in s.lru ==> e in x)
    ensures InvBut(f, SetRec(s, e, r), x)
  {
    RecordCounts(s, e, r);
    KeysStay(f, |s.chains|, s.rec, e, r);
  }

  lemma RecordCounts<E(!new)>(s: Cache<E>, e: E, r: Rec)
    requires ChainsOk(s.chains, s.rec) && CountsOk(s) && e in s.rec
    requires r == s.rec[e].(refs := r.refs, pending := r.pending)
    ensures var s' := SetRec(s, e, r); ChainsOk(s'.chains, s'.rec) && CountsOk(s')
  {
    var s' := SetRec(s, e, r);
    SameWeights(s, s'.rec);
    forall b, d | 0 <= b < |s'.chains| && d in s'.chains[b] ensures d in s'.rec && s'.rec[d].home == Some(b) {
      assert d in s.chains[b];
    }
  }

  lemma FreeKeeps<E(!new)>(f: Fns, s: Cache<E>, e: E)
    requires Inv(f, s) && e in s.rec && !Chained(s.rec, e)
    ensures Inv(f, s.(freed := s.freed + {e}))
  {
  }

  lemma DeleteKeeps<E(!new)>(f: Fns, s: Cache<E>, e: E)
    requires InvBut(f, s, {e}) && e in s.rec && (s.rec[e].refs > 0 ==> Inv(f, s))
    ensures Inv(f, Delete(s, e))
  {
    var r := s.rec[e].(pending := true);
    var s1 := SetRec(s, e, r);
    RecordKeeps(f, s, e, r, {e});
    if s.rec[e].refs == 0 {
      if Chained(s1.rec, e) {
        UnchainKeeps(f, s1, e);
        FreeKeeps(f, Unchain(s1, e), e);
      } else {
        FreeKeeps(f, s1, e);
      }
    }
  }

  // ---------- The cache is a map ----------

  /** View yields exactly the active entry with the key. */
  lemma ViewIsActive<E(!new)>(f: Fns, s: Cache<E>, k: Key, e: E)
    requires Inv(f, s) && Consistent(f)
    ensures View(f, s, k) == Some(e) <==> Active(s.rec, e) && f.cmp(k, s.rec[e].key) == 0
  {
    var b := Bucket(f, |s.chains|, k);
    var r := View(f, s, k);
    if r.Some? {
      assert r.value in s.chains[b];
      assert Active(s.rec, r.value);
    }
    if Active(s.rec, e) && f.cmp(k, s.rec[e].key) == 0 {
      assert s.rec[e].home.value == b && e in s.chains[b];
      if r.Some? {
        assert f.cmp(s.rec[r.value].key, k) == 0;
        assert f.cmp(s.rec[r.value].key, s.rec[e].key) == 0;
      }
    }
  }

  lemma FoundIsChained<E(!new)>(f: Fns, s: Cache<E>, k: Key)
    requires Inv(f, s)
    ensures View(f, s, k).Some? ==> Chained(s.rec, View(f, s, k).value)
  {
    var r := View(f, s, k);
    if r.Some? {
      assert r.value in s.chains[Bucket(f, |s.chains|, k)];
    }
  }

  lemma FoundKeeps<E(!new)>(f: Fns, s: Cache<E>, r: Option<E>)
    requires Inv(f, s) && (r.Some? ==> Chained(s.rec, r.value))
    ensures Inv(f, Found(s, r))
  {
    if r.Some? { AcquireKeeps(f, s, r.value); }
  }

  /** A hit takes a reference and leaves the LRU list; the map does not change. */
  lemma LookupKeeps<E(!new)>(f: Fns, s: Cache<E>, k: Key)
    requires Inv(f, s)
    ensures Inv(f, Lookup(f, s, k).0)
  {
    FoundIsChained(f, s, k);
    FoundKeeps(f, s, View(f, s, k));
  }

  /** Lookup returns what the map holds, with one more reference, off the LRU list; the map does not change. */
  lemma LookupEffect<E(!new)>(f: Fns, s: Cache<E>, k: Key)
    requires Inv(f, s)
    ensures var (s', r) := Lookup(f, s, k);
      && r == View(f, s, k) && (forall x :: Active(s'.rec, x) <==> Active(s.rec, x))
      && s'.chains == s.chains && s'.lookups == s.lookups + 1 && s'.hits == s.hits + (if r.Some? then 1 else 0)
      && (r.Some? ==> s'.rec[r.value].refs == s.rec[r.value].refs + 1 && r.value !in s'.lru)
  {
    var r := View(f, s, k);
    FoundIsChained(f, s, k);
  }

  lemma AcquireLru<E(!new)>(lru: seq<E>, rec: map<E, Rec>, e: E)
    requires LruOk(lru, rec, {}) && Chained(rec, e)
    ensures LruOk(if rec[e].refs == 0 then Without(lru, e) else lru, rec[e := rec[e].(refs := rec[e].refs + 1)], {})
  {
    var r := rec[e].(refs := rec[e].refs + 1);
    if rec[e].refs == 0 {
      WithoutNoDup(lru, e);
      assert forall x :: Chained(rec[e := r], x) ==> Chained(rec, x);
    } else {
      assert e !in lru;
    }
  }

  lemma AcquireCounts<E(!new)>(s: Cache<E>, e: E)
    requires ChainsOk(s.chains, s.rec) && CountsOk(s) && Chained(s.rec, e)
    ensures ChainsOk(Acquire(s, e).chains, Acquire(s, e).rec) && CountsOk(Acquire(s, e))
  {
    RecordCounts(s, e, s.rec[e].(refs := s.rec[e].refs + 1));
  }

  lemma AcquireKeys<E(!new)>(f: Fns, s: Cache<E>, e: E)
    requires KeysOk(f, |s.chains|, s.rec) && FreedOk(s.freed, s.rec) && Chained(s.rec, e)
    ensures KeysOk(f, |s.chains|, Acquire(s, e).rec) && FreedOk(Acquire(s, e).freed, Acquire(s, e).rec)
  {
    KeysStay(f, |s.chains|, s.rec, e, s.rec[e].(refs := s.rec[e].refs + 1));
  }

  lemma AcquireKeeps<E(!new)>(f: Fns, s: Cache<E>, e: E)
    requires Inv(f, s) && Chained(s.rec, e)
    ensures Inv(f, Acquire(s, e))
  {
    AcquireCounts(s, e);
    AcquireLru(s.lru, s.rec, e);
    AcquireKeys(f, s, e);
  }

  /** The last reference goes: the entry joins the LRU list at its end. */
  lemma LastReleaseKeeps<E(!new)>(f: Fns, s: Cache<E>, e: E)
    requires Inv(f, s) && e in s.rec && s.rec[e].refs == 1
    ensures InvBut(f, SetRec(s, e, s.rec[e].(refs := 0)).(lru := s.lru + [e]), {e})
  {
    var s1 := SetRec(s, e, s.rec[e].(refs := 0)).(lru := s.lru + [e]);
    RecordCounts(s, e, s.rec[e].(refs := 0));
    AppendNoDup(s.lru, e);
    KeysStay(f, |s.chains|, s.rec, e, s.rec[e].(refs := 0));
  }

  lemma ReleaseKeeps<E(!new)>(f: Fns, s: Cache<E>, e: E)
    requires Inv(f, s) && e in s.rec
    ensures Inv(f, Release(s, e))
  {
    var r := s.rec[e];
    if r.refs > 1 {
      RecordKeeps(f, s, e, r.(refs := r.refs - 1), {});
    } else if r.refs == 1 {
      LastReleaseKeeps(f, s, e);
      if r.pending {
        DeleteKeeps(f, SetRec(s, e, r.(refs := 0)).(lru := s.lru + [e]), e);
      }
    }
  }

  /** Release puts the entry at the end of the LRU list, or ends a deferred deletion; the map does not change. */
  lemma ReleaseEffect<E(!new)>(f: Fns, s: Cache<E>, e: E)
    requires Inv(f, s) && e in s.rec
    ensures var s' := Release(s, e);
      && (forall x :: Active(s'.rec, x) <==> Active(s.rec, x))
      && s'.lru == (if s.rec[e].refs == 1 && !s.rec[e].pending then s.lru + [e] else s.lru)
      && (s.rec[e].refs == 1 && s.rec[e].pending ==>
            !Chained(s'.rec, e) && e in s'.freed && s'.deletes == s.deletes + 1)
  {
    if s.rec[e].refs == 1 && s.rec[e].pending {
      assert e !in s.lru;
      AppendWithout(s.lru, e);
    }
  }

  lemma {:induction false} AppendWithout<E(!new)>(q: seq<E>, e: E)
    requires e !in q
    ensures Without(q + [e], e) == q
  {
    if q == [] {
      assert q + [e] == [e] && [e][1..] == [];
    } else {
      assert (q + [e])[1..] == q[1..] + [e];
      AppendWithout(q[1..], e);
    }
  }

  /** What deletion does to every other part than the totals. */
  ghost predicate Deleted<E(!new)>(s: Cache<E>, s': Cache<E>, e: E)
    requires e in s.rec
  {
    && (forall x :: Active(s'.rec, x) <==> Active(s.rec, x) && x != e)
    && s'.lru == Without(s.lru, e)
    && (s.rec[e].refs > 0 ==> Chained(s'.rec, e) && s'.chains == s.chains)
    && (s.rec[e].refs == 0 ==> !Chained(s'.rec, e) && e in s'.freed)
    && s'.rec.Keys == s.rec.Keys && |s'.chains| == |s.chains| && s'.maxSize == s.maxSize && s'.maxWeight == s.maxWeight
    && (forall x :: x in s.rec && x != e ==> s'.rec[x] == s.rec[x])
  }

  lemma DeleteHeld<E(!new)>(s: Cache<E>, e: E)
    requires LruOk(s.lru, s.rec, {}) && e in s.rec && s.rec[e].refs > 0
    ensures Deleted(s, Delete(s, e), e)
  {
    WithoutOne(s.lru, s.rec, e);
  }

  lemma DeleteFree<E(!new)>(s: Cache<E>, e: E)
    requires LruOk(s.lru, s.rec, {}) && e in s.rec && s.rec[e].refs == 0
    ensures Deleted(s, Delete(s, e), e)
  {
    var s' := Delete(s, e);
    if e !in s.lru { WithoutOne(s.lru, s.rec, e); }
    assert s'.rec.Keys == s.rec.Keys && forall x :: x in s.rec && x != e ==> s'.rec[x] == s.rec[x];
    assert !Chained(s'.rec, e);
  }

  /** Deletion removes the entry from the map, at once if unreferenced and otherwise when the last reference goes. */
  lemma DeleteEffect<E(!new)>(s: Cache<E>, e: E)
    requires LruOk(s.lru, s.rec, {}) && e in s.rec
    ensures Deleted(s, Delete(s, e), e)
  {
    if s.rec[e].refs > 0 { DeleteHeld(s, e); } else { DeleteFree(s, e); }
  }

  // ---------- Eviction ----------

  lemma EvictHead<E(!new)>(f: Fns, s: Cache<E>)
    requires Inv(f, s) && s.lru != []
    ensures s.lru[0] in s.rec && Chained(s.rec, s.lru[0]) && !s.rec[s.lru[0]].pending && s.rec[s.lru[0]].refs == 0
    ensures Delete(s, s.lru[0]).lru == s.lru[1..] && Inv(f, Delete(s, s.lru[0]))
    ensures Delete(s, s.lru[0]).size == s.size - 1
  {
    var e := s.lru[0];
    assert e in s.lru;
    DeleteKeeps(f, s, e);
    DeleteEffect(s, e);
    PopNoDup(s.lru);
    WithoutOne(s.lru[1..], s.rec, e);
  }

  /** From s to s', the entries lru[..n] were evicted, in the order of their last release, and nothing else changed. */
  ghost predicate Evicted<E(!new)>(s: Cache<E>, s': Cache<E>, n: int) {
    && 0 <= n <= |s.lru| && s'.lru == s.lru[n..] && s'.rec.Keys == s.rec.Keys
    && (forall x :: x in s.rec ==> s'.rec[x].key == s.rec[x].key)
    && |s'.chains| == |s.chains| && s'.maxSize == s.maxSize && s'.maxWeight == s.maxWeight
    && (forall x :: Active(s'.rec, x) <==> Active(s.rec, x) && x !in s.lru[..n])
    && (forall x :: x in s.rec && x !in s.lru[..n] ==> s'.rec[x] == s.rec[x])
    && (forall x :: x in s'.freed <==> x in s.freed || x in s.lru[..n])
  }

  lemma EvictOneStep<E(!new)>(f: Fns, s: Cache<E>)
    requires Inv(f, s) && s.lru != [] && s.lru[0] in s.rec
    ensures Evicted(s, Delete(s, s.lru[0]), 1)
  {
    EvictHead(f, s);
    DeleteEffect(s, s.lru[0]);
    assert s.lru[..1] == [s.lru[0]];
  }

  lemma EvictedCompose<E(!new)>(s: Cache<E>, s1: Cache<E>, s': Cache<E>, n: int)
    requires s.lru != [] && Evicted(s, s1, 1) && Evicted(s1, s', n)
    ensures Evicted(s, s', n + 1)
  {
    assert s.lru[..n + 1] == [s.lru[0]] + s1.lru[..n];
    assert s.lru[..1] == [s.lru[0]];
  }

  /** The eviction loop ends, with room for the weight or with an empty LRU list. */
  lemma {:induction false} EvictKeeps<E(!new)>(f: Fns, s: Cache<E>, w: nat) returns (n: int)
    requires Inv(f, s)
    ensures var (s', room) := Evict(s, w);
      && Inv(f, s') && Evicted(s, s', n) && s'.size <= s.size
      && (room <==> s'.weight + w <= s'.maxWeight) && (!room ==> s'.lru == [])
    decreases |s.lru|
  {
    if s.weight + w <= s.maxWeight || s.lru == [] {
      n := 0;
      assert s.lru[..0] == [] && s.lru[0..] == s.lru;
    } else {
      EvictHead(f, s);
      EvictOneStep(f, s);
      var s1 := Delete(s, s.lru[0]);
      n := EvictKeeps(f, s1, w);
      EvictedCompose(s, s1, Evict(s1, w).0, n);
      n := n + 1;
    }
  }

  lemma EvictOneKeeps<E(!new)>(f: Fns, s: Cache<E>) returns (n: int)
    requires Inv(f, s)
    ensures var (s', slot) := EvictOne(s);
      && Inv(f, s') && Evicted(s, s', n) && s'.weight <= s.weight
      && (slot <==> s'.size < s'.maxSize) && (!slot ==> s'.lru == [])
  {
    if s.size < s.maxSize || s.lru == [] {
      n := 0;
      assert s.lru[..0] == [] && s.lru[0..] == s.lru;
    } else {
      EvictHead(f, s);
      EvictOneStep(f, s);
      n := 1;
    }
  }

  lemma RoomKeeps<E(!new)>(f: Fns, s: Cache<E>, w: nat) returns (n: int)
    requires Inv(f, s)
    ensures var (s', room) := MakeRoom(s, w);
      && Inv(f, s') && Evicted(s, s', n)
      && (room <==> s'.weight + w <= s'.maxWeight && s'.size < s'.maxSize) && (!room ==> s'.lru == [])
  {
    n := EvictKeeps(f, s, w);
    var (s1, room) := Evict(s, w);
    if room {
      var m := EvictOneKeeps(f, s1);
      EvictedTwice(s, s1, EvictOne(s1).0, n, m);
      n := n + m;
    }
  }

  // ---------- As few as possible ----------

  /** The weight that is left once the first n entries of the LRU list are evicted. */
  function Left<E(!new)>(s: Cache<E>, n: nat): int
    requires n <= |s.lru|
  {
    s.weight - ChainWeight(s.lru[..n], s.rec)
  }

  /** Evicting the first n entries of the LRU list makes room for another one of weight w. */
  predicate Fits<E(!new)>(s: Cache<E>, n: nat, w: nat)
    requires n <= |s.lru|
  {
    Left(s, n) + w <= s.maxWeight && s.size - n < s.maxSize
  }

  /** No room is left to gain from the entries that are not on the LRU list: by LruOk, the referenced ones. */
  predicate FitsBesideHeld<E(!new)>(s: Cache<E>, w: nat) {
    Fits(s, |s.lru|, w)
  }

  lemma {:induction false} ChainWeightAppend<E>(q: seq<E>, x: E, rec: map<E, Rec>)
    ensures ChainWeight(q + [x], rec) == ChainWeight(q, rec) + if x in rec then rec[x].weight else 0
  {
    if q == [] {
      assert q + [x] == [x] && [x][1..] == [];
    } else {
      assert (q + [x])[1..] == q[1..] + [x];
      ChainWeightAppend(q[1..], x, rec);
    }
  }

  /** Evicting more leaves no more. */
  lemma {:induction false} LeftFalls<E(!new)>(s: Cache<E>, i: nat, j: nat)
    requires i <= j <= |s.lru|
    ensures Left(s, j) <= Left(s, i)
    decreases j
  {
    if i < j {
      LeftFalls(s, i, j - 1);
      assert s.lru[..j] == s.lru[..j - 1] + [s.lru[j - 1]];
      ChainWeightAppend(s.lru[..j - 1], s.lru[j - 1], s.rec);
    }
  }

  /** The first eviction is one of them. */
  lemma LeftAfterFirst<E(!new)>(f: Fns, s: Cache<E>, n: nat)
    requires Inv(f, s) && 0 < n <= |s.lru|
    ensures s.lru[0] in s.rec
    ensures var s1 := Delete(s, s.lru[0]);
      && s1.lru == s.lru[1..] && s1.size == s.size - 1 && s1.maxWeight == s.maxWeight && s1.maxSize == s.maxSize
      && Left(s1, n - 1) == Left(s, n)
  {
    EvictHead(f, s);
    var s1 := Delete(s, s.lru[0]);
    assert s.lru[..n][0] == s.lru[0] && s.lru[..n][1..] == s1.lru[..n - 1];
    ChainWeightSame(s1.lru[..n - 1], s.rec, s1.rec);
  }

  /** Evictions led from s to s': before each the weight did not fit, and in the end it does, or the list is empty. */
  ghost predicate LeastFor<E(!new)>(s: Cache<E>, s': Cache<E>, room: bool, w: nat) {
    var n := |s.lru| - |s'.lru|;
    && 0 <= n && s'.weight == Left(s, n) && s'.size == s.size - n
    && (forall j :: 0 <= j < n ==> Left(s, j) + w > s.maxWeight)
    && (room <==> Left(s, n) + w <= s.maxWeight) && (!room ==> n == |s.lru|)
  }

  lemma {:induction false} EvictLeast<E(!new)>(f: Fns, s: Cache<E>, w: nat)
    requires Inv(f, s)
    ensures var (s', room) := Evict(s, w); LeastFor(s, s', room, w)
    decreases |s.lru|
  {
    if s.weight + w > s.maxWeight && s.lru != [] {
      EvictHead(f, s);
      EvictLeast(f, Delete(s, s.lru[0]), w);
      LeastFromFirst(f, s, Evict(s, w).0, Evict(s, w).1, w);
    } else {
      NoneLeast(s, w);
    }
  }

  lemma NoneLeast<E(!new)>(s: Cache<E>, w: nat)
    requires s.weight + w <= s.maxWeight || s.lru == []
    ensures LeastFor(s, s, s.weight + w <= s.maxWeight, w)
  {
    assert s.lru[..0] == [];
  }

  /** One eviction before those. */
  lemma LeastFromFirst<E(!new)>(f: Fns, s: Cache<E>, s': Cache<E>, room: bool, w: nat)
    requires Inv(f, s) && s.lru != [] && s.weight + w > s.maxWeight && s.lru[0] in s.rec
    requires LeastFor(Delete(s, s.lru[0]), s', room, w)
    ensures LeastFor(s, s', room, w)
  {
    var s1, n := Delete(s, s.lru[0]), |s.lru| - |s'.lru|;
    LeftAfterFirst(f, s, 1);
    LeftAfterFirst(f, s, n);
    forall j | 0 <= j < n ensures Left(s, j) + w > s.maxWeight {
      if j == 0 {
        assert s.lru[..0] == [];
      } else {
        LeftAfterFirst(f, s, j);
        assert Left(s1, j - 1) + w > s1.maxWeight;
      }
    }
  }

  /** n evictions are the fewest that make room, or all there are and still too few. */
  ghost predicate Least<E(!new)>(s: Cache<E>, n: int, room: bool, w: nat) {
    && 0 <= n <= |s.lru| && (forall j :: 0 <= j < n ==> !Fits(s, j, w))
    && (room <==> FitsBesideHeld(s, w)) && (room ==> Fits(s, n, w)) && (!room ==> n == |s.lru|)
  }

  /** The first capacity check leaves n as it is or asks for one eviction more. */
  lemma SecondCheck<E(!new)>(s: Cache<E>, n: nat, w: nat)
    requires n <= |s.lru| && s.size - n <= s.maxSize && forall j :: 0 <= j < n ==> Left(s, j) + w > s.maxWeight
    ensures Left(s, n) + w > s.maxWeight && n == |s.lru| ==> Least(s, n, false, w)
    ensures Left(s, n) + w <= s.maxWeight && s.size - n < s.maxSize ==> Least(s, n, true, w)
    ensures Left(s, n) + w <= s.maxWeight && s.size - n == s.maxSize ==>
      if n == |s.lru| then Least(s, n, false, w) else Least(s, n + 1, true, w)
  {
    LeftFalls(s, n, |s.lru|);
    if n < |s.lru| {
      LeftFalls(s, n, n + 1);
      LeftFalls(s, n + 1, |s.lru|);
    }
  }

  /** Both capacity checks together evict as few entries as possible, and fail only if evicting all would not do. */
  lemma RoomIsLeast<E(!new)>(f: Fns, s: Cache<E>, w: nat)
    requires Inv(f, s)
    ensures var (s', room) := MakeRoom(s, w); Least(s, |s.lru| - |s'.lru|, room, w)
  {
    EvictLeast(f, s, w);
    var k := EvictKeeps(f, s, w);
    EvictOneLeast(f, Evict(s, w).0);
    RoomFromChecks(s, Evict(s, w).0, Evict(s, w).1, MakeRoom(s, w).0, MakeRoom(s, w).1, w);
  }

  lemma RoomFromChecks<E(!new)>(s: Cache<E>, s1: Cache<E>, room1: bool, s': Cache<E>, room: bool, w: nat)
    requires LeastFor(s, s1, room1, w) && s1.maxSize == s.maxSize
    requires if room1 then OneMoreGone(s1, s', room) else s' == s1 && !room && s1.size <= s1.maxSize
    ensures Least(s, |s.lru| - |s'.lru|, room, w)
  {
    SecondCheck(s, |s.lru| - |s1.lru|, w);
  }

  /** What the second check does to the LRU list. */
  predicate OneMoreGone<E(!new)>(s: Cache<E>, s': Cache<E>, slot: bool) {
    && s.size <= s.maxSize && |s'.lru| == |s.lru| - (if s.size == s.maxSize && s.lru != [] then 1 else 0)
    && (slot <==> s.size < s.maxSize || s.lru != [])
  }

  lemma EvictOneLeast<E(!new)>(f: Fns, s: Cache<E>)
    requires Inv(f, s)
    ensures OneMoreGone(s, EvictOne(s).0, EvictOne(s).1)
  {
    if s.lru != [] { EvictHead(f, s); }
  }

  // ---------- Insertion ----------

  /** An entry just created, or one that an insertion refused. */
  predicate Fresh<E(==)>(s: Cache<E>, e: E) {
    e in s.rec && s.rec[e].home == None && s.rec[e].refs == 0 && !s.rec[e].pending && e !in s.freed
  }

  lemma LinkCounts<E(!new)>(s: Cache<E>, e: E, b: nat)
    requires ChainsOk(s.chains, s.rec) && CountsOk(s) && Fresh(s, e) && b < |s.chains|
    requires s.size < s.maxSize && s.weight + s.rec[e].weight <= s.maxWeight
    ensures var s' := Link(s, e, b); ChainsOk(s'.chains, s'.rec) && CountsOk(s')
  {
    var s' := Link(s, e, b);
    var q := [e] + s.chains[b];
    assert e !in s.chains[b];
    assert q[1..] == s.chains[b];
    TotalsUpdate(s.chains, s'.rec, b, q);
    SameWeights(s, s'.rec);
    forall c, x | 0 <= c < |s'.chains| && x in s'.chains[c] ensures x in s'.rec && s'.rec[x].home == Some(c) {
      assert x in s.chains[c] || x == e;
    }
    forall x | Chained(s'.rec, x) ensures x in s'.chains[s'.rec[x].home.value] {
      assert x != e ==> Chained(s.rec, x);
    }
  }

  lemma LinkKeys<E(!new)>(f: Fns, n: nat, rec: map<E, Rec>, e: E, r: Rec)
    requires KeysOk(f, n, rec) && Consistent(f) && e in rec && !Chained(rec, e)
    requires r.key == rec[e].key && r.home == Some(Bucket(f, n, r.key))
    requires forall x :: Active(rec, x) ==> f.cmp(rec[e].key, rec[x].key) != 0
    ensures KeysOk(f, n, rec[e := r])
  {
    var rec' := rec[e := r];
    forall c, d | Active(rec', c) && Active(rec', d) && f.cmp(rec'[c].key, rec'[d].key) == 0 ensures c == d {
      assert c != e ==> Active(rec, c);
      assert d != e ==> Active(rec, d);
    }
  }

  lemma LinkKeeps<E(!new)>(f: Fns, s: Cache<E>, e: E)
    requires Inv(f, s) && Consistent(f) && Fresh(s, e)
    requires s.size < s.maxSize && s.weight + s.rec[e].weight <= s.maxWeight
    requires forall x :: Active(s.rec, x) ==> f.cmp(s.rec[e].key, s.rec[x].key) != 0
    ensures Inv(f, Link(s, e, Bucket(f, |s.chains|, s.rec[e].key)))
  {
    var b := Bucket(f, |s.chains|, s.rec[e].key);
    var s' := Link(s, e, b);
    assert ChainsOk(s'.chains, s'.rec) && CountsOk(s') by { LinkCounts(s, e, b); }
    assert KeysOk(f, |s'.chains|, s'.rec) by { LinkKeys(f, |s.chains|, s.rec, e, s'.rec[e]); }
  }

  /** After the duplicate is dropped no entry of the map has the key. */
  lemma DropKeeps<E(!new)>(f: Fns, s: Cache<E>, k: Key)
    requires Inv(f, s) && Consistent(f)
    ensures var s' := Drop(s, View(f, s, k));
      && Inv(f, s') && s'.size <= s.size && s'.weight <= s.weight
      && (forall x :: Active(s'.rec, x) <==> Active(s.rec, x) && f.cmp(k, s.rec[x].key) != 0)
      && (forall x :: x in s.rec && !Chained(s.rec, x) ==> s'.rec[x] == s.rec[x])
      && (forall x :: x in s.rec && !Chained(s.rec, x) && x !in s.freed ==> x !in s'.freed)
      && (forall x :: x in s.rec ==> s'.rec[x].key == s.rec[x].key)
      && s'.maxSize == s.maxSize && s'.maxWeight == s.maxWeight
  {
    var dup := View(f, s, k);
    FoundIsChained(f, s, k);
    forall x | Active(s.rec, x) ensures f.cmp(k, s.rec[x].key) == 0 <==> dup == Some(x) {
      ViewIsActive(f, s, k, x);
    }
    if dup.Some? {
      DeleteKeeps(f, s, dup.value);
      DeleteEffect(s, dup.value);
    }
  }

  /** The new entry takes its key over; the rest of the map stays. */
  lemma AddKeeps<E(!new)>(f: Fns, s: Cache<E>, e: E)
    requires Inv(f, s) && Consistent(f) && Fresh(s, e)
    requires s.size < s.maxSize && s.weight + s.rec[e].weight <= s.maxWeight
    ensures var s' := Add(f, s, e);
      && Inv(f, s') && s'.rec[e].refs == 1 && s'.rec.Keys == s.rec.Keys
      && (forall x :: Active(s'.rec, x) <==> x == e || (Active(s.rec, x) && f.cmp(s.rec[e].key, s.rec[x].key) != 0))
      && (forall x :: x in s.rec ==> s'.rec[x].key == s.rec[x].key)
  {
    var s1 := Drop(s, View(f, s, s.rec[e].key));
    DropKeeps(f, s, s.rec[e].key);
    LinkKeeps(f, s1, e);
  }

  /**
   * Insertion evicts the shortest prefix of the LRU list, in the order of last release, that makes room in both
   * bounds. It succeeds exactly if the entries in use leave that room; refused, it has emptied the LRU list and left
   * the entry as it was.
   */
  lemma InsertKeeps<E(!new)>(f: Fns, s: Cache<E>, e: E) returns (n: int)
    requires Inv(f, s) && Consistent(f) && Fresh(s, e)
    ensures Inserted(f, s, e, Insert(f, s, e).0, Insert(f, s, e).1, n)
    ensures Insert(f, s, e).1 <==> FitsBesideHeld(s, s.rec[e].weight)
    ensures Insert(f, s, e).1 ==> Fits(s, n, s.rec[e].weight)
    ensures forall j :: 0 <= j < n ==> !Fits(s, j, s.rec[e].weight)
  {
    RoomIsLeast(f, s, s.rec[e].weight);
    n := RoomKeeps(f, s, s.rec[e].weight);
    LeastPrefix(s, MakeRoom(s, s.rec[e].weight).0, MakeRoom(s, s.rec[e].weight).1, n, s.rec[e].weight);
    InsertEffect(f, s, e, MakeRoom(s, s.rec[e].weight).0, MakeRoom(s, s.rec[e].weight).1, n);
  }

  lemma LeastPrefix<E(!new)>(s: Cache<E>, s': Cache<E>, room: bool, n: int, w: nat)
    requires Evicted(s, s', n) && Least(s, |s.lru| - |s'.lru|, room, w)
    ensures 0 <= n <= |s.lru| && (forall j :: 0 <= j < n ==> !Fits(s, j, w))
    ensures (room <==> FitsBesideHeld(s, w)) && (room ==> Fits(s, n, w))
  {
  }

  lemma InsertEffect<E(!new)>(f: Fns, s: Cache<E>, e: E, s2: Cache<E>, room: bool, n: int)
    requires Inv(f, s) && Consistent(f) && Fresh(s, e) && (s2, room) == MakeRoom(s, s.rec[e].weight)
    requires Inv(f, s2) && Evicted(s, s2, n) && (!room ==> s2.lru == [])
    requires room <==> s2.weight + s.rec[e].weight <= s2.maxWeight && s2.size < s2.maxSize
    ensures Inserted(f, s, e, Insert(f, s, e).0, Insert(f, s, e).1, n) && Insert(f, s, e).1 == room
  {
    if room { AddInserts(f, s, s2, e, n); } else { RefusedInserts(f, s, s2, e, n); }
  }

  lemma RefusedInserts<E(!new)>(f: Fns, s: Cache<E>, s2: Cache<E>, e: E, n: int)
    requires Inv(f, s) && Inv(f, s2) && Fresh(s, e) && Evicted(s, s2, n) && s2.lru == []
    requires s2.size >= s2.maxSize || s2.weight + s.rec[e].weight > s2.maxWeight
    ensures Inserted(f, s, e, s2, false, n)
  {
    NotOnList(s, e, n);
  }

  lemma NotOnList<E(!new)>(s: Cache<E>, e: E, n: int)
    requires LruOk(s.lru, s.rec, {}) && Fresh(s, e) && 0 <= n <= |s.lru|
    ensures e !in s.lru[..n]
  {
    assert e !in s.lru;
  }

  /** What an insertion that evicted lru[..n] has done. */
  ghost predicate Inserted<E(!new)>(f: Fns, s: Cache<E>, e: E, s': Cache<E>, ok: bool, n: int)
    requires e in s.rec
  {
    && Inv(f, s') && 0 <= n <= |s.lru| && s'.rec.Keys == s.rec.Keys
    && (forall x :: x in s.rec ==> s'.rec[x].key == s.rec[x].key)
    && (if ok then
          && s'.rec[e].refs == 1
          && (forall x :: Active(s'.rec, x) <==>
               x == e || (Active(s.rec, x) && x !in s.lru[..n] && f.cmp(s.rec[e].key, s.rec[x].key) != 0))
        else
          && Fresh(s', e) && s'.lru == [] && Evicted(s, s', n)
          && (s'.weight + s.rec[e].weight > s'.maxWeight || s'.size >= s'.maxSize))
  }

  lemma AddInserts<E(!new)>(f: Fns, s: Cache<E>, s2: Cache<E>, e: E, n: int)
    requires Inv(f, s) && Inv(f, s2) && Consistent(f) && Fresh(s, e) && Evicted(s, s2, n)
    requires s2.size < s2.maxSize && s2.weight + s.rec[e].weight <= s2.maxWeight
    ensures |s2.chains| > 0 && e in s2.rec && Inserted(f, s, e, Add(f, s2, e), true, n)
  {
    NotOnList(s, e, n);
    AddKeeps(f, s2, e);
  }

  lemma EvictedTwice<E(!new)>(s: Cache<E>, s1: Cache<E>, s2: Cache<E>, n: int, m: int)
    requires Evicted(s, s1, n) && Evicted(s1, s2, m)
    ensures Evicted(s, s2, n + m)
  {
    assert s.lru[..n + m] == s.lru[..n] + s1.lru[..m];
  }

  // ---------- Emptying ----------

  /** All entries of q are deleted: the unreferenced at once, the others when released. */
  lemma {:induction false} DeleteAllEffect<E(!new)>(f: Fns, s: Cache<E>, q: seq<E>)
    requires Inv(f, s) && NoDup(q) && forall e :: e in q ==> Chained(s.rec, e)
    ensures var s' := DeleteAll(s, q);
      && Inv(f, s') && s'.rec.Keys == s.rec.Keys && |s'.chains| == |s.chains|
      && (forall x :: x in s.rec && x !in q ==> s'.rec[x] == s.rec[x])
      && (forall x :: x in q && x in s.rec && s.rec[x].refs > 0 ==> s'.rec[x] == s.rec[x].(pending := true))
      && (forall x :: x in q && x in s.rec && s.rec[x].refs == 0 ==> !Chained(s'.rec, x) && x in s'.freed)
      && s'.freed >= s.freed
    decreases |q|
  {
    if q != [] {
      PopNoDup(q);
      assert q[0] in q;
      DeleteKeeps(f, s, q[0]);
      DeleteEffect(s, q[0]);
      DeleteAllEffect(f, Delete(s, q[0]), q[1..]);
    }
  }

  lemma {:induction false} EmptyFromEffect<E(!new)>(f: Fns, s: Cache<E>, b: nat)
    requires Inv(f, s)
    ensures Emptied(f, s, EmptyFrom(s, b), b)
    decreases |s.chains| - b
  {
    if b < |s.chains| {
      var s1 := DeleteAll(s, s.chains[b]);
      EmptyChain(f, s, b);
      EmptyFromEffect(f, s1, b + 1);
    }
  }

  /** The chains from b on hold only referenced entries, all pending. */
  ghost predicate Emptied<E(!new)>(f: Fns, s: Cache<E>, s': Cache<E>, b: nat) {
    && Inv(f, s') && s'.rec.Keys == s.rec.Keys && |s'.chains| == |s.chains|
    && (forall x :: Chained(s'.rec, x) <==> Chained(s.rec, x) && (s.rec[x].home.value < b || s.rec[x].refs > 0))
    && (forall x :: Chained(s'.rec, x) ==>
          s'.rec[x] == if s.rec[x].home.value < b then s.rec[x] else s.rec[x].(pending := true))
  }

  lemma EmptyChain<E(!new)>(f: Fns, s: Cache<E>, b: nat)
    requires Inv(f, s) && b < |s.chains|
    ensures var s1 := DeleteAll(s, s.chains[b]);
      && Inv(f, s1) && s1.rec.Keys == s.rec.Keys && |s1.chains| == |s.chains|
      && (forall x :: Chained(s1.rec, x) <==> Chained(s.rec, x) && (s.rec[x].home.value != b || s.rec[x].refs > 0))
      && (forall x :: Chained(s1.rec, x) ==>
            s1.rec[x] == if s.rec[x].home.value != b then s.rec[x] else s.rec[x].(pending := true))
  {
    DeleteAllEffect(f, s, s.chains[b]);
    forall x | x in s.rec ensures x in s.chains[b] <==> s.rec[x].home == Some(b) {
      if s.rec[x].home == Some(b) { assert Chained(s.rec, x); }
    }
  }

  lemma HeadIsIn<E>(q: seq<E>)
    requires q != []
    ensures q[0] in q
  {
  }

  /** Emptying leaves exactly the referenced entries, all pending deletion, and nothing on the LRU list. */
  lemma EmptyEffect<E(!new)>(f: Fns, s: Cache<E>)
    requires Inv(f, s)
    ensures var s' := EmptyFrom(s, 0);
      && Inv(f, s') && s'.lru == []
      && (forall x :: Chained(s'.rec, x) <==> Chained(s.rec, x) && s.rec[x].refs > 0)
      && (forall x :: Chained(s'.rec, x) ==> s'.rec[x] == s.rec[x].(pending := true))
      && (forall k :: View(f, s', k) == None)
  {
    var s' := EmptyFrom(s, 0);
    EmptyFromEffect(f, s, 0);
    if s'.lru != [] { HeadIsIn(s'.lru); }
    forall k ensures View(f, s', k) == None {
      FoundIsChained(f, s', k);
    }
  }
}
