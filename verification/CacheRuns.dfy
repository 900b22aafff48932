/** Runs of the cache: what any sequence of calls keeps, the map it implements, and the order of eviction. */
module CacheRuns {
  import opened Options
  import opened Queues
  import opened CacheModel

  datatype Op<E> =
    | Create(e: E, key: Key, weight: nat)
    | Ins(e: E)
    | Look(k: Key)
    | Rel(e: E)
    | Del(e: E)
    | Clear

  /** Callers hand over entries that exist, and insert an entry that is not in the cache. */
  ghost predicate Enabled<E(!new)>(s: Cache<E>, op: Op<E>) {
    match op
    case Create(e, _, _) => e !in s.rec || e in s.freed
    case Ins(e) => Fresh(s, e)
    case Look(_) => true
    case Rel(e) => e in s.rec && e !in s.freed
    case Del(e) => e in s.rec && e !in s.freed
    case Clear => true
  }

  function Next<E(==, !new)>(f: Fns, s: Cache<E>, op: Op<E>): Cache<E> {
    match op
    case Create(e, key, weight) => CacheModel.Create(s, e, key, weight)
    case Ins(e) => if e in s.rec then Insert(f, s, e).0 else s
    case Look(k) => Lookup(f, s, k).0
    case Rel(e) => if e in s.rec then Release(s, e) else s
    case Del(e) => if e in s.rec then Delete(s, e) else s
    case Clear => EmptyFrom(s, 0)
  }

  /** stx_cache_create */
  function Init<E>(hashSize: nat, maxSize: nat, maxWeight: nat): Cache<E> {
    Cache(seq(hashSize, _ => []), map[], [], 0, 0, maxSize, maxWeight, 0, 0, 0, 0, {})
  }

  lemma {:induction false} NoEntries<E>(chains: seq<seq<E>>, rec: map<E, Rec>)
    requires forall b :: 0 <= b < |chains| ==> chains[b] == []
    ensures TotalLen(chains) == 0 && TotalWeight(chains, rec) == 0
  {
    if chains != [] { NoEntries(chains[1..], rec); }
  }

  lemma InitOk<E(!new)>(f: Fns, hashSize: nat, maxSize: nat, maxWeight: nat)
    requires hashSize > 0
    ensures Inv<E>(f, Init(hashSize, maxSize, maxWeight))
  {
    var s := Init<E>(hashSize, maxSize, maxWeight);
    NoEntries(s.chains, s.rec);
  }

  lemma CreateCounts<E(!new)>(s: Cache<E>, e: E, key: Key, weight: nat)
    requires ChainsOk(s.chains, s.rec) && CountsOk(s) && !Chained(s.rec, e)
    ensures var s' := CacheModel.Create(s, e, key, weight); ChainsOk(s'.chains, s'.rec) && CountsOk(s')
  {
    var s' := CacheModel.Create(s, e, key, weight);
    SameWeights(s, s'.rec);
    forall b, x | 0 <= b < |s'.chains| && x in s'.chains[b] ensures x in s'.rec && s'.rec[x].home == Some(b) {
      assert x in s.chains[b];
    }
  }

  lemma CreateKeys<E(!new)>(f: Fns, s: Cache<E>, e: E, key: Key, weight: nat)
    requires KeysOk(f, |s.chains|, s.rec) && LruOk(s.lru, s.rec, {}) && FreedOk(s.freed, s.rec) && !Chained(s.rec, e)
    ensures var s' := CacheModel.Create(s, e, key, weight);
      && KeysOk(f, |s'.chains|, s'.rec) && LruOk(s'.lru, s'.rec, {}) && FreedOk(s'.freed, s'.rec)
      && forall x :: Active(s'.rec, x) <==> Active(s.rec, x)
  {
    var s' := CacheModel.Create(s, e, key, weight);
    assert forall x :: Active(s'.rec, x) <==> Active(s.rec, x);
  }

  lemma CreateKeeps<E(!new)>(f: Fns, s: Cache<E>, e: E, key: Key, weight: nat)
    requires Inv(f, s) && (e !in s.rec || e in s.freed)
    ensures Inv(f, CacheModel.Create(s, e, key, weight))
    ensures forall x :: Active(CacheModel.Create(s, e, key, weight).rec, x) <==> Active(s.rec, x)
  {
    CreateCounts(s, e, key, weight);
    CreateKeys(f, s, e, key, weight);
  }

  lemma StepKeeps<E(!new)>(f: Fns, s: Cache<E>, op: Op<E>)
    requires Inv(f, s) && Consistent(f) && Enabled(s, op)
    ensures Inv(f, Next(f, s, op))
  {
    match op
    case Create(e, key, weight) => CreateKeeps(f, s, e, key, weight);
    case Ins(e) => var n := InsertKeeps(f, s, e);
    case Look(k) => LookupKeeps(f, s, k);
    case Rel(e) => ReleaseKeeps(f, s, e);
    case Del(e) => DeleteKeeps(f, s, e);
    case Clear => EmptyEffect(f, s);
  }

  ghost predicate StepAt<E(!new)>(f: Fns, run: seq<Cache<E>>, ops: seq<Op<E>>, i: int)
    requires 0 <= i < |ops| && |run| == |ops| + 1
  {
    Enabled(run[i], ops[i]) && run[i + 1] == Next(f, run[i], ops[i])
  }

  ghost predicate IsRun<E(!new)>(f: Fns, run: seq<Cache<E>>, ops: seq<Op<E>>) {
    && |run| == |ops| + 1 && Consistent(f)
    && (exists h: nat, m: nat, w: nat {:trigger Init<E>(h, m, w)} :: h > 0 && run[0] == Init<E>(h, m, w))
    && (forall i {:trigger StepAt(f, run, ops, i)} :: 0 <= i < |ops| ==> StepAt(f, run, ops, i))
  }

  /** Every state of every run satisfies the invariant. */
  lemma {:induction false} AlwaysInv<E(!new)>(f: Fns, run: seq<Cache<E>>, ops: seq<Op<E>>, n: nat)
    requires IsRun(f, run, ops) && n < |run|
    ensures Inv(f, run[n])
  {
    if n == 0 {
      var h: nat, m: nat, w: nat :| h > 0 && run[0] == Init<E>(h, m, w);
      InitOk<E>(f, h, m, w);
    } else {
      AlwaysInv(f, run, ops, n - 1);
      assert StepAt(f, run, ops, n - 1);
      StepKeeps(f, run[n - 1], ops[n - 1]);
    }
  }

  // ---------- The map that a run implements ----------

  /** The insertion of e succeeds. */
  predicate Succeeds<E(==, !new)>(f: Fns, s: Cache<E>, e: E) {
    e in s.rec && Insert(f, s, e).1
  }

  /** What an operation does to the binding of key k, apart from eviction. */
  function Binding<E(==, !new)>(f: Fns, s: Cache<E>, op: Op<E>, k: Key): Option<E> {
    match op
    case Ins(e) => if Succeeds(f, s, e) && f.cmp(k, s.rec[e].key) == 0 then Some(e) else View(f, s, k)
    case Del(e) => if View(f, s, k) == Some(e) then None else View(f, s, k)
    case Clear => None
    case _ => View(f, s, k)
  }

  /** Same entries under the same keys. */
  lemma ViewStays<E(!new)>(f: Fns, s: Cache<E>, s': Cache<E>, x: Option<E>, k: Key)
    requires Inv(f, s) && Inv(f, s') && Consistent(f)
    requires forall e :: Active(s'.rec, e) <==> Active(s.rec, e) && x != Some(e)
    requires forall e :: Active(s'.rec, e) ==> s'.rec[e].key == s.rec[e].key
    ensures View(f, s', k) == if View(f, s, k) == x then None else View(f, s, k)
  {
    var v, v' := View(f, s, k), View(f, s', k);
    if v.Some? { ViewIsActive(f, s, k, v.value); ViewIsActive(f, s', k, v.value); }
    if v'.Some? { ViewIsActive(f, s, k, v'.value); ViewIsActive(f, s', k, v'.value); }
  }

  lemma ViewAfterInsert<E(!new)>(f: Fns, s: Cache<E>, e: E, k: Key) returns (n: int)
    requires Inv(f, s) && Consistent(f) && Fresh(s, e)
    ensures 0 <= n <= |s.lru|
    ensures var (s', ok) := Insert(f, s, e); var v := View(f, s, k);
      View(f, s', k) == if ok && f.cmp(k, s.rec[e].key) == 0 then Some(e)
        else if v.Some? && v.value in s.lru[..n] then None else v
  {
    n := InsertKeeps(f, s, e);
    var (s', ok) := Insert(f, s, e);
    ViewIsActive(f, s', k, e);
    ViewIsActive(f, s, k, e);
    var v, v' := View(f, s, k), View(f, s', k);
    if v.Some? { ViewIsActive(f, s, k, v.value); ViewIsActive(f, s', k, v.value); }
    if v'.Some? { ViewIsActive(f, s, k, v'.value); ViewIsActive(f, s', k, v'.value); }
  }

  lemma ViewAfterDelete<E(!new)>(f: Fns, s: Cache<E>, e: E, k: Key)
    requires Inv(f, s) && Consistent(f) && e in s.rec
    ensures View(f, Delete(s, e), k) == if View(f, s, k) == Some(e) then None else View(f, s, k)
  {
    DeleteKeeps(f, s, e);
    DeleteEffect(s, e);
    assert forall x :: Active(s.rec, x) ==> x in s.rec;
    ViewStays(f, s, Delete(s, e), Some(e), k);
  }

  lemma ViewAfterLookup<E(!new)>(f: Fns, s: Cache<E>, l: Key, k: Key)
    requires Inv(f, s) && Consistent(f)
    ensures View(f, Lookup(f, s, l).0, k) == View(f, s, k)
  {
    LookupKeeps(f, s, l);
    LookupEffect(f, s, l);
    ViewStays(f, s, Lookup(f, s, l).0, None, k);
  }

  lemma ViewAfterRelease<E(!new)>(f: Fns, s: Cache<E>, e: E, k: Key)
    requires Inv(f, s) && Consistent(f) && e in s.rec
    ensures View(f, Release(s, e), k) == View(f, s, k)
  {
    ReleaseKeeps(f, s, e);
    ReleaseEffect(f, s, e);
    ViewStays(f, s, Release(s, e), None, k);
  }

  lemma ViewAfterCreate<E(!new)>(f: Fns, s: Cache<E>, e: E, key: Key, weight: nat, k: Key)
    requires Inv(f, s) && Consistent(f) && (e !in s.rec || e in s.freed)
    ensures View(f, CacheModel.Create(s, e, key, weight), k) == View(f, s, k)
  {
    CreateKeeps(f, s, e, key, weight);
    ViewStays(f, s, CacheModel.Create(s, e, key, weight), None, k);
  }

  /** The cache is a map that may forget unreferenced entries, and only when it makes room for an insertion. */
  lemma StepOnMap<E(!new)>(f: Fns, s: Cache<E>, op: Op<E>, k: Key)
    requires Inv(f, s) && Consistent(f) && Enabled(s, op)
    ensures var v, v' := Binding(f, s, op, k), View(f, Next(f, s, op), k);
      v' == v || (v' == None && op.Ins? && v.Some? && v == View(f, s, k) && v.value in s.lru)
  {
    match op
    case Ins(e) => var n := ViewAfterInsert(f, s, e, k);
    case Del(e) => ViewAfterDelete(f, s, e, k);
    case Clear => EmptyEffect(f, s);
    case Create(e, key, weight) => ViewAfterCreate(f, s, e, key, weight, k);
    case Look(l) => ViewAfterLookup(f, s, l, k);
    case Rel(e) => ViewAfterRelease(f, s, e, k);
  }

  /** Operations that unbind e from key k: deletion, emptying, and insertion of another entry with the key. */
  predicate Unbinds<E(==, !new)>(f: Fns, s: Cache<E>, op: Op<E>, k: Key, e: E) {
    || op == Del(e) || op == Clear
    || (op.Ins? && op.e != e && Succeeds(f, s, op.e) && f.cmp(k, s.rec[op.e].key) == 0)
  }

  predicate BoundBy<E(==, !new)>(f: Fns, s: Cache<E>, op: Op<E>, k: Key, e: E) {
    op == Ins(e) && Succeeds(f, s, e) && f.cmp(k, s.rec[e].key) == 0
  }

  lemma EmptyAtFirst<E(!new)>(f: Fns, run: seq<Cache<E>>, ops: seq<Op<E>>, k: Key)
    requires IsRun(f, run, ops)
    ensures View(f, run[0], k) == None
  {
  }

  lemma BoundBefore<E(!new)>(f: Fns, s: Cache<E>, op: Op<E>, k: Key, e: E)
    requires Inv(f, s) && Consistent(f) && Enabled(s, op)
    requires View(f, Next(f, s, op), k) == Some(e) && !BoundBy(f, s, op, k, e)
    ensures View(f, s, k) == Some(e) && !Unbinds(f, s, op, k, e)
  {
    StepOnMap(f, s, op, k);
  }

  lemma BoundAtStep<E(!new)>(f: Fns, run: seq<Cache<E>>, ops: seq<Op<E>>, i: nat, k: Key, e: E)
    requires IsRun(f, run, ops) && i < |ops| && View(f, run[i + 1], k) == Some(e)
    ensures BoundBy(f, run[i], ops[i], k, e) || (View(f, run[i], k) == Some(e) && !Unbinds(f, run[i], ops[i], k, e))
  {
    AlwaysInv(f, run, ops, i);
    assert StepAt(f, run, ops, i);
    if !BoundBy(f, run[i], ops[i], k, e) { BoundBefore(f, run[i], ops[i], k, e); }
  }

  /** Lookup finds the entry inserted last with the key, and nothing has deleted, replaced or evicted it since. */
  lemma {:induction false} LatestInserted<E(!new)>(f: Fns, run: seq<Cache<E>>, ops: seq<Op<E>>, n: nat, k: Key, e: E)
    returns (i: nat)
    requires IsRun(f, run, ops) && n < |run| && View(f, run[n], k) == Some(e)
    ensures i < n && BoundBy(f, run[i], ops[i], k, e)
    ensures forall j :: i < j < n ==> View(f, run[j], k) == Some(e) && !Unbinds(f, run[j], ops[j], k, e)
  {
    if n == 0 {
      EmptyAtFirst(f, run, ops, k);
      assert false;
    } else {
      BoundAtStep(f, run, ops, n - 1, k, e);
      if BoundBy(f, run[n - 1], ops[n - 1], k, e) {
        i := n - 1;
      } else {
        i := LatestInserted(f, run, ops, n - 1, k, e);
      }
    }
  }

  // ---------- The order of eviction ----------

  lemma SuffixKeepsOrder<E(!new)>(q: seq<E>, n: int, d: E, e: E)
    requires 0 <= n <= |q| && Before(q[n..], d, e)
    ensures Before(q, d, e)
  {
    var i, j :| 0 <= i < j < |q[n..]| && q[n..][i] == d && q[n..][j] == e;
    assert q[i + n] == d && q[j + n] == e;
  }

  lemma InsertKeepsOrder<E(!new)>(f: Fns, s: Cache<E>, e: E, c: E, d: E)
    requires Inv(f, s) && e in s.rec && Before(Insert(f, s, e).0.lru, c, d)
    ensures Before(s.lru, c, d)
  {
    var n := RoomKeeps(f, s, s.rec[e].weight);
    var (s2, room) := MakeRoom(s, s.rec[e].weight);
    if room {
      var dup := View(f, s2, s2.rec[e].key);
      FoundIsChained(f, s2, s2.rec[e].key);
      if dup.Some? {
        DeleteEffect(s2, dup.value);
        WithoutAddsNoOrder(s2.lru, dup.value, c, d);
      }
    }
    SuffixKeepsOrder(s.lru, n, c, d);
  }

  /** The last step before n that dropped the last reference to e; -1 if there is none. */
  ghost function LastRelease<E(!new)>(run: seq<Cache<E>>, ops: seq<Op<E>>, n: nat, e: E): (t: int)
    requires n <= |ops| && |run| == |ops| + 1
    ensures -1 <= t < n
  {
    if n == 0 then -1
    else if ops[n - 1] == Rel(e) && LastRef(run[n - 1], e) then n - 1
    else LastRelease(run, ops, n - 1, e)
  }

  /** Entry e has just one reference. */
  predicate LastRef<E(==)>(s: Cache<E>, e: E) {
    e in s.rec && s.rec[e].refs == 1
  }

  lemma LookupOnOrder<E(!new)>(f: Fns, s: Cache<E>, k: Key, d: E, e: E)
    requires Inv(f, s) && Before(Lookup(f, s, k).0.lru, d, e)
    ensures Before(s.lru, d, e)
  {
    var v := View(f, s, k);
    if v.Some? && v.value in s.rec && s.rec[v.value].refs == 0 { WithoutAddsNoOrder(s.lru, v.value, d, e); }
  }

  lemma ReleaseOnOrder<E(!new)>(f: Fns, s: Cache<E>, x: E, d: E, e: E)
    requires Inv(f, s) && x in s.rec && Before(Release(s, x).lru, d, e)
    ensures Before(s.lru, d, e) || (x == e && LastRef(s, e))
    ensures x == d ==> !LastRef(s, d)
  {
    ReleaseEffect(f, s, x);
    if s.rec[x].refs == 1 {
      assert x !in s.lru;
      if s.rec[x].pending {
        assert x == d ==> x in s.lru;
      } else {
        LastInOrder(s.lru, x, d, e);
      }
    }
  }

  /** No operation but a last release adds to the LRU list, and that one adds at the end. */
  lemma StepOnOrder<E(!new)>(f: Fns, s: Cache<E>, op: Op<E>, d: E, e: E)
    requires Inv(f, s) && Enabled(s, op) && Before(Next(f, s, op).lru, d, e)
    ensures Before(s.lru, d, e) || (op == Rel(e) && LastRef(s, e))
    ensures op == Rel(d) ==> !LastRef(s, d)
  {
    match op
    case Create(_, _, _) =>
    case Ins(x) => InsertKeepsOrder(f, s, x, d, e);
    case Look(k) => LookupOnOrder(f, s, k, d, e);
    case Rel(x) => ReleaseOnOrder(f, s, x, d, e);
    case Del(x) =>
      DeleteEffect(s, x);
      WithoutAddsNoOrder(s.lru, x, d, e);
    case Clear => EmptyEffect(f, s);
  }

  lemma LastInOrder<E(!new)>(q: seq<E>, x: E, d: E, e: E)
    requires x !in q && Before(q + [x], d, e)
    ensures d != x && (e == x || Before(q, d, e))
  {
    var i, j :| 0 <= i < j < |q + [x]| && (q + [x])[i] == d && (q + [x])[j] == e;
    assert q[i] == d;
  }

  /** The LRU list is ordered by last release; with InsertKeeps, which evicts a prefix of it, so is eviction. */
  lemma {:induction false} ListIsInReleaseOrder<E(!new)>(f: Fns, run: seq<Cache<E>>, ops: seq<Op<E>>, n: nat, d: E,
                                                  e: E)
    requires IsRun(f, run, ops) && n < |run| && Before(run[n].lru, d, e)
    ensures LastRelease(run, ops, n, d) < LastRelease(run, ops, n, e)
  {
    if n > 0 {
      AlwaysInv(f, run, ops, n - 1);
      assert StepAt(f, run, ops, n - 1);
      StepOnOrder(f, run[n - 1], ops[n - 1], d, e);
      if Before(run[n - 1].lru, d, e) { ListIsInReleaseOrder(f, run, ops, n - 1, d, e); }
    }
  }

  // ---------- References ----------

  /** Nobody's key, weight or reference count changes. */
  ghost predicate SameRefs<E(!new)>(s: Cache<E>, s': Cache<E>) {
    && s'.rec.Keys == s.rec.Keys
    && forall x :: x in s.rec ==>
         s'.rec[x].refs == s.rec[x].refs && s'.rec[x].key == s.rec[x].key && s'.rec[x].weight == s.rec[x].weight
  }

  lemma DeleteRefs<E(!new)>(s: Cache<E>, e: E)
    requires e in s.rec
    ensures SameRefs(s, Delete(s, e))
  {
  }

  lemma {:induction false} EvictRefs<E(!new)>(s: Cache<E>, w: nat)
    ensures SameRefs(s, Evict(s, w).0)
    decreases |s.lru|
  {
    if s.weight + w > s.maxWeight && s.lru != [] && s.lru[0] in s.rec {
      var s1 := Delete(s, s.lru[0]);
      DeleteRefs(s, s.lru[0]);
      if |s1.lru| < |s.lru| { EvictRefs(s1, w); }
    }
  }

  lemma InsertRefs<E(!new)>(f: Fns, s: Cache<E>, e: E)
    requires e in s.rec
    ensures var (s', ok) := Insert(f, s, e);
      && s'.rec.Keys == s.rec.Keys
      && forall x :: x in s.rec ==>
           && s'.rec[x].refs == s.rec[x].refs + (if ok && x == e then 1 else 0)
           && s'.rec[x].key == s.rec[x].key && s'.rec[x].weight == s.rec[x].weight
  {
    EvictRefs(s, s.rec[e].weight);
    var (s1, room) := Evict(s, s.rec[e].weight);
    if room && s1.lru != [] && s1.lru[0] in s1.rec { DeleteRefs(s1, s1.lru[0]); }
    var (s2, ok) := MakeRoom(s, s.rec[e].weight);
    assert SameRefs(s, s2);
    if ok && |s2.chains| > 0 {
      var dup := View(f, s2, s2.rec[e].key);
      if dup.Some? && dup.value in s2.rec { DeleteRefs(s2, dup.value); }
    }
  }

  lemma {:induction false} DeleteAllRefs<E(!new)>(s: Cache<E>, q: seq<E>)
    ensures SameRefs(s, DeleteAll(s, q))
    decreases |q|
  {
    if q != [] {
      if q[0] in s.rec { DeleteRefs(s, q[0]); }
      DeleteAllRefs(if q[0] in s.rec then Delete(s, q[0]) else s, q[1..]);
    }
  }

  lemma {:induction false} EmptyRefs<E(!new)>(s: Cache<E>, b: nat)
    ensures SameRefs(s, EmptyFrom(s, b))
    decreases |s.chains| - b
  {
    if b < |s.chains| {
      DeleteAllRefs(s, s.chains[b]);
      var s1 := DeleteAll(s, s.chains[b]);
      if |s1.chains| == |s.chains| { EmptyRefs(s1, b + 1); }
    }
  }

  lemma ReleaseRefs<E(!new)>(s: Cache<E>, e: E)
    requires e in s.rec
    ensures var s' := Release(s, e);
      && s'.rec.Keys == s.rec.Keys
      && forall x :: x in s.rec ==>
           && s'.rec[x].refs == (if x == e && s.rec[x].refs > 0 then s.rec[x].refs - 1 else s.rec[x].refs)
           && s'.rec[x].key == s.rec[x].key && s'.rec[x].weight == s.rec[x].weight
  {
  }

  /** The call gives its caller a reference to e. */
  predicate Gains<E(==, !new)>(f: Fns, s: Cache<E>, op: Op<E>, e: E) {
    (op == Ins(e) && Succeeds(f, s, e)) || (op.Look? && View(f, s, op.k) == Some(e))
  }

  /**
   * Creation starts without references, a successful insertion and a hit add one, a release takes one away as long as
   * there is one, and nothing else changes how many an entry has; nor its key or weight.
   */
  lemma RefsStep<E(!new)>(f: Fns, s: Cache<E>, op: Op<E>, e: E)
    requires Inv(f, s) && Enabled(s, op) && e in Next(f, s, op).rec
    ensures var r' := Next(f, s, op).rec[e];
      if op.Create? && op.e == e then r'.refs == 0 && r'.key == op.key && r'.weight == op.weight
      else
        && e in s.rec && r'.key == s.rec[e].key && r'.weight == s.rec[e].weight
        && r'.refs == (if Gains(f, s, op, e) then s.rec[e].refs + 1
                       else if op == Rel(e) && s.rec[e].refs > 0 then s.rec[e].refs - 1
                       else s.rec[e].refs)
  {
    match op
    case Create(_, _, _) =>
    case Ins(x) => InsertRefs(f, s, x);
    case Look(k) => FoundIsChained(f, s, k);
    case Rel(x) => ReleaseRefs(s, x);
    case Del(x) => DeleteRefs(s, x);
    case Clear => EmptyRefs(s, 0);
  }

  /** Successful insertions and hits of e less its releases, since it was created last. */
  ghost function Balance<E(!new)>(f: Fns, run: seq<Cache<E>>, ops: seq<Op<E>>, n: nat, e: E): nat
    requires n <= |ops| && |run| == |ops| + 1
  {
    if n == 0 then 0
    else
      var b, op := Balance(f, run, ops, n - 1, e), ops[n - 1];
      if op.Create? && op.e == e then 0
      else if Gains(f, run[n - 1], op, e) then b + 1
      else if op == Rel(e) && b > 0 then b - 1
      else b
  }

  /** In every run that is an entry's reference count; so it can be evicted exactly when they balance. */
  lemma {:induction false} RefsAreBalanced<E(!new)>(f: Fns, run: seq<Cache<E>>, ops: seq<Op<E>>, n: nat, e: E)
    requires IsRun(f, run, ops) && n < |run| && e in run[n].rec
    ensures run[n].rec[e].refs == Balance(f, run, ops, n, e)
    ensures e in run[n].lru <==> Chained(run[n].rec, e) && Balance(f, run, ops, n, e) == 0
  {
    AlwaysInv(f, run, ops, n);
    if n > 0 {
      AlwaysInv(f, run, ops, n - 1);
      assert StepAt(f, run, ops, n - 1);
      RefsStep(f, run[n - 1], ops[n - 1], e);
      if e in run[n - 1].rec { RefsAreBalanced(f, run, ops, n - 1, e); }
    }
  }

  /** In every run an entry has the key and the weight with which it was created last. */
  lemma {:induction false} AsCreated<E(!new)>(f: Fns, run: seq<Cache<E>>, ops: seq<Op<E>>, n: nat, e: E)
    returns (i: nat)
    requires IsRun(f, run, ops) && n < |run| && e in run[n].rec
    ensures i < n && ops[i] == Create(e, run[n].rec[e].key, run[n].rec[e].weight)
    ensures forall j :: i < j < n ==> !(ops[j].Create? && ops[j].e == e)
  {
    if n == 0 {
      assert false;
    } else {
      AlwaysInv(f, run, ops, n - 1);
      assert StepAt(f, run, ops, n - 1);
      RefsStep(f, run[n - 1], ops[n - 1], e);
      if ops[n - 1].Create? && ops[n - 1].e == e {
        i := n - 1;
      } else {
        i := AsCreated(f, run, ops, n - 1, e);
      }
    }
  }

  /** In every run a chained entry is in the chain of its key's hash. */
  lemma HashedHome<E(!new)>(f: Fns, run: seq<Cache<E>>, ops: seq<Op<E>>, n: nat, e: E)
    requires IsRun(f, run, ops) && n < |run| && Chained(run[n].rec, e)
    ensures var s := run[n];
      |s.chains| > 0 && s.rec[e].home == Some(f.hash(s.rec[e].key) % |s.chains|) && e in s.chains[s.rec[e].home.value]
  {
    AlwaysInv(f, run, ops, n);
  }

  // ---------- Statistics ----------

  /** How many of the first n calls are lookups, hits, and successful insertions. */
  ghost function Calls<E(!new)>(f: Fns, run: seq<Cache<E>>, ops: seq<Op<E>>, n: nat): (nat, nat, nat)
    requires n <= |ops| && |run| == |ops| + 1
  {
    if n == 0 then (0, 0, 0)
    else
      var (lookups, hits, inserts) := Calls(f, run, ops, n - 1);
      var s, op := run[n - 1], ops[n - 1];
      (lookups + if op.Look? then 1 else 0,
       hits + if op.Look? && View(f, s, op.k).Some? then 1 else 0,
       inserts + if op.Ins? && Succeeds(f, s, op.e) then 1 else 0)
  }

  predicate SameCounters<E(==)>(s: Cache<E>, s': Cache<E>) {
    s'.lookups == s.lookups && s'.hits == s.hits && s'.inserts == s.inserts
  }

  lemma {:induction false} EvictCounters<E(!new)>(s: Cache<E>, w: nat)
    ensures SameCounters(s, Evict(s, w).0)
    decreases |s.lru|
  {
    if s.weight + w > s.maxWeight && s.lru != [] && s.lru[0] in s.rec {
      var s1 := Delete(s, s.lru[0]);
      if |s1.lru| < |s.lru| { EvictCounters(s1, w); }
    }
  }

  lemma {:induction false} DeleteAllCounters<E(!new)>(s: Cache<E>, q: seq<E>)
    ensures SameCounters(s, DeleteAll(s, q))
    decreases |q|
  {
    if q != [] { DeleteAllCounters(if q[0] in s.rec then Delete(s, q[0]) else s, q[1..]); }
  }

  lemma {:induction false} EmptyCounters<E(!new)>(s: Cache<E>, b: nat)
    ensures SameCounters(s, EmptyFrom(s, b))
    decreases |s.chains| - b
  {
    if b < |s.chains| {
      DeleteAllCounters(s, s.chains[b]);
      var s1 := DeleteAll(s, s.chains[b]);
      if |s1.chains| == |s.chains| { EmptyCounters(s1, b + 1); }
    }
  }

  lemma InsertCounters<E(!new)>(f: Fns, s: Cache<E>, e: E)
    requires e in s.rec
    ensures var (s', ok) := Insert(f, s, e);
      && s'.lookups == s.lookups && s'.hits == s.hits && s'.inserts == s.inserts + if ok then 1 else 0
  {
    EvictCounters(s, s.rec[e].weight);
    var (s2, room) := MakeRoom(s, s.rec[e].weight);
    assert SameCounters(s, s2);
  }

  lemma ReleaseCounters<E(!new)>(s: Cache<E>, e: E)
    requires e in s.rec
    ensures SameCounters(s, Release(s, e))
  {
  }

  lemma CountersStep<E(!new)>(f: Fns, s: Cache<E>, op: Op<E>)
    requires Inv(f, s) && Enabled(s, op)
    ensures var s' := Next(f, s, op);
      && s'.lookups == s.lookups + (if op.Look? then 1 else 0)
      && s'.hits == s.hits + (if op.Look? && View(f, s, op.k).Some? then 1 else 0)
      && s'.inserts == s.inserts + if op.Ins? && Succeeds(f, s, op.e) then 1 else 0
  {
    match op
    case Create(_, _, _) =>
    case Ins(e) => InsertCounters(f, s, e);
    case Look(k) => FoundIsChained(f, s, k);
    case Rel(e) => ReleaseCounters(s, e);
    case Del(_) =>
    case Clear => EmptyCounters(s, 0);
  }

  /** In every run the counters tell how many lookups, hits and insertions there were, and how many are gone again. */
  lemma {:induction false} CountersAreRight<E(!new)>(f: Fns, run: seq<Cache<E>>, ops: seq<Op<E>>, n: nat)
    requires IsRun(f, run, ops) && n < |run|
    ensures (run[n].lookups, run[n].hits, run[n].inserts) == Calls(f, run, ops, n)
    ensures run[n].deletes == run[n].inserts - run[n].size && run[n].size == TotalLen(run[n].chains)
  {
    SizeIsRight(f, run, ops, n);
    if n > 0 {
      CountersAreRight(f, run, ops, n - 1);
      CountedStep(f, run, ops, n - 1);
    }
  }

  lemma SizeIsRight<E(!new)>(f: Fns, run: seq<Cache<E>>, ops: seq<Op<E>>, n: nat)
    requires IsRun(f, run, ops) && n < |run|
    ensures run[n].deletes == run[n].inserts - run[n].size && run[n].size == TotalLen(run[n].chains)
    ensures n == 0 ==> run[n].lookups == 0 && run[n].hits == 0 && run[n].inserts == 0
  {
    AlwaysInv(f, run, ops, n);
  }

  lemma CountedStep<E(!new)>(f: Fns, run: seq<Cache<E>>, ops: seq<Op<E>>, n: nat)
    requires IsRun(f, run, ops) && n < |ops|
    ensures var s, s', op := run[n], run[n + 1], ops[n];
      && s'.lookups == s.lookups + (if op.Look? then 1 else 0)
      && s'.hits == s.hits + (if op.Look? && View(f, s, op.k).Some? then 1 else 0)
      && s'.inserts == s.inserts + if op.Ins? && Succeeds(f, s, op.e) then 1 else 0
  {
    AlwaysInv(f, run, ops, n);
    assert StepAt(f, run, ops, n);
    CountersStep(f, run[n], ops[n]);
  }
}
