/**
 * The timeout heap as a numbered layout: position i holds a member, its children are at 2i and 2i+1.
 * The functions follow heap_insert and heap_delete of sched.c on that view; the lemmas say what they keep.
 */
module HeapModel {

  type Layout<T> = map<int, T>

  ghost predicate Complete<T>(at: Layout<T>, n: int) {
    n >= 0 && forall i :: i in at <==> 1 <= i <= n
  }

  ghost predicate Injective<T>(at: Layout<T>) {
    forall i, j :: i in at && j in at && at[i] == at[j] ==> i == j
  }

  /** The deadline of a thread. */
  ghost function Due<T>(due: map<T, int>, t: T): int {
    if t in due then due[t] else 0
  }

  /** Position j does not time out before its parent. */
  ghost predicate UpOk<T>(at: Layout<T>, due: map<T, int>, j: int) {
    j in at && j / 2 in at ==> Due(due, at[j / 2]) <= Due(due, at[j])
  }

  ghost predicate Ordered<T>(at: Layout<T>, due: map<T, int>) {
    forall j {:trigger UpOk(at, due, j)} :: j > 1 ==> UpOk(at, due, j)
  }

  ghost function Members<T>(at: Layout<T>): set<T> {
    set i | i in at :: at[i]
  }

  /** A left-complete min-heap of n distinct members. */
  ghost predicate IsHeap<T>(at: Layout<T>, due: map<T, int>, n: int) {
    Complete(at, n) && Injective(at) && Ordered(at, due)
  }

  /**
   * The layout and the carried member when heap_insert reaches position i: on the way from the root every
   * member that times out later than the carried one was replaced by it and carried on.
   */
  ghost function Walk<T>(at: Layout<T>, due: map<T, int>, i: int, c: T): (r: (Layout<T>, T))
    ensures r.0.Keys == at.Keys
  {
    if i <= 1 then (at, c)
    else
      var (a, x) := Walk(at, due, i / 2, c);
      Settle(a, due, i / 2, x)
  }

  /** One stop of that walk: the earlier of the carried member and the one at position i stays there. */
  ghost function Settle<T>(a: Layout<T>, due: map<T, int>, i: int, x: T): (r: (Layout<T>, T))
    ensures r.0.Keys == a.Keys
  {
    if i in a && Due(due, x) < Due(due, a[i]) then (a[i := x], a[i]) else (a, x)
  }

  ghost function Insert<T>(at: Layout<T>, due: map<T, int>, target: int, c: T): Layout<T> {
    var (a, x) := Walk(at, due, target, c);
    a[target := x]
  }

  /** The child that times out first; the right one on a tie. */
  ghost function Younger<T>(at: Layout<T>, due: map<T, int>, i: int): int
    requires 2 * i in at
  {
    if 2 * i + 1 !in at then 2 * i
    else if Due(due, at[2 * i]) < Due(due, at[2 * i + 1]) then 2 * i
    else 2 * i + 1
  }

  ghost function Exchange<T>(at: Layout<T>, i: int, j: int): Layout<T>
    requires i in at && j in at
  {
    at[i := at[j]][j := at[i]]
  }

  ghost function SiftDown<T>(at: Layout<T>, due: map<T, int>, n: int, i: int): Layout<T>
    decreases n - i
  {
    if !(1 <= i < 2 * i <= n) || i !in at || 2 * i !in at then at
    else
      var y := Younger(at, due, i);
      if Due(due, at[i]) > Due(due, at[y]) then SiftDown(Exchange(at, i, y), due, n, y) else at
  }

  /** heap_delete of the member at position k. */
  ghost function Remove<T>(at: Layout<T>, due: map<T, int>, n: int, k: int): Layout<T>
    requires n in at
  {
    if k == n then at - {n} else SiftDown(Insert(at - {n}, due, k, at[n]), due, n - 1, k)
  }

  /** What reaching position i leaves alone and what it guarantees about the carried member. */
  lemma {:induction false} WalkKeeps<T>(at: Layout<T>, due: map<T, int>, n: int, i: int, c: T)
    requires IsHeap(at, due, n) && 1 <= i <= n + 1 && c !in Members(at)
    ensures var (a, x) := Walk(at, due, i, c);
      && IsHeap(a, due, n)
      && x !in Members(a) && Members(a) + {x} == Members(at) + {c}
      && (forall k :: k in at && k >= i ==> a[k] == at[k])
      && (forall k :: k in at ==> Due(due, a[k]) <= Due(due, at[k]))
      && (i > 1 ==> Due(due, a[i / 2]) <= Due(due, x))
  {
    if i > 1 {
      WalkKeeps(at, due, n, i / 2, c);
      var (a, x) := Walk(at, due, i / 2, c);
      assert UpOk(a, due, i / 2);
      if Due(due, x) < Due(due, a[i / 2]) {
        StepKeeps(a, due, n, i / 2, x);
      }
    }
  }

  /** What the pointer operations rely on while they compute the walk w position by position. */
  ghost predicate Walkable<T>(w: int -> (Layout<T>, T), at: Layout<T>, due: map<T, int>, target: int, c: T) {
    && (forall k :: 1 <= k < target ==> k in at)
    && w(1) == (at, c)
    && (forall i {:trigger w(i)} :: 1 <= i <= target ==>
          var (a, x) := w(i);
          a.Keys == at.Keys && (forall k :: k in a ==> a[k] != x) && (target in at ==> a[target] == at[target]))
    && (forall i {:trigger Settle(w(i).0, due, i, w(i).1)} :: 1 <= i ==>
          w(2 * i) == w(2 * i + 1) == Settle(w(i).0, due, i, w(i).1))
  }

  /** The walk position by position. */
  ghost function Walking<T>(at: Layout<T>, due: map<T, int>, c: T): int -> (Layout<T>, T) {
    i => Walk(at, due, i, c)
  }

  lemma {:induction false} HeapIsWalkable<T>(at: Layout<T>, due: map<T, int>, n: int, target: int, c: T)
    requires IsHeap(at, due, n) && 1 <= target <= n + 1 && c !in Members(at)
    ensures Walkable(Walking(at, due, c), at, due, target, c)
  {
    forall i | 1 <= i <= target
      ensures var (a, x) := Walk(at, due, i, c);
        (forall k :: k in a ==> a[k] != x) && (target in at ==> target in a && a[target] == at[target])
    {
      WalkSpares(at, due, n, i, target, c);
    }
    forall i | 1 <= i ensures Walk(at, due, 2 * i, c) == Walk(at, due, 2 * i + 1, c) {
      assert (2 * i + 1) / 2 == i;
    }
  }

  lemma WalkSpares<T>(at: Layout<T>, due: map<T, int>, n: int, i: int, target: int, c: T)
    requires IsHeap(at, due, n) && 1 <= i <= target <= n + 1 && c !in Members(at)
    ensures var (a, x) := Walk(at, due, i, c);
      (forall k :: k in a ==> a[k] != x) && (target in at ==> target in a && a[target] == at[target])
  {
    WalkKeeps(at, due, n, i, c);
  }

  lemma StepKeeps<T>(a: Layout<T>, due: map<T, int>, n: int, i: int, x: T)
    requires IsHeap(a, due, n) && i in a && x !in Members(a)
    requires Due(due, x) < Due(due, a[i]) && (i > 1 ==> Due(due, a[i / 2]) <= Due(due, x))
    ensures IsHeap(a[i := x], due, n)
    ensures a[i] !in Members(a[i := x]) && Members(a[i := x]) + {a[i]} == Members(a) + {x}
  {
    var b := a[i := x];
    ReplaceMember(a, i, x);
    assert Injective(b);
    forall j | j > 1 ensures UpOk(b, due, j) {
      assert UpOk(a, due, j);
    }
  }

  lemma ReplaceMember<T>(a: Layout<T>, i: int, x: T)
    ensures i in a ==> Members(a[i := x]) + {a[i]} == Members(a) + {x}
    ensures i !in a ==> Members(a[i := x]) == Members(a) + {x}
    ensures Injective(a) && x !in Members(a) && i in a ==> a[i] !in Members(a[i := x])
    ensures Injective(a) && x !in Members(a) ==> Injective(a[i := x])
  {
    var b := a[i := x];
    assert b[i] == x;
    forall m | m in Members(a) ensures m in Members(b) || (i in a && m == a[i]) {
      var k :| k in a && a[k] == m;
      assert k == i || b[k] == m;
    }
  }

  /** Insertion at the next free position keeps the heap and adds exactly the new member. */
  lemma InsertKeepsHeap<T>(at: Layout<T>, due: map<T, int>, n: int, c: T)
    requires IsHeap(at, due, n) && c !in Members(at)
    ensures var a := Insert(at, due, n + 1, c);
      IsHeap(a, due, n + 1) && Members(a) == Members(at) + {c}
  {
    WalkKeeps(at, due, n, n + 1, c);
    var (w, x) := Walk(at, due, n + 1, c);
    ReplaceMember(w, n + 1, x);
    var a := w[n + 1 := x];
    forall j | j > 1 ensures UpOk(a, due, j) {
      assert UpOk(w, due, j);
    }
  }

  /** A heap except that the member at position i may time out after its children. */
  ghost predicate HeapBut<T>(at: Layout<T>, due: map<T, int>, n: int, i: int) {
    && Complete(at, n) && Injective(at)
    && (forall j {:trigger UpOk(at, due, j)} :: j > 1 && j / 2 != i ==> UpOk(at, due, j))
    && (i > 1 && i / 2 in at ==> forall j :: j in at && j / 2 == i ==> Due(due, at[i / 2]) <= Due(due, at[j]))
  }

  lemma {:induction false} SiftDownRestores<T>(at: Layout<T>, due: map<T, int>, n: int, i: int)
    requires HeapBut(at, due, n, i) && 1 <= i <= n
    ensures IsHeap(SiftDown(at, due, n, i), due, n)
    ensures Members(SiftDown(at, due, n, i)) == Members(at)
    decreases n - i
  {
    if 2 * i !in at {
      assert 2 * i + 1 !in at;
    } else {
      var y := Younger(at, due, i);
      if Due(due, at[i]) > Due(due, at[y]) {
        ExchangeKeeps(at, due, n, i, y);
        SiftDownRestores(Exchange(at, i, y), due, n, y);
      } else {
        forall j | j > 1 ensures UpOk(at, due, j) {
          if j / 2 == i { assert j == 2 * i || j == 2 * i + 1; }
        }
      }
    }
  }

  lemma ExchangeKeeps<T>(at: Layout<T>, due: map<T, int>, n: int, i: int, y: int)
    requires HeapBut(at, due, n, i) && i in at && i >= 1 && 2 * i in at
    requires y == Younger(at, due, i) && Due(due, at[i]) > Due(due, at[y])
    ensures HeapBut(Exchange(at, i, y), due, n, y)
    ensures Members(Exchange(at, i, y)) == Members(at)
  {
    var b := Exchange(at, i, y);
    forall m | m in Members(at) ensures m in Members(b) {
      var k :| k in at && at[k] == m;
      assert b[if k == i then y else if k == y then i else k] == m;
    }
    forall j | j > 1 && j / 2 != y ensures UpOk(b, due, j) {
      assert j / 2 != i ==> UpOk(at, due, j);
      assert j / 2 == i ==> j == 2 * i || j == 2 * i + 1;
    }
    forall j | j in b && j / 2 == y ensures Due(due, b[y / 2]) <= Due(due, b[j]) {
      assert UpOk(at, due, j);
    }
  }

  lemma RemoveLastKeepsHeap<T>(at: Layout<T>, due: map<T, int>, n: int)
    requires IsHeap(at, due, n) && n in at
    ensures IsHeap(at - {n}, due, n - 1) && Members(at - {n}) == Members(at) - {at[n]}
    ensures forall i :: i in at - {n} ==> at[i] != at[n]
  {
    var rest := at - {n};
    var last := at[n];
    assert IsHeap(rest, due, n - 1) by {
      forall j | j > 1 ensures UpOk(rest, due, j) { assert UpOk(at, due, j); }
    }
    assert Members(rest) == Members(at) - {last} by {
      forall m | m in Members(at) && m != last ensures m in Members(rest) {
        var i :| i in at && at[i] == m;
        assert rest[i] == m;
      }
    }
  }

  /**
   * Deleting any member leaves a left-complete min-heap of the others, whether the last member that fills
   * the gap moves up or down.
   */
  lemma RemoveKeepsHeap<T>(at: Layout<T>, due: map<T, int>, n: int, k: int)
    requires IsHeap(at, due, n) && 1 <= k <= n
    ensures var a := Remove(at, due, n, k);
      IsHeap(a, due, n - 1) && Members(a) == Members(at) - {at[k]}
  {
    RemoveLastKeepsHeap(at, due, n);
    if k < n { RefillKeepsHeap(at - {n}, due, n - 1, k, at[n]); }
  }

  lemma RefillKeepsHeap<T>(at: Layout<T>, due: map<T, int>, n: int, k: int, last: T)
    requires IsHeap(at, due, n) && 1 <= k <= n && last !in Members(at)
    ensures var a := SiftDown(Insert(at, due, k, last), due, n, k);
      IsHeap(a, due, n) && Members(a) == Members(at) - {at[k]} + {last}
  {
    FillKeeps(at, due, n, k, last);
    SiftDownRestores(Insert(at, due, k, last), due, n, k);
  }

  /** Filling position k of a heap from above: only the new occupant's children may be out of order. */
  lemma FillKeeps<T>(at: Layout<T>, due: map<T, int>, n: int, k: int, c: T)
    requires IsHeap(at, due, n) && 1 <= k <= n && c !in Members(at)
    ensures var a := Insert(at, due, k, c);
      HeapBut(a, due, n, k) && Members(a) == Members(at) - {at[k]} + {c}
  {
    WalkKeeps(at, due, n, k, c);
    var (w, x) := Walk(at, due, k, c);
    ReplaceMember(w, k, x);
    var a := w[k := x];
    forall j | j > 1 && j / 2 != k ensures UpOk(a, due, j) {
      assert UpOk(w, due, j);
    }
    forall j | j in a && j / 2 == k && k > 1 ensures Due(due, a[k / 2]) <= Due(due, a[j]) {
      assert UpOk(at, due, j) && UpOk(at, due, k);
    }
  }

  lemma HeapKeys<T>(at: Layout<T>, due: map<T, int>, n: int, c: T)
    requires Complete(at, n - 1) && n >= 1
    ensures Complete(Insert(at, due, n, c), n)
  {
  }

  /** Children of the filled position are where they were, so the filler can take them over. */
  lemma InsertLeavesBelow<T>(at: Layout<T>, due: map<T, int>, n: int, k: int, c: T, j: int)
    requires IsHeap(at, due, n) && 1 <= k <= n && c !in Members(at) && k < j
    ensures var a := Insert(at, due, k, c); a.Keys == at.Keys && (j in at ==> a[j] == at[j])
  {
    WalkKeeps(at, due, n, k, c);
  }

  /** Only the members' deadlines matter. */
  lemma SameDues<T>(at: Layout<T>, due: map<T, int>, due': map<T, int>, n: int)
    requires IsHeap(at, due, n) && forall t :: t in Members(at) ==> Due(due, t) == Due(due', t)
    ensures IsHeap(at, due', n)
  {
    forall j | j > 1 ensures UpOk(at, due', j) {
      assert UpOk(at, due, j);
    }
  }

  /** The root times out first. */
  lemma {:induction false} RootIsEarliest<T>(at: Layout<T>, due: map<T, int>, n: int, j: int)
    requires IsHeap(at, due, n) && 1 <= j <= n
    ensures Due(due, at[1]) <= Due(due, at[j])
    decreases j
  {
    if j > 1 {
      assert UpOk(at, due, j);
      RootIsEarliest(at, due, n, j / 2);
    }
  }

  function Elements<T>(s: seq<T>): set<T> {
    set i | 0 <= i < |s| :: s[i]
  }

  /** What a clock check at `now` must wake, in what order: every member due by then, once, earliest first. */
  ghost predicate Expiry<T>(members: set<T>, due: map<T, int>, now: int, woken: seq<T>) {
    && Elements(woken) == (set t | t in members && Due(due, t) <= now)
    && (forall i, j :: 0 <= i < j < |woken| ==> woken[i] != woken[j] && Due(due, woken[i]) <= Due(due, woken[j]))
  }

  /** Waking the earliest of the remaining members one by one, up to `now`: `left` is what remains of `all`. */
  ghost predicate Waking<T>(all: set<T>, left: set<T>, due: map<T, int>, now: int, woken: seq<T>)
    decreases |woken|
  {
    if woken == [] then left == all
    else
      var x := woken[|woken| - 1];
      && x !in left && Due(due, x) <= now && (forall t :: t in left ==> Due(due, x) <= Due(due, t))
      && Waking(all, left + {x}, due, now, woken[..|woken| - 1])
  }

  lemma WakeNext<T>(all: set<T>, at: Layout<T>, due: map<T, int>, n: int, now: int, woken: seq<T>)
    requires Waking(all, Members(at), due, now, woken) && IsHeap(at, due, n) && n > 0 && Due(due, at[1]) <= now
    ensures Waking(all, Members(at) - {at[1]}, due, now, woken + [at[1]])
  {
    var r := at[1];
    assert (woken + [r])[..|woken|] == woken && Members(at) - {r} + {r} == Members(at);
    forall t | t in Members(at) ensures Due(due, r) <= Due(due, t) {
      var j :| j in at && at[j] == t;
      RootIsEarliest(at, due, n, j);
    }
  }

  lemma {:induction false} WakingInOrder<T>(all: set<T>, left: set<T>, due: map<T, int>, now: int, woken: seq<T>)
    requires Waking(all, left, due, now, woken)
    ensures left + Elements(woken) == all && left !! Elements(woken)
    ensures forall t :: t in woken ==> Due(due, t) <= now && t in all
    ensures forall i, j :: 0 <= i < j < |woken| ==> woken[i] != woken[j] && Due(due, woken[i]) <= Due(due, woken[j])
    ensures forall t, m :: t in woken && m in left ==> Due(due, t) <= Due(due, m)
    decreases |woken|
  {
    if woken != [] {
      var x, before := woken[|woken| - 1], woken[..|woken| - 1];
      WakingInOrder(all, left + {x}, due, now, before);
      assert woken == before + [x];
      assert Elements(woken) == Elements(before) + {x};
      forall i, j | 0 <= i < j < |woken| ensures woken[i] != woken[j] && Due(due, woken[i]) <= Due(due, woken[j]) {
        assert woken[i] == before[i] && before[i] in Elements(before);
      }
    }
  }

  lemma WakingDone<T>(all: set<T>, at: Layout<T>, due: map<T, int>, n: int, now: int, woken: seq<T>)
    requires Waking(all, Members(at), due, now, woken) && IsHeap(at, due, n)
    requires n > 0 ==> Due(due, at[1]) > now
    ensures Expiry(all, due, now, woken)
    ensures Members(at) == set t | t in all && Due(due, t) > now
  {
    WakingInOrder(all, Members(at), due, now, woken);
    forall t | t in Members(at) ensures Due(due, t) > now {
      var j :| j in at && at[j] == t;
      RootIsEarliest(at, due, n, j);
    }
  }

  lemma Appended<T>(q: seq<T>, w: seq<T>, x: T)
    ensures q + w + [x] == q + (w + [x])
    ensures forall t :: t in w + [x] <==> t in w || t == x
  {
  }
}
