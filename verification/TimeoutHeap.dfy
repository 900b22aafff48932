/** Binary digits of a heap position, as the C code reads them with `>>` and `&`. */
module BinaryPath {

  /** x >> n */
  function Shr(x: nat, n: nat): (r: nat)
    ensures r <= x
    ensures n > 0 && x > 0 ==> r < x
  {
    if n == 0 then x else Shr(x, n - 1) / 2
  }

  /** x & (1 << n) */
  predicate TestBit(x: nat, n: nat) {
    Shr(x, n) % 2 == 1
  }

  /** The number of binary digits of x: the `while (s) { s >>= 1; bits++; }` loop. */
  method CountBits(x: nat) returns (bits: int)
    ensures x > 0 ==> bits >= 1 && Shr(x, bits - 1) == 1
    ensures x == 0 ==> bits == 0
  {
    var s := x;
    bits := 0;
    while s != 0
      invariant bits >= 0 && s == Shr(x, bits)
      invariant s == 0 && x > 0 ==> bits >= 1 && Shr(x, bits - 1) == 1
      invariant x == 0 ==> bits == 0
    {
      s := s / 2;
      bits := bits + 1;
    }
  }
}

/**
 * The timeout heap of sched.c in its own form: a binary tree held in the left/right pointers of the threads
 * themselves, without parent links. The ghost map `at` numbers its nodes; every method is tied to HeapModel on it.
 */
module TimeoutHeap {
  import opened BinaryPath
  import opened HeapModel
  import opened ThreadStates

  class Thread {
    var due: int
    var left: Thread?
    var right: Thread?
    var heapIndex: int
    var state: ThreadState
    var onSleepq: bool
    var timedOut: bool

    /** The record of a new thread, with everything else cleared. */
    constructor ()
      ensures state == RUNNABLE && left == null && right == null && !onSleepq && !timedOut
    {
      due, heapIndex := 0, 0;
      left, right := null, null;
      state, onSleepq, timedOut := RUNNABLE, false, false;
    }
  }

  /** A `_st_thread_t **`: the root variable or a child field of a node. */
  datatype Slot = Root | LeftOf(node: Thread) | RightOf(node: Thread)

  ghost predicate Absent(at: Layout<Thread>, t: Thread)
    ensures Absent(at, t) <==> t !in Members(at)
  {
    forall i :: i in at ==> at[i] != t
  }

  /** The node numbered i, or NULL. */
  ghost function NodeAt(at: Layout<Thread>, i: int): Thread? {
    if i in at then at[i] else null
  }

  ghost function SlotAt(at: Layout<Thread>, i: int): Slot {
    if i <= 1 || i / 2 !in at then Root else if i % 2 == 0 then LeftOf(at[i / 2]) else RightOf(at[i / 2])
  }

  ghost predicate LinkedAt(at: Layout<Thread>, i: int)
    requires i in at
    reads {at[i]}`left, {at[i]}`right
  {
    at[i].left == NodeAt(at, 2 * i) && at[i].right == NodeAt(at, 2 * i + 1)
  }

  class Vp {
    var sleepQ: Thread?
    var sleepqSize: int
    var lastClock: int
    var runQ: seq<Thread>
    ghost var at: Layout<Thread>
    ghost var threads: set<Thread>  // every thread of this virtual processor
    ghost var dues: map<Thread, int>  // their deadlines

    ghost predicate DuesAre(due: map<Thread, int>)
      reads `threads, threads`due
    {
      due.Keys == threads && forall t :: t in threads ==> t.due == due[t]
    }

    /** heap_index is the position. */
    ghost predicate Numbered()
      reads `at, `threads, threads`heapIndex
    {
      && (forall i :: i in at ==> i >= 1 && at[i] in threads)
      && (forall i {:trigger at[i].heapIndex} :: i in at ==> at[i].heapIndex == i)
    }

    ghost predicate Linked(hole: int)
      reads `sleepQ, `at, `threads, threads`left, threads`right
    {
      && sleepQ == NodeAt(at, 1)
      && (forall i {:trigger LinkedAt(at, i)} :: i in at && i != hole ==> at[i] in threads && LinkedAt(at, i))
    }

    ghost predicate Valid()
      reads `sleepQ, `sleepqSize, `at, `dues, `threads
      reads threads`left, threads`right, threads`heapIndex, threads`due, threads`onSleepq
    {
      && Numbered() && Linked(0) && DuesAre(dues) && IsHeap(at, dues, sleepqSize)
      && forall t :: t in threads ==> (t.onSleepq <==> t in Members(at))
    }

    /** st_init: no sleepers, and no threads yet */
    constructor (clock: int)
      ensures Valid() && lastClock == clock && at == map[] && threads == {} && dues == map[]
    {
      sleepQ, sleepqSize, lastClock, runQ := null, 0, clock, [];
      at, threads, dues := map[], {}, map[];
    }

    /** A new thread belongs to this virtual processor; it does not sleep. */
    method Enrol(thread: Thread)
      requires Valid() && thread !in threads && !thread.onSleepq
      modifies `threads, `dues
      ensures Valid() && threads == old(threads) + {thread} && dues == old(dues)[thread := thread.due]
    {
      ghost var before := dues;
      threads, dues := threads + {thread}, dues[thread := thread.due];
      SameDues(at, before, dues, sleepqSize);
      forall i | i in at ensures LinkedAt(at, i) { assert old(LinkedAt(at, i)); }
    }

    method NewThread() returns (thread: Thread)
      requires Valid()
      modifies `threads, `dues
      ensures Valid() && fresh(thread) && threads == old(threads) + {thread}
      ensures dues == old(dues)[thread := thread.due]
    {
      thread := new Thread();
      Enrol(thread);
    }

    function Deref(p: Slot): Thread?
      reads this, if p.Root? then {} else {p.node}
    {
      match p case Root => sleepQ case LeftOf(q) => q.left case RightOf(q) => q.right
    }

    method Store(p: Slot, t: Thread?)
      modifies this`sleepQ, (if p.Root? then {} else {p.node})`left, (if p.Root? then {} else {p.node})`right
      ensures sleepQ == if p.Root? then t else old(sleepQ)
      ensures !p.Root? ==> p.node.left == (if p.LeftOf? then t else old(p.node.left))
                           && p.node.right == (if p.RightOf? then t else old(p.node.right))
    {
      match p
      case Root => sleepQ := t;
      case LeftOf(q) => q.left := t;
      case RightOf(q) => q.right := t;
    }

    lemma SlotHolds(i: int)
      requires Linked(0) && i >= 1 && (i > 1 ==> i / 2 in at)
      ensures Deref(SlotAt(at, i)) == NodeAt(at, i)
    {
      if i > 1 { assert LinkedAt(at, i / 2); }
    }

    /** `*p = thread`, taking over position `index` with the children of the node t it displaces. */
    method Displace(p: Slot, index: int, t: Thread, thread: Thread)
      requires Numbered() && Linked(0) && index in at && (index > 1 ==> index / 2 in at)
      requires p == SlotAt(at, index) && t == at[index]
      requires thread in threads && Absent(at, thread)
      modifies this`sleepQ, this`at, (if p.Root? then {} else {p.node})`left, (if p.Root? then {} else {p.node})`right
      modifies thread`left, thread`right, thread`heapIndex
      ensures at == old(at)[index := thread] && Numbered() && Linked(0)
    {
      assert at[index].heapIndex == index && (index > 1 ==> at[index / 2].heapIndex == index / 2);
      thread.left := t.left;
      thread.right := t.right;
      Store(p, thread);
      thread.heapIndex := index;
      at := at[index := thread];
      forall i | i in at ensures LinkedAt(at, i) {
        assert old(LinkedAt(at, i)) && old(at[i].heapIndex) == i;
      }
    }

    /** The last step of heap_insert: `*p = thread` at the target position, without children. */
    method Place(p: Slot, target: int, thread: Thread)
      requires Numbered() && Linked(0) && target >= 1 && (target > 1 ==> target / 2 in at)
      requires p == SlotAt(at, target)
      requires thread in threads && Absent(at, thread)
      modifies this`sleepQ, this`at, (if p.Root? then {} else {p.node})`left, (if p.Root? then {} else {p.node})`right
      modifies thread`left, thread`right, thread`heapIndex
      ensures at == old(at)[target := thread] && Numbered() && Linked(target)
      ensures thread.left == null && thread.right == null
      ensures p == SlotAt(at, target) && Deref(p) == thread
      ensures target in old(at) ==> var d := old(at)[target]; d.left == old(d.left) && d.right == old(d.right)
    {
      assert target in at ==> at[target].heapIndex == target;
      assert target > 1 ==> at[target / 2].heapIndex == target / 2;
      thread.heapIndex := target;
      Store(p, thread);
      thread.left, thread.right := null, null;
      at := at[target := thread];
      forall i | i in at && i != target ensures LinkedAt(at, i) {
        assert old(LinkedAt(at, i)) && old(at[i].heapIndex) == i;
      }
    }

    /** One stop of the walk: the earlier of the carried thread and the node at `index` stays there. */
    method Swap(p: Slot, index: int, thread: Thread, ghost target: int) returns (carried: Thread)
      requires Numbered() && Linked(0) && index in at && (index > 1 ==> index / 2 in at)
      requires p == SlotAt(at, index) && index < target
      requires thread in threads && Absent(at, thread)
      modifies this`sleepQ, this`at, (if p.Root? then {} else {p.node})`left, (if p.Root? then {} else {p.node})`right
      modifies thread`left, thread`right, thread`heapIndex
      ensures (at, carried) ==
        if thread.due < old(at)[index].due then (old(at)[index := thread], old(at)[index]) else (old(at), thread)
      ensures Numbered() && Linked(0) && carried in threads && p == SlotAt(at, index) && Deref(p) == at[index]
      ensures target in old(at) ==> var d := old(at)[target]; d.left == old(d.left) && d.right == old(d.right)
    {
      assert target in at ==> at[target].heapIndex == target;
      assert index > 1 ==> at[index / 2].heapIndex == index / 2;
      SlotHolds(index);
      var t := Deref(p);
      carried := thread;
      if thread.due < t.due {
        Displace(p, index, t, thread);
        carried := t;
      }
      SlotHolds(index);
    }

    /** The same stop, as a step of the walk w from the layout at0 with thread0. */
    method Stop(p: Slot, index: int, thread: Thread, ghost target: int, ghost thread0: Thread,
                ghost at0: Layout<Thread>, ghost due: map<Thread, int>, ghost w: int -> (Layout<Thread>, Thread))
      returns (carried: Thread)
      requires Numbered() && Linked(0) && DuesAre(due) && Walkable(w, at0, due, target, thread0)
      requires 1 <= index < target && (at, thread) == w(index) && thread in threads && p == SlotAt(at, index)
      modifies this`sleepQ, this`at, threads`left, threads`right, threads`heapIndex
      ensures Numbered() && Linked(0) && DuesAre(due) && carried in threads
      ensures index in at && p == SlotAt(at, index) && Deref(p) == at[index]
      ensures (at, carried) == w(2 * index) == w(2 * index + 1)
      ensures target in at0 ==> var d := at0[target]; d.left == old(d.left) && d.right == old(d.right)
    {
      ghost var next := Settle(w(index).0, due, index, w(index).1);
      carried := Swap(p, index, thread, target);
      assert (at, carried) == next;
    }

    /**
     * heap_insert: stores the thread at the position in its heapIndex, walking the binary digits of that
     * position from the root. The position is free (an addition) or holds a node being deleted, whose own
     * fields stay intact.
     */
    method HeapInsert(thread0: Thread, ghost due: map<Thread, int>, ghost n: int) returns (p: Slot)
      requires Numbered() && Linked(0) && DuesAre(due) && IsHeap(at, due, n)
      requires thread0 in threads && thread0 !in Members(at) && 1 <= thread0.heapIndex <= n + 1
      modifies this`sleepQ, this`at, threads`left, threads`right, threads`heapIndex
      ensures var k := old(thread0.heapIndex);
        && k in at && at == Insert(old(at), due, k, thread0) && Numbered() && Linked(k)
        && at[k].left == null && at[k].right == null
        && p == SlotAt(at, k) && Deref(p) == at[k]
        && (k in old(at) ==> var d := old(at)[k]; d.left == old(d.left) && d.right == old(d.right))
    {
      var target, thread := thread0.heapIndex, thread0;
      ghost var at0 := at;
      HeapIsWalkable(at, due, n, target, thread0);
      p, thread := WalkTo(target, thread0, due, Walking(at0, due, thread0));
      Place(p, target, thread);
    }

    method WalkTo(target: int, thread0: Thread, ghost due: map<Thread, int>, ghost w: int -> (Layout<Thread>, Thread))
      returns (p: Slot, thread: Thread)
      requires Numbered() && Linked(0) && DuesAre(due) && Walkable(w, at, due, target, thread0)
      requires thread0 in threads && 1 <= target
      modifies this`sleepQ, this`at, threads`left, threads`right, threads`heapIndex
      ensures (at, thread) == w(target)
      ensures Numbered() && Linked(0) && thread in threads && Absent(at, thread) && p == SlotAt(at, target)
      ensures target in old(at) ==>
        var d := old(at)[target]; NodeAt(at, target) == d && d.left == old(d.left) && d.right == old(d.right)
    {
      thread := thread0;
      p := Root;
      var bits := CountBits(target);
      var index, bit := 1, bits - 2;
      while bit >= 0
        invariant -1 <= bit && index == Shr(target, bit + 1) && 1 <= index <= target
        invariant (at, thread) == w(index)
        invariant Numbered() && Linked(0) && DuesAre(due) && thread in threads && p == SlotAt(at, index)
        invariant target in old(at) ==> var d := old(at)[target]; d.left == old(d.left) && d.right == old(d.right)
      {
        thread := Stop(p, index, thread, target, thread0, old(at), due, w);
        var t := Deref(p);
        if TestBit(target, bit) {
          p := RightOf(t);
          index := 2 * index + 1;
        } else {
          p := LeftOf(t);
          index := 2 * index;
        }
        bit := bit - 1;
      }
    }

    /** Finds the last heap element from the root by the binary digits of the size. */
    method FindLast() returns (p: Slot)
      requires Linked(0) && Complete(at, sleepqSize) && sleepqSize > 0
      ensures p == SlotAt(at, sleepqSize) && Deref(p) == NodeAt(at, sleepqSize)
    {
      p := Root;
      var bits := CountBits(sleepqSize);
      ghost var index := 1;
      var bit := bits - 2;
      SlotHolds(1);
      while bit >= 0
        invariant -1 <= bit && index == Shr(sleepqSize, bit + 1) && 1 <= index <= sleepqSize
        invariant p == SlotAt(at, index) && Deref(p) == NodeAt(at, index)
      {
        var t := Deref(p);
        p := if TestBit(sleepqSize, bit) then RightOf(t) else LeftOf(t);
        index := Shr(sleepqSize, bit);
        SlotHolds(index);
        bit := bit - 1;
      }
    }

    /** One turn of the sift-down loop: y, a child of t, takes over the slot of t, and t the place of y. */
    method Rotate(p: Slot, t: Thread, y: Thread) returns (p': Slot)
      requires t != y && (p.Root? || (p.node != t && p.node != y)) && (y == t.left || y == t.right)
      modifies this`sleepQ, (if p.Root? then {} else {p.node})`left, (if p.Root? then {} else {p.node})`right
      modifies {t, y}`left, {t, y}`right
      ensures sleepQ == if p.Root? then y else old(sleepQ)
      ensures !p.Root? ==> p.node.left == (if p.LeftOf? then y else old(p.node.left))
                           && p.node.right == (if p.RightOf? then y else old(p.node.right))
      ensures t.left == old(y.left) && t.right == old(y.right)
      ensures y.left == (if y == old(t.left) then t else old(t.left))
      ensures y.right == (if y == old(t.left) then old(t.right) else t)
      ensures p' == if y == old(t.left) then LeftOf(y) else RightOf(y)
    {
      var tl, tr := y.left, y.right;
      Store(p, y);
      if y == t.left {
        y.left, y.right := t, t.right;
        p' := LeftOf(y);
      } else {
        y.left, y.right := t.left, t;
        p' := RightOf(y);
      }
      t.left, t.right := tl, tr;
    }

    /** Before that turn at position i, in the terms of the layout. */
    ghost predicate CanRotate(p: Slot, t: Thread, y: Thread, i: int, j: int)
      reads this, threads
    {
      && Numbered() && Linked(0) && i in at && 2 * i in at && j in at && (j == 2 * i || j == 2 * i + 1)
      && (i > 1 ==> i / 2 in at) && p == SlotAt(at, i) && t == at[i] && y == at[j]
    }

    /** The nodes whose links change: the two, and the one above them. */
    method RotateNear(p: Slot, t: Thread, y: Thread, ghost i: int, ghost j: int, ghost b: Layout<Thread>)
      returns (p': Slot)
      requires CanRotate(p, t, y, i, j) && b.Keys == at.Keys
      requires b[i] == y && b[j] == t && forall m :: m in at && m != i && m != j ==> b[m] == at[m]
      modifies this`sleepQ, (if p.Root? then {} else {p.node})`left, (if p.Root? then {} else {p.node})`right
      modifies {t, y}`left, {t, y}`right
      ensures sleepQ == NodeAt(b, 1) && p' == SlotAt(b, j)
      ensures LinkedAt(b, i) && LinkedAt(b, j) && (i > 1 ==> LinkedAt(b, i / 2))
    {
      assert LinkedAt(at, i) && LinkedAt(at, j) && (i > 1 ==> LinkedAt(at, i / 2));
      assert t.heapIndex == i && y.heapIndex == j && at[2 * i].heapIndex == 2 * i;
      assert i > 1 ==> at[i / 2].heapIndex == i / 2;
      p' := Rotate(p, t, y);
    }

    /** That turn at position i links the layout b, in which the members at i and j are exchanged. */
    method RotateLinks(p: Slot, t: Thread, y: Thread, ghost i: int, ghost j: int, ghost b: Layout<Thread>)
      returns (p': Slot)
      requires CanRotate(p, t, y, i, j) && b.Keys == at.Keys
      requires b[i] == y && b[j] == t && forall m :: m in at && m != i && m != j ==> b[m] == at[m]
      modifies this`sleepQ, this`at, threads`left, threads`right
      ensures at == b && Linked(0) && p' == SlotAt(b, j)
    {
      assert t.heapIndex == i && y.heapIndex == j && (i > 1 ==> at[i / 2].heapIndex == i / 2);
      p' := RotateNear(p, t, y, i, j, b);
      at := b;
      forall m | m in b && m != i && m != j && m != i / 2 ensures LinkedAt(b, m) {
        assert old(LinkedAt(at, m)) && old(at[m].heapIndex) == m;
      }
    }

    /** The whole turn: the two nodes also exchange their heapIndex. */
    method RotateAt(p: Slot, t: Thread, y: Thread, ghost i: int, ghost j: int) returns (p': Slot)
      requires CanRotate(p, t, y, i, j)
      modifies this`sleepQ, this`at, threads`left, threads`right, threads`heapIndex
      ensures at == Exchange(old(at), i, j) && Linked(0) && Numbered()
      ensures p' == SlotAt(at, j)
    {
      p' := RotateLinks(p, t, y, i, j, Exchange(at, i, j));
      t.heapIndex, y.heapIndex := y.heapIndex, t.heapIndex;
    }

    /** The sift-down loop of heap_delete, from the node t at position k. */
    method Reestablish(p0: Slot, t: Thread, ghost k: int, ghost due: map<Thread, int>, ghost n: int)
      requires Numbered() && Linked(0) && DuesAre(due) && Complete(at, n)
      requires k in at && p0 == SlotAt(at, k) && t == at[k]
      modifies this`sleepQ, this`at, threads`left, threads`right, threads`heapIndex
      ensures at == SiftDown(old(at), due, n, k) && Numbered() && Linked(0)
    {
      var p := p0;
      ghost var i := k;
      while true
        invariant Numbered() && Linked(0) && DuesAre(due) && Complete(at, n)
        invariant i in at && p == SlotAt(at, i) && t == at[i]
        invariant SiftDown(at, due, n, i) == SiftDown(old(at), due, n, k)
        decreases n - i
      {
        assert LinkedAt(at, i);
        var y: Thread;  // the younger child
        if t.left == null {
          break;
        } else if t.right == null {
          y := t.left;
        } else if t.left.due < t.right.due {
          y := t.left;
        } else {
          y := t.right;
        }
        ghost var j := Younger(at, due, i);
        assert y == at[j] && j in at;
        if t.due <= y.due {
          break;
        }
        p := RotateAt(p, t, y, i, j);
        i := j;
      }
    }

    /** `*p = NULL; --_ST_SLEEPQ_SIZE` for the last element. */
    method UnlinkLast(p: Slot)
      requires Numbered() && Linked(0) && Complete(at, sleepqSize) && sleepqSize > 0 && p == SlotAt(at, sleepqSize)
      modifies this`sleepQ, this`at, this`sleepqSize
      modifies (if p.Root? then {} else {p.node})`left, (if p.Root? then {} else {p.node})`right
      ensures sleepqSize == old(sleepqSize) - 1 && at == old(at) - {old(sleepqSize)}
      ensures Numbered() && Linked(0)
    {
      ghost var n := sleepqSize;
      assert n > 1 ==> at[n / 2].heapIndex == n / 2;
      Store(p, null);
      sleepqSize := sleepqSize - 1;
      at := at - {n};
      forall m | m in at ensures LinkedAt(at, m) {
        assert old(LinkedAt(at, m)) && old(at[m].heapIndex) == m;
      }
    }

    /** The node at position k takes over the children of the deleted thread. */
    method Adopt(thread: Thread, t: Thread, ghost k: int)
      requires Numbered() && Linked(k) && k in at && at[k] == t
      requires thread.left == NodeAt(at, 2 * k) && thread.right == NodeAt(at, 2 * k + 1)
      modifies t`left, t`right
      ensures Numbered() && Linked(0)
    {
      t.left := thread.left;
      t.right := thread.right;
      assert LinkedAt(at, k);
      forall m | m in at && m != k ensures LinkedAt(at, m) {
        assert old(LinkedAt(at, m)) && at[m].heapIndex == m && t.heapIndex == k;
      }
    }

    /** The last element t takes the place of the deleted thread at position k, then moves up or down from there. */
    method Refill(thread: Thread, t: Thread, ghost k: int, ghost due: map<Thread, int>, ghost n: int)
      requires Numbered() && Linked(0) && DuesAre(due) && IsHeap(at, due, n)
      requires k in at && at[k] == thread && t in threads && Absent(at, t) && t.heapIndex == k
      modifies this`sleepQ, this`at, threads`left, threads`right, threads`heapIndex
      ensures at == SiftDown(Insert(old(at), due, k, t), due, n, k) && Numbered() && Linked(0)
    {
      ghost var at0 := at;
      assert LinkedAt(at, k);
      InsertLeavesBelow(at, due, n, k, t, 2 * k);
      InsertLeavesBelow(at, due, n, k, t, 2 * k + 1);
      var p := HeapInsert(t, due, n);
      var t' := Deref(p);
      Adopt(thread, t', k);
      assert Complete(at, n);
      Reestablish(p, t', k, due, n);
    }

    /** `thread->left = thread->right = NULL` for a thread outside the heap. */
    method Detach(thread: Thread)
      requires Numbered() && Linked(0) && Absent(at, thread)
      modifies thread`left, thread`right
      ensures Numbered() && Linked(0) && thread.left == null && thread.right == null
    {
      thread.left, thread.right := null, null;
      forall m | m in at ensures LinkedAt(at, m) {
        assert old(LinkedAt(at, m));
      }
    }

    /** A thread outside the heap is told its position to be. */
    method Assign(t: Thread, k: int)
      requires Numbered() && Linked(0) && Absent(at, t)
      modifies t`heapIndex
      ensures Numbered() && Linked(0) && t.heapIndex == k
    {
      t.heapIndex := k;
    }

    /** heap_delete: unlinks any member of the heap. */
    method HeapDelete(thread: Thread, ghost due: map<Thread, int>)
      requires Numbered() && Linked(0) && DuesAre(due) && IsHeap(at, due, sleepqSize) && thread in Members(at)
      modifies this`sleepQ, this`at, this`sleepqSize, threads`left, threads`right, threads`heapIndex
      ensures Numbered() && Linked(0) && sleepqSize == old(sleepqSize) - 1
      ensures at == Remove(old(at), due, old(sleepqSize), old(thread.heapIndex))
      ensures thread.left == null && thread.right == null
    {
      ghost var n, k := sleepqSize, thread.heapIndex;
      assert k in at && at[k] == thread && n in at;
      ghost var rest := Remove(at, due, n, k);
      RemoveKeepsHeap(at, due, n, k);
      TakeOut(thread, due, rest);
      Detach(thread);
    }

    /** The last element leaves the heap. */
    method TakeLast(ghost due: map<Thread, int>) returns (t: Thread)
      requires Numbered() && Linked(0) && IsHeap(at, due, sleepqSize) && sleepqSize in at
      modifies this`sleepQ, this`at, this`sleepqSize, threads`left, threads`right
      ensures Numbered() && Linked(0) && sleepqSize == old(sleepqSize) - 1
      ensures t == old(at)[old(sleepqSize)] && at == old(at) - {old(sleepqSize)} && IsHeap(at, due, sleepqSize)
      ensures t in threads && Absent(at, t)
      ensures t.left == old(t.left) && t.right == old(t.right)
    {
      ghost var n := sleepqSize;
      assert n > 1 ==> n / 2 in at && at[n / 2] in threads && at[n / 2].heapIndex == n / 2 && at[n].heapIndex == n;
      var p := FindLast();
      t := Deref(p);
      RemoveLastKeepsHeap(at, due, n);
      UnlinkLast(p);
    }

    /** All of it but the last line. */
    method TakeOut(thread: Thread, ghost due: map<Thread, int>, ghost rest: Layout<Thread>)
      requires Numbered() && Linked(0) && DuesAre(due) && IsHeap(at, due, sleepqSize) && thread in Members(at)
      requires sleepqSize in at && rest == Remove(at, due, sleepqSize, thread.heapIndex)
      modifies this`sleepQ, this`at, this`sleepqSize, threads`left, threads`right, threads`heapIndex
      ensures Numbered() && Linked(0) && sleepqSize == old(sleepqSize) - 1 && at == rest
    {
      ghost var n, k := sleepqSize, thread.heapIndex;
      assert k in at && at[k] == thread && at[n].heapIndex == n;
      var t := TakeLast(due);
      if t != thread {
        assert k in at && at[k] == thread;
        TakePlace(thread, t, due, n - 1);
      }
    }

    /** The last element, out of the heap already, replaces the deleted thread. */
    method TakePlace(thread: Thread, t: Thread, ghost due: map<Thread, int>, ghost n: int)
      requires Numbered() && Linked(0) && DuesAre(due) && IsHeap(at, due, n) && thread in Members(at)
      requires t in threads && Absent(at, t)
      modifies this`sleepQ, this`at, threads`left, threads`right, threads`heapIndex
      ensures Numbered() && Linked(0)
      ensures var k := old(thread.heapIndex); at == SiftDown(Insert(old(at), due, k, t), due, n, k)
    {
      ghost var k := thread.heapIndex;
      assert k in at && at[k] == thread;
      Assign(t, thread.heapIndex);
      Refill(thread, t, k, due, n);
    }

    /** A thread outside the heap goes to the next free position and up from there. */
    method Enter(thread: Thread, ghost due: map<Thread, int>)
      requires Numbered() && Linked(0) && DuesAre(due) && IsHeap(at, due, sleepqSize)
      requires thread in threads && Absent(at, thread)
      modifies this`sleepQ, this`at, this`sleepqSize, threads`left, threads`right, threads`heapIndex
      ensures Numbered() && Linked(0) && sleepqSize == old(sleepqSize) + 1
      ensures at == Insert(old(at), due, sleepqSize, thread)
    {
      sleepqSize := sleepqSize + 1;
      Assign(thread, sleepqSize);
      var _ := HeapInsert(thread, due, sleepqSize - 1);
      HeapKeys(old(at), due, sleepqSize, thread);
      assert LinkedAt(at, sleepqSize);
    }

    /** _st_add_sleep_q */
    method AddSleepQ(thread: Thread, timeout: int)
      requires Valid() && thread in threads && !thread.onSleepq
      modifies this`sleepQ, this`at, this`sleepqSize, this`dues, threads`left, threads`right, threads`heapIndex
      modifies thread`due, thread`onSleepq
      ensures Valid() && sleepqSize == old(sleepqSize) + 1 && dues == old(dues)[thread := lastClock + timeout]
      ensures Members(at) == old(Members(at)) + {thread} && thread.due == lastClock + timeout
    {
      Arm(thread, lastClock + timeout);
      SameDues(at, old(dues), dues, sleepqSize);
      EnterHeap(thread);
    }

    method EnterHeap(thread: Thread)
      requires Numbered() && Linked(0) && DuesAre(dues) && IsHeap(at, dues, sleepqSize)
      requires thread in threads && Absent(at, thread)
      modifies this`sleepQ, this`at, this`sleepqSize, threads`left, threads`right, threads`heapIndex
      ensures Numbered() && Linked(0) && sleepqSize == old(sleepqSize) + 1
      ensures IsHeap(at, dues, sleepqSize) && Members(at) == old(Members(at)) + {thread}
    {
      InsertKeepsHeap(at, dues, sleepqSize, thread);
      Enter(thread, dues);
    }

    /** A thread outside the heap gets its deadline. */
    method Arm(thread: Thread, due: int)
      requires Numbered() && Linked(0) && Absent(at, thread)
      requires DuesAre(dues) && thread in threads
      modifies thread`due, thread`onSleepq, this`dues
      ensures Numbered() && Linked(0) && DuesAre(dues) && dues == old(dues)[thread := due]
      ensures thread.due == due && thread.onSleepq
    {
      thread.due := due;
      dues := dues[thread := due];
      thread.onSleepq := true;
    }

    method Disarm(thread: Thread)
      requires Numbered() && Linked(0) && Absent(at, thread)
      modifies thread`onSleepq
      ensures Numbered() && Linked(0) && !thread.onSleepq
    {
      thread.onSleepq := false;
    }

    /** _st_del_sleep_q */
    method DelSleepQ(thread: Thread)
      requires Valid() && thread in threads && thread.onSleepq
      modifies this`sleepQ, this`at, this`sleepqSize, threads`left, threads`right, threads`heapIndex, thread`onSleepq
      ensures Valid() && sleepqSize == old(sleepqSize) - 1
      ensures Members(at) == old(Members(at)) - {thread}
    {
      ghost var n, k := sleepqSize, thread.heapIndex;
      assert k in at && at[k] == thread;
      RemoveKeepsHeap(at, dues, n, k);
      HeapDelete(thread, dues);
      Disarm(thread);
    }

    /** What the clock check does to a thread: a woken one is runnable, and timed out if it waited for a condition. */
    twostate predicate AfterClock(t: Thread, woken: bool)
      reads t
    {
      if woken then t.state == RUNNABLE && (t.timedOut <==> old(t.timedOut) || old(t.state) == COND_WAIT)
      else t.state == old(t.state) && t.timedOut == old(t.timedOut)
    }

    /**
     * _st_vp_check_clock: appends to the run queue precisely the sleepers that are due, earliest first, and
     * leaves the later ones in the heap. A thread on a condition variable also learns that it timed out.
     */
    method CheckClock(now: int)
      requires Valid()
      modifies this`sleepQ, this`at, this`sleepqSize, this`lastClock, this`runQ
      modifies threads`left, threads`right, threads`heapIndex, threads`onSleepq, threads`state, threads`timedOut
      ensures Valid() && lastClock == now && old(runQ) <= runQ
      ensures Expiry(old(Members(at)), dues, now, runQ[|old(runQ)|..])
      ensures Members(at) == set t | t in old(Members(at)) && Due(dues, t) > now
      ensures forall t :: t in threads ==> AfterClock(t, t in runQ[|old(runQ)|..])
    {
      lastClock := now;
      ghost var all := Members(at);
      ghost var woken := WakeExpired(now);
      WakingDone(all, at, dues, sleepqSize, now, woken);
      assert runQ[|old(runQ)|..] == woken;
    }

    /** AfterClock of every thread, with their states and flags as they were. */
    ghost predicate Clocked(was: map<Thread, (ThreadState, bool)>, woken: seq<Thread>)
      reads `threads, threads`state, threads`timedOut
    {
      was.Keys == threads && forall t :: t in threads ==>
        if t in woken then t.state == RUNNABLE && (t.timedOut <==> was[t].1 || was[t].0 == COND_WAIT)
        else t.state == was[t].0 && t.timedOut == was[t].1
    }

    /** Its loop. */
    method WakeExpired(now: int) returns (ghost woken: seq<Thread>)
      requires Valid()
      modifies this`sleepQ, this`at, this`sleepqSize, this`runQ
      modifies threads`left, threads`right, threads`heapIndex, threads`onSleepq, threads`state, threads`timedOut
      ensures Valid() && runQ == old(runQ) + woken && Waking(old(Members(at)), Members(at), dues, now, woken)
      ensures sleepqSize > 0 ==> Due(dues, at[1]) > now
      ensures forall t :: t in threads ==> AfterClock(t, t in woken)
    {
      woken := [];
      ghost var was := map t | t in threads :: (t.state, t.timedOut);
      assert runQ == old(runQ) + woken;
      while sleepQ != null
        invariant Valid() && runQ == old(runQ) + woken
        invariant Waking(old(Members(at)), Members(at), dues, now, woken) && Clocked(was, woken)
        decreases sleepqSize
      {
        var thread: Thread := sleepQ;
        if thread.due > now {
          break;
        }
        WakeFirst(thread, old(Members(at)), now, woken, old(runQ), was);
        woken := woken + [thread];
      }
    }

    /** One turn of that loop. */
    method WakeFirst(thread: Thread, ghost all: set<Thread>, ghost now: int, ghost woken: seq<Thread>,
                     ghost runQ0: seq<Thread>, ghost was: map<Thread, (ThreadState, bool)>)
      requires Valid() && sleepQ == thread && thread.due <= now && runQ == runQ0 + woken
      requires Waking(all, Members(at), dues, now, woken) && Clocked(was, woken)
      modifies this`sleepQ, this`at, this`sleepqSize, this`runQ
      modifies threads`left, threads`right, threads`heapIndex, thread`onSleepq, thread`state, thread`timedOut
      ensures Valid() && sleepqSize == old(sleepqSize) - 1 && thread in threads
      ensures runQ == runQ0 + (woken + [thread]) && Waking(all, Members(at), dues, now, woken + [thread])
      ensures Clocked(was, woken + [thread])
    {
      WakeNext(all, at, dues, sleepqSize, now, woken);
      WakeRoot(thread);
      Appended(runQ0, woken, thread);
      WakingInOrder(all, Members(at) + {thread}, dues, now, woken);
    }

    method WakeRoot(thread: Thread)
      requires Valid() && sleepQ == thread
      modifies this`sleepQ, this`at, this`sleepqSize, this`runQ
      modifies threads`left, threads`right, threads`heapIndex, thread`onSleepq, thread`state, thread`timedOut
      ensures Valid() && sleepqSize == old(sleepqSize) - 1
      ensures Members(at) == old(Members(at)) - {thread} && thread in old(Members(at)) && thread in threads
      ensures runQ == old(runQ) + [thread]
      ensures AfterClock(thread, true)
    {
      assert 1 in at && at[1] == thread;
      DelSleepQ(thread);
      MakeRunnable(thread);
    }

    /** Onto the run queue. */
    method MakeRunnable(thread: Thread)
      modifies this`runQ, thread`state, thread`timedOut
      ensures runQ == old(runQ) + [thread] && AfterClock(thread, true)
    {
      // Only st_cond_timedwait tells a timeout from a wakeup.
      if thread.state == COND_WAIT {
        thread.timedOut := true;
      }
      thread.state := RUNNABLE;
      runQ := runQ + [thread];
    }
  }
}
