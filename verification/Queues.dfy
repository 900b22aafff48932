/** The states of st_thread_t. */
module ThreadStates {
  datatype ThreadState = RUNNING | RUNNABLE | IO_WAIT | LOCK_WAIT | COND_WAIT | SLEEPING | ZOMBIE | SUSPENDED
}

/** The run, I/O, zombie and wait queues as sequences of threads. */
module Queues {

  ghost predicate NoDup<T>(q: seq<T>) {
    forall i, j :: 0 <= i < j < |q| ==> q[i] != q[j]
  }

  /** ST_REMOVE_LINK: the queue without t. */
  function Without<T(==, !new)>(q: seq<T>, t: T): (r: seq<T>)
    ensures forall u :: u in r <==> u in q && u != t
    ensures |r| <= |q| && (t in q ==> |r| < |q|)
  {
    if q == [] then []
    else if q[0] == t then Without(q[1..], t)
    else
      assert q == [q[0]] + q[1..];
      [q[0]] + Without(q[1..], t)
  }

  lemma {:induction false} WithoutNoDup<T(!new)>(q: seq<T>, t: T)
    requires NoDup(q)
    ensures NoDup(Without(q, t))
  {
    if q != [] {
      WithoutNoDup(q[1..], t);
      assert q[0] !in q[1..];
    }
  }

  lemma PopNoDup<T(!new)>(q: seq<T>)
    requires NoDup(q) && q != []
    ensures NoDup(q[1..]) && forall u :: u in q[1..] <==> u in q && u != q[0]
  {
    assert q == [q[0]] + q[1..];
  }

  lemma AppendNoDup<T>(q: seq<T>, t: T)
    requires NoDup(q) && t !in q
    ensures NoDup(q + [t])
  {
  }

  /** a comes before b. */
  ghost predicate Before<T(!new)>(q: seq<T>, a: T, b: T) {
    exists i, j :: 0 <= i < j < |q| && q[i] == a && q[j] == b
  }

  lemma {:induction false} WithoutKeepsOrder<T(!new)>(q: seq<T>, t: T, a: T, b: T)
    requires Before(q, a, b) && a != t && b != t
    ensures Before(Without(q, t), a, b)
  {
    var i, j :| 0 <= i < j < |q| && q[i] == a && q[j] == b;
    var rest := Without(q[1..], t);
    if i == 0 {
      assert b in q[1..] by { assert q[1..][j - 1] == b; }
      var l :| 0 <= l < |rest| && rest[l] == b;
      assert Without(q, t)[0] == a && Without(q, t)[l + 1] == b;
    } else {
      assert q[1..][i - 1] == a && q[1..][j - 1] == b;
      WithoutKeepsOrder(q[1..], t, a, b);
      var x, y :| 0 <= x < y < |rest| && rest[x] == a && rest[y] == b;
      if q[0] != t { assert Without(q, t)[x + 1] == a && Without(q, t)[y + 1] == b; }
    }
  }

  lemma {:induction false} WithoutAddsNoOrder<T(!new)>(q: seq<T>, t: T, a: T, b: T)
    requires Before(Without(q, t), a, b)
    ensures Before(q, a, b)
  {
    var r := Without(q, t);
    var i, j :| 0 <= i < j < |r| && r[i] == a && r[j] == b;
    if q[0] == t || i > 0 {
      var r' := Without(q[1..], t);
      assert q[0] != t ==> r'[i - 1] == a && r'[j - 1] == b;
      WithoutAddsNoOrder(q[1..], t, a, b);
      var x, y :| 0 <= x < y < |q[1..]| && q[1..][x] == a && q[1..][y] == b;
      assert q[x + 1] == a && q[y + 1] == b;
    } else {
      assert b == Without(q[1..], t)[j - 1] && b in q[1..];
      var y :| 0 <= y < |q[1..]| && q[1..][y] == b;
      assert q[y + 1] == b;
    }
  }

  /** q' is q without t, in the same order. */
  ghost predicate Removed<T(!new)>(q: seq<T>, q': seq<T>, t: T) {
    && (forall u :: u in q' <==> u in q && u != t) && |q'| <= |q|
    && forall a, b :: a != t && b != t && Before(q, a, b) ==> Before(q', a, b)
  }

  lemma WithoutRemoves<T(!new)>(q: seq<T>, t: T)
    ensures Removed(q, Without(q, t), t)
  {
    forall a, b | a != t && b != t && Before(q, a, b) ensures Before(Without(q, t), a, b) {
      WithoutKeepsOrder(q, t, a, b);
    }
  }
}
