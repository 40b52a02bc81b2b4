/** The static-pool linked list that LINKLIST_IMPL expands to (game/include/adt/linklist.h).
    Pointers into the pool are its indices; NULL is -1. */
module StaticPool {
  const NULL := -1

  datatype Node<T> = Node(data: T, prev: int, next: int)

  // ----- chains of nodes, on the contents of a pool -----

  // The facts below are named so that proofs use them only where they say so.
  ghost predicate Differ(s: seq<int>, i: int, t: seq<int>, j: int)
    requires 0 <= i < |s| && 0 <= j < |t|
  {
    s[i] != t[j]
  }

  ghost predicate NoDup(s: seq<int>) { forall i, j :: 0 <= i < j < |s| ==> Differ(s, i, s, j) }

  ghost predicate Apart(s: seq<int>, t: seq<int>) {
    forall i, j :: 0 <= i < |s| && 0 <= j < |t| ==> Differ(s, i, t, j)
  }

  lemma SamePlace(s: seq<int>, i: int, j: int)
    requires NoDup(s) && 0 <= i < |s| && 0 <= j < |s|
    ensures s[i] == s[j] <==> i == j
  {
    assert i < j ==> Differ(s, i, s, j);
    assert j < i ==> Differ(s, j, s, i);
  }

  lemma NotIn(s: seq<int>, t: seq<int>, i: int)
    requires Apart(s, t) && 0 <= i < |s|
    ensures s[i] !in t
  {
    forall j | 0 <= j < |t| ensures t[j] != s[i] { assert Differ(s, i, t, j); }
  }

  // The only place of an element, seen from a list without it.
  lemma NotInRest(s: seq<int>, t: seq<int>, k: int)
    requires NoDup(s) && 0 <= k < |s| && |t| == |s| - 1
    requires forall i :: 0 <= i < |t| ==> t[i] == s[if i < k then i else i + 1]
    ensures s[k] !in t && NoDup(t)
  {
    forall i | 0 <= i < |t| ensures t[i] != s[k] { SamePlace(s, if i < k then i else i + 1, k); }
    forall i, j | 0 <= i < j < |t| ensures Differ(t, i, t, j) {
      SamePlace(s, if i < k then i else i + 1, if j < k then j else j + 1);
    }
  }

  function At(s: seq<int>, i: int): int { if 0 <= i < |s| then s[i] else NULL }

  ghost predicate InPool<T>(p: seq<Node<T>>, s: seq<int>) {
    forall i :: 0 <= i < |s| ==> 0 <= s[i] < |p|
  }

  // One link of a chain.
  ghost predicate Hop<T>(p: seq<Node<T>>, s: seq<int>, i: int)
    requires InPool(p, s) && 0 <= i < |s|
  {
    p[s[i]].next == At(s, i + 1)
  }

  ghost predicate HopBack<T>(p: seq<Node<T>>, s: seq<int>, i: int)
    requires InPool(p, s) && 0 <= i < |s|
  {
    p[s[i]].prev == At(s, i - 1)
  }

  // s is what following next from first visits.
  ghost predicate Visits<T>(p: seq<Node<T>>, s: seq<int>, first: int) {
    InPool(p, s) && first == At(s, 0) && forall i :: 0 <= i < |s| ==> Hop(p, s, i)
  }

  ghost predicate Chain<T>(p: seq<Node<T>>, s: seq<int>, first: int) {
    Visits(p, s, first) && NoDup(s)
  }

  lemma ChainPush<T>(p: seq<Node<T>>, s: seq<int>, first: int, n: int)
    requires Chain(p, s, first) && 0 <= n < |p| && n !in s
    ensures Chain(p[n := p[n].(next := first)], [n] + s, n)
  {
    var q, t := p[n := p[n].(next := first)], [n] + s;
    forall i | 0 <= i < |t|
      ensures 0 <= t[i] < |q| && q[t[i]].next == At(t, i + 1)
    {
      if i > 0 { assert t[i] == s[i - 1] && Hop(p, s, i - 1); }
    }
    forall i, j | 0 <= i < j < |t| ensures Differ(t, i, t, j) {
      if i > 0 { SamePlace(s, i - 1, j - 1); }
    }
    assert forall i :: 0 <= i < |t| ==> Hop(q, t, i);
  }

  lemma ChainPop<T>(p: seq<Node<T>>, s: seq<int>, first: int, n: Node<T>)
    requires Chain(p, s, first) && |s| >= 1
    ensures Chain(p[first := n], s[1..], p[first].next) && first !in s[1..]
    ensures |s| >= 2 <==> p[first].next != NULL
    ensures |s| >= 2 ==> s[1..][|s| - 2] == s[|s| - 1]
  {
    var q, t := p[first := n], s[1..];
    NotInRest(s, t, 0);
    forall i | 0 <= i < |t|
      ensures 0 <= t[i] < |q| && q[t[i]].next == At(t, i + 1)
    {
      assert t[i] == s[i + 1] && Hop(p, s, i + 1);
      assert t[i] in t;
    }
    assert Hop(p, s, 0) && forall i :: 0 <= i < |t| ==> Hop(q, t, i);
  }

  lemma ChainFrame<T>(p: seq<Node<T>>, q: seq<Node<T>>, s: seq<int>, first: int)
    requires Chain(p, s, first) && |q| == |p| && forall i :: 0 <= i < |s| ==> q[s[i]].next == p[s[i]].next
    ensures Chain(q, s, first)
  {
    forall i | 0 <= i < |s| ensures q[s[i]].next == At(s, i + 1) { assert Hop(p, s, i); }
    assert forall i :: 0 <= i < |s| ==> Hop(q, s, i);
  }

  lemma DoublyLinkedFrame<T>(p: seq<Node<T>>, q: seq<Node<T>>, s: seq<int>, first: int)
    requires DoublyLinked(p, s, first) && |q| == |p|
    requires forall i :: 0 <= i < |s| ==> q[s[i]].next == p[s[i]].next && q[s[i]].prev == p[s[i]].prev
    ensures DoublyLinked(q, s, first)
  {
    ChainFrame(p, q, s, first);
    forall i | 0 <= i < |s| ensures q[s[i]].prev == At(s, i - 1) { assert HopBack(p, s, i); }
    assert forall i :: 0 <= i < |s| ==> HopBack(q, s, i);
  }

  // A chain whose prev links mirror its next links.
  ghost predicate DoublyLinked<T>(p: seq<Node<T>>, s: seq<int>, first: int) {
    Chain(p, s, first) && forall i :: 0 <= i < |s| ==> HopBack(p, s, i)
  }

  // ----- what insert and remove write; NULL is no index, so it never matches -----

  function Inserted<T>(p: seq<Node<T>>, prev: int, next: int, obj: int): (q: seq<Node<T>>)
    ensures |q| == |p|
  {
    seq(|p|, i requires 0 <= i < |p| =>
      Node(p[i].data,
           if i == next then obj else if i == obj then prev else p[i].prev,
           if i == prev then obj else if i == obj then next else p[i].next))
  }

  function Removed<T>(p: seq<Node<T>>, node: int): (q: seq<Node<T>>)
    requires 0 <= node < |p|
    ensures |q| == |p|
  {
    seq(|p|, i requires 0 <= i < |p| =>
      Node(p[i].data,
           if i == p[node].next then p[node].prev else p[i].prev,
           if i == p[node].prev then p[node].next else p[i].next))
  }

  ghost function Without<T>(s: seq<T>, k: int): (t: seq<T>)
    requires 0 <= k < |s|
  {
    seq(|s| - 1, i requires 0 <= i < |s| - 1 => if i < k then s[i] else s[i + 1])
  }

  ghost function With<T>(s: seq<T>, k: int, x: T): (t: seq<T>)
    requires 0 <= k <= |s|
  {
    seq(|s| + 1, i requires 0 <= i <= |s| => if i < k then s[i] else if i == k then x else s[i - 1])
  }

  // ----- allocation -----

  ghost predicate Placed(i: int, live: seq<int>, free: seq<int>) { i in live || i in free }

  // Two disjoint lists make up the whole pool of n nodes.
  ghost predicate Covers(live: seq<int>, free: seq<int>, n: nat) {
    Apart(live, free) && |live| + |free| == n && forall i :: 0 <= i < n ==> Placed(i, live, free)
  }

  lemma CoversInitially(avail: seq<int>, n: nat)
    requires avail == seq(n, i => i)
    ensures Covers([], avail, n) && NoDup(avail)
  {
    forall i | 0 <= i < n ensures Placed(i, [], avail) { assert avail[i] == i; }
  }

  lemma CoversPop(live: seq<int>, free: seq<int>, n: nat)
    requires Covers(live, free, n) && |free| >= 1 && NoDup(free)
    ensures Covers([free[0]] + live, free[1..], n) && free[0] !in live
  {
    var l, f := [free[0]] + live, free[1..];
    forall i | 0 <= i < n ensures Placed(i, l, f) {
      assert Placed(i, live, free);
      if i in live {
        var j :| 0 <= j < |live| && live[j] == i;
        assert l[j + 1] == i;
      } else {
        var j :| 0 <= j < |free| && free[j] == i;
        if j == 0 { assert l[0] == i; } else { assert f[j - 1] == i; }
      }
    }
    forall i, j | 0 <= i < |l| && 0 <= j < |f| ensures Differ(l, i, f, j) {
      if i == 0 { SamePlace(free, 0, j + 1); } else { assert Differ(live, i - 1, free, j + 1); }
    }
    forall i | 0 <= i < |live| ensures live[i] != free[0] { assert Differ(live, i, free, 0); }
  }

  lemma CoversPush(live: seq<int>, free: seq<int>, k: int, n: nat)
    requires Covers(live, free, n) && NoDup(live) && 0 <= k < |live|
    ensures Covers(Without(live, k), [live[k]] + free, n)
  {
    var l, f := Without(live, k), [live[k]] + free;
    forall i | 0 <= i < n ensures Placed(i, l, f) {
      assert Placed(i, live, free);
      if i in live {
        var j :| 0 <= j < |live| && live[j] == i;
        if j < k { assert l[j] == i; } else if j > k { assert l[j - 1] == i; } else { assert f[0] == i; }
      } else {
        var j :| 0 <= j < |free| && free[j] == i;
        assert f[j + 1] == i;
      }
    }
    forall i, j | 0 <= i < |l| && 0 <= j < |f| ensures Differ(l, i, f, j) {
      var m := if i < k then i else i + 1;
      if j == 0 { SamePlace(live, m, k); } else { assert Differ(live, m, free, j - 1); }
    }
  }

  // ----- links after removal and insertion -----

  // Links of the j-th node after the k-th is removed.
  lemma RemovedLink<T>(p: seq<Node<T>>, s: seq<int>, first: int, k: int, j: int)
    requires DoublyLinked(p, s, first) && 0 <= k < |s| && 0 <= j < |s| && j != k
    ensures var q := Removed(p, s[k]);
            q[s[j]].next == At(s, if j + 1 == k then k + 1 else j + 1) &&
            q[s[j]].prev == At(s, if j - 1 == k then k - 1 else j - 1)
  {
    assert Hop(p, s, k) && HopBack(p, s, k) && Hop(p, s, j) && HopBack(p, s, j);
    if k > 0 { SamePlace(s, j, k - 1); }
    if k + 1 < |s| { SamePlace(s, j, k + 1); }
  }

  lemma RemovedHop<T>(p: seq<Node<T>>, s: seq<int>, first: int, k: int, i: int)
    requires DoublyLinked(p, s, first) && 0 <= k < |s| && 0 <= i < |s| - 1
    ensures var q, t := Removed(p, s[k]), Without(s, k); InPool(q, t) && Hop(q, t, i) && HopBack(q, t, i)
  {
    RemovedLink(p, s, first, k, if i < k then i else i + 1);
  }

  // Removing the k-th node of a doubly linked list leaves the list without it, whatever k is.
  lemma RemovedUnlinks<T>(p: seq<Node<T>>, s: seq<int>, first: int, k: int)
    requires DoublyLinked(p, s, first) && 0 <= k < |s|
    ensures var t := Without(s, k); DoublyLinked(Removed(p, s[k]), t, At(t, 0)) && s[k] !in t
  {
    var q, t := Removed(p, s[k]), Without(s, k);
    NotInRest(s, t, k);
    forall i | 0 <= i < |t| ensures Hop(q, t, i) && HopBack(q, t, i) { RemovedHop(p, s, first, k, i); }
  }

  // Nodes elsewhere keep their links.
  lemma RemovedFrame<T>(p: seq<Node<T>>, s: seq<int>, first: int, k: int, i: int)
    requires DoublyLinked(p, s, first) && 0 <= k < |s| && 0 <= i < |p| && i !in s
    ensures Removed(p, s[k])[i] == p[i]
  {
    assert Hop(p, s, k) && HopBack(p, s, k);
  }

  lemma InsertedLink<T>(p: seq<Node<T>>, s: seq<int>, first: int, k: int, obj: int, j: int)
    requires DoublyLinked(p, s, first) && 0 <= k <= |s| && 0 <= obj < |p| && obj !in s && 0 <= j < |s|
    ensures var q := Inserted(p, At(s, k - 1), At(s, k), obj);
            q[s[j]].next == (if j + 1 == k then obj else At(s, j + 1)) &&
            q[s[j]].prev == (if j == k then obj else At(s, j - 1))
  {
    assert Hop(p, s, j) && HopBack(p, s, j);
    if k > 0 { SamePlace(s, j, k - 1); }
    if k < |s| { SamePlace(s, j, k); }
  }

  lemma WithNoDup(s: seq<int>, k: int, obj: int)
    requires NoDup(s) && 0 <= k <= |s| && obj !in s
    ensures NoDup(With(s, k, obj))
  {
    var t := With(s, k, obj);
    forall i, j | 0 <= i < j < |t| ensures Differ(t, i, t, j) {
      if i != k && j != k { SamePlace(s, if i < k then i else i - 1, if j < k then j else j - 1); }
    }
  }

  lemma InsertedHop<T>(p: seq<Node<T>>, s: seq<int>, first: int, k: int, obj: int, i: int)
    requires DoublyLinked(p, s, first) && 0 <= k <= |s| && 0 <= obj < |p| && obj !in s && 0 <= i <= |s|
    ensures var q, t := Inserted(p, At(s, k - 1), At(s, k), obj), With(s, k, obj);
            InPool(q, t) && Hop(q, t, i) && HopBack(q, t, i)
  {
    if i < k {
      InsertedLink(p, s, first, k, obj, i);
    } else if i > k {
      InsertedLink(p, s, first, k, obj, i - 1);
    }
  }

  // Inserting a fresh node between neighbours (or at either end) splices it in.
  lemma InsertedLinks<T>(p: seq<Node<T>>, s: seq<int>, first: int, k: int, obj: int)
    requires DoublyLinked(p, s, first) && 0 <= k <= |s| && 0 <= obj < |p| && obj !in s
    ensures var t := With(s, k, obj);
            DoublyLinked(Inserted(p, At(s, k - 1), At(s, k), obj), t, At(t, 0))
  {
    WithNoDup(s, k, obj);
    var q, t := Inserted(p, At(s, k - 1), At(s, k), obj), With(s, k, obj);
    forall i | 0 <= i < |t| ensures InPool(q, t) && Hop(q, t, i) && HopBack(q, t, i) {
      InsertedHop(p, s, first, k, obj, i);
    }
    InsertedHop(p, s, first, k, obj, 0);
  }

  // Removing a node just inserted between linked neighbours restores every other node.
  lemma InsertThenRemove<T>(p: seq<Node<T>>, prev: int, next: int, obj: int, i: int)
    requires 0 <= obj < |p| && obj != prev && obj != next && 0 <= i < |p| && i != obj
    requires i == prev ==> p[i].next == next
    requires i == next ==> p[i].prev == prev
    ensures Removed(Inserted(p, prev, next, obj), obj)[i] == p[i]
  {
    var q := Inserted(p, prev, next, obj);
    assert q[obj].prev == prev && q[obj].next == next;
  }

  class LinkList<T(0)> {
    const size: nat
    const pool: array<Node<T>>
    var freeHead: int
    ghost var free: seq<int>

    ghost predicate Valid()
      reads this, pool
    {
      size >= 1 && pool.Length == size + 1 &&
      if freeHead == NULL then free == [] && pool[size].next == NULL
      else Chain(pool[..], free, freeHead) && |free| >= 1 && free[|free| - 1] == size
    }

    // A pool nobody has allocated from is implicitly all free, in index order.
    ghost function Available(): (s: seq<int>)
      reads this
    {
      if freeHead == NULL then seq(size + 1, i => i) else free
    }

    // Static storage starts out zeroed.
    constructor (size: nat, zero: T)
      requires size >= 1
      ensures Valid() && freeHead == NULL && this.size == size
      ensures fresh(pool)
    {
      this.size := size;
      pool := new Node<T>[size + 1](_ => Node(zero, NULL, NULL));
      freeHead := NULL;
      free := [];
    }

    method New() returns (ok: bool, ret: int)
      requires Valid()
      modifies this, pool
      ensures Valid() && freeHead != NULL
      ensures ok <==> old(|Available()|) >= 2
      ensures !ok ==> free == old(Available())
      ensures ok ==> ret == old(Available())[0] < size && free == old(Available())[1..]
      ensures ok ==> ret !in free && pool[ret].prev == pool[ret].next == NULL
      ensures old(freeHead) != NULL ==>
        forall i :: 0 <= i <= size && !(ok && i == ret) ==> pool[i] == old(pool[i])
    {
      if freeHead == NULL {
        var i := 1;
        while i <= size
          invariant 1 <= i <= size + 1
          invariant forall j :: 0 <= j < i - 1 ==> pool[j].next == j + 1
          invariant pool[size].next == NULL || i == size + 1
          invariant i <= size ==> pool[size].next == NULL
          invariant i == size + 1 ==> pool[size].next == NULL
        {
          pool[i - 1] := pool[i - 1].(next := i);
          i := i + 1;
        }
        freeHead := 0;
        free := seq(size + 1, i => i);
      }
      assert forall i :: 0 <= i < |free| && old(freeHead) == NULL ==> Hop(pool[..], free, i);
      ghost var was := pool[..];
      ChainPop(was, free, freeHead, was[freeHead].(prev := NULL, next := NULL));
      ok := pool[freeHead].next != NULL;
      ret := freeHead;
      if ok {
        freeHead := pool[freeHead].next;
        free := free[1..];
        pool[ret] := pool[ret].(prev := NULL, next := NULL);
        assert pool[..] == was[ret := was[ret].(prev := NULL, next := NULL)];
      }
    }

    method Free(node: int)
      requires Valid() && freeHead != NULL && 0 <= node <= size && node !in free
      modifies this, pool
      ensures Valid() && freeHead != NULL
      ensures free == [node] + old(free)
      ensures pool[..] == old(pool[..])[node := old(pool[node]).(next := old(freeHead))]
    {
      ChainPush(pool[..], free, freeHead, node);
      ghost var was := pool[..];
      pool[node] := pool[node].(next := freeHead);
      assert pool[..] == was[node := was[node].(next := freeHead)];
      freeHead := node;
      free := [node] + free;
    }

    method Insert(prev: int, next: int, obj: int)
      requires Valid() && freeHead != NULL && (prev != NULL || next != NULL)
      requires 0 <= obj <= size && NULL <= prev <= size && NULL <= next <= size
      requires prev != obj && next != obj && prev !in free && next !in free && obj !in free
      modifies pool
      ensures Valid()
      ensures pool[..] == Inserted(old(pool[..]), prev, next, obj)
    {
      ghost var was := pool[..];
      pool[obj] := pool[obj].(prev := prev);
      pool[obj] := pool[obj].(next := next);
      if prev != NULL {
        pool[prev] := pool[prev].(next := obj);
      }
      if next != NULL {
        pool[next] := pool[next].(prev := obj);
      }
      assert pool[..] == Inserted(was, prev, next, obj);
      ChainFrame(was, pool[..], free, freeHead);
    }

    method Remove(node: int)
      requires Valid() && 0 <= node <= size
      requires NULL <= pool[node].prev <= size && NULL <= pool[node].next <= size
      requires node !in free && pool[node].prev !in free && pool[node].next !in free
      requires freeHead != NULL
      modifies pool
      ensures Valid()
      ensures pool[..] == Removed(old(pool[..]), node)
    {
      ghost var was := pool[..];
      var prev, next := pool[node].prev, pool[node].next;
      if prev != NULL {
        pool[prev] := pool[prev].(next := next);
      }
      if next != NULL {
        pool[next] := pool[next].(prev := prev);
      }
      assert pool[..] == Removed(was, node);
      ChainFrame(was, pool[..], free, freeHead);
    }
  }
}
