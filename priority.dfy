/** `updatePriority`: sort the active categories by priority, then compute a
    priority that places a category at a 0-based target rank among them. */
module Priority {
  import opened Wrappers
  import opened Entities

  predicate Ascending(s: seq<Category>) {
    forall i, j :: 0 <= i < j < |s| ==> s[i].priority <= s[j].priority
  }

  function Priorities(s: seq<Category>): (ps: seq<real>)
    ensures |ps| == |s|
    ensures forall i :: 0 <= i < |s| ==> ps[i] == s[i].priority
  {
    seq(|s|, i requires 0 <= i < |s| => s[i].priority)
  }

  // ---------------------------------------------------------------------
  // The comparators
  // ---------------------------------------------------------------------

  /** The comparator updatePriority hands to the sort: -1 when `a` comes
      first, and 0 otherwise, so it never reports `a` after `b`. */
  function UpdatePriorityComparator(a: Category, b: Category): (r: int)
    ensures r <= 0
    ensures r < 0 <==> a.priority < b.priority
  {
    if a.priority < b.priority then -1 else 0
  }

  /** A sort comparator is consistent when swapping its arguments flips the
      sign of its answer (section 23.1.3.30 of ECMA-262, "Array.prototype.sort"). */
  predicate SignsFlip(x: real, y: real) {
    (x < 0.0 <==> y > 0.0) && (x == 0.0 <==> y == 0.0)
  }

  /** The comparator of updatePriority is not consistent: on two categories
      of priorities 1 and 2 it answers -1 one way round and 0 the other. */
  lemma UpdatePriorityComparatorInconsistent()
    ensures exists a: Category, b: Category ::
      !SignsFlip(UpdatePriorityComparator(a, b) as real, UpdatePriorityComparator(b, a) as real)
  {
    var a := Category(0, "a", "", Active, 1.0);
    var b := Category(1, "b", "", Active, 2.0);
    assert UpdatePriorityComparator(a, b) == -1;
    assert UpdatePriorityComparator(b, a) == 0;
    assert !SignsFlip(UpdatePriorityComparator(a, b) as real, UpdatePriorityComparator(b, a) as real);
  }

  /** The comparator `a.priority - b.priority` that getList hands to the sort,
      which the model's sorts use: negative, zero or positive as `a` comes
      before, ties with or comes after `b`. */
  function ComparePriority(a: Category, b: Category): (r: real)
    ensures r < 0.0 <==> a.priority < b.priority
    ensures r == 0.0 <==> a.priority == b.priority
    ensures SignsFlip(r, b.priority - a.priority)
  {
    a.priority - b.priority
  }

  /** Through `< 0`, the only way the sort consults a comparator, the two
      comparators give the same answer on every pair. */
  lemma ComparatorsAgreeBelowZero(a: Category, b: Category)
    ensures UpdatePriorityComparator(a, b) < 0 <==> ComparePriority(a, b) < 0.0
  {
  }

  // ---------------------------------------------------------------------
  // Sorting in place
  // ---------------------------------------------------------------------

  /** Exchanges two elements of `a`. */
  method Swap(a: array<Category>, i: nat, j: nat)
    requires i < a.Length && j < a.Length
    modifies a
    ensures a[..] == old(a[..])[i := old(a[j])][j := old(a[i])]
    ensures multiset(a[..]) == old(multiset(a[..]))
  {
    a[i], a[j] := a[j], a[i];
  }

  /** One pass of the insertion sort: moves `a[i]` left past every element
      the comparator puts after it, so that `a[..i + 1]` becomes ascending. */
  method InsertLast(a: array<Category>, i: nat)
    requires i < a.Length
    requires Ascending(a[..i])
    modifies a
    ensures Ascending(a[..i + 1])
    ensures a[i + 1..] == old(a[i + 1..])
    ensures multiset(a[..]) == old(multiset(a[..]))
  {
    var j := i;
    while j > 0 && ComparePriority(a[j], a[j - 1]) < 0.0
      invariant 0 <= j <= i
      invariant a[i + 1..] == old(a[i + 1..])
      invariant multiset(a[..]) == old(multiset(a[..]))
      // left of the moving element, right of it (itself first), and across
      invariant forall p, q :: 0 <= p < q < j ==> a[p].priority <= a[q].priority
      invariant forall p, q :: j <= p < q <= i ==> a[p].priority <= a[q].priority
      invariant forall p, q :: 0 <= p < j < q <= i ==> a[p].priority <= a[q].priority
    {
      Swap(a, j - 1, j);
      j := j - 1;
    }
    forall p, q | 0 <= p < q <= i ensures a[p].priority <= a[q].priority {
      if p < j && q == j {
        assert a[p].priority <= a[j - 1].priority;
      }
    }
  }

  /** The array sort the service calls, as an insertion sort that consults
      the comparator only through `< 0`. */
  method SortByPriority(a: array<Category>)
    modifies a
    ensures Ascending(a[..])
    ensures multiset(a[..]) == old(multiset(a[..]))
  {
    var i := 0;
    while i < a.Length
      invariant 0 <= i <= a.Length
      invariant Ascending(a[..i])
      invariant multiset(a[..]) == old(multiset(a[..]))
    {
      InsertLast(a, i);
      i := i + 1;
    }
    assert a[..a.Length] == a[..];
  }

  // ---------------------------------------------------------------------
  // A reference sort, to name "the sorted list" in specifications
  // ---------------------------------------------------------------------

  function Insert(c: Category, s: seq<Category>): (r: seq<Category>)
    ensures |r| == |s| + 1
    ensures multiset(r) == multiset(s) + multiset{c}
    ensures forall x :: x in r ==> x == c || x in s
  {
    if s == [] || c.priority <= s[0].priority then [c] + s
    else
      assert s == [s[0]] + s[1..];
      [s[0]] + Insert(c, s[1..])
  }

  /** A category no later priority undercuts can go in front of an
      ascending list. */
  lemma ConsAscending(x: Category, rest: seq<Category>)
    requires Ascending(rest)
    requires forall y :: y in rest ==> x.priority <= y.priority
    ensures Ascending([x] + rest)
  {
    var r := [x] + rest;
    forall i, j | 0 <= i < j < |r| ensures r[i].priority <= r[j].priority {
      assert r[j] == rest[j - 1] && rest[j - 1] in rest;
      if i > 0 {
        assert r[i] == rest[i - 1];
      }
    }
  }

  /** Inserting into an ascending list keeps it ascending. */
  lemma {:induction false} InsertAscending(c: Category, s: seq<Category>)
    requires Ascending(s)
    ensures Ascending(Insert(c, s))
  {
    if s == [] || c.priority <= s[0].priority {
      forall y | y in s ensures c.priority <= y.priority {
        var k :| 0 <= k < |s| && s[k] == y;
        assert s[0].priority <= s[k].priority;
      }
      ConsAscending(c, s);
    } else {
      var tail := s[1..];
      var rest := Insert(c, tail);
      InsertAscending(c, tail);
      forall x | x in rest ensures s[0].priority <= x.priority {
        if x != c {
          var k :| 0 <= k < |tail| && tail[k] == x;
          assert s[k + 1] == x;
        }
      }
      ConsAscending(s[0], rest);
    }
  }

  /** Insertion sort by priority: the categories in ascending priority,
      ties in input order. */
  function SortedByPriority(s: seq<Category>): (r: seq<Category>)
    ensures |r| == |s|
    ensures Ascending(r)
    ensures multiset(r) == multiset(s)
  {
    if s == [] then []
    else
      assert s == [s[0]] + s[1..];
      InsertAscending(s[0], SortedByPriority(s[1..]));
      Insert(s[0], SortedByPriority(s[1..]))
  }

  // ---------------------------------------------------------------------
  // Two ascending orders of the same categories agree on priorities
  // ---------------------------------------------------------------------

  lemma PrioritiesOfConcat(s: seq<Category>, t: seq<Category>)
    ensures Priorities(s + t) == Priorities(s) + Priorities(t)
  {
  }

  /** Equal multisets of categories give equal multisets of priorities. */
  lemma {:induction false} PriorityMultiset(s: seq<Category>, t: seq<Category>)
    requires multiset(s) == multiset(t)
    ensures multiset(Priorities(s)) == multiset(Priorities(t))
    decreases |s|
  {
    if s == [] {
      assert t == [] by { assert |multiset(t)| == 0; }
    } else {
      var x := s[0];
      assert x in multiset(t) by { assert s == [x] + s[1..]; }
      var j :| 0 <= j < |t| && t[j] == x;
      var rest := t[..j] + t[j + 1..];
      assert t == t[..j] + [x] + t[j + 1..];
      assert s == [x] + s[1..];
      assert multiset(s) == multiset{x} + multiset(s[1..]);
      assert multiset(t) == multiset(t[..j]) + multiset{x} + multiset(t[j + 1..]);
      assert multiset(rest) == multiset(t[..j]) + multiset(t[j + 1..]);
      assert multiset(s[1..]) == multiset(s) - multiset{x};
      assert multiset(rest) == multiset(t) - multiset{x};
      PriorityMultiset(s[1..], rest);
      PrioritiesOfConcat([x], s[1..]);
      PrioritiesOfConcat(t[..j], t[j + 1..]);
      PrioritiesOfConcat(t[..j] + [x], t[j + 1..]);
      PrioritiesOfConcat(t[..j], [x]);
    }
  }

  predicate AscendingReals(s: seq<real>) {
    forall i, j :: 0 <= i < j < |s| ==> s[i] <= s[j]
  }

  /** The first element of an ascending sequence is its least. */
  lemma HeadIsLeast(s: seq<real>, x: real)
    requires AscendingReals(s) && x in s
    ensures s[0] <= x
  {
    var k :| 0 <= k < |s| && s[k] == x;
    assert k == 0 || s[0] <= s[k];
  }

  lemma TailMultiset<T>(s: seq<T>)
    requires |s| > 0
    ensures multiset(s[1..]) == multiset(s) - multiset{s[0]}
  {
    assert s == [s[0]] + s[1..];
  }

  /** An ascending sequence of reals is fixed by its multiset. */
  lemma {:induction false} AscendingRealsUnique(s: seq<real>, t: seq<real>)
    requires AscendingReals(s) && AscendingReals(t)
    requires multiset(s) == multiset(t)
    ensures s == t
    decreases |s|
  {
    if s == [] {
      assert t == [] by { assert |multiset(t)| == 0; }
    } else {
      assert |t| == |s| by { assert |multiset(t)| == |multiset(s)|; }
      assert s[0] in multiset(t) && t[0] in multiset(s);
      HeadIsLeast(t, s[0]);
      HeadIsLeast(s, t[0]);
      var x := s[0];
      assert t[0] == x;
      TailMultiset(s);
      TailMultiset(t);
      assert multiset(s[1..]) == multiset(t[1..]) == multiset(s) - multiset{x};
      AscendingRealsUnique(s[1..], t[1..]);
      forall i | 0 <= i < |s| ensures s[i] == t[i] {
        if i > 0 {
          assert s[i] == s[1..][i - 1] && t[i] == t[1..][i - 1];
        }
      }
    }
  }

  /** However ties are ordered, two ascending orders of the same categories
      carry the same priority at every position. */
  lemma SamePriorities(s: seq<Category>, t: seq<Category>)
    requires Ascending(s) && Ascending(t)
    requires multiset(s) == multiset(t)
    ensures Priorities(s) == Priorities(t)
  {
    PriorityMultiset(s, t);
    AscendingRealsUnique(Priorities(s), Priorities(t));
  }

  // ---------------------------------------------------------------------
  // The reinsertion rule
  // ---------------------------------------------------------------------

  /** A real that indexes an array: a whole number. */
  predicate IsWhole(x: real) {
    x.Floor as real == x
  }

  /** The priority updatePriority returns for 0-based target `rank`, read
      off the list after it was sorted. A rank strictly inside the list that
      is not a whole number indexes past every element, so reading its
      priority fails. */
  function Reinsert(rank: real, sorted: seq<Category>): (r: Result<real, ServiceError>)
    requires |sorted| > 0
    ensures r.Failure? <==> 0.0 < rank < (|sorted| - 1) as real && !IsWhole(rank)
    ensures r.Failure? ==> r.error == TypeError
  {
    if rank <= 0.0 then
      Success(sorted[0].priority - 1.0)
    else if rank >= (|sorted| - 1) as real then
      Success(sorted[|sorted| - 1].priority + 1.0)
    else if !IsWhole(rank) then
      Failure(TypeError)
    else
      var k := rank.Floor;
      Success((sorted[k - 1].priority + sorted[k + 1].priority) / 2.0)
  }

  /** The priority updatePriority computes for `rank` against the list `cs`,
      whatever order `cs` was in (ReinsertIgnoresTieOrder: the order the
      sort gives ties does not matter). It fails exactly where Reinsert does. */
  function NewPriority(rank: real, cs: seq<Category>): (r: Result<real, ServiceError>)
    requires |cs| > 0
    ensures r.Failure? <==> 0.0 < rank < (|cs| - 1) as real && !IsWhole(rank)
    ensures r.Failure? ==> r.error == TypeError
  {
    Reinsert(rank, SortedByPriority(cs))
  }

  /** Reinsert reads nothing of a category but its priority, so two ascending
      orders of the same list (ties placed differently) give the same result. */
  lemma ReinsertIgnoresTieOrder(rank: real, s: seq<Category>, t: seq<Category>)
    requires |s| > 0
    requires Ascending(s) && Ascending(t)
    requires multiset(s) == multiset(t)
    ensures |t| == |s| && Reinsert(rank, s) == Reinsert(rank, t)
  {
    SamePriorities(s, t);
    assert |s| == |t|;
    assert s[0].priority == Priorities(s)[0] == Priorities(t)[0] == t[0].priority;
  }

  /** updatePriority: sorts `list` in place, then returns the priority that
      places a category at 0-based `rank` among its elements. */
  method UpdatePriority(rank: real, list: array<Category>) returns (r: Result<real, ServiceError>)
    requires list.Length > 0
    modifies list
    ensures Ascending(list[..])
    ensures multiset(list[..]) == old(multiset(list[..]))
    ensures r == NewPriority(rank, old(list[..]))
  {
    ghost var before := list[..];
    SortByPriority(list);
    if rank <= 0.0 {
      r := Success(list[0].priority - 1.0);
    } else if rank >= (list.Length - 1) as real {
      r := Success(list[list.Length - 1].priority + 1.0);
    } else if !IsWhole(rank) {
      r := Failure(TypeError);
    } else {
      var k := rank.Floor;
      var pre := list[k - 1].priority;
      var next := list[k + 1].priority;
      r := Success((pre + next) / 2.0);
    }
    assert r == Reinsert(rank, list[..]);
    ReinsertIgnoresTieOrder(rank, list[..], SortedByPriority(before));
  }

  // ---------------------------------------------------------------------
  // What the new priority means
  // ---------------------------------------------------------------------

  /** At the front: one below the lowest priority (a priority of the list
      less 1, and at least 1 below every priority), so strictly below all. */
  lemma NewPriorityBeforeAll(rank: real, cs: seq<Category>)
    requires |cs| > 0
    requires rank <= 0.0
    ensures NewPriority(rank, cs).Success?
    ensures forall c :: c in cs ==> NewPriority(rank, cs).value < c.priority
    ensures forall c :: c in cs ==> NewPriority(rank, cs).value + 1.0 <= c.priority
    ensures exists c :: c in cs && NewPriority(rank, cs).value == c.priority - 1.0
  {
    var s := SortedByPriority(cs);
    var r := NewPriority(rank, cs);
    assert r == Success(s[0].priority - 1.0);
    assert s[0] in multiset(cs);
    forall c | c in cs ensures r.value + 1.0 <= c.priority {
      assert c in multiset(s);
      var k :| 0 <= k < |s| && s[k] == c;
      assert s[0].priority <= s[k].priority;
    }
  }

  /** At the back: one above the highest priority (a priority of the list
      plus 1, and at least 1 above every priority), so strictly above all. */
  lemma NewPriorityAfterAll(rank: real, cs: seq<Category>)
    requires |cs| > 0
    requires rank > 0.0 && rank >= (|cs| - 1) as real
    ensures NewPriority(rank, cs).Success?
    ensures forall c :: c in cs ==> NewPriority(rank, cs).value > c.priority
    ensures forall c :: c in cs ==> NewPriority(rank, cs).value - 1.0 >= c.priority
    ensures exists c :: c in cs && NewPriority(rank, cs).value == c.priority + 1.0
  {
    var s := SortedByPriority(cs);
    var last := |s| - 1;
    var r := NewPriority(rank, cs);
    assert r == Success(s[last].priority + 1.0);
    assert s[last] in multiset(cs);
    forall c | c in cs ensures r.value - 1.0 >= c.priority {
      assert c in multiset(s);
      var k :| 0 <= k <= last && s[k] == c;
      if k < last {
        assert s[k].priority <= s[last].priority;
      }
    }
  }

  /** Strictly inside the list at a whole rank `k`: the reads at `k - 1` and
      `k + 1` are in bounds and the result is their midpoint, which lies
      between them, strictly when they differ. */
  lemma ReinsertBetween(rank: real, s: seq<Category>)
    requires |s| > 0 && Ascending(s)
    requires 0.0 < rank < (|s| - 1) as real && IsWhole(rank)
    ensures 1 <= rank.Floor && rank.Floor + 1 < |s|
    ensures Reinsert(rank, s)
         == Success((s[rank.Floor - 1].priority + s[rank.Floor + 1].priority) / 2.0)
    ensures s[rank.Floor - 1].priority <= Reinsert(rank, s).value <= s[rank.Floor + 1].priority
    ensures s[rank.Floor - 1].priority < s[rank.Floor + 1].priority ==>
              s[rank.Floor - 1].priority < Reinsert(rank, s).value < s[rank.Floor + 1].priority
  {
  }

  /** Strictly inside the list at a rank that is not a whole number, the
      read of the neighbour yields nothing and the computation fails. */
  lemma ReinsertFractionalRankFails(rank: real, cs: seq<Category>)
    requires |cs| > 0
    requires 0.0 < rank < (|cs| - 1) as real && !IsWhole(rank)
    ensures NewPriority(rank, cs) == Failure(TypeError)
  {
  }

  /** The worked example: priorities 1 to 5; rank 0 gives 0, rank 4 gives 6
      and rank 2 gives the midpoint of 2 and 4. */
  lemma ReinsertExample()
    ensures var s := seq(5, i requires 0 <= i < 5 => Category(i, "", "", Active, (i + 1) as real));
            Reinsert(0.0, s) == Success(0.0) && Reinsert(4.0, s) == Success(6.0)
            && Reinsert(2.0, s) == Success(3.0)
  {
  }
}
