/** list.sort(key=...) of Python's library: a stable sort, here by insertion from the left. */
module StableSorting {

  predicate SortedBy<T>(key: T -> int, xs: seq<T>) {
    forall i, j :: 0 <= i < j < |xs| ==> key(xs[i]) <= key(xs[j])
  }

  /** x goes behind everything whose key is not larger. */
  function Insert<T>(key: T -> int, sorted: seq<T>, x: T): seq<T> {
    if sorted == [] || key(sorted[|sorted| - 1]) <= key(x) then
      sorted + [x]
    else
      Insert(key, sorted[..|sorted| - 1], x) + [sorted[|sorted| - 1]]
  }

  function Sort<T>(key: T -> int, xs: seq<T>): seq<T> {
    if xs == [] then [] else Insert(key, Sort(key, xs[..|xs| - 1]), xs[|xs| - 1])
  }

  lemma SortSnoc<T>(key: T -> int, xs: seq<T>, x: T)
    ensures Sort(key, xs + [x]) == Insert(key, Sort(key, xs), x)
  {
    assert (xs + [x])[..|xs|] == xs;
  }

  lemma {:induction false} InsertElements<T>(key: T -> int, sorted: seq<T>, x: T)
    ensures multiset(Insert(key, sorted, x)) == multiset(sorted) + multiset{x}
  {
    if sorted == [] || key(sorted[|sorted| - 1]) <= key(x) {
    } else {
      var init, last := sorted[..|sorted| - 1], sorted[|sorted| - 1];
      assert sorted == init + [last];
      InsertElements(key, init, x);
    }
  }

  lemma {:induction false} SortElements<T>(key: T -> int, xs: seq<T>)
    ensures multiset(Sort(key, xs)) == multiset(xs)
  {
    if xs == [] {
    } else {
      var init, last := xs[..|xs| - 1], xs[|xs| - 1];
      assert xs == init + [last];
      SortElements(key, init);
      InsertElements(key, Sort(key, init), last);
    }
  }

  lemma SameElements<T>(xs: seq<T>, ys: seq<T>, x: T)
    requires multiset(xs) == multiset(ys)
    ensures x in xs <==> x in ys
  {
    assert x in multiset(xs) <==> x in multiset(ys);
  }

  /** In a sequence related by key and then by later, elements appear in that order. */
  ghost predicate OrderedBy<T(!new)>(key: T -> int, later: (T, T) -> bool, xs: seq<T>) {
    forall i, j :: 0 <= i < j < |xs| ==> key(xs[i]) < key(xs[j]) || (key(xs[i]) == key(xs[j]) && later(xs[i], xs[j]))
  }

  /** Elements of equal key appear in the order given by later. */
  ghost predicate TiesOrderedBy<T(!new)>(key: T -> int, later: (T, T) -> bool, xs: seq<T>) {
    forall i, j :: 0 <= i < j < |xs| && key(xs[i]) == key(xs[j]) ==> later(xs[i], xs[j])
  }

  lemma TiesOfConcat<T(!new)>(key: T -> int, later: (T, T) -> bool, xs: seq<T>, ys: seq<T>)
    requires TiesOrderedBy(key, later, xs) && TiesOrderedBy(key, later, ys)
    requires forall x, y :: x in xs && y in ys ==> later(x, y)
    ensures TiesOrderedBy(key, later, xs + ys)
  {
  }

  lemma LastIsLargest<T(!new)>(key: T -> int, later: (T, T) -> bool, xs: seq<T>)
    requires OrderedBy(key, later, xs) && xs != []
    ensures forall y :: y in xs ==> key(y) <= key(xs[|xs| - 1])
  {
    forall y | y in xs
      ensures key(y) <= key(xs[|xs| - 1])
    {
      var i :| 0 <= i < |xs| && xs[i] == y;
    }
  }

  lemma {:induction false} InsertIsStable<T(!new)>(key: T -> int, later: (T, T) -> bool, sorted: seq<T>, x: T)
    requires OrderedBy(key, later, sorted)
    requires forall y :: y in sorted && key(y) == key(x) ==> later(y, x)
    ensures OrderedBy(key, later, Insert(key, sorted, x))
  {
    if sorted == [] {
      assert [] + [x] == [x];
    } else if key(sorted[|sorted| - 1]) <= key(x) {
      LastIsLargest(key, later, sorted);
      OrderedSnoc(key, later, sorted, x);
    } else {
      var init, last := sorted[..|sorted| - 1], sorted[|sorted| - 1];
      InsertIsStable(key, later, init, x);
      InsertElements(key, init, x);
      forall y | y in Insert(key, init, x)
        ensures key(y) < key(last) || (key(y) == key(last) && later(y, last))
      {
        SameElements(Insert(key, init, x), init + [x], y);
      }
      OrderedSnoc(key, later, Insert(key, init, x), last);
    }
  }

  lemma OrderedSnoc<T(!new)>(key: T -> int, later: (T, T) -> bool, xs: seq<T>, last: T)
    requires OrderedBy(key, later, xs)
    requires forall y :: y in xs ==> key(y) < key(last) || (key(y) == key(last) && later(y, last))
    ensures OrderedBy(key, later, xs + [last])
  {
  }

  /** The sort is stable: whatever orders ties in the input orders them in the output. */
  lemma {:induction false} SortIsStable<T(!new)>(key: T -> int, later: (T, T) -> bool, xs: seq<T>)
    requires TiesOrderedBy(key, later, xs)
    ensures OrderedBy(key, later, Sort(key, xs))
  {
    if xs == [] {
    } else {
      var init, last := xs[..|xs| - 1], xs[|xs| - 1];
      SortIsStable(key, later, init);
      SortElements(key, init);
      forall y | y in Sort(key, init) && key(y) == key(last)
        ensures later(y, last)
      {
        SameElements(Sort(key, init), init, y);
        var i :| 0 <= i < |init| && init[i] == y;
        assert xs[i] == y;
      }
      InsertIsStable(key, later, Sort(key, init), last);
    }
  }

  lemma SortIsSorted<T(!new)>(key: T -> int, xs: seq<T>)
    ensures SortedBy(key, Sort(key, xs))
  {
    SortIsStable(key, (x, y) => true, xs);
  }

  lemma {:induction false} SortOfSorted<T>(key: T -> int, xs: seq<T>)
    requires SortedBy(key, xs)
    ensures Sort(key, xs) == xs
  {
    if xs == [] {
    } else {
      var init := xs[..|xs| - 1];
      SortOfSorted(key, init);
      if init != [] {
        assert key(xs[|xs| - 2]) <= key(xs[|xs| - 1]);
      }
    }
  }

  /** Appending to a sorted list and sorting again is insertion. */
  lemma SortAfterAppend<T(!new)>(key: T -> int, xs: seq<T>, x: T)
    ensures Sort(key, Sort(key, xs) + [x]) == Sort(key, xs + [x])
  {
    SortIsSorted(key, xs);
    SortOfSorted(key, Sort(key, xs));
    SortSnoc(key, Sort(key, xs), x);
    SortSnoc(key, xs, x);
  }

  // ---------- removal ----------

  /** list.remove(x): drops the first occurrence. */
  function RemoveFirst<T(==)>(xs: seq<T>, x: T): seq<T> {
    if xs == [] then [] else if xs[0] == x then xs[1..] else [xs[0]] + RemoveFirst(xs[1..], x)
  }

  lemma {:induction false} RemoveFirstSnoc<T>(xs: seq<T>, y: T, x: T)
    ensures RemoveFirst(xs + [y], x) ==
            if x in xs then RemoveFirst(xs, x) + [y] else if y == x then xs else xs + [y]
  {
    if xs == [] {
      assert xs + [y] == [y];
    } else {
      assert (xs + [y])[1..] == xs[1..] + [y];
      RemoveFirstSnoc(xs[1..], y, x);
    }
  }

  lemma {:induction false} RemoveFirstAbsent<T>(xs: seq<T>, x: T)
    requires x !in xs
    ensures RemoveFirst(xs, x) == xs
  {
    if xs == [] {
    } else {
      RemoveFirstAbsent(xs[1..], x);
    }
  }

  lemma {:induction false} RemoveFirstFromInsert<T>(key: T -> int, sorted: seq<T>, y: T, x: T)
    requires SortedBy(key, sorted)
    ensures RemoveFirst(Insert(key, sorted, y), x) ==
            if x in sorted then Insert(key, RemoveFirst(sorted, x), y)
            else if y == x then sorted else Insert(key, sorted, y)
  {
    if sorted == [] || key(sorted[|sorted| - 1]) <= key(y) {
      RemoveFirstSnoc(sorted, y, x);
      if x in sorted {
        LastKeyAfterRemove(key, sorted, x);
      }
    } else {
      var init, last := sorted[..|sorted| - 1], sorted[|sorted| - 1];
      assert sorted == init + [last];
      RemoveFirstFromInsert(key, init, y, x);
      RemoveFirstSnoc(Insert(key, init, y), last, x);
      RemoveFirstSnoc(init, last, x);
      InsertElements(key, init, y);
      SameElements(Insert(key, init, y), init + [y], x);
      InsertBeforeLarger(key, RemoveFirst(init, x), y, last);
    }
  }

  lemma InsertBeforeLarger<T>(key: T -> int, xs: seq<T>, y: T, last: T)
    requires key(y) < key(last)
    ensures Insert(key, xs + [last], y) == Insert(key, xs, y) + [last]
  {
    assert (xs + [last])[..|xs|] == xs;
  }

  lemma LastKeyAfterRemove<T>(key: T -> int, sorted: seq<T>, x: T)
    requires SortedBy(key, sorted) && x in sorted
    ensures var rest := RemoveFirst(sorted, x);
            rest != [] ==> key(rest[|rest| - 1]) <= key(sorted[|sorted| - 1])
  {
    var init, last := sorted[..|sorted| - 1], sorted[|sorted| - 1];
    assert sorted == init + [last];
    RemoveFirstSnoc(init, last, x);
  }

  /** Removing from the sorted list is sorting what is left after removing. */
  lemma {:induction false} RemoveFirstFromSort<T(!new)>(key: T -> int, xs: seq<T>, x: T)
    ensures RemoveFirst(Sort(key, xs), x) == Sort(key, RemoveFirst(xs, x))
  {
    if xs == [] {
    } else {
      var init, last := xs[..|xs| - 1], xs[|xs| - 1];
      assert xs == init + [last];
      RemoveFirstFromSort(key, init, x);
      SortIsSorted(key, init);
      RemoveFirstFromInsert(key, Sort(key, init), last, x);
      RemoveFirstSnoc(init, last, x);
      SortElements(key, init);
      SameElements(Sort(key, init), init, x);
      if x in init {
        SortSnoc(key, RemoveFirst(init, x), last);
      }
    }
  }
}
