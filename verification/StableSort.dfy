/**
 What the ranking code relies on from `sort.SliceStable`: a sorted permutation that keeps the
 order of tied elements. `StableSorted` is that function, by insertion; `StableSortUnique` says
 any algorithm with the same promise computes the same sequence.
 */
module StableSort {

  type Order<!T> = (T, T) -> bool

  /** No element is below itself, and "not below" is transitive. */
  ghost predicate StrictWeak<T(!new)>(less: Order<T>) {
    && (forall x, y :: less(x, y) ==> !less(y, x))
    && (forall x, y, z :: !less(x, y) && !less(y, z) ==> !less(x, z))
  }

  ghost predicate Ordered<T>(s: seq<T>, less: Order<T>) {
    forall i, j | 0 <= i < j < |s| :: !less(s[j], s[i])
  }

  predicate Tied<T>(less: Order<T>, x: T, y: T) {
    !less(x, y) && !less(y, x)
  }

  /** The elements tied with `x`, in order. */
  function TiedWith<T>(s: seq<T>, less: Order<T>, x: T): seq<T> {
    if s == [] then [] else (if Tied(less, x, s[0]) then [s[0]] else []) + TiedWith(s[1..], less, x)
  }

  /** `x` goes after every element it is not below. */
  function Insert<T>(s: seq<T>, x: T, less: Order<T>): (r: seq<T>)
    ensures multiset(r) == multiset(s) + multiset{x}
  {
    if s == [] || !less(x, s[|s| - 1]) then s + [x]
    else
      assert s == s[..|s| - 1] + [s[|s| - 1]];
      Insert(s[..|s| - 1], x, less) + [s[|s| - 1]]
  }

  function StableSorted<T>(s: seq<T>, less: Order<T>): (r: seq<T>)
    ensures multiset(r) == multiset(s)
    ensures |r| == |s|
  {
    if s == [] then []
    else
      assert s == s[..|s| - 1] + [s[|s| - 1]];
      var r := Insert(StableSorted(s[..|s| - 1], less), s[|s| - 1], less);
      assert |multiset(r)| == |r| && |multiset(s)| == |s|;
      r
  }

  lemma SameElements<T(!new)>(a: seq<T>, b: seq<T>)
    requires multiset(a) == multiset(b)
    ensures forall x :: x in a <==> x in b
    ensures |a| == |b|
  {
    assert forall x :: x in a <==> x in multiset(a);
    assert forall x :: x in b <==> x in multiset(b);
    assert |multiset(a)| == |a| && |multiset(b)| == |b|;
  }

  lemma {:induction false} InsertOrdered<T(!new)>(s: seq<T>, x: T, less: Order<T>)
    requires StrictWeak(less) && Ordered(s, less)
    ensures Ordered(Insert(s, x, less), less)
  {
    if s != [] {
      var front, last := s[..|s| - 1], s[|s| - 1];
      if less(x, last) {
        InsertOrdered(front, x, less);
        var r := Insert(front, x, less);
        assert multiset(r) == multiset(front + [x]);
        SameElements(r, front + [x]);
        forall i | 0 <= i < |r|
          ensures !less(last, r[i])
        {
          assert r[i] in front + [x];
        }
      } else {
        forall i | 0 <= i < |s|
          ensures !less(x, s[i])
        {
          assert i == |s| - 1 || !less(last, s[i]);
        }
      }
    }
  }

  lemma {:induction false} SortOrdered<T(!new)>(s: seq<T>, less: Order<T>)
    requires StrictWeak(less)
    ensures Ordered(StableSorted(s, less), less)
  {
    if s != [] {
      SortOrdered(s[..|s| - 1], less);
      InsertOrdered(StableSorted(s[..|s| - 1], less), s[|s| - 1], less);
    }
  }

  lemma {:induction false} TiedConcat<T>(a: seq<T>, b: seq<T>, less: Order<T>, x: T)
    ensures TiedWith(a + b, less, x) == TiedWith(a, less, x) + TiedWith(b, less, x)
  {
    if a == [] {
      assert a + b == b;
    } else {
      TiedConcat(a[1..], b, less, x);
      assert (a + b)[1..] == a[1..] + b;
    }
  }

  lemma TiedOne<T>(y: T, less: Order<T>, x: T)
    ensures TiedWith([y], less, x) == if Tied(less, x, y) then [y] else []
  {
    assert [y][1..] == [];
  }

  lemma InsertPassesUntied<T>(front: seq<T>, last: T, y: T, less: Order<T>, x: T)
    requires TiedWith(Insert(front, y, less), less, x) == TiedWith(front + [y], less, x)
    requires !(Tied(less, x, y) && Tied(less, x, last))
    ensures TiedWith(Insert(front, y, less) + [last], less, x) == TiedWith(front + [last] + [y], less, x)
  {
    TiedConcat(Insert(front, y, less), [last], less, x);
    TiedConcat(front, [y], less, x);
    TiedConcat(front + [last], [y], less, x);
    TiedConcat(front, [last], less, x);
    TiedOne(last, less, x);
    TiedOne(y, less, x);
  }

  lemma {:induction false} InsertStable<T(!new)>(s: seq<T>, y: T, less: Order<T>, x: T)
    requires StrictWeak(less)
    ensures TiedWith(Insert(s, y, less), less, x) == TiedWith(s + [y], less, x)
  {
    if s != [] && less(y, s[|s| - 1]) {
      var front, last := s[..|s| - 1], s[|s| - 1];
      InsertStable(front, y, less, x);
      NotBothTied(y, last, less, x);
      InsertPassesUntied(front, last, y, less, x);
      assert s == front + [last];
    }
  }

  lemma NotBothTied<T(!new)>(y: T, last: T, less: Order<T>, x: T)
    requires StrictWeak(less) && less(y, last)
    ensures !(Tied(less, x, y) && Tied(less, x, last))
  {
  }

  lemma {:induction false} SortStable<T(!new)>(s: seq<T>, less: Order<T>, x: T)
    requires StrictWeak(less)
    ensures TiedWith(StableSorted(s, less), less, x) == TiedWith(s, less, x)
  {
    if s != [] {
      var front, last := s[..|s| - 1], s[|s| - 1];
      SortStable(front, less, x);
      InsertStable(StableSorted(front, less), last, less, x);
      TiedConcat(StableSorted(front, less), [last], less, x);
      TiedConcat(front, [last], less, x);
      assert s == front + [last];
    }
  }

  lemma {:induction false} TiedWithin<T>(s: seq<T>, less: Order<T>, x: T)
    ensures forall y | y in TiedWith(s, less, x) :: y in s && Tied(less, x, y)
    ensures forall y | y in s && Tied(less, x, y) :: y in TiedWith(s, less, x)
  {
    if s != [] {
      TiedWithin(s[1..], less, x);
    }
  }

  lemma FirstIsTied<T(!new)>(s: seq<T>, less: Order<T>)
    requires StrictWeak(less) && s != []
    ensures TiedWith(s, less, s[0]) != []
  {
  }

  /** Order and stability leave no choice: two ordered sequences with the same tied runs are the same. */
  lemma {:induction false} StableSortUnique<T(!new)>(a: seq<T>, b: seq<T>, less: Order<T>)
    requires StrictWeak(less) && Ordered(a, less) && Ordered(b, less)
    requires forall x :: TiedWith(a, less, x) == TiedWith(b, less, x)
    ensures a == b
  {
    if a == [] || b == [] {
      if a != [] {
        FirstIsTied(a, less);
      } else if b != [] {
        FirstIsTied(b, less);
      }
    } else {
      TiedWithin(b, less, a[0]);
      TiedWithin(a, less, a[0]);
      TiedWithin(a, less, b[0]);
      TiedWithin(b, less, b[0]);
      assert Tied(less, a[0], a[0]) && a[0] in b;
      assert Tied(less, b[0], b[0]) && b[0] in a;
      assert Tied(less, a[0], b[0]);
      assert TiedWith(a, less, a[0])[0] == a[0] && TiedWith(b, less, a[0])[0] == b[0];
      forall x
        ensures TiedWith(a[1..], less, x) == TiedWith(b[1..], less, x)
      {
        assert TiedWith(a, less, x) == TiedWith(b, less, x);
        var head := if Tied(less, x, a[0]) then [a[0]] else [];
        assert TiedWith(a, less, x) == head + TiedWith(a[1..], less, x);
        assert TiedWith(b, less, x) == head + TiedWith(b[1..], less, x);
        assert TiedWith(a[1..], less, x) == (head + TiedWith(a[1..], less, x))[|head|..];
      }
      StableSortUnique(a[1..], b[1..], less);
    }
  }

  /** Where no two distinct elements tie, the sorted permutation does not depend on the input's order. */
  lemma {:induction false} TotalSortUnique<T(!new)>(a: seq<T>, b: seq<T>, less: Order<T>)
    requires StrictWeak(less) && Ordered(a, less) && Ordered(b, less)
    requires multiset(a) == multiset(b)
    requires forall x, y | x in a && y in a && x != y :: less(x, y) || less(y, x)
    ensures a == b
  {
    SameElements(a, b);
    if a != [] {
      assert a[0] in b && b[0] in a;
      SameTails(a, b);
      forall x, y | x in a[1..] && y in a[1..] && x != y
        ensures less(x, y) || less(y, x)
      {
        assert x in a && y in a;
      }
      TotalSortUnique(a[1..], b[1..], less);
    }
  }

  lemma SameTails<T>(a: seq<T>, b: seq<T>)
    requires a != [] && b != [] && a[0] == b[0] && multiset(a) == multiset(b)
    ensures multiset(a[1..]) == multiset(b[1..])
    ensures a[1..] == b[1..] ==> a == b
  {
    assert a == [a[0]] + a[1..] && b == [b[0]] + b[1..];
    assert multiset(a[1..]) == multiset(a) - multiset{a[0]};
    assert multiset(b[1..]) == multiset(b) - multiset{b[0]};
  }

  function Mapped<T, U>(s: seq<T>, f: T -> U): (r: seq<U>)
    ensures |r| == |s|
  {
    if s == [] then [] else Mapped(s[..|s| - 1], f) + [f(s[|s| - 1])]
  }

  lemma {:induction false} MappedAt<T, U>(s: seq<T>, f: T -> U, i: nat)
    requires i < |s|
    ensures Mapped(s, f)[i] == f(s[i])
  {
    if i < |s| - 1 {
      MappedAt(s[..|s| - 1], f, i);
    }
  }

  /** Inserting commutes with a relabelling that preserves the order. */
  lemma {:induction false} InsertRelabelled<T, U>(s: seq<T>, x: T, less: Order<T>, f: T -> U, less': Order<U>)
    requires forall y | y in s :: less'(f(x), f(y)) == less(x, y)
    ensures Insert(Mapped(s, f), f(x), less') == Mapped(Insert(s, x, less), f)
  {
    if s == [] {
      assert [x][..0] == [];
    } else {
      var front, last := s[..|s| - 1], s[|s| - 1];
      assert Mapped(s, f) == Mapped(front, f) + [f(last)];
      assert Mapped(s, f)[..|s| - 1] == Mapped(front, f);
      if less(x, last) {
        InsertRelabelled(front, x, less, f, less');
        assert (Insert(front, x, less) + [last])[..|Insert(front, x, less)|] == Insert(front, x, less);
      } else {
        assert (s + [x])[..|s|] == s;
      }
    }
  }

  /** So does sorting. */
  lemma {:induction false} SortRelabelled<T(!new), U>(s: seq<T>, less: Order<T>, f: T -> U, less': Order<U>)
    requires forall x, y | x in s && y in s :: less'(f(x), f(y)) == less(x, y)
    ensures StableSorted(Mapped(s, f), less') == Mapped(StableSorted(s, less), f)
  {
    if s != [] {
      var front, last := s[..|s| - 1], s[|s| - 1];
      assert forall x | x in front :: x in s;
      SortRelabelled(front, less, f, less');
      SortedWithin(front, less, s);
      InsertRelabelled(StableSorted(front, less), last, less, f, less');
      SortRelabelledLast(s, less, f, less');
    }
  }

  lemma SortedWithin<T(!new)>(front: seq<T>, less: Order<T>, s: seq<T>)
    requires forall x | x in front :: x in s
    ensures forall x | x in StableSorted(front, less) :: x in s
  {
    SameElements(front, StableSorted(front, less));
  }

  lemma SortRelabelledLast<T, U>(s: seq<T>, less: Order<T>, f: T -> U, less': Order<U>)
    requires s != []
    requires var sorted := StableSorted(s[..|s| - 1], less);
             && StableSorted(Mapped(s[..|s| - 1], f), less') == Mapped(sorted, f)
             && Insert(Mapped(sorted, f), f(s[|s| - 1]), less') == Mapped(Insert(sorted, s[|s| - 1], less), f)
    ensures StableSorted(Mapped(s, f), less') == Mapped(StableSorted(s, less), f)
  {
    assert Mapped(s, f)[..|s| - 1] == Mapped(s[..|s| - 1], f);
    assert Mapped(s, f)[|s| - 1] == f(s[|s| - 1]);
  }
}
