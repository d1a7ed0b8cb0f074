/**
 Listing a finite set in a strict order: what `sort.Slice` delivers for records
 collected from a Go map, whose iteration order is arbitrary.
 */
module SortedSets {
  import opened Basics

  ghost predicate StrictOrder<T(!new)>(before: (T, T) -> bool, s: set<T>) {
    && (forall x | x in s :: !before(x, x))
    && (forall x, y | x in s && y in s && x != y :: before(x, y) || before(y, x))
    && (forall x, y, z | x in s && y in s && z in s && before(x, y) && before(y, z) :: before(x, z))
  }

  ghost predicate IsSorted<T(!new)>(before: (T, T) -> bool, xs: seq<T>) {
    forall i, j | 0 <= i < j < |xs| :: before(xs[i], xs[j])
  }

  ghost predicate IsFirst<T(!new)>(before: (T, T) -> bool, s: set<T>, x: T) {
    x in s && forall y | y in s && y != x :: before(x, y)
  }

  lemma {:induction false} FirstExists<T(!new)>(before: (T, T) -> bool, s: set<T>)
    requires s != {} && StrictOrder(before, s)
    ensures exists x :: IsFirst(before, s, x)
  {
    var x :| x in s;
    var rest := s - {x};
    if rest == {} {
      assert s == {x};
      assert IsFirst(before, s, x);
    } else {
      FirstExists(before, rest);
      var y :| IsFirst(before, rest, y);
      assert IsFirst(before, s, if before(x, y) then x else y);
    }
  }

  ghost function First<T(!new)>(before: (T, T) -> bool, s: set<T>): (x: T)
    requires s != {} && StrictOrder(before, s)
    ensures IsFirst(before, s, x)
  {
    FirstExists(before, s);
    var x :| IsFirst(before, s, x);
    x
  }

  /** The elements of `s` in order. */
  ghost function Sorted<T(!new)>(before: (T, T) -> bool, s: set<T>): seq<T>
    requires StrictOrder(before, s)
  {
    if s == {} then [] else
    var x := First(before, s);
    [x] + Sorted(before, s - {x})
  }

  lemma {:induction false} SortedLists<T(!new)>(before: (T, T) -> bool, s: set<T>)
    requires StrictOrder(before, s)
    ensures IsSorted(before, Sorted(before, s))
    ensures Elements(Sorted(before, s)) == s
    ensures Distinct(Sorted(before, s))
  {
    if s != {} {
      var x := First(before, s);
      SortedLists(before, s - {x});
      assert Elements(Sorted(before, s)) == {x} + Elements(Sorted(before, s - {x}));
    }
  }

  /** Sorting a collected set by repeatedly taking its first element. */
  method SortSet<T(!new, ==)>(before: (T, T) -> bool, s: set<T>) returns (xs: seq<T>)
    requires StrictOrder(before, s)
    ensures xs == Sorted(before, s)
  {
    xs := [];
    var rest := s;
    while rest != {}
      invariant rest <= s && StrictOrder(before, rest)
      invariant xs + Sorted(before, rest) == Sorted(before, s)
      decreases rest
    {
      var x :| x in rest;
      var others := rest - {x};
      while others != {}
        invariant x in rest && others <= rest
        invariant forall y | y in rest && y !in others && y != x :: before(x, y)
        decreases others
      {
        var y :| y in others;
        if before(y, x) { x := y; }
        others := others - {y};
      }
      assert First(before, rest) == x;
      assert xs + [x] + Sorted(before, rest - {x}) == xs + Sorted(before, rest);
      xs, rest := xs + [x], rest - {x};
    }
  }
}
