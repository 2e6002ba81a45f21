/** The Python list operations the registration workflow relies on. */
module Lists {

  /** No element occurs twice. */
  ghost predicate NoDuplicates<T>(xs: seq<T>) {
    forall i, j :: 0 <= i < j < |xs| ==> xs[i] != xs[j]
  }

  /** Python's `xs.index(x)`: the position of the FIRST occurrence of `x`. */
  function IndexOf<T(==)>(xs: seq<T>, x: T): (i: nat)
    requires x in xs
    ensures i < |xs| && xs[i] == x
    ensures forall j :: 0 <= j < i ==> xs[j] != x
  {
    if xs[0] == x then 0
    else
      IndexOf(xs[1..], x) + 1
  }

  /** Python's `xs.remove(x)`: deletes the first occurrence of `x`. Python raises
      when `x` is absent, so callers must know it is present. */
  function RemoveFirst<T(==)>(xs: seq<T>, x: T): (r: seq<T>)
    requires x in xs
    ensures |r| == |xs| - 1
    ensures multiset(r) == multiset(xs) - multiset{x}
    ensures forall j :: 0 <= j < |r| ==> r[j] == (if j < IndexOf(xs, x) then xs[j] else xs[j + 1])
  {
    var i := IndexOf(xs, x);
    assert xs == xs[..i] + [x] + xs[i + 1..];
    xs[..i] + xs[i + 1..]
  }

  /** Removing the element just appended, when it was not there before, gives the
      original list back. */
  lemma RemoveAppended<T>(xs: seq<T>, x: T)
    requires x !in xs
    ensures RemoveFirst(xs + [x], x) == xs
  {
  }

  /** Removal only touches `x`: every other element is kept or dropped with it. */
  lemma RemoveFirstKeepsOthers<T>(xs: seq<T>, x: T, y: T)
    requires x in xs && y != x
    ensures y in RemoveFirst(xs, x) <==> y in xs
  {
  }

  /** On a duplicate-free list removal deletes `x` entirely and keeps the list
      duplicate-free. */
  lemma RemoveFirstFromDistinct<T>(xs: seq<T>, x: T)
    requires x in xs && NoDuplicates(xs)
    ensures x !in RemoveFirst(xs, x)
    ensures NoDuplicates(RemoveFirst(xs, x))
  {
  }
}
