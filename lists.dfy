/** Python list comprehensions and reversed scans, generic in the element test. */
module Lists {
  import opened Wrappers

  /** `[x for x in xs if keep(x)]` */
  function Filter<T>(xs: seq<T>, keep: T -> bool): (r: seq<T>)
    ensures |r| <= |xs|
  {
    if xs == [] then []
    else
      var rest := Filter(xs[1..], keep);
      if keep(xs[0]) then [xs[0]] + rest else rest
  }

  /** The comprehension holds exactly the elements that pass the test. */
  lemma {:induction false} FilterMembers<T>(xs: seq<T>, keep: T -> bool)
    ensures forall x :: x in Filter(xs, keep) <==> x in xs && keep(x)
  {
    if xs != [] {
      FilterMembers(xs[1..], keep);
      assert xs == [xs[0]] + xs[1..];
    }
  }

  /** A comprehension works element by element, so it keeps the order of what it keeps. */
  lemma {:induction false} FilterAppend<T>(xs: seq<T>, ys: seq<T>, keep: T -> bool)
    ensures Filter(xs + ys, keep) == Filter(xs, keep) + Filter(ys, keep)
  {
    if xs == [] {
      assert xs + ys == ys;
    } else {
      assert (xs + ys)[0] == xs[0] && (xs + ys)[1..] == xs[1..] + ys;
      FilterAppend(xs[1..], ys, keep);
    }
  }

  lemma {:induction false} FilterKeepsAll<T>(xs: seq<T>, keep: T -> bool)
    requires forall k :: 0 <= k < |xs| ==> keep(xs[k])
    ensures Filter(xs, keep) == xs
  {
    if xs != [] {
      FilterKeepsAll(xs[1..], keep);
    }
  }

  lemma {:induction false} FilterDropsAll<T>(xs: seq<T>, keep: T -> bool)
    requires forall k :: 0 <= k < |xs| ==> !keep(xs[k])
    ensures Filter(xs, keep) == []
  {
    if xs != [] {
      FilterDropsAll(xs[1..], keep);
    }
  }

  /** Two comprehensions in a row are one comprehension with both tests. */
  lemma {:induction false} FilterCompose<T>(xs: seq<T>, p: T -> bool, q: T -> bool, both: T -> bool)
    requires forall x :: both(x) == (p(x) && q(x))
    ensures Filter(Filter(xs, p), q) == Filter(xs, both)
  {
    if xs != [] {
      FilterCompose(xs[1..], p, q, both);
      if p(xs[0]) {
        assert Filter(xs, p) == [xs[0]] + Filter(xs[1..], p);
        assert ([xs[0]] + Filter(xs[1..], p))[1..] == Filter(xs[1..], p);
      }
    }
  }

  /** Two tests that never hold together and between them cover `p` split its comprehension. */
  lemma {:induction false} FilterPartition<T>(xs: seq<T>, p: T -> bool, a: T -> bool, b: T -> bool)
    requires forall x :: (a(x) || b(x)) == p(x) && !(a(x) && b(x))
    ensures |Filter(xs, a)| + |Filter(xs, b)| == |Filter(xs, p)|
  {
    if xs != [] {
      FilterPartition(xs[1..], p, a, b);
    }
  }

  /** The index of the last element passing `p`: the first hit of a scan over `reversed(xs)`. */
  function LastWhere<T>(xs: seq<T>, p: T -> bool): (r: Option<nat>)
    ensures r.None? <==> forall k :: 0 <= k < |xs| ==> !p(xs[k])
    ensures r.Some? ==> r.value < |xs| && p(xs[r.value]) && forall k :: r.value < k < |xs| ==> !p(xs[k])
  {
    if xs == [] then None
    else if p(xs[|xs| - 1]) then Some(|xs| - 1)
    else
      var front := xs[..|xs| - 1];
      assert forall k :: 0 <= k < |front| ==> front[k] == xs[k];
      LastWhere(front, p)
  }

  /** `[f(x) for x in xs]`, built the way a loop appending to a list builds it. */
  function Map<T, U>(xs: seq<T>, f: T -> U): (r: seq<U>)
    ensures |r| == |xs|
    ensures forall k :: 0 <= k < |xs| ==> r[k] == f(xs[k])
    decreases |xs|
  {
    if xs == [] then [] else Map(xs[..|xs| - 1], f) + [f(xs[|xs| - 1])]
  }

  /** Dropping the one element that fails the test from between two runs that pass it. */
  lemma FilterDropOne<T>(front: seq<T>, x: T, back: seq<T>, keep: T -> bool)
    requires !keep(x)
    requires forall k :: 0 <= k < |front| ==> keep(front[k])
    requires forall k :: 0 <= k < |back| ==> keep(back[k])
    ensures Filter(front + [x] + back, keep) == front + back
  {
    var mid := front + [x];
    FilterAppend(mid, back, keep);
    assert Filter(mid + back, keep) == Filter(mid, keep) + Filter(back, keep);
    FilterAppend(front, [x], keep);
    assert Filter(mid, keep) == Filter(front, keep) + Filter([x], keep);
    assert Filter([x], keep) == [];
    FilterKeepsAll(front, keep);
    FilterKeepsAll(back, keep);
    assert Filter(mid, keep) == front;
  }

  /** Dropping the one element that fails the test from where it was inserted. */
  lemma FilterDropAt<T>(xs: seq<T>, i: nat, x: T, keep: T -> bool)
    requires i <= |xs| && !keep(x)
    requires forall k :: 0 <= k < |xs| ==> keep(xs[k])
    ensures Filter(xs[..i] + [x] + xs[i..], keep) == xs
  {
    FilterDropOne(xs[..i], x, xs[i..], keep);
    assert xs[..i] + xs[i..] == xs;
  }

  /** Appending four runs one by one is appending their concatenation. */
  lemma AppendFour<T>(x: seq<T>, a: seq<T>, b: seq<T>, c: seq<T>, d: seq<T>)
    ensures x + a + b + c + d == x + (a + (b + c) + d)
  {
  }

  /** A trace grown by one element after a prefix it extends is that prefix's extension. */
  lemma AppendSnoc<T>(start: seq<T>, done: seq<T>, x: T, next: seq<T>)
    requires next == done + [x]
    ensures start + done + [x] == start + next
  {
  }

  /** Moving one element from the pending set to the done set keeps their union and shrinks the pending set. */
  lemma MoveOne<T>(done: set<T>, pending: set<T>, x: T)
    requires x in pending
    ensures (done + {x}) + (pending - {x}) == done + pending
    ensures |pending - {x}| == |pending| - 1
  {
  }

  /** Nine elements in runs of three, two, two and two. */
  lemma SplitNine<T>(a: T, b: T, c: T, d: T, e: T, f: T, g: T, h: T, i: T)
    ensures [a, b, c, d, e, f, g, h, i] == [a, b, c] + [d, e] + [f, g] + [h, i]
  {
  }

  /** `xs.index(x)`: the position of the first occurrence. */
  function IndexOf<T(==)>(xs: seq<T>, x: T): (r: nat)
    requires x in xs
    ensures r < |xs| && xs[r] == x
    ensures forall k :: 0 <= k < r ==> xs[k] != x
  {
    if xs[0] == x then 0 else 1 + IndexOf(xs[1..], x)
  }

  /** `set(xs)` */
  function Elements<T(!new)>(xs: seq<T>): (r: set<T>)
    ensures forall x :: x in r <==> x in xs
    decreases |xs|
  {
    if xs == [] then {} else Elements(xs[..|xs| - 1]) + {xs[|xs| - 1]}
  }

  /** The index of the first element passing `p`: what `next(x for x in xs if p(x))` stops at. */
  function FirstWhere<T>(xs: seq<T>, p: T -> bool): (r: Option<nat>)
    ensures r.None? <==> forall k :: 0 <= k < |xs| ==> !p(xs[k])
    ensures r.Some? ==> r.value < |xs| && p(xs[r.value]) && forall k :: 0 <= k < r.value ==> !p(xs[k])
  {
    if xs == [] then None
    else if p(xs[0]) then Some(0)
    else
      match FirstWhere(xs[1..], p)
      case None => None
      case Some(i) => Some(i + 1)
  }

  /** The first element passing `p` is found where it is. */
  lemma FirstWhereAt<T>(xs: seq<T>, p: T -> bool, i: nat)
    requires i < |xs| && p(xs[i]) && forall k :: 0 <= k < i ==> !p(xs[k])
    ensures FirstWhere(xs, p) == Some(i)
  {
  }

  /** The first occurrence of `x` is found where it is. */
  lemma {:induction false} IndexOfAt<T>(xs: seq<T>, x: T, i: nat)
    requires i < |xs| && xs[i] == x && forall k :: 0 <= k < i ==> xs[k] != x
    ensures IndexOf(xs, x) == i
  {
  }
}
