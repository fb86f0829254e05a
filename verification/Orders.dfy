/** Orders, stable sorting and permutations, as Python's `sorted`, `Counter` and dictionaries
    use them. */
module Orders {

  datatype Option<+T> = None | Some(value: T)

  // ------------------------------------------------------------- text order

  /** Python's order on strings: lexicographic by code point. */
  predicate TextLeq(a: string, b: string)
    decreases a
  {
    a == [] || (b != [] && (a[0] < b[0] || (a[0] == b[0] && TextLeq(a[1..], b[1..]))))
  }

  lemma {:induction false} TextLeqTotal(a: string, b: string)
    ensures TextLeq(a, b) || TextLeq(b, a)
    ensures TextLeq(a, b) && TextLeq(b, a) ==> a == b
    decreases a
  {
    if a != [] && b != [] && a[0] == b[0] {
      TextLeqTotal(a[1..], b[1..]);
      assert a == [a[0]] + a[1..] && b == [b[0]] + b[1..];
    }
  }

  lemma {:induction false} TextLeqTransitive(a: string, b: string, c: string)
    requires TextLeq(a, b) && TextLeq(b, c)
    ensures TextLeq(a, c)
    decreases a
  {
    if a != [] && a[0] == b[0] == c[0] {
      TextLeqTransitive(a[1..], b[1..], c[1..]);
    }
  }

  /** The order is that of the first difference; a text precedes its continuations. */
  lemma {:induction false} TextLeqByFirstDifference(a: string, b: string)
    ensures TextLeq(a, b) <==> a <= b || exists k :: 0 <= k < |a| && k < |b| && a[..k] == b[..k] && a[k] < b[k]
    decreases a
  {
    if a != [] && b != [] {
      if a[0] == b[0] {
        TextLeqByFirstDifference(a[1..], b[1..]);
        TextTails(a, b);
      } else if a[0] < b[0] {
        assert a[..0] == b[..0];
      }
    }
  }

  lemma TextTails(a: string, b: string)
    requires a != [] && b != [] && a[0] == b[0]
    ensures a <= b <==> a[1..] <= b[1..]
    ensures (exists k :: 0 <= k < |a| && k < |b| && a[..k] == b[..k] && a[k] < b[k])
            <==> (exists k :: 0 <= k < |a[1..]| && k < |b[1..]| && a[1..][..k] == b[1..][..k] && a[1..][k] < b[1..][k])
  {
    var x, y := a[1..], b[1..];
    assert a == [a[0]] + x && b == [b[0]] + y;
    if k :| 0 <= k < |a| && k < |b| && a[..k] == b[..k] && a[k] < b[k] {
      assert k > 0;
      assert x[..k - 1] == a[..k][1..] && y[..k - 1] == b[..k][1..];
      assert x[k - 1] < y[k - 1];
    }
    if k :| 0 <= k < |x| && k < |y| && x[..k] == y[..k] && x[k] < y[k] {
      assert a[..k + 1] == [a[0]] + x[..k] && b[..k + 1] == [b[0]] + y[..k];
      assert a[k + 1] < b[k + 1];
    }
  }

  // ---------------------------------------------------------- stable sorting

  ghost predicate TotalPreorder<T(!new)>(leq: (T, T) -> bool) {
    && (forall x, y :: leq(x, y) || leq(y, x))
    && (forall x, y, z :: leq(x, y) && leq(y, z) ==> leq(x, z))
  }

  function ByText<T>(text: T -> string): (T, T) -> bool {
    (x: T, y: T) => TextLeq(text(x), text(y))
  }

  lemma ByTextIsTotalPreorder<T(!new)>(text: T -> string)
    ensures TotalPreorder(ByText(text))
  {
    var leq := ByText(text);
    forall x, y ensures leq(x, y) || leq(y, x) {
      TextLeqTotal(text(x), text(y));
    }
    forall x, y, z | leq(x, y) && leq(y, z) ensures leq(x, z) {
      TextLeqTransitive(text(x), text(y), text(z));
    }
  }

  /** Puts `x` before the first element it may precede. */
  function Insert<T>(leq: (T, T) -> bool, x: T, xs: seq<T>): seq<T> {
    if xs == [] then [x]
    else if leq(x, xs[0]) then [x] + xs
    else [xs[0]] + Insert(leq, x, xs[1..])
  }

  /** Stable ascending sort. */
  function Sort<T>(leq: (T, T) -> bool, xs: seq<T>): seq<T> {
    if xs == [] then [] else Insert(leq, xs[0], Sort(leq, xs[1..]))
  }

  ghost predicate Sorted<T>(leq: (T, T) -> bool, xs: seq<T>) {
    forall i, j :: 0 <= i < j < |xs| ==> leq(xs[i], xs[j])
  }

  lemma {:induction false} InsertKeepsElements<T>(leq: (T, T) -> bool, x: T, xs: seq<T>)
    ensures multiset(Insert(leq, x, xs)) == multiset{x} + multiset(xs)
  {
    if xs != [] && !leq(x, xs[0]) {
      InsertKeepsElements(leq, x, xs[1..]);
      assert xs == [xs[0]] + xs[1..];
    }
  }

  lemma {:induction false} SortKeepsElements<T>(leq: (T, T) -> bool, xs: seq<T>)
    ensures multiset(Sort(leq, xs)) == multiset(xs)
  {
    if xs != [] {
      SortKeepsElements(leq, xs[1..]);
      InsertKeepsElements(leq, xs[0], Sort(leq, xs[1..]));
      assert xs == [xs[0]] + xs[1..];
    }
  }

  lemma SameElements<T>(xs: seq<T>, ys: seq<T>)
    requires multiset(xs) == multiset(ys)
    ensures |xs| == |ys|
    ensures forall x :: x in xs <==> x in ys
  {
    assert |multiset(xs)| == |xs| && |multiset(ys)| == |ys|;
    forall x ensures x in xs <==> x in ys {
      assert x in multiset(xs) <==> x in xs;
      assert x in multiset(ys) <==> x in ys;
    }
  }

  lemma SortSameElements<T>(leq: (T, T) -> bool, xs: seq<T>)
    ensures |Sort(leq, xs)| == |xs|
    ensures forall x :: x in Sort(leq, xs) <==> x in xs
  {
    SortKeepsElements(leq, xs);
    SameElements(Sort(leq, xs), xs);
  }

  lemma {:induction false} InsertSorts<T(!new)>(leq: (T, T) -> bool, x: T, xs: seq<T>)
    requires TotalPreorder(leq) && Sorted(leq, xs)
    ensures Sorted(leq, Insert(leq, x, xs))
  {
    if xs != [] && !leq(x, xs[0]) {
      InsertSorts(leq, x, xs[1..]);
      InsertKeepsElements(leq, x, xs[1..]);
      var rest := Insert(leq, x, xs[1..]);
      assert xs[1..] == xs[1..];
      SameElements(rest, [x] + xs[1..]);
      forall j | 0 <= j < |rest| ensures leq(xs[0], rest[j]) {
        assert rest[j] in [x] + xs[1..];
      }
    } else if xs != [] {
      forall j | 0 <= j < |xs| ensures leq(x, xs[j]) {
        assert j > 0 ==> leq(xs[0], xs[j]);
      }
    }
  }

  lemma {:induction false} SortSorts<T(!new)>(leq: (T, T) -> bool, xs: seq<T>)
    requires TotalPreorder(leq)
    ensures Sorted(leq, Sort(leq, xs))
  {
    if xs != [] {
      SortSorts(leq, xs[1..]);
      InsertSorts(leq, xs[0], Sort(leq, xs[1..]));
    }
  }

  /** The order tells the listed elements apart. */
  ghost predicate Separates<T>(leq: (T, T) -> bool, xs: seq<T>) {
    forall i, j :: 0 <= i < |xs| && 0 <= j < |xs| && leq(xs[i], xs[j]) && leq(xs[j], xs[i]) ==> xs[i] == xs[j]
  }

  lemma TailElements<T>(xs: seq<T>)
    requires xs != []
    ensures multiset(xs[1..]) == multiset(xs) - multiset{xs[0]}
  {
    assert xs == [xs[0]] + xs[1..];
  }

  lemma SortedHeadsAgree<T>(leq: (T, T) -> bool, xs: seq<T>, ys: seq<T>)
    requires Sorted(leq, xs) && Sorted(leq, ys) && multiset(xs) == multiset(ys)
    requires Separates(leq, xs) && xs != []
    ensures ys != [] && xs[0] == ys[0]
  {
    SameElements(xs, ys);
    assert xs[0] in xs && ys[0] in ys;
    var i :| 0 <= i < |ys| && ys[i] == xs[0];
    var j :| 0 <= j < |xs| && xs[j] == ys[0];
    assert j == 0 || leq(xs[0], xs[j]);
    assert i == 0 || leq(ys[0], ys[i]);
  }

  /** On elements that the order tells apart, a multiset has one sorted arrangement. */
  lemma {:induction false} SortedIsUnique<T>(leq: (T, T) -> bool, xs: seq<T>, ys: seq<T>)
    requires Sorted(leq, xs) && Sorted(leq, ys) && multiset(xs) == multiset(ys)
    requires Separates(leq, xs)
    ensures xs == ys
  {
    SameElements(xs, ys);
    if xs != [] {
      SortedHeadsAgree(leq, xs, ys);
      TailElements(xs);
      TailElements(ys);
      SortedIsUnique(leq, xs[1..], ys[1..]);
      assert xs == [xs[0]] + xs[1..] && ys == [ys[0]] + ys[1..];
    }
  }

  /** Sorting forgets the original order of elements that the order tells apart. */
  lemma SortForgetsOrder<T(!new)>(leq: (T, T) -> bool, xs: seq<T>, ys: seq<T>)
    requires TotalPreorder(leq) && multiset(xs) == multiset(ys)
    requires Separates(leq, xs)
    ensures Sort(leq, xs) == Sort(leq, ys)
  {
    SortSorts(leq, xs);
    SortSorts(leq, ys);
    SortKeepsElements(leq, xs);
    SortKeepsElements(leq, ys);
    SortSameElements(leq, xs);
    var zs := Sort(leq, xs);
    forall i, j | 0 <= i < |zs| && 0 <= j < |zs| && leq(zs[i], zs[j]) && leq(zs[j], zs[i])
      ensures zs[i] == zs[j]
    {
      assert zs[i] in xs && zs[j] in xs;
    }
    SortedIsUnique(leq, zs, Sort(leq, ys));
  }

  lemma {:induction false} SortOfSorted<T(!new)>(leq: (T, T) -> bool, xs: seq<T>)
    requires TotalPreorder(leq) && Sorted(leq, xs)
    ensures Sort(leq, xs) == xs
  {
    if xs != [] {
      SortOfSorted(leq, xs[1..]);
      assert |xs| > 1 ==> leq(xs[0], xs[1]);
    }
  }

  // ----------------------------------------------------------------- mapping

  function Map<T, U>(f: T -> U, xs: seq<T>): (ys: seq<U>)
    ensures |ys| == |xs|
    ensures forall i :: 0 <= i < |xs| ==> ys[i] == f(xs[i])
  {
    if xs == [] then [] else [f(xs[0])] + Map(f, xs[1..])
  }

  lemma {:induction false} MapConcat<T, U>(f: T -> U, xs: seq<T>, ys: seq<T>)
    ensures Map(f, xs + ys) == Map(f, xs) + Map(f, ys)
  {
  }

  /** Sorting by an order that only looks at `f` commutes with mapping `f`. */
  lemma {:induction false} SortMap<T(!new), U>(f: T -> U, leqT: (T, T) -> bool, leqU: (U, U) -> bool, xs: seq<T>)
    requires forall x, y :: leqT(x, y) == leqU(f(x), f(y))
    ensures Map(f, Sort(leqT, xs)) == Sort(leqU, Map(f, xs))
  {
    if xs != [] {
      SortMap(f, leqT, leqU, xs[1..]);
      InsertMap(f, leqT, leqU, xs[0], Sort(leqT, xs[1..]));
      assert Map(f, xs)[1..] == Map(f, xs[1..]);
    }
  }

  lemma {:induction false} InsertMap<T(!new), U>(f: T -> U, leqT: (T, T) -> bool, leqU: (U, U) -> bool, x: T, xs: seq<T>)
    requires forall x, y :: leqT(x, y) == leqU(f(x), f(y))
    ensures Map(f, Insert(leqT, x, xs)) == Insert(leqU, f(x), Map(f, xs))
  {
    if xs != [] {
      InsertMap(f, leqT, leqU, x, xs[1..]);
      assert Map(f, xs)[1..] == Map(f, xs[1..]);
      assert Map(f, [x] + xs) == [f(x)] + Map(f, xs);
    }
  }

  // ------------------------------------------------------------ permutations

  ghost predicate Injective(p: seq<nat>) {
    forall i, j :: 0 <= i < j < |p| ==> p[i] != p[j]
  }

  ghost predicate IsPermutation(p: seq<nat>, n: nat) {
    && |p| == n
    && (forall i :: 0 <= i < |p| ==> p[i] < n)
    && Injective(p)
  }

  function RemoveAt<T>(xs: seq<T>, k: nat): seq<T>
    requires k < |xs|
  {
    xs[..k] + xs[k + 1..]
  }

  lemma RemoveAtElements<T>(xs: seq<T>, k: nat)
    requires k < |xs|
    ensures multiset(xs) == multiset{xs[k]} + multiset(RemoveAt(xs, k))
  {
    assert xs == xs[..k] + ([xs[k]] + xs[k + 1..]);
  }

  function Reindex<T>(xs: seq<T>, p: seq<nat>): (ys: seq<T>)
    requires forall i :: 0 <= i < |p| ==> p[i] < |xs|
    ensures |ys| == |p| && forall i :: 0 <= i < |p| ==> ys[i] == xs[p[i]]
  {
    seq(|p|, i requires 0 <= i < |p| => xs[p[i]])
  }

  /** A permutation with a new first value, making room for it among the others. */
  function AddFirst(k: nat, q: seq<nat>): (p: seq<nat>)
    requires IsPermutation(q, |q|) && k <= |q|
    ensures IsPermutation(p, |q| + 1) && p[0] == k
    ensures forall i :: 0 < i < |p| ==> p[i] == if q[i - 1] < k then q[i - 1] else q[i - 1] + 1
  {
    [k] + seq(|q|, i requires 0 <= i < |q| => if q[i] < k then q[i] else q[i] + 1)
  }

  /** Equal multisets are related by a permutation of positions. */
  lemma {:induction false} PermutationBetween<T>(xs: seq<T>, ys: seq<T>) returns (p: seq<nat>)
    requires multiset(xs) == multiset(ys)
    ensures |xs| == |ys| && IsPermutation(p, |xs|)
    ensures Reindex(ys, p) == xs
  {
    SameElements(xs, ys);
    if xs == [] {
      p := [];
    } else {
      assert xs[0] in xs;
      var k :| 0 <= k < |ys| && ys[k] == xs[0];
      RemoveAtElements(ys, k);
      TailElements(xs);
      assert multiset(RemoveAt(ys, k)) == multiset(xs[1..]);
      var q := PermutationBetween(xs[1..], RemoveAt(ys, k));
      p := AddFirst(k, q);
      ReindexAddFirst(xs, ys, k, q);
    }
  }

  lemma ReindexAddFirst<T>(xs: seq<T>, ys: seq<T>, k: nat, q: seq<nat>)
    requires |xs| == |ys| == |q| + 1 && k < |ys| && ys[k] == xs[0]
    requires IsPermutation(q, |q|) && Reindex(RemoveAt(ys, k), q) == xs[1..]
    ensures Reindex(ys, AddFirst(k, q)) == xs
  {
    var p := AddFirst(k, q);
    forall i | 0 <= i < |xs| ensures ys[p[i]] == xs[i] {
      if i > 0 {
        assert RemoveAt(ys, k)[q[i - 1]] == xs[1..][i - 1];
      }
    }
  }

  /** A permutation without its first position, renumbered over the positions that remain. */
  function DropFirst(p: seq<nat>): (q: seq<nat>)
    requires p != [] && IsPermutation(p, |p|)
    ensures IsPermutation(q, |p| - 1)
    ensures forall i :: 0 <= i < |q| ==> q[i] == if p[i + 1] < p[0] then p[i + 1] else p[i + 1] - 1
  {
    assert forall j :: 0 < j < |p| ==> p[j] != p[0];
    var q := seq(|p| - 1, i requires 0 <= i < |p| - 1 => if p[i + 1] < p[0] then p[i + 1] else (p[i + 1] - 1) as nat);
    assert forall a, b :: 0 < a < b < |p| ==> p[a] != p[b];
    q
  }

  /** Reading a list through a permutation of its positions keeps its multiset. */
  lemma {:induction false} PermutationKeepsElements<T>(xs: seq<T>, p: seq<nat>)
    requires IsPermutation(p, |xs|)
    ensures multiset(Reindex(xs, p)) == multiset(xs)
    decreases |p|
  {
    if p != [] {
      var rest, q := RemoveAt(xs, p[0]), DropFirst(p);
      PermutationKeepsElements(rest, q);
      RemoveAtElements(xs, p[0]);
      assert Reindex(xs, p) == [xs[p[0]]] + Reindex(rest, q);
    }
  }

  ghost predicate NoDuplicates<T>(xs: seq<T>) {
    forall i, j :: 0 <= i < j < |xs| ==> xs[i] != xs[j]
  }

  lemma NoDuplicatesReordered<T>(xs: seq<T>, ys: seq<T>)
    requires NoDuplicates(xs) && multiset(xs) == multiset(ys)
    ensures NoDuplicates(ys)
  {
    var p := PermutationBetween(ys, xs);
    forall i, j | 0 <= i < j < |ys| ensures ys[i] != ys[j] {
      assert p[i] != p[j];
      assert ys[i] == Reindex(xs, p)[i] && ys[j] == Reindex(xs, p)[j];
    }
  }

  /** Lists without duplicates that have the same elements are rearrangements of each other. */
  lemma {:induction false} NoDuplicatesSameElements<T(!new)>(xs: seq<T>, ys: seq<T>)
    requires NoDuplicates(xs) && NoDuplicates(ys)
    requires forall x :: x in xs <==> x in ys
    ensures multiset(xs) == multiset(ys)
  {
    forall x: T ensures multiset(xs)[x] == multiset(ys)[x] {
      OccursOnce(xs, x);
      OccursOnce(ys, x);
    }
  }

  lemma {:induction false} OccursOnce<T>(xs: seq<T>, x: T)
    requires NoDuplicates(xs)
    ensures multiset(xs)[x] == if x in xs then 1 else 0
  {
    if xs != [] {
      OccursOnce(xs[1..], x);
      assert xs == [xs[0]] + xs[1..];
      assert xs[0] !in xs[1..];
    }
  }
}
