/** What it means for two lists to agree: a one-to-one pairing of all their rows along a
    relation, and how such a pairing splits into groups. */
module Reconciling {
  import opened Orders

  /** Permutation `p` pairs every row of `left` with a related row of `right`. */
  ghost predicate Reconciles<A>(rel: (A, A) -> bool, left: seq<A>, right: seq<A>, p: seq<nat>) {
    && |left| == |right| && IsPermutation(p, |left|)
    && forall i :: 0 <= i < |left| ==> rel(left[i], right[p[i]])
  }

  ghost predicate Reconcilable<A>(rel: (A, A) -> bool, left: seq<A>, right: seq<A>) {
    exists p :: Reconciles(rel, left, right, p)
  }

  // ---------------------------------------------------------- lists of pairs

  function Firsts<A>(pairs: seq<(A, A)>): (xs: seq<A>)
    ensures |xs| == |pairs| && forall i :: 0 <= i < |pairs| ==> xs[i] == pairs[i].0
  {
    seq(|pairs|, i requires 0 <= i < |pairs| => pairs[i].0)
  }

  function Seconds<A>(pairs: seq<(A, A)>): (xs: seq<A>)
    ensures |xs| == |pairs| && forall i :: 0 <= i < |pairs| ==> xs[i] == pairs[i].1
  {
    seq(|pairs|, i requires 0 <= i < |pairs| => pairs[i].1)
  }

  ghost predicate AllRelated<A>(rel: (A, A) -> bool, pairs: seq<(A, A)>) {
    forall i :: 0 <= i < |pairs| ==> rel(pairs[i].0, pairs[i].1)
  }

  /** The same notion without positions: related pairs whose ends are the two multisets. */
  ghost predicate Paired<A>(rel: (A, A) -> bool, left: seq<A>, right: seq<A>, pairs: seq<(A, A)>) {
    && AllRelated(rel, pairs)
    && multiset(Firsts(pairs)) == multiset(left) && multiset(Seconds(pairs)) == multiset(right)
  }

  lemma PermutationToPairs<A(!new)>(rel: (A, A) -> bool, left: seq<A>, right: seq<A>, p: seq<nat>) returns (pairs: seq<(A, A)>)
    requires Reconciles(rel, left, right, p)
    ensures Paired(rel, left, right, pairs)
  {
    pairs := seq(|left|, i requires 0 <= i < |left| => (left[i], right[p[i]]));
    PermutationKeepsElements(right, p);
    assert Firsts(pairs) == left;
    assert Seconds(pairs) == Reindex(right, p);
  }

  lemma PairsToPermutation<A(!new)>(rel: (A, A) -> bool, left: seq<A>, right: seq<A>, pairs: seq<(A, A)>) returns (p: seq<nat>)
    requires Paired(rel, left, right, pairs)
    ensures Reconciles(rel, left, right, p)
  {
    var q := PermutationBetween(left, Firsts(pairs));
    var r := PermutationBetween(Seconds(pairs), right);
    p := Reindex(r, q);
    forall i | 0 <= i < |left| ensures rel(left[i], right[p[i]]) {
      assert left[i] == Reindex(Firsts(pairs), q)[i] == pairs[q[i]].0;
      assert Reindex(right, r)[q[i]] == right[r[q[i]]] == pairs[q[i]].1;
    }
    forall i, j | 0 <= i < j < |p| ensures p[i] != p[j] {
      assert q[i] != q[j];
    }
  }

  /** Agreement does not depend on the order of either list. */
  lemma ReconcilableReordered<A(!new)>(rel: (A, A) -> bool, left: seq<A>, right: seq<A>, left': seq<A>, right': seq<A>)
    requires multiset(left) == multiset(left') && multiset(right) == multiset(right')
    requires Reconcilable(rel, left, right)
    ensures Reconcilable(rel, left', right')
  {
    var p :| Reconciles(rel, left, right, p);
    var pairs := PermutationToPairs(rel, left, right, p);
    var p' := PairsToPermutation(rel, left', right', pairs);
  }

  // ----------------------------------------------------------------- grouping

  /** The rows of one group, in order. */
  function Select<A, I(==)>(xs: seq<A>, id: A -> I, i: I): seq<A> {
    if xs == [] then []
    else (if id(xs[0]) == i then [xs[0]] else []) + Select(xs[1..], id, i)
  }

  lemma {:induction false} SelectCounts<A(!new), I>(xs: seq<A>, id: A -> I, i: I, x: A)
    ensures multiset(Select(xs, id, i))[x] == if id(x) == i then multiset(xs)[x] else 0
  {
    if xs != [] {
      SelectCounts(xs[1..], id, i, x);
      assert xs == [xs[0]] + xs[1..];
    }
  }

  lemma {:induction false} SelectRows<A(!new), I>(xs: seq<A>, id: A -> I, i: I)
    ensures forall x :: x in Select(xs, id, i) <==> x in xs && id(x) == i
  {
    forall x ensures x in Select(xs, id, i) <==> x in xs && id(x) == i {
      SelectCounts(xs, id, i, x);
      assert x in multiset(Select(xs, id, i)) <==> x in Select(xs, id, i);
      assert x in multiset(xs) <==> x in xs;
    }
  }

  lemma SelectSameElements<A(!new), I>(xs: seq<A>, ys: seq<A>, id: A -> I, i: I)
    requires multiset(xs) == multiset(ys)
    ensures multiset(Select(xs, id, i)) == multiset(Select(ys, id, i))
  {
    var a, b := multiset(Select(xs, id, i)), multiset(Select(ys, id, i));
    forall x: A ensures a[x] == b[x] {
      SelectCounts(xs, id, i, x);
      SelectCounts(ys, id, i, x);
    }
    assert a == b;
  }

  lemma {:induction false} SelectAppend<A(!new), I>(xs: seq<A>, x: A, id: A -> I, i: I)
    ensures Select(xs + [x], id, i) == Select(xs, id, i) + if id(x) == i then [x] else []
  {
    if xs == [] {
      assert xs + [x] == [x];
    } else {
      var y, rest := xs[0], xs[1..];
      SelectAppend(rest, x, id, i);
      assert xs + [x] == [y] + (rest + [x]) && xs == [y] + rest;
      SelectFirst(y, rest + [x], id, i);
    }
  }

  ghost predicate Respects<A(!new), I>(rel: (A, A) -> bool, id: A -> I) {
    forall x, y :: rel(x, y) ==> id(x) == id(y)
  }

  function SelectPairs<A, I(==)>(pairs: seq<(A, A)>, id: A -> I, i: I): seq<(A, A)> {
    if pairs == [] then []
    else (if id(pairs[0].0) == i then [pairs[0]] else []) + SelectPairs(pairs[1..], id, i)
  }

  lemma {:induction false} SelectPairsRelated<A(!new), I>(rel: (A, A) -> bool, pairs: seq<(A, A)>, id: A -> I, i: I)
    requires AllRelated(rel, pairs)
    ensures AllRelated(rel, SelectPairs(pairs, id, i))
  {
    if pairs != [] {
      SelectPairsRelated(rel, pairs[1..], id, i);
      assert rel(pairs[0].0, pairs[0].1);
    }
  }

  lemma SameGroup<A(!new), I>(rel: (A, A) -> bool, pairs: seq<(A, A)>, id: A -> I)
    requires Respects(rel, id) && AllRelated(rel, pairs)
    ensures forall k :: 0 <= k < |pairs| ==> id(pairs[k].0) == id(pairs[k].1)
  {
  }

  lemma {:induction false} SelectPairsEnds<A(!new), I>(pairs: seq<(A, A)>, id: A -> I, i: I)
    requires forall k :: 0 <= k < |pairs| ==> id(pairs[k].0) == id(pairs[k].1)
    ensures var mine := SelectPairs(pairs, id, i);
            Firsts(mine) == Select(Firsts(pairs), id, i) && Seconds(mine) == Select(Seconds(pairs), id, i)
  {
    if pairs != [] {
      var p, rest := pairs[0], pairs[1..];
      SelectPairsEnds(rest, id, i);
      assert pairs == [p] + rest;
      FirstsAndSeconds([p], rest);
      SelectFirst(p.0, Firsts(rest), id, i);
      SelectFirst(p.1, Seconds(rest), id, i);
      FirstsAndSeconds(if id(p.0) == i then [p] else [], SelectPairs(rest, id, i));
    }
  }

  lemma FirstsAndSeconds<A>(a: seq<(A, A)>, b: seq<(A, A)>)
    ensures Firsts(a + b) == Firsts(a) + Firsts(b) && Seconds(a + b) == Seconds(a) + Seconds(b)
  {
  }

  lemma SelectFirst<A, I>(x: A, xs: seq<A>, id: A -> I, i: I)
    ensures Select([x] + xs, id, i) == (if id(x) == i then [x] else []) + Select(xs, id, i)
  {
    assert ([x] + xs)[1..] == xs;
  }

  /** An agreement of the whole lists is an agreement of each group. */
  lemma WholeToGroup<A(!new), I>(rel: (A, A) -> bool, left: seq<A>, right: seq<A>, id: A -> I, i: I)
    requires Respects(rel, id) && Reconcilable(rel, left, right)
    ensures Reconcilable(rel, Select(left, id, i), Select(right, id, i))
  {
    var p :| Reconciles(rel, left, right, p);
    var pairs := PermutationToPairs(rel, left, right, p);
    SelectPairsRelated(rel, pairs, id, i);
    SameGroup(rel, pairs, id);
    SelectPairsEnds(pairs, id, i);
    SelectSameElements(Firsts(pairs), left, id, i);
    SelectSameElements(Seconds(pairs), right, id, i);
    var q := PairsToPermutation(rel, Select(left, id, i), Select(right, id, i), SelectPairs(pairs, id, i));
  }

  /** The groups listed, one after the other. */
  function Gather<A, I(==)>(xs: seq<A>, id: A -> I, ids: seq<I>): seq<A> {
    if ids == [] then [] else Select(xs, id, ids[0]) + Gather(xs, id, ids[1..])
  }

  lemma {:induction false} GatherCounts<A(!new), I>(xs: seq<A>, id: A -> I, ids: seq<I>, x: A)
    requires forall i, j :: 0 <= i < j < |ids| ==> ids[i] != ids[j]
    ensures multiset(Gather(xs, id, ids))[x] == if id(x) in ids then multiset(xs)[x] else 0
  {
    if ids != [] {
      GatherCounts(xs, id, ids[1..], x);
      SelectCounts(xs, id, ids[0], x);
      assert ids == [ids[0]] + ids[1..];
    }
  }

  lemma GatherAll<A(!new), I>(xs: seq<A>, id: A -> I, ids: seq<I>)
    requires forall i, j :: 0 <= i < j < |ids| ==> ids[i] != ids[j]
    requires forall k :: 0 <= k < |xs| ==> id(xs[k]) in ids
    ensures multiset(Gather(xs, id, ids)) == multiset(xs)
  {
    var a, b := multiset(Gather(xs, id, ids)), multiset(xs);
    forall x: A ensures a[x] == b[x] {
      GatherCounts(xs, id, ids, x);
      if b[x] > 0 {
        var k :| 0 <= k < |xs| && xs[k] == x;
        assert id(xs[k]) in ids;
      }
    }
    assert a == b;
  }

  lemma PairedConcat<A(!new)>(rel: (A, A) -> bool, left: seq<A>, right: seq<A>, pairs: seq<(A, A)>,
                        left': seq<A>, right': seq<A>, pairs': seq<(A, A)>)
    requires Paired(rel, left, right, pairs) && Paired(rel, left', right', pairs')
    ensures Paired(rel, left + left', right + right', pairs + pairs')
  {
    assert Firsts(pairs + pairs') == Firsts(pairs) + Firsts(pairs');
    assert Seconds(pairs + pairs') == Seconds(pairs) + Seconds(pairs');
  }

  lemma {:induction false} GroupsGather<A(!new), I>(rel: (A, A) -> bool, left: seq<A>, right: seq<A>, id: A -> I, ids: seq<I>)
    returns (pairs: seq<(A, A)>)
    requires forall k :: 0 <= k < |ids| ==> Reconcilable(rel, Select(left, id, ids[k]), Select(right, id, ids[k]))
    ensures Paired(rel, Gather(left, id, ids), Gather(right, id, ids), pairs)
  {
    if ids == [] {
      pairs := [];
    } else {
      var l, r := Select(left, id, ids[0]), Select(right, id, ids[0]);
      assert Reconcilable(rel, l, r);
      var p :| Reconciles(rel, l, r, p);
      var first := PermutationToPairs(rel, l, r, p);
      var rest := GroupsGather(rel, left, right, id, ids[1..]);
      PairedConcat(rel, l, r, first, Gather(left, id, ids[1..]), Gather(right, id, ids[1..]), rest);
      pairs := first + rest;
    }
  }

  /** Two lists agree exactly when their groups do, one by one. */
  lemma GroupsDecide<A(!new), I>(rel: (A, A) -> bool, left: seq<A>, right: seq<A>, id: A -> I, ids: seq<I>)
    requires Respects(rel, id)
    requires forall i, j :: 0 <= i < j < |ids| ==> ids[i] != ids[j]
    requires forall k :: 0 <= k < |left| ==> id(left[k]) in ids
    requires forall k :: 0 <= k < |right| ==> id(right[k]) in ids
    ensures Reconcilable(rel, left, right)
            <==> forall k :: 0 <= k < |ids| ==> Reconcilable(rel, Select(left, id, ids[k]), Select(right, id, ids[k]))
  {
    if Reconcilable(rel, left, right) {
      forall k | 0 <= k < |ids| ensures Reconcilable(rel, Select(left, id, ids[k]), Select(right, id, ids[k])) {
        WholeToGroup(rel, left, right, id, ids[k]);
      }
    }
    if forall k :: 0 <= k < |ids| ==> Reconcilable(rel, Select(left, id, ids[k]), Select(right, id, ids[k])) {
      var pairs := GroupsGather(rel, left, right, id, ids);
      GatherAll(left, id, ids);
      GatherAll(right, id, ids);
      var p := PairsToPermutation(rel, left, right, pairs);
    }
  }
}
