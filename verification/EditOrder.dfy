/** When the order of a list of edits matters: edits that are apart but start at one place are
    applied in list order (tools/oracle/python_quickfix_current_contracts.py:55-63). */
module EditOrder {
  import opened Orders
  import opened Edits

  /** The spans applied as the projection does. */
  function Apply(source: string, spans: seq<Span>): string {
    ReplaceAll(source, Sort(Later(), spans))
  }

  /** What insertions at one place leave there, applied in this order: each goes before the ones
      already made. */
  function Inserted(ps: seq<Span>): string {
    if ps == [] then [] else Inserted(ps[1..]) + ps[0].text
  }

  ghost predicate InsertionsAt(ps: seq<Span>, place: int) {
    forall i :: 0 <= i < |ps| ==> ps[i].from == place && ps[i].to == place
  }

  /** The texts do not show whether these insertions were made before or after the span they share
      their start with. If they are made before, the span replaces what they have pushed to its
      place. */
  ghost predicate Slides(source: string, y: Span, ps: seq<Span>) {
    && 0 <= y.from <= y.to <= |source|
    && y.text + (Inserted(ps) + source[y.from..y.to])[y.to - y.from..] == Inserted(ps) + y.text
  }

  /** Every span slides past all insertions listed at its start, however many of them are made and
      in whatever order. */
  ghost predicate OrderFree(source: string, spans: seq<Span>) {
    forall y, ps :: multiset{y} + multiset(ps) <= multiset(spans) && InsertionsAt(ps, y.from) ==> Slides(source, y, ps)
  }

  // ------------------------------------------------------- applying one by one

  /** Listed spans lie inside the source; two of them lie apart. */
  lemma DisjointListed(spans: seq<Span>, n: nat, x: Span)
    requires Disjoint(spans, n) && x in multiset(spans)
    ensures 0 <= x.from <= x.to <= n
  {
    assert x in spans;
  }

  /** Two elements of a list have two positions. */
  lemma TwoPositions(spans: seq<Span>, x: Span, y: Span) returns (i: nat, j: nat)
    requires multiset{x, y} <= multiset(spans)
    ensures i < |spans| && j < |spans| && i != j && spans[i] == x && spans[j] == y
  {
    assert x in spans;
    i :| 0 <= i < |spans| && spans[i] == x;
    var rest := RemoveAt(spans, i);
    RemoveAtElements(spans, i);
    assert y in multiset(rest);
    assert y in rest;
    var k :| 0 <= k < |rest| && rest[k] == y;
    j := if k < i then k else k + 1;
  }

  lemma DisjointPair(spans: seq<Span>, n: nat, x: Span, y: Span)
    requires Disjoint(spans, n) && multiset{x, y} <= multiset(spans)
    ensures Apart(x, y)
  {
    var i, j := TwoPositions(spans, x, y);
  }

  lemma PairListed(spans: seq<Span>, i: nat, j: nat)
    requires i < |spans| && j < |spans| && i != j
    ensures multiset{spans[i], spans[j]} <= multiset(spans)
  {
    var rest := RemoveAt(spans, i);
    RemoveAtElements(spans, i);
    assert rest[if j < i then j else j - 1] == spans[j];
    assert spans[j] in multiset(rest);
  }

  lemma DisjointByPairs(spans: seq<Span>, n: nat)
    requires forall x :: x in multiset(spans) ==> 0 <= x.from <= x.to <= n
    requires forall x, y :: multiset{x, y} <= multiset(spans) ==> Apart(x, y)
    ensures Disjoint(spans, n)
  {
    hide Apart;
    forall i | 0 <= i < |spans| ensures 0 <= spans[i].from <= spans[i].to <= n {
      assert spans[i] in multiset(spans);
    }
    forall i, j | 0 <= i < j < |spans| ensures Apart(spans[i], spans[j]) {
      PairListed(spans, i, j);
    }
  }

  /** Disjointness is a matter of the multiset. */
  lemma DisjointReordered(xs: seq<Span>, ys: seq<Span>, n: nat)
    requires Disjoint(xs, n) && multiset(ys) <= multiset(xs)
    ensures Disjoint(ys, n)
  {
    forall x | x in multiset(ys) ensures 0 <= x.from <= x.to <= n {
      DisjointListed(xs, n, x);
    }
    forall x, y | multiset{x, y} <= multiset(ys) ensures Apart(x, y) {
      DisjointPair(xs, n, x, y);
    }
    DisjointByPairs(ys, n);
  }

  lemma ReplaceInside(z: string, x: Span)
    requires 0 <= x.from <= x.to <= |z|
    ensures Replace(z, x) == z[..x.from] + (x.text + z[x.to..])
  {
  }

  /** Whatever starts from `t` on leaves the text before `t` alone. */
  lemma {:induction false} BeyondKeeps(z: string, spans: seq<Span>, t: nat)
    requires t <= |z| && forall i :: 0 <= i < |spans| ==> t <= spans[i].from && t <= spans[i].to
    ensures t <= |ReplaceAll(z, spans)| && ReplaceAll(z, spans)[..t] == z[..t]
    decreases |spans|
  {
    if spans != [] {
      BeyondKeeps(Replace(z, spans[0]), spans[1..], t);
    }
  }

  /** Insertions at one place put their texts there. */
  lemma {:induction false} InsertAll(z: string, ps: seq<Span>, place: nat)
    requires place <= |z| && InsertionsAt(ps, place)
    ensures ReplaceAll(z, ps) == z[..place] + (Inserted(ps) + z[place..])
    decreases |ps|
  {
    hide Replace;
    if ps == [] {
      assert z == z[..place] + z[place..];
    } else {
      ReplaceInside(z, ps[0]);
      var w := Replace(z, ps[0]);
      InsertAll(w, ps[1..], place);
      assert w[..place] == z[..place] && w[place..] == ps[0].text + z[place..];
      assert Inserted(ps[1..]) + (ps[0].text + z[place..]) == Inserted(ps) + z[place..];
    }
  }

  // --------------------------------------- one step of a descending application

  /** The head of a descending list leaves the places of all others as they are. */
  lemma DisjointStep(z: string, xs: seq<Span>)
    requires xs != [] && Sorted(Later(), xs) && Disjoint(xs, |z|)
    ensures Disjoint(xs[1..], |Replace(z, xs[0])|)
    ensures forall i :: 0 < i < |xs| && xs[i].from < xs[0].from ==> xs[i].to <= xs[0].from
  {
    var x, w := xs[0], Replace(z, xs[0]);
    forall i | 0 < i < |xs| ensures 0 <= xs[i].from <= xs[i].to <= |w| && (xs[i].from < x.from ==> xs[i].to <= x.from) {
      assert Later()(x, xs[i]) && Apart(x, xs[i]);
    }
  }

  lemma SameMiddle(z: string, x: Span, y: Span)
    requires 0 <= x.from <= x.to <= |z| && 0 <= y.from <= y.to <= x.from
    ensures y.to <= |Replace(z, x)| && Replace(z, x)[y.from..y.to] == z[y.from..y.to]
  {
  }

  /** Texts cut at the same distance from their ends. */
  lemma CutEnd(a: string, b: string, d: nat)
    requires d <= |b|
    ensures (a + b)[d..] == (a + b[..d])[d..] + b[d..]
  {
    assert a + b == (a + b[..d]) + b[d..];
  }

  lemma CancelEnd(a: string, b: string, c: string)
    requires a + c == b + c
    ensures a == b
  {
    assert |a| == |b|;
    assert a == (a + c)[..|a|] && b == (b + c)[..|b|];
  }

  lemma CancelStart(a: string, b: string, c: string)
    requires c + a == c + b
    ensures a == b
  {
    assert a == (c + a)[|c|..] && b == (c + b)[|c|..];
  }

  lemma Associates<T>(a: seq<T>, b: seq<T>, c: seq<T>)
    ensures a + (b + c) == (a + b) + c
  {
  }

  /** Putting `y` in place of `d` characters and inserting before it, or the other way round: `rest` is
      the text from their place on and `after` what the span leaves of it. */
  ghost predicate SlidesOver(ins: string, y: string, rest: string, after: string, d: nat) {
    d <= |ins| + |rest| && ins + (y + after) == y + (ins + rest)[d..]
  }

  /** What sliding means for the text that follows. */
  lemma SlidesInText(z: string, y: Span, ps: seq<Span>)
    requires 0 <= y.from <= y.to <= |z|
    ensures Slides(z, y, ps) <==> SlidesOver(Inserted(ps), y.text, z[y.from..], z[y.to..], y.to - y.from)
  {
    var s, d, ins := y.from, y.to - y.from, Inserted(ps);
    assert z[s..][..d] == z[s..y.to] && z[s..][d..] == z[y.to..];
    CutEnd(ins, z[s..], d);
    Associates(ins, y.text, z[y.to..]);
    var pushed := (ins + z[s..y.to])[d..];
    Associates(y.text, pushed, z[y.to..]);
    if (ins + y.text) + z[y.to..] == (y.text + pushed) + z[y.to..] {
      CancelEnd(y.text + pushed, ins + y.text, z[y.to..]);
    }
  }

  /** A span and some insertions at its start, applied one way and the other. */
  lemma BlockTexts(z: string, y: Span, ps: seq<Span>)
    requires 0 <= y.from <= y.to <= |z| && InsertionsAt(ps, y.from)
    ensures ReplaceAll(z, [y] + ps) == z[..y.from] + (Inserted(ps) + (y.text + z[y.to..]))
    ensures ReplaceAll(z, ps + [y]) == z[..y.from] + (y.text + (Inserted(ps) + z[y.from..])[y.to - y.from..])
  {
    hide Replace;
    var s := y.from;
    ReplaceAllConcat(z, [y], ps);
    ReplaceOne(z, y);
    ReplaceInside(z, y);
    InsertAll(Replace(z, y), ps, s);
    assert Replace(z, y)[..s] == z[..s] && Replace(z, y)[s..] == y.text + z[y.to..];
    ReplaceAllConcat(z, ps, [y]);
    InsertAll(z, ps, s);
    var w := ReplaceAll(z, ps);
    ReplaceOne(w, y);
    ReplaceInside(w, y);
    assert w[..s] == z[..s] && w[y.to..] == (Inserted(ps) + z[s..])[y.to - s..];
  }

  /** If `y` slides past `x` and past `x` with more on top, it slides past what is on top. */
  lemma SlideTexts(ins: string, x: string, y: string, rest: string, after: string, d: nat)
    requires SlidesOver(x, y, rest, after, d) && SlidesOver(ins + x, y, rest, after, d)
    ensures SlidesOver(ins, y, x + rest, (x + rest)[d..], d)
  {
    Associates(ins, x, y + after);
    Associates(ins, x, rest);
  }

  lemma InsertionText(x: Span, ps: seq<Span>)
    ensures Inserted([x]) == x.text && Inserted([x] + ps) == Inserted(ps) + x.text
  {
    assert ([x] + ps)[1..] == ps && [x][1..] == [];
  }

  lemma InsertionTail(z: string, x: Span, k: nat)
    requires 0 <= x.from == x.to <= k <= |z|
    ensures k <= |Replace(z, x)| && Replace(z, x)[x.from..] == x.text + z[x.from..]
    ensures Replace(z, x)[k..] == (x.text + z[x.from..])[k - x.from..]
  {
    var w := Replace(z, x);
    assert w[x.from..] == x.text + z[x.from..];
    assert w[k..] == w[x.from..][k - x.from..];
  }

  /** After an insertion, what slid past it and more still slides past the rest. */
  lemma SlidesAfterInsertion(z: string, x: Span, y: Span, ps: seq<Span>)
    requires x.from == x.to == y.from && Slides(z, y, [x]) && Slides(z, y, [x] + ps)
    ensures Slides(Replace(z, x), y, ps)
  {
    assert 0 <= y.from <= y.to <= |z|;
    hide Slides, SlidesOver, Inserted, Replace;
    SlidesInText(z, y, [x]);
    SlidesInText(z, y, [x] + ps);
    InsertionText(x, ps);
    InsertionTail(z, x, y.to);
    SlideTexts(Inserted(ps), x.text, y.text, z[y.from..], z[y.to..], y.to - y.from);
    SlidesInText(Replace(z, x), y, ps);
  }

  lemma SlidesStep(z: string, xs: seq<Span>, y: Span, ps: seq<Span>)
    requires xs != [] && Sorted(Later(), xs) && Disjoint(xs, |z|) && OrderFree(z, xs)
    requires multiset{y} + multiset(ps) <= multiset(xs[1..]) && InsertionsAt(ps, y.from)
    ensures Slides(Replace(z, xs[0]), y, ps)
  {
    hide Replace, Slides, InsertionsAt, OrderFree;
    var x := xs[0];
    TailElements(xs);
    assert multiset{x} + (multiset{y} + multiset(ps)) <= multiset(xs);
    HeadAndOther(z, xs, y);
    if y.from == x.from == x.to {
      SlidesTied(z, xs, x, y, ps);
    } else {
      SlidesApart(z, xs, x, y, ps);
    }
  }

  lemma HeadAndOther(z: string, xs: seq<Span>, y: Span)
    requires xs != [] && Sorted(Later(), xs) && Disjoint(xs, |z|) && y in multiset(xs[1..])
    ensures 0 <= y.from <= y.to <= |z| && 0 <= xs[0].from <= xs[0].to <= |z|
    ensures y.from <= xs[0].from && Apart(xs[0], y)
  {
    assert y in xs[1..];
    var i :| 0 <= i < |xs[1..]| && xs[1..][i] == y;
    assert xs[i + 1] == y;
    assert Later()(xs[0], xs[i + 1]);
  }

  lemma SlidesTied(z: string, xs: seq<Span>, x: Span, y: Span, ps: seq<Span>)
    requires OrderFree(z, xs) && x.from == x.to == y.from && InsertionsAt(ps, y.from)
    requires multiset{x} + (multiset{y} + multiset(ps)) <= multiset(xs)
    ensures Slides(Replace(z, x), y, ps)
  {
    hide Replace, Slides;
    assert multiset([x] + ps) == multiset{x} + multiset(ps);
    assert multiset([x]) == multiset{x};
    assert InsertionsAt([x], y.from) && InsertionsAt([x] + ps, y.from);
    assert Slides(z, y, [x]) && Slides(z, y, [x] + ps);
    SlidesAfterInsertion(z, x, y, ps);
  }

  lemma SlidesApart(z: string, xs: seq<Span>, x: Span, y: Span, ps: seq<Span>)
    requires OrderFree(z, xs) && multiset{y} + multiset(ps) <= multiset(xs) && InsertionsAt(ps, y.from)
    requires 0 <= y.from <= y.to <= |z| && 0 <= x.from <= x.to <= |z|
    requires Apart(x, y) && y.from <= x.from && !(y.from == x.from == x.to)
    ensures Slides(Replace(z, x), y, ps)
  {
    hide Replace, Slides;
    assert Slides(z, y, ps);
    if y.to <= x.from && y.from < x.from {
      SlidesElsewhere(z, x, y, ps);
    } else {
      ReplaceInside(z, x);
      SlidesAnywhere(z, Replace(z, x), y, ps);
    }
  }

  lemma SlidesElsewhere(z: string, x: Span, y: Span, ps: seq<Span>)
    requires 0 <= x.from <= x.to <= |z| && y.to <= x.from && Slides(z, y, ps)
    ensures Slides(Replace(z, x), y, ps)
  {
    SameMiddle(z, x, y);
  }

  /** Whether insertions slide past an insertion is a matter of their texts alone. */
  lemma SlidesAnywhere(z: string, w: string, y: Span, ps: seq<Span>)
    requires Slides(z, y, ps) && y.from == y.to <= |w|
    ensures Slides(w, y, ps)
  {
    assert z[y.from..y.to] == w[y.from..y.to] == [];
  }

  lemma OrderFreeStep(z: string, xs: seq<Span>)
    requires xs != [] && Sorted(Later(), xs) && Disjoint(xs, |z|) && OrderFree(z, xs)
    ensures OrderFree(Replace(z, xs[0]), xs[1..])
  {
    hide Replace, Slides, Disjoint, InsertionsAt, Sorted;
    forall y, ps | multiset{y} + multiset(ps) <= multiset(xs[1..]) && InsertionsAt(ps, y.from)
      ensures Slides(Replace(z, xs[0]), y, ps)
    {
      SlidesStep(z, xs, y, ps);
    }
  }

  // ---------------------------------------- texts that slide make order immaterial

  lemma OneAfterTheOther(z: string, a: Span, b: Span)
    ensures ReplaceAll(z, [a, b]) == Replace(Replace(z, a), b)
  {
    hide Replace;
    assert [a, b][1..] == [b];
    ReplaceOne(Replace(z, a), b);
  }

  /** Two spans with one start may be swapped. */
  lemma SwapTied(z: string, xs: seq<Span>, a: Span, b: Span)
    requires OrderFree(z, xs) && multiset{a, b} <= multiset(xs)
    requires 0 <= a.from <= a.to <= |z| && 0 <= b.from <= b.to <= |z| && Apart(a, b) && a.from == b.from
    ensures Replace(Replace(z, a), b) == Replace(Replace(z, b), a)
  {
    hide Replace, Slides;
    if a.from == a.to {
      SlidesOne(z, xs, a, b);
    } else {
      SlidesOne(z, xs, b, a);
    }
  }

  lemma SlidesOne(z: string, xs: seq<Span>, a: Span, b: Span)
    requires OrderFree(z, xs) && multiset{a, b} <= multiset(xs)
    requires 0 <= a.from == a.to == b.from <= b.to <= |z|
    ensures Replace(Replace(z, a), b) == Replace(Replace(z, b), a)
  {
    hide Replace, Slides, ReplaceAll;
    assert multiset([a]) == multiset{a} && multiset{b} + multiset{a} == multiset{a, b};
    assert InsertionsAt([a], b.from);
    assert Slides(z, b, [a]);
    SlidesInText(z, b, [a]);
    BlockTexts(z, b, [a]);
    assert [b] + [a] == [b, a] && [a] + [b] == [a, b];
    OneAfterTheOther(z, a, b);
    OneAfterTheOther(z, b, a);
  }

  /** An element among others it is tied with can be applied first. */
  lemma {:induction false} ToFront(z: string, ys: seq<Span>, k: nat)
    requires k < |ys| && Sorted(Later(), ys) && ys[k].from == ys[0].from
    requires Disjoint(ys, |z|) && OrderFree(z, ys)
    ensures ReplaceAll(z, ys) == ReplaceAll(Replace(z, ys[k]), RemoveAt(ys, k))
    decreases k
  {
    hide Replace, OrderFree, Disjoint, Sorted;
    var x := ys[k];
    if k == 0 {
      assert RemoveAt(ys, k) == ys[1..];
    } else {
      var y, rest, w := ys[0], ys[1..], Replace(z, ys[0]);
      SortedTail(ys, k);
      DisjointStep(z, ys);
      OrderFreeStep(z, ys);
      ToFront(w, rest, k - 1);
      PairListed(ys, 0, k);
      DisjointAt(ys, |z|, k);
      SwapTied(z, ys, y, x);
      assert RemoveAt(ys, k)[1..] == RemoveAt(rest, k - 1) && RemoveAt(ys, k)[0] == y;
    }
  }

  lemma SortedTail(ys: seq<Span>, k: nat)
    requires 0 < k < |ys| && Sorted(Later(), ys) && ys[k].from == ys[0].from
    ensures Sorted(Later(), ys[1..]) && ys[1].from == ys[k].from
  {
    assert Later()(ys[0], ys[1]);
    assert k > 1 ==> Later()(ys[1], ys[k]);
  }

  lemma DisjointAt(ys: seq<Span>, n: nat, k: nat)
    requires 0 < k < |ys| && Disjoint(ys, n)
    ensures 0 <= ys[0].from <= ys[0].to <= n && 0 <= ys[k].from <= ys[k].to <= n && Apart(ys[0], ys[k])
  {
  }

  /** Descending arrangements of the same spans give the same text. */
  lemma {:induction false} ArrangementsAgree(z: string, xs: seq<Span>, ys: seq<Span>)
    requires Sorted(Later(), xs) && Sorted(Later(), ys) && multiset(xs) == multiset(ys)
    requires Disjoint(xs, |z|) && OrderFree(z, xs)
    ensures ReplaceAll(z, xs) == ReplaceAll(z, ys)
    decreases |xs|
  {
    hide Replace, Slides, InsertionsAt, Disjoint;
    SameElements(xs, ys);
    if xs != [] {
      var x := xs[0];
      var k := TopIn(xs, ys);
      DisjointReordered(xs, ys, |z|);
      assert OrderFree(z, ys);
      ToFront(z, ys, k);
      SortedWithout(ys, k);
      RemoveAtElements(ys, k);
      TailElements(xs);
      assert multiset(RemoveAt(ys, k)) == multiset(xs[1..]);
      DisjointStep(z, xs);
      OrderFreeStep(z, xs);
      ArrangementsAgree(Replace(z, x), xs[1..], RemoveAt(ys, k));
    }
  }

  lemma TopIn(xs: seq<Span>, ys: seq<Span>) returns (k: nat)
    requires xs != [] && Sorted(Later(), xs) && Sorted(Later(), ys) && multiset(xs) == multiset(ys)
    ensures k < |ys| && ys[k] == xs[0] && ys[k].from == ys[0].from
  {
    SameElements(xs, ys);
    assert xs[0] in ys;
    k :| 0 <= k < |ys| && ys[k] == xs[0];
    assert ys[0] in xs;
    var i :| 0 <= i < |xs| && xs[i] == ys[0];
    assert i > 0 ==> Later()(xs[0], xs[i]);
    assert k > 0 ==> Later()(ys[0], ys[k]);
  }

  lemma SortedWithout(ys: seq<Span>, k: nat)
    requires k < |ys| && Sorted(Later(), ys)
    ensures Sorted(Later(), RemoveAt(ys, k))
  {
    var rest := RemoveAt(ys, k);
    forall i, j | 0 <= i < j < |rest| ensures Later()(rest[i], rest[j]) {
      assert rest[i] == ys[if i < k then i else i + 1] && rest[j] == ys[if j < k then j else j + 1];
    }
  }

  /** If everything slides, the order of the list is immaterial. */
  lemma SlidingSuffices(source: string, xs: seq<Span>, ys: seq<Span>)
    requires multiset(xs) == multiset(ys) && Disjoint(xs, |source|) && OrderFree(source, xs)
    ensures Apply(source, xs) == Apply(source, ys)
  {
    hide Slides, InsertionsAt, Disjoint, Sort, ReplaceAll;
    OrdersAreTotal();
    SortSorts(Later(), xs);
    SortSorts(Later(), ys);
    SortKeepsElements(Later(), xs);
    SortKeepsElements(Later(), ys);
    DisjointReordered(xs, Sort(Later(), xs), |source|);
    assert OrderFree(source, Sort(Later(), xs));
    ArrangementsAgree(source, Sort(Later(), xs), Sort(Later(), ys));
  }

  // ------------------------------------------ texts that do not slide are told

  /** Where the spans that start after `place` end in a descending list. */
  lemma SplitSorted(xs: seq<Span>, place: int) returns (k: nat)
    requires Sorted(Later(), xs)
    ensures k <= |xs|
    ensures forall i :: 0 <= i < k ==> xs[i].from > place
    ensures forall i :: k <= i < |xs| ==> xs[i].from <= place
  {
    k := 0;
    while k < |xs| && xs[k].from > place
      invariant k <= |xs| && forall i :: 0 <= i < k ==> xs[i].from > place
    {
      k := k + 1;
    }
    forall i | k <= i < |xs| ensures xs[i].from <= place {
      assert i > k ==> Later()(xs[k], xs[i]);
    }
  }

  lemma {:induction false} InsertBetween(x: Span, h: seq<Span>, t: seq<Span>)
    requires forall i :: 0 <= i < |h| ==> h[i].from > x.from
    requires t == [] || t[0].from <= x.from
    ensures Insert(Later(), x, h + t) == h + ([x] + t)
  {
    if h == [] {
      assert h + t == t;
    } else {
      assert (h + t)[1..] == h[1..] + t;
      InsertBetween(x, h[1..], t);
    }
  }

  lemma SortOnTop(x: Span, xs: seq<Span>, h: seq<Span>, t: seq<Span>)
    requires Sort(Later(), xs) == h + t
    requires forall i :: 0 <= i < |h| ==> h[i].from > x.from
    requires t == [] || t[0].from <= x.from
    ensures Sort(Later(), [x] + xs) == h + ([x] + t)
  {
    hide Insert, Later;
    assert ([x] + xs)[1..] == xs;
    InsertBetween(x, h, t);
  }

  /** Spans with one start, listed first, are applied in list order among those that start after
      them and the others. */
  lemma {:induction false} SortBlock(g: seq<Span>, rest: seq<Span>, h: seq<Span>, t: seq<Span>, place: int)
    requires Sort(Later(), rest) == h + t
    requires forall i :: 0 <= i < |g| ==> g[i].from == place
    requires forall i :: 0 <= i < |h| ==> h[i].from > place
    requires t == [] || t[0].from <= place
    ensures Sort(Later(), g + rest) == h + (g + t)
  {
    if g == [] {
      assert g + rest == rest && g + t == t;
    } else {
      hide Sort, Later;
      var x, more := g[0], g[1..];
      SortBlock(more, rest, h, t, place);
      var u := more + t;
      assert u == [] || u[0].from <= place;
      SortOnTop(x, more + rest, h, u);
      Associates([x], more, rest);
      Associates([x], more, t);
      assert g == [x] + more;
    }
  }

  /** Spans inside a prefix do not see what follows it. */
  lemma {:induction false} InsidePrefix(prefix: string, w: string, t: seq<Span>)
    requires Sorted(Later(), t) && Disjoint(t, |prefix|)
    ensures ReplaceAll(prefix + w, t) == ReplaceAll(prefix, t) + w
    decreases |t|
  {
    hide Replace;
    if t != [] {
      ReplaceInPrefix(prefix, w, t[0]);
      DisjointStep(prefix, t);
      InsidePrefix(Replace(prefix, t[0]), w, t[1..]);
    }
  }

  /** Two orders of a block that give one text show that the block slides. */
  lemma BlockTold(z: string, y: Span, ps: seq<Span>, t: seq<Span>)
    requires 0 <= y.from <= y.to <= |z| && InsertionsAt(ps, y.from)
    requires Sorted(Later(), t) && Disjoint(t, y.from)
    requires ReplaceAll(z, ([y] + ps) + t) == ReplaceAll(z, (ps + [y]) + t)
    ensures Slides(z, y, ps)
  {
    hide ReplaceAll, Disjoint, Sorted, InsertionsAt, Slides;
    var s := y.from;
    var a, b := Inserted(ps) + (y.text + z[y.to..]), y.text + (Inserted(ps) + z[s..])[y.to - s..];
    BlockTexts(z, y, ps);
    ReplaceAllConcat(z, [y] + ps, t);
    ReplaceAllConcat(z, ps + [y], t);
    InsidePrefix(z[..s], a, t);
    InsidePrefix(z[..s], b, t);
    CancelStart(a, b, ReplaceAll(z[..s], t));
    SlidesInText(z, y, ps);
  }

  /** The spans of a list that are not in a part of it. */
  lemma {:induction false} Remaining(spans: seq<Span>, part: seq<Span>) returns (rest: seq<Span>)
    requires multiset(part) <= multiset(spans)
    ensures multiset(part) + multiset(rest) == multiset(spans)
  {
    if part == [] {
      rest := spans;
    } else {
      TailElements(part);
      assert part[0] in multiset(part);
      assert part[0] in spans;
      var k :| 0 <= k < |spans| && spans[k] == part[0];
      RemoveAtElements(spans, k);
      rest := Remaining(RemoveAt(spans, k), part[1..]);
    }
  }

  /** What starts where a replacement starts is an insertion. */
  lemma TiedWithReplacement(spans: seq<Span>, n: nat, r: Span, others: seq<Span>)
    requires Disjoint(spans, n) && multiset{r} + multiset(others) <= multiset(spans) && r.from != r.to
    ensures forall i :: 0 <= i < |others| && others[i].from == r.from ==> others[i].to == r.from
  {
    assert multiset([r] + others) == multiset{r} + multiset(others);
    DisjointReordered(spans, [r] + others, n);
    var all := [r] + others;
    forall i | 0 <= i < |others| && others[i].from == r.from ensures others[i].to == r.from {
      assert all[i + 1] == others[i] && all[0] == r;
      assert Apart(all[0], all[i + 1]);
    }
  }

  /** A replacement that starts where `y` starts, if there is one, and the others. */
  lemma TiedReplacement(y: Span, rest: seq<Span>, spans: seq<Span>, n: nat) returns (f: seq<Span>, others: seq<Span>)
    requires Disjoint(spans, n) && multiset{y} + multiset(rest) <= multiset(spans)
    ensures multiset(f) + multiset(others) == multiset(rest)
    ensures forall i :: 0 <= i < |f| ==> f[i].from == y.from == y.to
    ensures forall i :: 0 <= i < |others| && others[i].from == y.from ==> others[i].to == y.from
  {
    hide Disjoint;
    if k :| 0 <= k < |rest| && rest[k].from == y.from && rest[k].to != y.from {
      f, others := [rest[k]], RemoveAt(rest, k);
      RemoveAtElements(rest, k);
      assert multiset{rest[k]} + multiset(others) <= multiset(spans);
      TiedWithReplacement(spans, n, rest[k], others);
      assert multiset([y]) == multiset{y};
      assert multiset{rest[k]} + multiset([y]) <= multiset(spans);
      TiedWithReplacement(spans, n, rest[k], [y]);
      assert [y][0] == y;
    } else {
      f, others := [], rest;
    }
  }

  ghost predicate AnySpanOrder(source: string, spans: seq<Span>) {
    forall spans' :: multiset(spans') == multiset(spans) ==> Apply(source, spans') == Apply(source, spans)
  }

  lemma SameApplied(source: string, spans: seq<Span>, a: seq<Span>, b: seq<Span>)
    requires AnySpanOrder(source, spans) && multiset(a) == multiset(spans) && multiset(b) == multiset(spans)
    ensures Apply(source, a) == Apply(source, b)
  {
    hide Apply;
  }

  lemma SlidingNeeded(source: string, spans: seq<Span>, y: Span, ps: seq<Span>)
    requires Disjoint(spans, |source|) && AnySpanOrder(source, spans)
    requires multiset{y} + multiset(ps) <= multiset(spans) && InsertionsAt(ps, y.from)
    ensures Slides(source, y, ps)
  {
    hide Disjoint, Slides, Apply, InsertionsAt, AnySpanOrder;
    var f, others := Surroundings(spans, y, ps, |source|);
    var one, two := (f + ([y] + ps)) + others, (f + (ps + [y])) + others;
    BlockBag(f, [y], ps, others);
    BlockBag(f, ps, [y], others);
    SameApplied(source, spans, one, two);
    DisjointReordered(spans, one, |source|);
    ListedTold(source, f, y, ps, others);
  }

  lemma BlockBag(f: seq<Span>, a: seq<Span>, b: seq<Span>, others: seq<Span>)
    ensures multiset((f + (a + b)) + others) == multiset(f) + (multiset(a) + multiset(b)) + multiset(others)
  {
  }

  lemma Surroundings(spans: seq<Span>, y: Span, ps: seq<Span>, n: nat) returns (f: seq<Span>, others: seq<Span>)
    requires Disjoint(spans, n) && multiset{y} + multiset(ps) <= multiset(spans)
    ensures multiset(f) + (multiset([y]) + multiset(ps)) + multiset(others) == multiset(spans)
    ensures forall i :: 0 <= i < |f| ==> f[i].from == y.from == y.to
    ensures forall i :: 0 <= i < |others| && others[i].from == y.from ==> others[i].to == y.from
  {
    hide Disjoint;
    assert multiset([y] + ps) == multiset{y} + multiset(ps);
    var rest := Remaining(spans, [y] + ps);
    f, others := TiedReplacement(y, rest, spans, n);
  }

  /** Everything in front of the block, once sorted, starts after it ends. */
  lemma FrontBeyond(f: seq<Span>, y: Span, others: seq<Span>, h: seq<Span>, n: nat)
    requires Disjoint([y] + others, n) && 0 <= y.from <= y.to
    requires forall i :: 0 <= i < |f| ==> y.to <= f[i].from <= f[i].to
    requires forall i :: 0 <= i < |h| ==> h[i].from > y.from && h[i] in others
    ensures forall i :: 0 <= i < |h + f| ==> y.to <= (h + f)[i].from <= (h + f)[i].to
  {
    forall i | 0 <= i < |h| ensures y.to <= h[i].from <= h[i].to {
      var k :| 0 <= k < |others| && others[k] == h[i];
      assert ([y] + others)[k + 1] == h[i] && Apart(([y] + others)[0], ([y] + others)[k + 1]);
    }
  }

  /** Everything behind it lies before its start. */
  lemma BackWithin(y: Span, others: seq<Span>, t: seq<Span>, n: nat)
    requires Disjoint([y] + others, n)
    requires forall i :: 0 <= i < |others| && others[i].from == y.from ==> others[i].to == y.from
    requires multiset(t) <= multiset(others) && forall i :: 0 <= i < |t| ==> t[i].from <= y.from
    ensures 0 <= y.from && Disjoint(t, y.from)
  {
    assert ([y] + others)[0] == y;
    assert multiset([y] + others) == multiset{y} + multiset(others);
    DisjointReordered([y] + others, t, n);
    forall i | 0 <= i < |t| ensures t[i].to <= y.from {
      assert t[i] in multiset(t);
      assert t[i] in others;
      var k :| 0 <= k < |others| && others[k] == t[i];
      assert ([y] + others)[k + 1] == t[i] && Apart(([y] + others)[0], ([y] + others)[k + 1]);
    }
  }

  lemma ListedTold(source: string, f: seq<Span>, y: Span, ps: seq<Span>, others: seq<Span>)
    requires Disjoint((f + ([y] + ps)) + others, |source|) && InsertionsAt(ps, y.from)
    requires forall i :: 0 <= i < |f| ==> f[i].from == y.from == y.to
    requires forall i :: 0 <= i < |others| && others[i].from == y.from ==> others[i].to == y.from
    requires Apply(source, (f + ([y] + ps)) + others) == Apply(source, (f + (ps + [y])) + others)
    ensures Slides(source, y, ps)
  {
    hide Slides, Apply, ReplaceAll, Disjoint, Sorted;
    PartsDisjoint(f, y, ps, others, |source|);
    var h, t := HeadAndTail(others, y.from);
    BlockApplied(source, f, [y] + ps, others, h, t, y.from);
    BlockApplied(source, f, ps + [y], others, h, t, y.from);
    FrontBeyond(f, y, others, h, |source|);
    BackWithin(y, others, t, |source|);
    var z := ReplaceAll(source, h + f);
    BeyondKeeps(source, h + f, y.to);
    BlockTold(z, y, ps, t);
    SlidesThere(source, z, y, ps);
  }

  lemma PartsDisjoint(f: seq<Span>, y: Span, ps: seq<Span>, others: seq<Span>, n: nat)
    requires Disjoint((f + ([y] + ps)) + others, n)
    ensures Disjoint([y] + others, n)
    ensures 0 <= y.from <= y.to <= n
    ensures forall i :: 0 <= i < |f| ==> f[i].from <= f[i].to
  {
    hide Disjoint;
    var all := (f + ([y] + ps)) + others;
    BlockBag(f, [y], ps, others);
    assert multiset([y] + others) == multiset([y]) + multiset(others);
    DisjointReordered(all, [y] + others, n);
    DisjointReordered(all, f, n);
    DisjointListed(all, n, y);
    DisjointEach(f, n);
  }

  lemma BlockApplied(source: string, f: seq<Span>, g: seq<Span>, others: seq<Span>, h: seq<Span>, t: seq<Span>, place: int)
    requires Sort(Later(), others) == h + t
    requires forall i :: 0 <= i < |f| ==> f[i].from == place
    requires forall i :: 0 <= i < |g| ==> g[i].from == place
    requires forall i :: 0 <= i < |h| ==> h[i].from > place
    requires t == [] || t[0].from <= place
    ensures Apply(source, (f + g) + others) == ReplaceAll(ReplaceAll(source, h + f), g + t)
  {
    hide ReplaceAll, Sort;
    SortBlock(f + g, others, h, t, place);
    assert h + ((f + g) + t) == (h + f) + (g + t);
    ReplaceAllConcat(source, h + f, g + t);
  }

  lemma DisjointEach(spans: seq<Span>, n: nat)
    requires Disjoint(spans, n)
    ensures forall i :: 0 <= i < |spans| ==> spans[i].from <= spans[i].to
  {
  }

  lemma SlidesThere(source: string, z: string, y: Span, ps: seq<Span>)
    requires 0 <= y.from <= y.to <= |source| && y.to <= |z| && z[..y.to] == source[..y.to]
    requires Slides(z, y, ps)
    ensures Slides(source, y, ps)
  {
    assert z[y.from..y.to] == z[..y.to][y.from..] && source[y.from..y.to] == source[..y.to][y.from..];
  }

  lemma HeadAndTail(others: seq<Span>, place: int) returns (h: seq<Span>, t: seq<Span>)
    ensures Sort(Later(), others) == h + t && Sorted(Later(), t)
    ensures forall i :: 0 <= i < |h| ==> h[i].from > place && h[i] in others
    ensures forall i :: 0 <= i < |t| ==> t[i].from <= place
    ensures multiset(t) <= multiset(others)
  {
    hide Sort;
    var all := Sort(Later(), others);
    OrdersAreTotal();
    SortSorts(Later(), others);
    SortKeepsElements(Later(), others);
    SortSameElements(Later(), others);
    var k := SplitSorted(all, place);
    h, t := all[..k], all[k..];
    assert all == h + t;
    assert multiset(all) == multiset(h) + multiset(t);
    forall i | 0 <= i < |h| ensures h[i].from > place && h[i] in others {
      assert h[i] == all[i];
      assert all[i] in all;
    }
    forall i, j | 0 <= i < j < |t| ensures Later()(t[i], t[j]) {
      assert t[i] == all[k + i] && t[j] == all[k + j];
    }
  }

  // ---------------------------------------------------------------- the theorem

  /** The order of the list is immaterial. */
  ghost predicate AnyOrder(source: string, edits: seq<Edit>) {
    forall edits' :: multiset(edits') == multiset(edits) ==> Projection(source, edits') == Projection(source, edits)
  }

  lemma SpanOrder(source: string, spans: seq<Span>)
    requires Disjoint(spans, |source|)
    ensures AnySpanOrder(source, spans) <==> OrderFree(source, spans)
  {
    hide Apply, Disjoint, Slides, InsertionsAt;
    if OrderFree(source, spans) {
      forall spans' | multiset(spans') == multiset(spans) ensures Apply(source, spans') == Apply(source, spans) {
        SlidingSuffices(source, spans, spans');
      }
    }
    if AnySpanOrder(source, spans) {
      forall y, ps | multiset{y} + multiset(ps) <= multiset(spans) && InsertionsAt(ps, y.from) ensures Slides(source, y, ps) {
        SlidingNeeded(source, spans, y, ps);
      }
    }
  }

  /** For edits that lie apart, the order of the list is immaterial if and only if every edit slides
      past the insertions at its start. */
  lemma OrderMattersExactly(source: string, edits: seq<Edit>)
    requires IsAscii(source) && ResolveAll(Starts(SplitLines(source)), edits).Some?
    requires Disjoint(ResolveAll(Starts(SplitLines(source)), edits).value, |source|)
    ensures AnyOrder(source, edits) <==> OrderFree(source, ResolveAll(Starts(SplitLines(source)), edits).value)
  {
    hide ResolveAll, Starts, SplitLines, Disjoint, OrderFree, IsAscii, Sort, ReplaceAll;
    var starts := Starts(SplitLines(source));
    var spans := ResolveAll(starts, edits).value;
    SpanOrder(source, spans);
    if AnyOrder(source, edits) {
      forall spans' | multiset(spans') == multiset(spans) ensures Apply(source, spans') == Apply(source, spans) {
        var edits' := EditsOf(starts, edits, spans');
        assert Projection(source, edits') == Projection(source, edits);
      }
    }
    if OrderFree(source, spans) {
      forall edits' | multiset(edits') == multiset(edits) ensures Projection(source, edits') == Projection(source, edits) {
        var p := PermutationBetween(edits', edits);
        ResolveReindexed(starts, edits, edits', p);
        PermutationKeepsElements(spans, p);
        assert Apply(source, Reindex(spans, p)) == Apply(source, spans);
      }
    }
  }

  /** A rearrangement of the spans comes from a rearrangement of the edits. */
  lemma EditsOf(starts: seq<int>, edits: seq<Edit>, spans': seq<Span>) returns (edits': seq<Edit>)
    requires ResolveAll(starts, edits).Some? && multiset(spans') == multiset(ResolveAll(starts, edits).value)
    ensures multiset(edits') == multiset(edits) && ResolveAll(starts, edits') == Some(spans')
  {
    hide ResolveAll;
    ResolvePointwise(starts, edits);
    var p := PermutationBetween(spans', ResolveAll(starts, edits).value);
    edits' := Reindex(edits, p);
    PermutationKeepsElements(edits, p);
    ResolveReindexed(starts, edits, edits', p);
  }

  /** No replacement shares its start with another edit. */
  ghost predicate TiesAreInsertions(spans: seq<Span>) {
    forall i, j :: 0 <= i < |spans| && 0 <= j < |spans| && i != j && spans[i].from == spans[j].from ==>
      spans[i].to == spans[i].from
  }

  /** Two insertions at one place have texts that commute, such as "ab" and "abab". */
  ghost predicate TiesCommute(spans: seq<Span>) {
    forall i, j :: 0 <= i < |spans| && 0 <= j < |spans| && i != j && spans[i].from == spans[j].from ==>
      spans[i].text + spans[j].text == spans[j].text + spans[i].text
  }

  lemma SlidesPastOne(source: string, y: Span, x: Span)
    requires 0 <= y.from == y.to <= |source|
    ensures Slides(source, y, [x]) <==> y.text + x.text == x.text + y.text
  {
    assert [x][1..] == [] && Inserted([x]) == x.text;
    assert Inserted([x]) + source[y.from..y.to] == x.text;
    assert x.text[0..] == x.text;
  }

  /** Texts that commute with each of several commute with all of them joined. */
  lemma {:induction false} CommutesWithAll(y: string, ps: seq<Span>)
    requires forall i :: 0 <= i < |ps| ==> y + ps[i].text == ps[i].text + y
    ensures y + Inserted(ps) == Inserted(ps) + y
  {
    if ps == [] {
      assert y + [] == [] + y;
    } else {
      CommutesWithAll(y, ps[1..]);
      var init, last := Inserted(ps[1..]), ps[0].text;
      calc {
        y + (init + last);
        (y + init) + last;
        (init + y) + last;
        init + (y + last);
        init + (last + y);
        (init + last) + y;
      }
    }
  }

  lemma CommutingSlides(source: string, spans: seq<Span>, y: Span, ps: seq<Span>)
    requires Disjoint(spans, |source|) && TiesAreInsertions(spans) && TiesCommute(spans)
    requires multiset{y} + multiset(ps) <= multiset(spans) && InsertionsAt(ps, y.from)
    ensures Slides(source, y, ps)
  {
    hide Disjoint;
    DisjointListed(spans, |source|, y);
    forall k | 0 <= k < |ps| ensures y.from == y.to && y.text + ps[k].text == ps[k].text + y.text {
      assert ps[k] in multiset(ps);
      var i, j := TwoPositions(spans, y, ps[k]);
    }
    CommutesWithAll(y.text, ps);
    if ps == [] {
      assert (Inserted(ps) + source[y.from..y.to])[y.to - y.from..] == [];
      assert y.text + [] == [] + y.text;
    } else {
      assert y.to == y.from;
      assert (Inserted(ps) + source[y.from..y.to])[0..] == Inserted(ps);
    }
  }

  lemma SlidingCommutes(source: string, spans: seq<Span>, i: nat, j: nat)
    requires Disjoint(spans, |source|) && TiesAreInsertions(spans) && OrderFree(source, spans)
    requires i < |spans| && j < |spans| && i != j && spans[i].from == spans[j].from
    ensures spans[i].text + spans[j].text == spans[j].text + spans[i].text
  {
    hide Slides;
    var y, x := spans[i], spans[j];
    PairListed(spans, i, j);
    assert multiset([x]) == multiset{x};
    assert multiset{y} + multiset{x} == multiset{y, x};
    assert InsertionsAt([x], y.from);
    assert Slides(source, y, [x]);
    SlidesPastOne(source, y, x);
  }

  /** If no replacement shares its start with another edit, the order of the list is immaterial if
      and only if the texts inserted at one place commute, two by two. */
  lemma InsertionOrderMattersExactly(source: string, edits: seq<Edit>)
    requires IsAscii(source) && ResolveAll(Starts(SplitLines(source)), edits).Some?
    requires var spans := ResolveAll(Starts(SplitLines(source)), edits).value;
             Disjoint(spans, |source|) && TiesAreInsertions(spans)
    ensures AnyOrder(source, edits) <==> TiesCommute(ResolveAll(Starts(SplitLines(source)), edits).value)
  {
    hide ResolveAll, Starts, SplitLines, Disjoint, Slides, IsAscii, AnyOrder, InsertionsAt, TiesAreInsertions;
    var spans := ResolveAll(Starts(SplitLines(source)), edits).value;
    OrderMattersExactly(source, edits);
    if TiesCommute(spans) {
      forall y: Span, ps: seq<Span> | multiset{y} + multiset(ps) <= multiset(spans) && InsertionsAt(ps, y.from) ensures Slides(source, y, ps) {
        CommutingSlides(source, spans, y, ps);
      }
    }
    if OrderFree(source, spans) {
      forall i, j | 0 <= i < |spans| && 0 <= j < |spans| && i != j && spans[i].from == spans[j].from
        ensures spans[i].text + spans[j].text == spans[j].text + spans[i].text
      {
        SlidingCommutes(source, spans, i, j);
      }
    }
  }

  /** Two insertions at one position, wherever it is: the order shows unless their texts commute. */
  lemma TwoInsertions(source: string, here: Position, a: string, b: string)
    requires IsAscii(source) && Names(SplitLines(source), here)
    ensures AnyOrder(source, [Edit(here, here, a), Edit(here, here, b)]) <==> a + b == b + a
  {
    hide SplitLines, Starts, Names, AnyOrder, ResolveAll;
    var edits := [Edit(here, here, a), Edit(here, here, b)];
    var starts := Starts(SplitLines(source));
    NamedEditResolves(source, edits[0]);
    NamedEditResolves(source, edits[1]);
    ResolvePointwise(starts, edits);
    var spans := ResolveAll(starts, edits).value;
    assert Resolve(starts, edits[0]) == Some(spans[0]) && Resolve(starts, edits[1]) == Some(spans[1]);
    InsertionOrderMattersExactly(source, edits);
    assert TiesCommute(spans) <==> spans[0].text + spans[1].text == spans[1].text + spans[0].text;
  }

  /** Insertions at one place are applied in list order, each in front of those before it. */
  lemma InsertionsInListOrder(source: string, edits: seq<Edit>, spans: seq<Span>, place: nat)
    requires IsAscii(source) && ResolveAll(Starts(SplitLines(source)), edits) == Some(spans)
    requires place <= |source| && InsertionsAt(spans, place)
    ensures Projection(source, edits) == Some(source[..place] + (Inserted(spans) + source[place..]))
  {
    hide ResolveAll, Starts, SplitLines, IsAscii;
    assert Sort(Later(), []) == [] + [];
    SortBlock(spans, [], [], [], place);
    assert spans + [] == spans && [] + spans == spans;
    InsertAll(source, spans, place);
  }
}
