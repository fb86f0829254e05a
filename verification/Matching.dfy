/** Bipartite matchings between the positions of two lists, and weak duality. */
module Matching {
  import opened Orders

  /** Row `s` lists the positions compatible with position `s` of the first list. */
  type Graph = seq<seq<nat>>

  /** For each position, the position of the other list that it is matched to. */
  type Owners = seq<Option<nat>>

  ghost predicate GraphOver(g: Graph, m: nat) {
    forall s, k :: 0 <= s < |g| && 0 <= k < |g[s]| ==> g[s][k] < m
  }

  ghost predicate Edge(g: Graph, s: nat, o: nat) {
    s < |g| && o in g[s]
  }

  ghost predicate IsMatching(g: Graph, pairs: set<(nat, nat)>) {
    && (forall p :: p in pairs ==> Edge(g, p.0, p.1))
    && (forall p, q :: p in pairs && q in pairs && p != q ==> p.0 != q.0 && p.1 != q.1)
  }

  /** Every edge has an end in one of the two sets. */
  ghost predicate IsCover(g: Graph, cs: set<nat>, co: set<nat>) {
    forall s, o :: Edge(g, s, o) ==> s in cs || o in co
  }

  /** No matching is larger than a cover. */
  lemma WeakDuality(g: Graph, pairs: set<(nat, nat)>, cs: set<nat>, co: set<nat>)
    requires IsMatching(g, pairs) && IsCover(g, cs, co)
    ensures |pairs| <= |cs| + |co|
  {
    PairsFitCover(pairs, cs, co);
  }

  lemma {:induction false} PairsFitCover(pairs: set<(nat, nat)>, cs: set<nat>, co: set<nat>)
    requires forall p :: p in pairs ==> p.0 in cs || p.1 in co
    requires forall p, q :: p in pairs && q in pairs && p != q ==> p.0 != q.0 && p.1 != q.1
    ensures |pairs| <= |cs| + |co|
    decreases |pairs|
  {
    if pairs != {} {
      var p :| p in pairs;
      if p.0 in cs {
        PairsFitCover(pairs - {p}, cs - {p.0}, co);
      } else {
        PairsFitCover(pairs - {p}, cs, co - {p.1});
      }
    }
  }

  // ------------------------------------------------------------ owner arrays

  /** The two owner lists are mutual partial inverses and every pair is an edge. */
  ghost predicate OwnersMatch(g: Graph, so: Owners, oo: Owners) {
    && |so| == |g|
    && (forall s :: 0 <= s < |so| && so[s].Some? ==>
          so[s].value < |oo| && oo[so[s].value] == Some(s) && Edge(g, s, so[s].value))
    && (forall o :: 0 <= o < |oo| && oo[o].Some? ==>
          oo[o].value < |so| && so[oo[o].value] == Some(o))
  }

  ghost function Matched(owners: Owners): set<nat> {
    set i: nat | i < |owners| && owners[i].Some?
  }

  /** The positions below `n`. */
  ghost function Universe(n: nat): (u: set<nat>)
    ensures forall i: nat :: i in u <==> i < n
    ensures |u| == n
  {
    if n == 0 then {} else Universe(n - 1) + {n - 1}
  }

  lemma SubsetSize<T>(a: set<T>, b: set<T>)
    requires a <= b
    ensures |a| <= |b|
    ensures a != b ==> |a| < |b|
  {
    assert b == a + (b - a);
  }

  ghost function PairsOf(so: Owners): set<(nat, nat)> {
    set s: nat | s < |so| && so[s].Some? :: (s, so[s].value)
  }

  lemma PairsOfIsMatching(g: Graph, so: Owners, oo: Owners)
    requires OwnersMatch(g, so, oo)
    ensures IsMatching(g, PairsOf(so))
    ensures |PairsOf(so)| == |Matched(so)| == |Matched(oo)|
  {
    var pairs := PairsSize(so, Matched(so));
    assert pairs == PairsOf(so);
    ImageSize(oo, so, Matched(oo));
    ImageSize(so, oo, Matched(so));
    assert (set o | o in Matched(oo) :: oo[o].value) == Matched(so) by {
      forall s | s in Matched(so) ensures s in set o | o in Matched(oo) :: oo[o].value {
        assert so[s].value in Matched(oo) && oo[so[s].value].value == s;
      }
    }
  }

  lemma {:induction false} PairsSize(owners: Owners, d: set<nat>) returns (pairs: set<(nat, nat)>)
    requires forall s :: s in d ==> s < |owners| && owners[s].Some?
    ensures |pairs| == |d|
    ensures forall p :: p in pairs <==> p.0 in d && owners[p.0] == Some(p.1)
    decreases |d|
  {
    if d == {} {
      pairs := {};
    } else {
      var x :| x in d;
      var rest := PairsSize(owners, d - {x});
      pairs := rest + {(x, owners[x].value)};
      assert (x, owners[x].value) !in rest;
    }
  }

  /** Distinct owned positions have distinct owners. */
  lemma {:induction false} ImageSize(from: Owners, to: Owners, d: set<nat>)
    requires forall o :: o in d ==> o < |from| && from[o].Some? && from[o].value < |to| && to[from[o].value] == Some(o)
    ensures |set o | o in d :: from[o].value| == |d|
    decreases |d|
  {
    if d != {} {
      var x :| x in d;
      var rest := d - {x};
      ImageSize(from, to, rest);
      var image := set o | o in rest :: from[o].value;
      assert from[x].value !in image;
      assert (set o | o in d :: from[o].value) == image + {from[x].value};
    }
  }

  /** The matching leaves as many positions free as the owner list has gaps. */
  lemma FreeCount(owners: Owners)
    ensures |Matched(owners)| <= |owners|
    ensures |Matched(owners)| == |owners| <==> forall i :: 0 <= i < |owners| ==> owners[i].Some?
  {
    SubsetSize(Matched(owners), Universe(|owners|));
    if i :| 0 <= i < |owners| && owners[i].None? {
      assert i in Universe(|owners|) && i !in Matched(owners);
    } else {
      assert Matched(owners) == Universe(|owners|);
    }
  }

  // --------------------------------------------------------------- dead ends

  /** A region no augmenting path can enter: all edges from `ds` end in `dO`, and `dO` is matched
      into `ds`. */
  ghost predicate DeadRegion(g: Graph, oo: Owners, ds: set<nat>, dO: set<nat>) {
    && (forall s, o :: s in ds && Edge(g, s, o) ==> o in dO)
    && (forall o :: o in dO ==> o < |oo| && oo[o].Some? && oo[o].value in ds)
  }

  /** When every position is matched or in a dead region, no matching is larger: the dead region's
      right side and the rest of the left side cover every edge and are all matched apart. */
  lemma DeadRegionProvesMaximum(g: Graph, so: Owners, oo: Owners, ds: set<nat>, dO: set<nat>, pairs: set<(nat, nat)>)
    requires OwnersMatch(g, so, oo) && DeadRegion(g, oo, ds, dO)
    requires forall s :: 0 <= s < |so| ==> so[s].Some? || s in ds
    requires IsMatching(g, pairs)
    ensures |pairs| <= |Matched(so)|
  {
    var live := Universe(|g|) - ds;
    assert IsCover(g, live, dO);
    WeakDuality(g, pairs, live, dO);
    ImageSize(oo, so, dO);
    var image := set o | o in dO :: oo[o].value;
    assert live !! image;
    assert live + image <= Matched(so);
    SubsetSize(live + image, Matched(so));
    assert |live + image| == |live| + |image|;
  }
}
