/** The multiset fast path for groups whose findings know the same facets
    (tools/oracle/parity.py:1197-1252). */
module Uniform {
  import opened Orders
  import opened Freezing
  import opened Evidence
  import opened Matching
  import opened Counters

  // ------------------------------------------------------------ the fast path

  predicate SameMask(rows: seq<Finding>) {
    forall i :: 0 <= i < |rows| ==> MaskOf(rows[i]) == MaskOf(rows[0])
  }

  function Projecting(mask: Mask): Finding -> ProjectedKey {
    (f: Finding) => Project(f, mask)
  }

  /** Nothing when the masks of a side differ, otherwise the rows each side has too many. */
  function UniformRows(sonar: seq<Finding>, ours: seq<Finding>): Option<(seq<Finding>, seq<Finding>)>
    requires sonar != [] && ours != []
  {
    if !SameMask(sonar) || !SameMask(ours) then None
    else
      var key := Projecting(CommonMask(MaskOf(sonar[0]), MaskOf(ours[0])));
      Some((Surplus(sonar, ours, key), Surplus(ours, sonar, key)))
  }

  method UniformDetectorRows(sonar: seq<Finding>, ours: seq<Finding>)
    returns (rows: Option<(seq<Finding>, seq<Finding>)>)
    requires sonar != [] && ours != []
    ensures rows == UniformRows(sonar, ours)
  {
    var sonarMasks := set f | f in sonar :: MaskOf(f);
    var oursMasks := set f | f in ours :: MaskOf(f);
    OneMask(sonar);
    OneMask(ours);
    if |sonarMasks| > 1 || |oursMasks| > 1 {
      return None;
    }
    var commonMask := CommonMask(MaskOf(sonar[0]), MaskOf(ours[0]));
    var missing, extra := UnmatchedRows(sonar, ours, Projecting(commonMask));
    return Some((missing, extra));
  }

  lemma OneMask(rows: seq<Finding>)
    requires rows != []
    ensures |set f | f in rows :: MaskOf(f)| > 1 <==> !SameMask(rows)
  {
    var masks := set f | f in rows :: MaskOf(f);
    assert MaskOf(rows[0]) in masks;
    var rest := masks - {MaskOf(rows[0])};
    assert |masks| == |rest| + 1;
    if SameMask(rows) {
      assert rest == {};
    } else {
      var i :| 0 <= i < |rows| && MaskOf(rows[i]) != MaskOf(rows[0]);
      assert MaskOf(rows[i]) in rest;
    }
  }

  // ------------------------------------- the fast path refines the general one

  /** The graph of a group: positions of compatible findings. */
  ghost predicate CompatibilityGraph(g: Graph, sonar: seq<Finding>, ours: seq<Finding>) {
    && |g| == |sonar| && GraphOver(g, |ours|)
    && forall s, o :: 0 <= s < |sonar| && 0 <= o < |ours| ==> (Edge(g, s, o) <==> Compatible(sonar[s], ours[o]))
  }

  ghost predicate IsMaximum(g: Graph, pairs: set<(nat, nat)>) {
    IsMatching(g, pairs) && forall other {:trigger IsMatching(g, other)} :: IsMatching(g, other) ==> |other| <= |pairs|
  }

  ghost function PositionsOf<K(!new)>(ks: seq<K>, k: K): (positions: set<nat>)
    ensures forall i: nat :: i in positions <==> i < |ks| && ks[i] == k
    ensures |positions| == multiset(ks)[k]
  {
    if ks == [] then {}
    else
      var n := |ks| - 1;
      assert ks == ks[..n] + [ks[n]];
      if ks[n] == k then PositionsOf(ks[..n], k) + {n} else PositionsOf(ks[..n], k)
  }

  ghost function PairsWith<K(!new)>(pairs: set<(nat, nat)>, ks: seq<K>, k: K): set<(nat, nat)> {
    set p | p in pairs && p.0 < |ks| && ks[p.0] == k
  }

  ghost function Lefts(pairs: set<(nat, nat)>): (lefts: set<nat>)
    ensures forall p :: p in pairs ==> p.0 in lefts
    ensures forall s :: s in lefts ==> exists p :: p in pairs && p.0 == s
  {
    set p | p in pairs :: p.0
  }

  ghost function Rights(pairs: set<(nat, nat)>): (rights: set<nat>)
    ensures forall p :: p in pairs ==> p.1 in rights
    ensures forall o :: o in rights ==> exists p :: p in pairs && p.1 == o
  {
    set p | p in pairs :: p.1
  }

  lemma {:induction false} LeftsOfMatching(pairs: set<(nat, nat)>)
    requires forall p, q :: p in pairs && q in pairs && p != q ==> p.0 != q.0
    ensures |Lefts(pairs)| == |pairs|
    decreases |pairs|
  {
    if pairs == {} {
      assert Lefts(pairs) == {};
    } else {
      var p :| p in pairs;
      var rest := pairs - {p};
      LeftsOfMatching(rest);
      assert p.0 !in Lefts(rest);
      assert Lefts(pairs) == Lefts(rest) + {p.0};
    }
  }

  lemma {:induction false} RightsOfMatching(pairs: set<(nat, nat)>)
    requires forall p, q :: p in pairs && q in pairs && p != q ==> p.1 != q.1
    ensures |Rights(pairs)| == |pairs|
    decreases |pairs|
  {
    if pairs == {} {
      assert Rights(pairs) == {};
    } else {
      var p :| p in pairs;
      var rest := pairs - {p};
      RightsOfMatching(rest);
      assert p.1 !in Rights(rest);
      assert Rights(pairs) == Rights(rest) + {p.1};
    }
  }

  ghost predicate KeyGraph<K(!new)>(g: Graph, ks: seq<K>, ts: seq<K>) {
    && |g| == |ks| && GraphOver(g, |ts|)
    && forall s, o :: 0 <= s < |ks| && 0 <= o < |ts| ==> (Edge(g, s, o) <==> ks[s] == ts[o])
  }

  /** A maximum matching uses up each key on one side: a spare row on each side would make a
      larger matching. */
  lemma OneSideUsedUp<K(!new)>(g: Graph, ks: seq<K>, ts: seq<K>, pairs: set<(nat, nat)>, k: K)
    requires KeyGraph(g, ks, ts) && IsMaximum(g, pairs)
    ensures PositionsOf(ks, k) <= Lefts(PairsWith(pairs, ks, k)) || PositionsOf(ts, k) <= Rights(PairsWith(pairs, ks, k))
  {
    var mine := PairsWith(pairs, ks, k);
    if s :| s in PositionsOf(ks, k) && s !in Lefts(mine) {
      if o :| o in PositionsOf(ts, k) && o !in Rights(mine) {
        SpareRowsExtend(g, ks, ts, pairs, k, s, o);
      }
    }
  }

  lemma EndsOfPairs<K(!new)>(g: Graph, ks: seq<K>, ts: seq<K>, pairs: set<(nat, nat)>, k: K)
    requires KeyGraph(g, ks, ts) && IsMatching(g, pairs)
    ensures var mine := PairsWith(pairs, ks, k);
            && Lefts(mine) <= PositionsOf(ks, k) && Rights(mine) <= PositionsOf(ts, k)
            && |mine| == |Lefts(mine)| == |Rights(mine)|
            && |mine| <= multiset(ks)[k] && |mine| <= multiset(ts)[k]
  {
    var mine := PairsWith(pairs, ks, k);
    LeftsOfMatching(mine);
    RightsOfMatching(mine);
    forall o | o in Rights(mine) ensures o in PositionsOf(ts, k) {
      var p :| p in mine && p.1 == o;
      assert Edge(g, p.0, p.1);
    }
    SubsetSize(Lefts(mine), PositionsOf(ks, k));
    SubsetSize(Rights(mine), PositionsOf(ts, k));
  }

  /** In a maximum matching of a graph that joins equal keys, each key is matched as often as both
      sides have it. */
  lemma PairsPerKey<K(!new)>(g: Graph, ks: seq<K>, ts: seq<K>, pairs: set<(nat, nat)>, k: K)
    requires KeyGraph(g, ks, ts) && IsMaximum(g, pairs)
    ensures |PairsWith(pairs, ks, k)| == (multiset(ks) * multiset(ts))[k]
  {
    var mine := PairsWith(pairs, ks, k);
    EndsOfPairs(g, ks, ts, pairs, k);
    OneSideUsedUp(g, ks, ts, pairs, k);
    assert Lefts(mine) == PositionsOf(ks, k) || Rights(mine) == PositionsOf(ts, k);
  }

  lemma SpareRowsExtend<K(!new)>(g: Graph, ks: seq<K>, ts: seq<K>, pairs: set<(nat, nat)>, k: K, s: nat, o: nat)
    requires KeyGraph(g, ks, ts) && IsMatching(g, pairs)
    requires s < |ks| && ks[s] == k && o < |ts| && ts[o] == k
    requires forall p :: p in PairsWith(pairs, ks, k) ==> p.0 != s && p.1 != o
    ensures !IsMaximum(g, pairs)
  {
    forall p | p in pairs ensures p.0 != s && p.1 != o {
      assert Edge(g, p.0, p.1);
    }
    var more := pairs + {(s, o)};
    assert IsMatching(g, more);
    assert |more| == |pairs| + 1;
  }

  lemma {:induction false} MaximumCounts<K(!new)>(g: Graph, ks: seq<K>, ts: seq<K>, pairs: set<(nat, nat)>)
    requires KeyGraph(g, ks, ts) && IsMaximum(g, pairs)
    ensures |pairs| == |multiset(ks) * multiset(ts)|
  {
    forall k ensures |PairsWith(pairs, ks, k)| == (multiset(ks) * multiset(ts))[k] {
      PairsPerKey(g, ks, ts, pairs, k);
    }
    forall p | p in pairs ensures p.0 < |ks| {
      assert Edge(g, p.0, p.1);
    }
    CountByKey(pairs, ks, multiset(ks) * multiset(ts));
  }

  lemma {:induction false} CountByKey<K(!new)>(pairs: set<(nat, nat)>, ks: seq<K>, counts: multiset<K>)
    requires forall p :: p in pairs ==> p.0 < |ks|
    requires forall k :: |PairsWith(pairs, ks, k)| == counts[k]
    ensures |pairs| == |counts|
    decreases |pairs|
  {
    if pairs == {} {
      forall k ensures counts[k] == 0 {
        assert PairsWith(pairs, ks, k) == {};
      }
      assert counts == multiset{};
    } else {
      var p :| p in pairs;
      var rest := pairs - {p};
      forall k ensures |PairsWith(rest, ks, k)| == (counts - multiset{ks[p.0]})[k] {
        if k == ks[p.0] {
          assert PairsWith(pairs, ks, k) == PairsWith(rest, ks, k) + {p};
        } else {
          assert PairsWith(pairs, ks, k) == PairsWith(rest, ks, k);
        }
      }
      assert ks[p.0] in counts by {
        assert p in PairsWith(pairs, ks, ks[p.0]);
      }
      CountByKey(rest, ks, counts - multiset{ks[p.0]});
    }
  }

  lemma ProjectionGraph(sonar: seq<Finding>, ours: seq<Finding>, g: Graph, mask: Mask)
    requires CompatibilityGraph(g, sonar, ours)
    requires forall s, o :: 0 <= s < |sonar| && 0 <= o < |ours| ==> CommonMask(MaskOf(sonar[s]), MaskOf(ours[o])) == mask
    ensures KeyGraph(g, Map(Projecting(mask), sonar), Map(Projecting(mask), ours))
  {
    hide Compatible, Project;
    var key := Projecting(mask);
    var ks, ts := Map(key, sonar), Map(key, ours);
    forall s, o | 0 <= s < |ks| && 0 <= o < |ts| ensures Edge(g, s, o) <==> ks[s] == ts[o] {
      CompatibleIsProjectedEquality(sonar[s], ours[o]);
    }
  }

  /** The fast path agrees with the general matcher: it reports as many rows on each side as any
      maximum matching of the compatibility graph leaves unmatched. */
  lemma UniformRefinesMatching(sonar: seq<Finding>, ours: seq<Finding>, g: Graph, pairs: set<(nat, nat)>)
    requires sonar != [] && ours != [] && UniformRows(sonar, ours).Some?
    requires CompatibilityGraph(g, sonar, ours) && IsMaximum(g, pairs)
    ensures var (missing, extra) := UniformRows(sonar, ours).value;
            |missing| == |sonar| - |pairs| && |extra| == |ours| - |pairs|
  {
    hide Project, Surplus, CompatibilityGraph, KeyGraph, IsMaximum;
    var mask := CommonMask(MaskOf(sonar[0]), MaskOf(ours[0]));
    var key := Projecting(mask);
    ProjectionGraph(sonar, ours, g, mask);
    MaximumCounts(g, Map(key, sonar), Map(key, ours), pairs);
    SurplusEmpty(sonar, ours, key);
    SurplusEmpty(ours, sonar, key);
    assert multiset(Map(key, sonar)) * multiset(Map(key, ours)) == multiset(Map(key, ours)) * multiset(Map(key, sonar));
  }
}
