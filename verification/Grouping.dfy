/** Matching one group of findings with different masks (tools/oracle/parity.py:1261-1276 and
    1347-1375). */
module Grouping {
  import opened Orders
  import opened Evidence
  import opened Matching
  import opened Searching
  import opened Assigning
  import opened Counters
  import opened Uniform
  import opened Reconciling

  // ------------------------------------------------------ compatibility graph

  /** The positions below `n` of findings compatible with `f`, ascending. */
  function CompatibleRow(f: Finding, ours: seq<Finding>, n: nat): (row: seq<nat>)
    requires n <= |ours|
    ensures |row| <= n
    ensures forall o: nat :: o in row <==> o < n && Compatible(f, ours[o])
  {
    if n == 0 then []
    else CompatibleRow(f, ours, n - 1) + if Compatible(f, ours[n - 1]) then [n - 1] else []
  }

  function GraphOf(sonar: seq<Finding>, ours: seq<Finding>): (g: Graph)
    ensures CompatibilityGraph(g, sonar, ours)
    ensures forall s :: 0 <= s < |g| ==> |g[s]| <= |ours|
  {
    var g := seq(|sonar|, s requires 0 <= s < |sonar| => CompatibleRow(sonar[s], ours, |ours|));
    assert forall s, k :: 0 <= s < |g| && 0 <= k < |g[s]| ==> g[s][k] in g[s];
    g
  }

  /** What a budget can pay for. */
  function Payable(budget: int): nat {
    if budget < 0 then 0 else budget
  }

  /** What is left of a budget that ran out. */
  function Drained(budget: int): int {
    if budget < 0 then budget else 0
  }

  /** One unit of work for each pair; a partial graph when the budget runs out. */
  method BuildGraph(sonar: seq<Finding>, ours: seq<Finding>, budget: int)
    returns (compatible: Graph, remainingWork: int, exhausted: bool)
    ensures exhausted <==> |sonar| * |ours| > Payable(budget)
    ensures !exhausted ==> compatible == GraphOf(sonar, ours) && remainingWork == budget - |sonar| * |ours|
    ensures exhausted ==> |compatible| < |sonar| && compatible == GraphOf(sonar, ours)[..|compatible|]
    ensures exhausted ==> remainingWork == Drained(budget)
  {
    ghost var g, m := GraphOf(sonar, ours), |ours|;
    ghost var paid := 0;
    compatible, remainingWork, exhausted := [], budget, false;
    for s := 0 to |sonar|
      invariant compatible == g[..s]
      invariant paid == s * m && remainingWork == budget - paid && paid <= Payable(budget)
      invariant !exhausted
    {
      var row;
      row, remainingWork, exhausted := BuildRow(sonar[s], ours, remainingWork);
      RowsPaid(s, m, |sonar|);
      if exhausted {
        return;
      }
      compatible := compatible + [row];
      paid := paid + m;
      assert g[..s + 1] == g[..s] + [g[s]];
    }
    assert g[..|sonar|] == g;
  }

  method BuildRow(f: Finding, ours: seq<Finding>, budget: int)
    returns (row: seq<nat>, remainingWork: int, exhausted: bool)
    ensures exhausted <==> |ours| > Payable(budget)
    ensures !exhausted ==> row == CompatibleRow(f, ours, |ours|) && remainingWork == budget - |ours|
    ensures exhausted ==> remainingWork == Drained(budget)
  {
    row, remainingWork, exhausted := [], budget, false;
    for o := 0 to |ours|
      invariant row == CompatibleRow(f, ours, o)
      invariant remainingWork == budget - o && o <= Payable(budget)
      invariant !exhausted
    {
      var spent := SpendWork(remainingWork);
      remainingWork := spent.0;
      if !spent.1 {
        exhausted := true;
        return;
      }
      if Compatible(f, ours[o]) {
        row := row + [o];
      }
    }
  }

  lemma RowsPaid(s: nat, m: nat, n: nat)
    requires s < n
    ensures (s + 1) * m == s * m + m <= n * m
  {
    Widen(m, s + 1, n);
  }

  // ---------------------------------------------------------- unmatched rows

  function Unowned(rows: seq<Finding>, owners: Owners): seq<Finding>
    requires |rows| == |owners|
  {
    if rows == [] then []
    else
      var n := |rows| - 1;
      Unowned(rows[..n], owners[..n]) + if owners[n].None? then [rows[n]] else []
  }

  lemma {:induction false} UnownedCount(rows: seq<Finding>, owners: Owners)
    requires |rows| == |owners|
    ensures |Unowned(rows, owners)| == |rows| - |Matched(owners)|
  {
    if rows != [] {
      var n := |rows| - 1;
      UnownedCount(rows[..n], owners[..n]);
      if owners[n].Some? {
        assert Matched(owners) == Matched(owners[..n]) + {n};
      } else {
        assert Matched(owners) == Matched(owners[..n]);
      }
    }
  }

  datatype GroupResult = GroupResult(missing: seq<Finding>, extra: seq<Finding>, work: int, exhausted: bool)

  function MatchVariable(sonar: seq<Finding>, ours: seq<Finding>, work: int): GroupResult {
    var pairs := |sonar| * |ours|;
    if pairs > Payable(work) then GroupResult([], [], Drained(work), true)
    else MatchGraph(sonar, ours, GraphOf(sonar, ours), work - pairs)
  }

  function MatchGraph(sonar: seq<Finding>, ours: seq<Finding>, g: Graph, work: int): GroupResult
    requires |g| == |sonar| && GraphOver(g, |ours|)
  {
    var a := AssignCompatibleRows(g, |ours|, work);
    if a.exhausted then GroupResult([], [], a.work, true)
    else GroupResult(Unowned(sonar, a.sonarOwner), Unowned(ours, a.oursOwner), a.work, false)
  }

  method MatchVariableMaskRows(sonar: seq<Finding>, ours: seq<Finding>, budget: int)
    returns (missing: seq<Finding>, extra: seq<Finding>, remainingWork: int, exhausted: bool)
    ensures GroupResult(missing, extra, remainingWork, exhausted) == MatchVariable(sonar, ours, budget)
  {
    hide GraphOf, AssignCompatibleRows, Unowned, CompatibilityGraph;
    GraphFits(sonar, ours);
    var compatible;
    compatible, remainingWork, exhausted := BuildGraph(sonar, ours, budget);
    if exhausted {
      return [], [], remainingWork, true;
    }
    var sonarOwner, oursOwner;
    sonarOwner, oursOwner, remainingWork, exhausted := AssignRows(compatible, |ours|, remainingWork);
    if exhausted {
      return [], [], remainingWork, true;
    }
    missing := FreeRows(sonar, sonarOwner);
    extra := FreeRows(ours, oursOwner);
  }

  method FreeRows(rows: seq<Finding>, owners: array<Option<nat>>) returns (free: seq<Finding>)
    requires owners.Length == |rows|
    ensures free == Unowned(rows, owners[..])
  {
    free := [];
    for i := 0 to |rows|
      invariant free == Unowned(rows[..i], owners[..i])
    {
      if owners[i] == None {
        free := free + [rows[i]];
      }
      assert rows[..i + 1][..i] == rows[..i] && owners[..i + 1][..i] == owners[..i];
    }
    assert rows[..|rows|] == rows && owners[..|rows|] == owners[..];
  }

  // ------------------------------------------------------------ what it decides

  /** The pairs of an assignment that stayed within budget. */
  lemma AssignedIsMaximum(g: Graph, m: nat, work: int)
    requires GraphOver(g, m) && !AssignCompatibleRows(g, m, work).exhausted
    ensures var r := AssignCompatibleRows(g, m, work);
            && IsMaximum(g, PairsOf(r.sonarOwner))
            && |Matched(r.sonarOwner)| == |Matched(r.oursOwner)| == |PairsOf(r.sonarOwner)|
  {
    MaximumMatching(g, m, work);
  }

  lemma GraphUnmatched(sonar: seq<Finding>, ours: seq<Finding>, g: Graph, work: int) returns (pairs: set<(nat, nat)>)
    requires |g| == |sonar| && GraphOver(g, |ours|)
    ensures var r := MatchGraph(sonar, ours, g, work);
            !r.exhausted ==>
              && IsMaximum(g, pairs)
              && |r.missing| == |sonar| - |pairs| && |r.extra| == |ours| - |pairs|
  {
    var a := AssignCompatibleRows(g, |ours|, work);
    pairs := PairsOf(a.sonarOwner);
    if !a.exhausted {
      AssignedIsMaximum(g, |ours|, work);
      UnownedCount(sonar, a.sonarOwner);
      UnownedCount(ours, a.oursOwner);
    }
  }

  lemma GraphFits(sonar: seq<Finding>, ours: seq<Finding>)
    ensures |GraphOf(sonar, ours)| == |sonar| && GraphOver(GraphOf(sonar, ours), |ours|)
  {
  }

  /** Within budget the group keeps as few rows unmatched as any matching can. */
  lemma UnmatchedAreFewest(sonar: seq<Finding>, ours: seq<Finding>, work: int)
    returns (pairs: set<(nat, nat)>)
    ensures var r := MatchVariable(sonar, ours, work);
            !r.exhausted ==>
              && IsMaximum(GraphOf(sonar, ours), pairs)
              && |r.missing| == |sonar| - |pairs| && |r.extra| == |ours| - |pairs|
  {
    hide MatchGraph, GraphOf, IsMaximum, CompatibilityGraph;
    GraphFits(sonar, ours);
    pairs := GraphUnmatched(sonar, ours, GraphOf(sonar, ours), work - |sonar| * |ours|);
  }

  /** A one-to-one pairing of the rows is a matching that covers both sides. */
  lemma PermutationMatches(sonar: seq<Finding>, ours: seq<Finding>, g: Graph, p: seq<nat>)
    requires CompatibilityGraph(g, sonar, ours) && Reconciles(Compatible, sonar, ours, p)
    ensures var pairs := PermutationPairs(p, |p|);
            IsMatching(g, pairs) && |pairs| == |sonar|
  {
    PermutationPairsSize(p, |p|);
    var pairs := PermutationPairs(p, |p|);
    forall x | x in pairs ensures Edge(g, x.0, x.1) {
      assert Compatible(sonar[x.0], ours[p[x.0]]);
    }
  }

  ghost function PermutationPairs(p: seq<nat>, n: nat): (pairs: set<(nat, nat)>)
    requires n <= |p|
    ensures forall x :: x in pairs <==> x.0 < n && x.1 == p[x.0]
  {
    if n == 0 then {} else PermutationPairs(p, n - 1) + {(n - 1, p[n - 1])}
  }

  lemma {:induction false} PermutationPairsSize(p: seq<nat>, n: nat)
    requires n <= |p|
    ensures |PermutationPairs(p, n)| == n
  {
    if n > 0 {
      PermutationPairsSize(p, n - 1);
    }
  }

  /** A matching that leaves no row over is a one-to-one pairing. */
  lemma FullMatchingReconciles(sonar: seq<Finding>, ours: seq<Finding>, so: Owners, oo: Owners)
    requires |sonar| == |ours| == |oo| && OwnersMatch(GraphOf(sonar, ours), so, oo)
    requires forall s :: 0 <= s < |so| ==> so[s].Some?
    ensures Reconcilable(Compatible, sonar, ours)
  {
    var p := seq(|so|, s requires 0 <= s < |so| => so[s].value);
    forall i, j | 0 <= i < j < |p| ensures p[i] != p[j] {
      assert oo[p[i]] == Some(i) && oo[p[j]] == Some(j);
    }
    forall i | 0 <= i < |sonar| ensures Compatible(sonar[i], ours[p[i]]) {
      assert Edge(GraphOf(sonar, ours), i, p[i]);
    }
    assert Reconciles(Compatible, sonar, ours, p);
  }

  /** Within budget, a group with equally many rows has none unmatched exactly when its rows can
      be paired one to one. */
  lemma VariableDecides(sonar: seq<Finding>, ours: seq<Finding>, work: int)
    requires |sonar| == |ours| && !MatchVariable(sonar, ours, work).exhausted
    ensures var r := MatchVariable(sonar, ours, work);
            && (Reconcilable(Compatible, sonar, ours) <==> r.missing == [])
            && (r.missing == [] <==> r.extra == [])
  {
    hide GraphOf, MatchVariable, MatchGraph, Reconciles, AssignCompatibleRows, IsMatching, OwnersMatch, Compatible;
    var r, g := MatchVariable(sonar, ours, work), GraphOf(sonar, ours);
    var pairs := UnmatchedAreFewest(sonar, ours, work);
    if Reconcilable(Compatible, sonar, ours) {
      var p :| Reconciles(Compatible, sonar, ours, p);
      PermutationMatches(sonar, ours, g, p);
      assert IsMatching(g, PermutationPairs(p, |p|));
    }
    if r.missing == [] {
      NoneMissing(sonar, ours, work);
    }
  }

  lemma NoneMissing(sonar: seq<Finding>, ours: seq<Finding>, work: int)
    requires |sonar| == |ours| && !MatchVariable(sonar, ours, work).exhausted && MatchVariable(sonar, ours, work).missing == []
    ensures Reconcilable(Compatible, sonar, ours)
  {
    hide GraphOf, AssignCompatibleRows, Unowned, CompatibilityGraph, Compatible, Reconcilable;
    GraphFits(sonar, ours);
    var a := AssignCompatibleRows(GraphOf(sonar, ours), |ours|, work - |sonar| * |ours|);
    UnownedCount(sonar, a.sonarOwner);
    FreeCount(a.sonarOwner);
    FullMatchingReconciles(sonar, ours, a.sonarOwner, a.oursOwner);
  }

  /** When equality of keys is compatibility, rows can be paired exactly when the keys agree. */
  lemma KeysDecide<K(!new)>(sonar: seq<Finding>, ours: seq<Finding>, key: Finding -> K)
    requires forall s, o :: 0 <= s < |sonar| && 0 <= o < |ours| ==> (Compatible(sonar[s], ours[o]) <==> key(sonar[s]) == key(ours[o]))
    ensures Reconcilable(Compatible, sonar, ours) <==> multiset(Map(key, sonar)) == multiset(Map(key, ours))
  {
    var ks, ts := Map(key, sonar), Map(key, ours);
    if Reconcilable(Compatible, sonar, ours) {
      var p :| Reconciles(Compatible, sonar, ours, p);
      assert Reindex(ts, p) == ks;
      PermutationKeepsElements(ts, p);
    }
    if multiset(ks) == multiset(ts) {
      var p := PermutationBetween(ks, ts);
      forall i | 0 <= i < |sonar| ensures Compatible(sonar[i], ours[p[i]]) {
        assert Reindex(ts, p)[i] == ts[p[i]];
      }
      assert Reconciles(Compatible, sonar, ours, p);
    }
  }

  /** A group whose masks are uniform has nothing left over exactly when its rows can be paired one
      to one. */
  lemma UniformDecides(sonar: seq<Finding>, ours: seq<Finding>)
    requires sonar != [] && ours != [] && UniformRows(sonar, ours).Some?
    ensures Reconcilable(Compatible, sonar, ours) <==> UniformRows(sonar, ours) == Some(([], []))
  {
    var key := Projecting(CommonMask(MaskOf(sonar[0]), MaskOf(ours[0])));
    forall s, o | 0 <= s < |sonar| && 0 <= o < |ours|
      ensures Compatible(sonar[s], ours[o]) <==> key(sonar[s]) == key(ours[o])
    {
      CompatibleIsProjectedEquality(sonar[s], ours[o]);
    }
    KeysDecide(sonar, ours, key);
    SurplusEmptyBoth(sonar, ours, key);
  }

  lemma SurplusEmptyBoth<K(!new)>(left: seq<Finding>, right: seq<Finding>, key: Finding -> K)
    ensures Surplus(left, right, key) == [] && Surplus(right, left, key) == []
            <==> multiset(Map(key, left)) == multiset(Map(key, right))
  {
    SurplusEmpty(left, right, key);
    SurplusEmpty(right, left, key);
  }

  /** On a uniform group the fast path reports as many rows on each side as the bounded matcher
      would, had it been run within budget. */
  lemma FastPathAgrees(sonar: seq<Finding>, ours: seq<Finding>, work: int)
    requires sonar != [] && ours != [] && UniformRows(sonar, ours).Some?
    requires !MatchVariable(sonar, ours, work).exhausted
    ensures var r, fast := MatchVariable(sonar, ours, work), UniformRows(sonar, ours).value;
            |fast.0| == |r.missing| && |fast.1| == |r.extra|
  {
    hide MatchVariable, UniformRows;
    var pairs := UnmatchedAreFewest(sonar, ours, work);
    UniformRefinesMatching(sonar, ours, GraphOf(sonar, ours), pairs);
  }

  // ------------------------------------------------------------- what it costs

  /** An upper bound for the work of one group: every pair once for the graph, then one search for
      each row of the first list. */
  function GroupBound(n: nat, m: nat): nat {
    n * m + SearchBound(m, 0, n)
  }

  lemma GroupBoundClosed(n: nat, m: nat)
    ensures 2 * GroupBound(n, m) == 2 * (n * m) + m * (n * (n + 1))
  {
    SearchBoundClosed(m, n);
  }

  lemma GraphWork(sonar: seq<Finding>, ours: seq<Finding>, g: Graph, work: nat)
    requires |g| == |sonar| && GraphOver(g, |ours|) && forall s :: 0 <= s < |g| ==> |g[s]| <= |ours|
    ensures var r := MatchGraph(sonar, ours, g, work);
            SpendsAtMost(SearchBound(|ours|, 0, |g|), work, r.work, r.exhausted)
  {
    assert Ready(g, 0, NoOwners(|g|), NoOwners(|ours|));
    AssignWork(g, 0, NoOwners(|g|), NoOwners(|ours|), work, |ours|);
  }

  lemma VariableWork(sonar: seq<Finding>, ours: seq<Finding>, work: nat)
    ensures var r := MatchVariable(sonar, ours, work);
            SpendsAtMost(GroupBound(|sonar|, |ours|), work, r.work, r.exhausted)
  {
    hide MatchGraph;
    SearchesAfterGraph(sonar, ours, GraphOf(sonar, ours), work, |sonar| * |ours|);
    BothPhases(work, |sonar| * |ours|, SearchBound(|ours|, 0, |sonar|), MatchVariable(sonar, ours, work));
  }

  lemma SearchesAfterGraph(sonar: seq<Finding>, ours: seq<Finding>, g: Graph, work: nat, pairs: nat)
    requires |g| == |sonar| && GraphOver(g, |ours|) && forall s :: 0 <= s < |g| ==> |g[s]| <= |ours|
    ensures pairs <= work ==>
              var r := MatchGraph(sonar, ours, g, work - pairs);
              SpendsAtMost(SearchBound(|ours|, 0, |sonar|), work - pairs, r.work, r.exhausted)
  {
    hide MatchGraph;
    if pairs <= work {
      GraphWork(sonar, ours, g, work - pairs);
    }
  }

  /** The graph's price first, then the searches'. */
  lemma BothPhases(work: nat, pairs: nat, searches: nat, r: GroupResult)
    requires pairs <= work ==> SpendsAtMost(searches, work - pairs, r.work, r.exhausted)
    requires pairs > work ==> r.work == 0 && r.exhausted
    ensures SpendsAtMost(pairs + searches, work, r.work, r.exhausted)
  {
  }

  lemma VariableNeverGains(sonar: seq<Finding>, ours: seq<Finding>, work: nat)
    ensures MatchVariable(sonar, ours, work).work <= work
  {
    hide MatchGraph;
    if |sonar| * |ours| <= work {
      GraphNeverGains(sonar, ours, GraphOf(sonar, ours), work - |sonar| * |ours|);
    }
  }

  lemma GraphNeverGains(sonar: seq<Finding>, ours: seq<Finding>, g: Graph, work: nat)
    requires |g| == |sonar| && GraphOver(g, |ours|)
    ensures MatchGraph(sonar, ours, g, work).work <= work
  {
    hide Assign;
    assert Ready(g, 0, NoOwners(|g|), NoOwners(|ours|));
    AssignNeverGains(g, 0, NoOwners(|g|), NoOwners(|ours|), work);
  }
}
