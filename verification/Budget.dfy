/** How far the shared work budget reaches (tools/oracle/parity.py:1173 and 1255-1419). */
module Budget {
  import opened Orders
  import opened Evidence
  import opened Uniform
  import opened Assigning
  import opened Reconciling
  import opened Grouping
  import opened Verdict

  /** The most one group can cost: only groups with equally many rows and differing masks reach the
      bounded matcher. */
  function GroupCost(sonar: seq<Finding>, ours: seq<Finding>): nat {
    if sonar == [] || ours == [] || UniformRows(sonar, ours).Some? || |sonar| != |ours| then 0
    else GroupBound(|sonar|, |ours|)
  }

  function CostOf(id: Identity, sonar: seq<Finding>, ours: seq<Finding>, repr: Rendering): nat {
    GroupCost(GroupRows(sonar, id, repr), GroupRows(ours, id, repr))
  }

  function TotalCost(ids: seq<Identity>, sonar: seq<Finding>, ours: seq<Finding>, repr: Rendering): nat {
    if ids == [] then 0 else CostOf(ids[0], sonar, ours, repr) + TotalCost(ids[1..], sonar, ours, repr)
  }

  lemma GroupStepWork(sonar: seq<Finding>, ours: seq<Finding>, t: Tally)
    requires t.work >= 0 && !t.exhausted
    ensures var r := GroupStep(sonar, ours, t);
            SpendsAtMost(GroupCost(sonar, ours), t.work, r.work, r.exhausted) || (r.work == t.work && !r.exhausted)
  {
    hide MatchVariable, UniformRows, GroupBound;
    if sonar != [] && ours != [] && UniformRows(sonar, ours).None? && |sonar| == |ours| {
      VariableWork(sonar, ours, t.work);
    }
  }

  lemma {:induction false} MatchGroupsWork(ids: seq<Identity>, sonar: seq<Finding>, ours: seq<Finding>, repr: Rendering, t: Tally)
    requires t.work >= 0 && !t.exhausted
    ensures var r := MatchGroups(ids, sonar, ours, repr, t);
            && 0 <= r.work <= t.work
            && t.work - r.work <= TotalCost(ids, sonar, ours, repr)
            && (r.exhausted ==> t.work < TotalCost(ids, sonar, ours, repr))
    decreases |ids|
  {
    hide GroupStep, GroupRows, GroupCost;
    if ids != [] {
      var s, o := GroupRows(sonar, ids[0], repr), GroupRows(ours, ids[0], repr);
      GroupStepWork(s, o, t);
      WorkNeverGrows(s, o, t);
      var t' := GroupStep(s, o, t);
      if t'.exhausted {
        assert MatchGroups(ids, sonar, ours, repr, t) == t';
      } else {
        MatchGroupsWork(ids[1..], sonar, ours, repr, t');
      }
    }
  }

  lemma WorkNeverGrows(sonar: seq<Finding>, ours: seq<Finding>, t: Tally)
    requires t.work >= 0 && !t.exhausted
    ensures GroupStep(sonar, ours, t).work <= t.work
  {
    hide MatchVariable, UniformRows;
    if sonar != [] && ours != [] && UniformRows(sonar, ours).None? && |sonar| == |ours| {
      VariableNeverGains(sonar, ours, t.work);
    }
  }

  /** The remaining work stays between zero and the budget, the whole run costs at most the sum of
      its groups' costs, and a run whose sum fits the budget never exhausts it. */
  lemma WorkIsBounded(sonar: seq<Finding>, ours: seq<Finding>, repr: Rendering)
    ensures var t, cost := MatchDetectorRows(sonar, ours, repr), TotalCost(GroupOrder(sonar, ours, repr), sonar, ours, repr);
            && 0 <= t.work <= WORK_BUDGET
            && WORK_BUDGET - t.work <= cost
            && (cost <= WORK_BUDGET ==> !t.exhausted)
  {
    hide MatchGroups, GroupOrder;
    MatchGroupsWork(GroupOrder(sonar, ours, repr), sonar, ours, repr, EmptyTally());
  }

  lemma ProductGrows(a: nat, b: nat, c: nat, d: nat)
    requires a <= c && b <= d
    ensures a * b <= c * d
  {
    assert a * b <= c * b <= c * d;
  }

  /** Up to 57 rows a side, one group fits the budget. */
  lemma SmallGroupFits(n: nat)
    requires n <= 57
    ensures GroupBound(n, n) <= 97_470 <= WORK_BUDGET
  {
    hide GroupBound;
    GroupBoundClosed(n, n);
    ProductGrows(n, n, 57, 57);
    ProductGrows(n, n + 1, 57, 58);
    ProductGrows(n, n * (n + 1), 57, 57 * 58);
  }

  lemma {:induction false} OneCost(ids: seq<Identity>, id: Identity, sonar: seq<Finding>, ours: seq<Finding>, repr: Rendering)
    requires forall i, j :: 0 <= i < j < |ids| ==> ids[i] != ids[j]
    requires forall x :: x != id ==> CostOf(x, sonar, ours, repr) == 0
    ensures TotalCost(ids, sonar, ours, repr) <= if id in ids then CostOf(id, sonar, ours, repr) else 0
  {
    hide CostOf;
    if ids != [] {
      OneCost(ids[1..], id, sonar, ours, repr);
      assert ids[0] !in ids[1..];
    }
  }

  /** When only one identity has a group that needs the bounded matcher, and that group has at most
      57 rows a side, the comparison never exhausts its budget. */
  lemma OneAmbiguousGroupFits(sonar: seq<Finding>, ours: seq<Finding>, repr: Rendering, id: Identity)
    requires forall x :: x != id ==> CostOf(x, sonar, ours, repr) == 0
    requires |GroupRows(sonar, id, repr)| <= 57
    ensures !CompareEvidence(sonar, ours, repr).exhausted
  {
    hide MatchDetectorRows, GroupOrder, GroupRows, UniformRows, GroupBound;
    var ids := GroupOrder(sonar, ours, repr);
    GroupOrderLists(sonar, ours, repr);
    OneCost(ids, id, sonar, ours, repr);
    SmallGroupFits(|GroupRows(sonar, id, repr)|);
    WorkIsBounded(sonar, ours, repr);
  }
}
