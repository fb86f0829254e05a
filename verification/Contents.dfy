/** What a comparison reports as missing and as extra (tools/oracle/parity.py:1197-1252, 1347-1419
    and 1463-1486). */
module Contents {
  import opened Orders
  import opened Evidence
  import opened Matching
  import opened Searching
  import opened Assigning
  import opened Counters
  import opened Uniform
  import opened Reconciling
  import opened Grouping
  import opened Verdict
  import opened Work

  /** The rows at the positions that are not taken, in order. */
  ghost function LeftOver(rows: seq<Finding>, taken: set<nat>): seq<Finding> {
    if rows == [] then []
    else
      var n := |rows| - 1;
      LeftOver(rows[..n], taken) + if n in taken then [] else [rows[n]]
  }

  ghost predicate OneMaskEach(sonar: seq<Finding>, ours: seq<Finding>) {
    && (forall f, g :: f in sonar && g in sonar ==> MaskOf(f) == MaskOf(g))
    && (forall f, g :: f in ours && g in ours ==> MaskOf(f) == MaskOf(g))
  }

  /** What one group reports. Rows of one side only are reported as they are. If each side knows the
      same facets in all its rows, either side reports, by projected key, what it has more of. Otherwise
      sides of different length report nothing, and sides of the same length what a maximum matching
      of compatible rows leaves over. */
  ghost predicate Reports(sonar: seq<Finding>, ours: seq<Finding>, missing: seq<Finding>, extra: seq<Finding>) {
    if sonar == [] || ours == [] then
      multiset(missing) == multiset(sonar) && multiset(extra) == multiset(ours)
    else if OneMaskEach(sonar, ours) then
      var key := Projecting(CommonMask(MaskOf(sonar[0]), MaskOf(ours[0])));
      && multiset(Map(key, missing)) == multiset(Map(key, sonar)) - multiset(Map(key, ours))
      && multiset(Map(key, extra)) == multiset(Map(key, ours)) - multiset(Map(key, sonar))
    else if |sonar| != |ours| then
      missing == [] && extra == []
    else
      exists pairs :: IsMaximum(GraphOf(sonar, ours), pairs)
        && missing == LeftOver(sonar, Lefts(pairs)) && extra == LeftOver(ours, Rights(pairs))
  }

  ghost predicate AllIn(rows: seq<Finding>, side: seq<Finding>) {
    forall f :: f in rows ==> f in side
  }

  // ---------------------------------------------------------------- one group

  lemma {:induction false} UnownedIsLeftOver(rows: seq<Finding>, owners: Owners, taken: set<nat>)
    requires |rows| == |owners| && forall i :: 0 <= i < |owners| ==> (i in taken <==> owners[i].Some?)
    ensures Unowned(rows, owners) == LeftOver(rows, taken)
  {
    if rows != [] {
      UnownedIsLeftOver(rows[..|rows| - 1], owners[..|rows| - 1], taken);
    }
  }

  lemma {:induction false} LeftOverIn(rows: seq<Finding>, taken: set<nat>)
    ensures AllIn(LeftOver(rows, taken), rows)
  {
    if rows != [] {
      LeftOverIn(rows[..|rows| - 1], taken);
      assert rows == rows[..|rows| - 1] + [rows[|rows| - 1]];
    }
  }

  lemma PairsEnds(g: Graph, so: Owners, oo: Owners)
    requires OwnersMatch(g, so, oo)
    ensures forall i :: 0 <= i < |so| ==> (i in Lefts(PairsOf(so)) <==> so[i].Some?)
    ensures forall i :: 0 <= i < |oo| ==> (i in Rights(PairsOf(so)) <==> oo[i].Some?)
  {
    var pairs := PairsOf(so);
    forall i | 0 <= i < |so| ensures i in Lefts(pairs) <==> so[i].Some? {
      if so[i].Some? {
        assert (i, so[i].value) in pairs;
        assert (i, so[i].value).0 in Lefts(pairs);
      }
    }
    forall i | 0 <= i < |oo| ensures i in Rights(pairs) <==> oo[i].Some? {
      if oo[i].Some? {
        assert (oo[i].value, i) in pairs;
        assert (oo[i].value, i).1 in Rights(pairs);
      }
      if i in Rights(pairs) {
        var p :| p in pairs && p.1 == i;
        assert so[p.0] == Some(i);
      }
    }
  }

  lemma GraphReports(sonar: seq<Finding>, ours: seq<Finding>, g: Graph, work: int) returns (pairs: set<(nat, nat)>)
    requires |g| == |sonar| && GraphOver(g, |ours|)
    ensures var r := MatchGraph(sonar, ours, g, work);
            if r.exhausted then r.missing == [] && r.extra == []
            else IsMaximum(g, pairs) && r.missing == LeftOver(sonar, Lefts(pairs)) && r.extra == LeftOver(ours, Rights(pairs))
  {
    hide IsMaximum, AssignCompatibleRows, OwnersMatch;
    var a := AssignCompatibleRows(g, |ours|, work);
    pairs := PairsOf(a.sonarOwner);
    if !a.exhausted {
      OwnersAreListed(g, |ours|, work);
      AssignedIsMaximum(g, |ours|, work);
      PairsEnds(g, a.sonarOwner, a.oursOwner);
      UnownedIsLeftOver(sonar, a.sonarOwner, Lefts(pairs));
      UnownedIsLeftOver(ours, a.oursOwner, Rights(pairs));
    }
  }

  lemma MasksByRow(rows: seq<Finding>)
    requires rows != []
    ensures SameMask(rows) <==> forall f, g :: f in rows && g in rows ==> MaskOf(f) == MaskOf(g)
  {
  }

  /** What one step adds to the tally: nothing when it exhausts the budget, otherwise what the group
      reports. */
  lemma StepReports(sonar: seq<Finding>, ours: seq<Finding>, t: Tally) returns (missing: seq<Finding>, extra: seq<Finding>)
    ensures var r := GroupStep(sonar, ours, t);
            && r.missing == t.missing + missing && r.extra == t.extra + extra
            && AllIn(missing, sonar) && AllIn(extra, ours)
            && (r.exhausted && !t.exhausted ==> missing == [] && extra == [])
            && (!r.exhausted ==> Reports(sonar, ours, missing, extra))
  {
    hide MatchVariable, Reports, GroupStep, AllIn;
    if sonar == [] || ours == [] {
      missing, extra := sonar, ours;
      OneSideReports(sonar, ours, t);
    } else if SameMask(sonar) && SameMask(ours) {
      var key := Projecting(CommonMask(MaskOf(sonar[0]), MaskOf(ours[0])));
      missing, extra := Surplus(sonar, ours, key), Surplus(ours, sonar, key);
      UniformReports(sonar, ours, t);
    } else if |sonar| != |ours| {
      missing, extra := [], [];
      UnequalReports(sonar, ours, t);
    } else {
      missing, extra := VariableReports(sonar, ours, t);
    }
  }

  lemma OneSideReports(sonar: seq<Finding>, ours: seq<Finding>, t: Tally)
    requires sonar == [] || ours == []
    ensures Reports(sonar, ours, sonar, ours) && AllIn(sonar, sonar) && AllIn(ours, ours)
    ensures var r := GroupStep(sonar, ours, t);
            r.missing == t.missing + sonar && r.extra == t.extra + ours && r.exhausted == t.exhausted
  {
  }

  lemma UniformReports(sonar: seq<Finding>, ours: seq<Finding>, t: Tally)
    requires sonar != [] && ours != [] && SameMask(sonar) && SameMask(ours)
    ensures var key := Projecting(CommonMask(MaskOf(sonar[0]), MaskOf(ours[0])));
            var missing, extra := Surplus(sonar, ours, key), Surplus(ours, sonar, key);
            var r := GroupStep(sonar, ours, t);
            && Reports(sonar, ours, missing, extra) && AllIn(missing, sonar) && AllIn(extra, ours)
            && r.missing == t.missing + missing && r.extra == t.extra + extra && r.exhausted == t.exhausted
  {
    hide Surplus, Project, CommonMask;
    var key := Projecting(CommonMask(MaskOf(sonar[0]), MaskOf(ours[0])));
    MasksByRow(sonar);
    MasksByRow(ours);
    SurplusKeys(sonar, ours, key);
    SurplusKeys(ours, sonar, key);
  }

  lemma UnequalReports(sonar: seq<Finding>, ours: seq<Finding>, t: Tally)
    requires sonar != [] && ours != [] && !(SameMask(sonar) && SameMask(ours)) && |sonar| != |ours|
    ensures Reports(sonar, ours, [], []) && AllIn([], sonar) && AllIn([], ours)
    ensures var r := GroupStep(sonar, ours, t); r.missing == t.missing && r.extra == t.extra && r.exhausted == t.exhausted
  {
    hide Surplus;
    MasksByRow(sonar);
    MasksByRow(ours);
  }

  lemma VariableReports(sonar: seq<Finding>, ours: seq<Finding>, t: Tally) returns (missing: seq<Finding>, extra: seq<Finding>)
    requires sonar != [] && ours != [] && !(SameMask(sonar) && SameMask(ours)) && |sonar| == |ours|
    ensures var r := GroupStep(sonar, ours, t);
            && r.missing == t.missing + missing && r.extra == t.extra + extra
            && AllIn(missing, sonar) && AllIn(extra, ours)
            && (r.exhausted && !t.exhausted ==> missing == [] && extra == [])
            && (!r.exhausted ==> Reports(sonar, ours, missing, extra))
  {
    hide MatchVariable, Reports, AllIn, IsMaximum, Surplus;
    var pairs := MatchReports(sonar, ours, t.work);
    var v := MatchVariable(sonar, ours, t.work);
    missing, extra := if v.exhausted then [] else v.missing, if v.exhausted then [] else v.extra;
    NothingIn(sonar);
    NothingIn(ours);
    if !v.exhausted {
      MatchingReports(sonar, ours, pairs);
    }
  }

  lemma NothingIn(side: seq<Finding>)
    ensures AllIn([], side)
  {
  }

  lemma MatchReports(sonar: seq<Finding>, ours: seq<Finding>, work: int) returns (pairs: set<(nat, nat)>)
    ensures var v := MatchVariable(sonar, ours, work);
            !v.exhausted ==>
              && IsMaximum(GraphOf(sonar, ours), pairs)
              && v.missing == LeftOver(sonar, Lefts(pairs)) && v.extra == LeftOver(ours, Rights(pairs))
  {
    hide MatchGraph, GraphOf, IsMaximum, CompatibilityGraph, LeftOver;
    GraphFits(sonar, ours);
    pairs := GraphReports(sonar, ours, GraphOf(sonar, ours), work - |sonar| * |ours|);
  }

  lemma MatchingReports(sonar: seq<Finding>, ours: seq<Finding>, pairs: set<(nat, nat)>)
    requires sonar != [] && ours != [] && !(SameMask(sonar) && SameMask(ours)) && |sonar| == |ours|
    requires IsMaximum(GraphOf(sonar, ours), pairs)
    ensures var missing, extra := LeftOver(sonar, Lefts(pairs)), LeftOver(ours, Rights(pairs));
            Reports(sonar, ours, missing, extra) && AllIn(missing, sonar) && AllIn(extra, ours)
  {
    hide GraphOf, IsMaximum, CompatibilityGraph, LeftOver, AllIn;
    MasksByRow(sonar);
    MasksByRow(ours);
    LeftOverIn(sonar, Lefts(pairs));
    LeftOverIn(ours, Rights(pairs));
  }

  // ----------------------------------------------------------- the whole report

  ghost predicate OfIdentity(rows: seq<Finding>, id: Identity) {
    forall f :: f in rows ==> IdentityOf(f) == id
  }

  lemma {:induction false} SelectConcat(a: seq<Finding>, b: seq<Finding>, id: Identity)
    ensures Select(a + b, IdentityOf, id) == Select(a, IdentityOf, id) + Select(b, IdentityOf, id)
    decreases |a|
  {
    if a == [] {
      assert a + b == b;
    } else {
      assert (a + b)[0] == a[0] && (a + b)[1..] == a[1..] + b;
      SelectConcat(a[1..], b, id);
    }
  }

  lemma {:induction false} SelectOfIdentity(rows: seq<Finding>, own: Identity, id: Identity)
    requires OfIdentity(rows, own)
    ensures Select(rows, IdentityOf, id) == if id == own then rows else []
  {
    if rows != [] {
      assert rows == [rows[0]] + rows[1..];
      SelectOfIdentity(rows[1..], own, id);
    }
  }

  lemma GroupRowsAre(findings: seq<Finding>, id: Identity, repr: Rendering)
    ensures OfIdentity(GroupRows(findings, id, repr), id) && AllIn(GroupRows(findings, id, repr), findings)
  {
    hide GroupRows;
    GroupRowsElements(findings, id, repr);
    SameElements(GroupRows(findings, id, repr), Select(findings, IdentityOf, id));
    SelectRows(findings, IdentityOf, id);
  }

  /** What a list of groups adds to a tally that has nothing of them yet. */
  ghost predicate GroupsReport(ids: seq<Identity>, sonar: seq<Finding>, ours: seq<Finding>, repr: Rendering, t: Tally, r: Tally) {
    forall id ::
      if id in ids then
        Select(t.missing, IdentityOf, id) == [] && Select(t.extra, IdentityOf, id) == [] && !r.exhausted ==>
          Reports(GroupRows(sonar, id, repr), GroupRows(ours, id, repr), Select(r.missing, IdentityOf, id), Select(r.extra, IdentityOf, id))
      else
        Select(r.missing, IdentityOf, id) == Select(t.missing, IdentityOf, id) && Select(r.extra, IdentityOf, id) == Select(t.extra, IdentityOf, id)
  }

  ghost predicate FromSides(t: Tally, sonar: seq<Finding>, ours: seq<Finding>) {
    AllIn(t.missing, sonar) && AllIn(t.extra, ours)
  }

  /** One group's step, seen by identity. */
  lemma StepByIdentity(own: Identity, sonar: seq<Finding>, ours: seq<Finding>, repr: Rendering, t: Tally)
    requires FromSides(t, sonar, ours)
    ensures var r := GroupStep(GroupRows(sonar, own, repr), GroupRows(ours, own, repr), t);
            && FromSides(r, sonar, ours)
            && (forall id :: id != own ==>
                  Select(r.missing, IdentityOf, id) == Select(t.missing, IdentityOf, id) && Select(r.extra, IdentityOf, id) == Select(t.extra, IdentityOf, id))
            && (Select(t.missing, IdentityOf, own) == [] && Select(t.extra, IdentityOf, own) == [] && !r.exhausted ==>
                  Reports(GroupRows(sonar, own, repr), GroupRows(ours, own, repr), Select(r.missing, IdentityOf, own), Select(r.extra, IdentityOf, own)))
  {
    hide GroupStep, GroupRows, Reports, Select, AllIn, OfIdentity;
    var s, o := GroupRows(sonar, own, repr), GroupRows(ours, own, repr);
    GroupRowsAre(sonar, own, repr);
    GroupRowsAre(ours, own, repr);
    var missing, extra := StepReports(s, o, t);
    AddedRows(t.missing, missing, s, sonar, own);
    AddedRows(t.extra, extra, o, ours, own);
  }

  lemma AddedRows(before: seq<Finding>, added: seq<Finding>, rows: seq<Finding>, side: seq<Finding>, own: Identity)
    requires AllIn(before, side) && AllIn(added, rows) && AllIn(rows, side) && OfIdentity(rows, own)
    ensures AllIn(before + added, side)
    ensures forall id :: id != own ==> Select(before + added, IdentityOf, id) == Select(before, IdentityOf, id)
    ensures Select(before, IdentityOf, own) == [] ==> Select(before + added, IdentityOf, own) == added
  {
    hide Select;
    forall id | id != own ensures Select(before + added, IdentityOf, id) == Select(before, IdentityOf, id) {
      SelectConcat(before, added, id);
      SelectOfIdentity(added, own, id);
    }
    SelectConcat(before, added, own);
    SelectOfIdentity(added, own, own);
  }

  lemma {:induction false} GroupsReportAll(ids: seq<Identity>, sonar: seq<Finding>, ours: seq<Finding>, repr: Rendering, t: Tally)
    requires FromSides(t, sonar, ours) && forall i, j :: 0 <= i < j < |ids| ==> ids[i] != ids[j]
    ensures var r := MatchGroups(ids, sonar, ours, repr, t);
            FromSides(r, sonar, ours) && (!r.exhausted ==> GroupsReport(ids, sonar, ours, repr, t, r))
    decreases |ids|
  {
    hide GroupStep, GroupRows, Reports, Select, FromSides;
    if ids != [] && !t.exhausted {
      var own, rest := ids[0], ids[1..];
      StepByIdentity(own, sonar, ours, repr, t);
      var t' := GroupStep(GroupRows(sonar, own, repr), GroupRows(ours, own, repr), t);
      GroupsReportAll(rest, sonar, ours, repr, t');
      var r := MatchGroups(rest, sonar, ours, repr, t');
      if !r.exhausted {
        StaysExhausted(rest, sonar, ours, repr, t');
        assert own !in rest;
        assert forall id :: id in ids <==> id == own || id in rest;
      }
    }
  }

  lemma {:induction false} StaysExhausted(ids: seq<Identity>, sonar: seq<Finding>, ours: seq<Finding>, repr: Rendering, t: Tally)
    ensures t.exhausted ==> MatchGroups(ids, sonar, ours, repr, t).exhausted
  {
    hide GroupStep, GroupRows;
  }

  /** What a comparison holds. Behind its keys are rows of the right side each, whether the budget ran
      out or not; and if it did not, the rows reported of every identity are what its group reports. */
  lemma ReportHolds(sonar: seq<Finding>, ours: seq<Finding>, repr: Rendering) returns (missing: seq<Finding>, extra: seq<Finding>)
    ensures var c := CompareEvidence(sonar, ours, repr);
            && c.sonar == multiset(Keys(sonar)) && c.ours == multiset(Keys(ours))
            && c.missing == multiset(Keys(missing)) && c.extra == multiset(Keys(extra))
            && (c.sonarAvailable <==> forall f :: f in sonar ==> Available(f))
            && (c.oursAvailable <==> forall f :: f in ours ==> Available(f))
            && AllIn(missing, sonar) && AllIn(extra, ours)
            && (!c.exhausted ==>
                  forall id :: Reports(GroupRows(sonar, id, repr), GroupRows(ours, id, repr),
                                       Select(missing, IdentityOf, id), Select(extra, IdentityOf, id)))
  {
    hide MatchGroups, GroupOrder, GroupRows, Reports, KeyOfFinding, Available;
    var ids := GroupOrder(sonar, ours, repr);
    GroupOrderLists(sonar, ours, repr);
    var t := MatchDetectorRows(sonar, ours, repr);
    missing, extra := t.missing, t.extra;
    GroupsReportAll(ids, sonar, ours, repr, EmptyTally());
    if !t.exhausted {
      forall id ensures Reports(GroupRows(sonar, id, repr), GroupRows(ours, id, repr),
                                Select(missing, IdentityOf, id), Select(extra, IdentityOf, id)) {
        if id !in ids {
          NoSuchGroup(sonar, ours, ids, id, repr);
        }
      }
    }
  }

  lemma NoSuchGroup(sonar: seq<Finding>, ours: seq<Finding>, ids: seq<Identity>, id: Identity, repr: Rendering)
    requires id !in ids
    requires forall k :: 0 <= k < |sonar| ==> IdentityOf(sonar[k]) in ids
    requires forall k :: 0 <= k < |ours| ==> IdentityOf(ours[k]) in ids
    ensures Reports(GroupRows(sonar, id, repr), GroupRows(ours, id, repr), [], [])
  {
    hide GroupRows;
    GroupRowsAre(sonar, id, repr);
    GroupRowsAre(ours, id, repr);
    SomeRow(GroupRows(sonar, id, repr));
    SomeRow(GroupRows(ours, id, repr));
  }

  lemma SomeRow(rows: seq<Finding>)
    ensures rows == [] || exists f :: f in rows
  {
    if rows != [] {
      assert rows[0] in rows;
    }
  }

  // -------------------------------------------------------- which row is shown

  /** The last row of its key. */
  ghost predicate IsLast<K(!new)>(rows: seq<Finding>, key: Finding -> K, row: Finding) {
    exists i :: 0 <= i < |rows| && rows[i] == row && forall j :: i < j < |rows| ==> key(rows[j]) != key(row)
  }

  lemma {:induction false} LastWithIsLast<K(!new)>(rows: seq<Finding>, key: Finding -> K, k: K)
    requires k in Map(key, rows)
    ensures IsLast(rows, key, LastWith(rows, key, k))
  {
    var n := |rows| - 1;
    MapOfFront(rows, key);
    if key(rows[n]) != k {
      LastWithIsLast(rows[..n], key, k);
      LastOfFront(rows, key, LastWith(rows[..n], key, k));
    } else {
      assert rows[n] == LastWith(rows, key, k);
    }
  }

  lemma LastOfFront<K(!new)>(rows: seq<Finding>, key: Finding -> K, row: Finding)
    requires rows != [] && IsLast(rows[..|rows| - 1], key, row) && key(rows[|rows| - 1]) != key(row)
    ensures IsLast(rows, key, row)
  {
    var front := rows[..|rows| - 1];
    var i :| 0 <= i < |front| && front[i] == row && forall j :: i < j < |front| ==> key(front[j]) != key(row);
    forall j | i < j < |rows| ensures key(rows[j]) != key(row) {
      assert j < |front| ==> front[j] == rows[j];
    }
    assert rows[i] == row;
  }

  lemma {:induction false} SurplusOfShowsLast<K(!new)>(ks: seq<K>, n: nat, rows: seq<Finding>, surplus: multiset<K>, key: Finding -> K)
    requires n <= |ks| && forall i :: 0 <= i < |ks| ==> ks[i] in Map(key, rows)
    ensures forall r :: r in SurplusOf(ks, n, rows, surplus, key) ==> IsLast(rows, key, r)
    decreases n
  {
    hide LastWith, IsLast, Repeat, Map;
    if n > 0 {
      SurplusOfShowsLast(ks, n - 1, rows, surplus, key);
      LastWithIsLast(rows, key, ks[n - 1]);
      RepeatRows(LastWith(rows, key, ks[n - 1]), surplus[ks[n - 1]]);
    }
  }

  /** One row stands for all rows of its projected key: the last one of its side. */
  lemma SurplusShowsLast<K(!new)>(left: seq<Finding>, right: seq<Finding>, key: Finding -> K)
    ensures forall r :: r in Surplus(left, right, key) ==> IsLast(left, key, r)
  {
    hide IsLast, SurplusOf;
    var ks := Distinct(Map(key, left));
    SurplusOfShowsLast(ks, |ks|, left, multiset(Map(key, left)) - multiset(Map(key, right)), key);
  }

  /** The rows of a group are those of its identity, ascending by the text of their keys. */
  lemma GroupRowsAscend(findings: seq<Finding>, id: Identity, repr: Rendering)
    ensures var rows := GroupRows(findings, id, repr);
            && multiset(rows) == multiset(Select(findings, IdentityOf, id))
            && forall i, j :: 0 <= i < j < |rows| ==> TextLeq(repr.key(KeyOfFinding(rows[i])), repr.key(KeyOfFinding(rows[j])))
  {
    hide KeyOfFinding, Select;
    GroupRowsElements(findings, id, repr);
    ByTextIsTotalPreorder(RowText(repr));
    SortSorts(ByText(RowText(repr)), Select(findings, IdentityOf, id));
    var rows := GroupRows(findings, id, repr);
    forall i, j | 0 <= i < j < |rows| ensures TextLeq(repr.key(KeyOfFinding(rows[i])), repr.key(KeyOfFinding(rows[j]))) {
      assert ByText(RowText(repr))(rows[i], rows[j]);
    }
  }

  /** The groups are taken in ascending order of the texts of their identities. */
  lemma GroupOrderAscends(sonar: seq<Finding>, ours: seq<Finding>, repr: Rendering)
    ensures var ids := GroupOrder(sonar, ours, repr);
            forall i, j :: 0 <= i < j < |ids| ==> TextLeq(repr.identity(ids[i]), repr.identity(ids[j]))
  {
    hide Sort, Distinct, Map;
    ByTextIsTotalPreorder(repr.identity);
    SortSorts(ByText(repr.identity), Distinct(Map(IdentityOf, sonar + ours)));
    var ids := GroupOrder(sonar, ours, repr);
    forall i, j | 0 <= i < j < |ids| ensures TextLeq(repr.identity(ids[i]), repr.identity(ids[j])) {
      assert ByText(repr.identity)(ids[i], ids[j]);
    }
  }

  /** Their identities are those that occur. */
  lemma GroupOrderHolds(sonar: seq<Finding>, ours: seq<Finding>, repr: Rendering, id: Identity)
    ensures id in GroupOrder(sonar, ours, repr) <==> id in Map(IdentityOf, sonar + ours)
  {
    hide Sort;
    SortSameElements(ByText(repr.identity), Distinct(Map(IdentityOf, sonar + ours)));
  }

  // --------------------------------------------------------- where it stops

  lemma {:induction false} GroupsSplit(a: seq<Identity>, b: seq<Identity>, sonar: seq<Finding>, ours: seq<Finding>, repr: Rendering, t: Tally)
    ensures MatchGroups(a + b, sonar, ours, repr, t) == MatchGroups(b, sonar, ours, repr, MatchGroups(a, sonar, ours, repr, t))
    decreases |a|
  {
    hide GroupStep, GroupRows;
    if a == [] {
      assert a + b == b;
    } else if !t.exhausted {
      assert (a + b)[0] == a[0] && (a + b)[1..] == a[1..] + b;
      GroupsSplit(a[1..], b, sonar, ours, repr, GroupStep(GroupRows(sonar, a[0], repr), GroupRows(ours, a[0], repr), t));
    }
  }

  /** The group at which a run that is exhausted in the end runs out. */
  lemma {:induction false} StopsAt(ids: seq<Identity>, sonar: seq<Finding>, ours: seq<Finding>, repr: Rendering, t: Tally) returns (k: nat)
    requires !t.exhausted && MatchGroups(ids, sonar, ours, repr, t).exhausted
    ensures k < |ids|
    ensures var before := MatchGroups(ids[..k], sonar, ours, repr, t);
            && !before.exhausted
            && MatchGroups(ids, sonar, ours, repr, t) == GroupStep(GroupRows(sonar, ids[k], repr), GroupRows(ours, ids[k], repr), before)
    decreases |ids|
  {
    hide GroupStep, GroupRows;
    var n := |ids| - 1;
    var front := MatchGroups(ids[..n], sonar, ours, repr, t);
    assert ids == ids[..n] + [ids[n]];
    GroupsSplit(ids[..n], [ids[n]], sonar, ours, repr, t);
    if front.exhausted {
      k := StopsAt(ids[..n], sonar, ours, repr, t);
      assert ids[..n][..k] == ids[..k];
      assert MatchGroups([ids[n]], sonar, ours, repr, front) == front;
    } else {
      k := n;
      OneGroup(ids[n], sonar, ours, repr, front);
    }
  }

  lemma OneGroup(id: Identity, sonar: seq<Finding>, ours: seq<Finding>, repr: Rendering, t: Tally)
    requires !t.exhausted
    ensures MatchGroups([id], sonar, ours, repr, t) == GroupStep(GroupRows(sonar, id, repr), GroupRows(ours, id, repr), t)
  {
    hide GroupStep, GroupRows;
    assert [id][1..] == [];
  }

  /** A group that runs out adds nothing to the report. */
  lemma StopAddsNothing(sonar: seq<Finding>, ours: seq<Finding>, t: Tally)
    requires !t.exhausted && GroupStep(sonar, ours, t).exhausted
    ensures var r := GroupStep(sonar, ours, t); r.missing == t.missing && r.extra == t.extra && r.known == t.known
  {
    hide MatchVariable;
  }

  /** Sides of different length in one of these groups. */
  ghost predicate SomeUnequal(ids: seq<Identity>, sonar: seq<Finding>, ours: seq<Finding>, repr: Rendering) {
    exists id :: id in ids && GroupRows(sonar, id, repr) != [] && GroupRows(ours, id, repr) != []
      && |GroupRows(sonar, id, repr)| != |GroupRows(ours, id, repr)|
  }

  lemma {:induction false} KnownMeansUnequal(ids: seq<Identity>, sonar: seq<Finding>, ours: seq<Finding>, repr: Rendering, t: Tally)
    requires !MatchGroups(ids, sonar, ours, repr, t).exhausted && !t.exhausted
    ensures MatchGroups(ids, sonar, ours, repr, t).known <==> t.known || SomeUnequal(ids, sonar, ours, repr)
    decreases |ids|
  {
    hide GroupStep, GroupRows;
    if ids != [] {
      var s, o := GroupRows(sonar, ids[0], repr), GroupRows(ours, ids[0], repr);
      KnownStep(s, o, t);
      var t' := GroupStep(s, o, t);
      StaysExhausted(ids[1..], sonar, ours, repr, t');
      KnownMeansUnequal(ids[1..], sonar, ours, repr, t');
      assert ids == [ids[0]] + ids[1..];
    }
  }

  lemma KnownStep(sonar: seq<Finding>, ours: seq<Finding>, t: Tally)
    ensures GroupStep(sonar, ours, t).known <==> t.known || (sonar != [] && ours != [] && |sonar| != |ours|)
  {
    hide MatchVariable, UniformRows;
  }

  /** A comparison that runs out stops at the first group that the groups so far and its own cost together
      exceed 100,000 units with. Only the groups before it are in the report, and the verdict is theirs. */
  lemma ReportUpToStop(sonar: seq<Finding>, ours: seq<Finding>, repr: Rendering) returns (k: nat, missing: seq<Finding>, extra: seq<Finding>)
    requires CompareEvidence(sonar, ours, repr).exhausted
    ensures var c, ids := CompareEvidence(sonar, ours, repr), GroupOrder(sonar, ours, repr);
            && k < |ids|
            && TotalSpends(ids[..k], sonar, ours, repr) <= 100_000
            && TotalSpends(ids[..k], sonar, ours, repr) + GroupSpends(GroupRows(sonar, ids[k], repr), GroupRows(ours, ids[k], repr)) > 100_000
            && c.missing == multiset(Keys(missing)) && c.extra == multiset(Keys(extra))
            && (forall id ::
                  if id in ids[..k] then
                    Reports(GroupRows(sonar, id, repr), GroupRows(ours, id, repr), Select(missing, IdentityOf, id), Select(extra, IdentityOf, id))
                  else Select(missing, IdentityOf, id) == [] && Select(extra, IdentityOf, id) == [])
            && c.status == (if missing != [] || extra != [] || SomeUnequal(ids[..k], sonar, ours, repr) then BadMismatch else EvidenceUnavailable)
  {
    hide MatchGroups, GroupStep, GroupOrder, GroupRows, GroupSpends, TotalSpends, Reports, KeyOfFinding, Select, SomeUnequal, AllAvailable;
    var ids := GroupOrder(sonar, ours, repr);
    GroupOrderLists(sonar, ours, repr);
    k := StopsAt(ids, sonar, ours, repr, EmptyTally());
    var before := MatchGroups(ids[..k], sonar, ours, repr, EmptyTally());
    var s, o := GroupRows(sonar, ids[k], repr), GroupRows(ours, ids[k], repr);
    StopAddsNothing(s, o, before);
    GroupsPayExactly(ids[..k], sonar, ours, repr, EmptyTally());
    GroupPaysExactly(s, o, before);
    assert forall i, j :: 0 <= i < j < k ==> ids[..k][i] != ids[..k][j];
    NothingReported(sonar, ours);
    GroupsReportAll(ids[..k], sonar, ours, repr, EmptyTally());
    KnownMeansUnequal(ids[..k], sonar, ours, repr, EmptyTally());
    missing, extra := before.missing, before.extra;
  }

  lemma NothingReported(sonar: seq<Finding>, ours: seq<Finding>)
    ensures FromSides(EmptyTally(), sonar, ours)
    ensures forall id :: Select(EmptyTally().missing, IdentityOf, id) == [] && Select(EmptyTally().extra, IdentityOf, id) == []
  {
  }
}
