/** The whole comparison of two lists of findings (tools/oracle/parity.py:1215-1229, 1378-1419
    and 1463-1486). */
module Verdict {
  import opened Orders
  import opened Evidence
  import opened Counters
  import opened Uniform
  import opened Reconciling
  import opened Grouping

  const WORK_BUDGET := 100_000

  datatype Status = Pass | BadMismatch | EvidenceUnavailable

  /** The texts that identities and detector keys are sorted by. */
  datatype Rendering = Rendering(identity: Identity -> string, key: DetectorKey -> string)

  /** The texts tell the identities and the keys of these findings apart. */
  ghost predicate TellsApart(repr: Rendering, findings: seq<Finding>) {
    forall f, g :: f in findings && g in findings ==>
      && (repr.identity(IdentityOf(f)) == repr.identity(IdentityOf(g)) ==> IdentityOf(f) == IdentityOf(g))
      && (repr.key(KeyOfFinding(f)) == repr.key(KeyOfFinding(g)) ==> KeyOfFinding(f) == KeyOfFinding(g))
  }

  /** What the loop over the groups has found so far. */
  datatype Tally = Tally(missing: seq<Finding>, extra: seq<Finding>, work: int, exhausted: bool, known: bool)

  datatype Comparison = Comparison(
    status: Status,
    sonar: multiset<DetectorKey>, ours: multiset<DetectorKey>,
    missing: multiset<DetectorKey>, extra: multiset<DetectorKey>,
    sonarAvailable: bool, oursAvailable: bool, exhausted: bool)

  function Keys(findings: seq<Finding>): seq<DetectorKey> {
    Map(KeyOfFinding, findings)
  }

  function RowText(repr: Rendering): Finding -> string {
    (f: Finding) => repr.key(KeyOfFinding(f))
  }

  function GroupRows(findings: seq<Finding>, id: Identity, repr: Rendering): seq<Finding> {
    Sort(ByText(RowText(repr)), Select(findings, IdentityOf, id))
  }

  function GroupOrder(sonar: seq<Finding>, ours: seq<Finding>, repr: Rendering): seq<Identity> {
    Sort(ByText(repr.identity), Distinct(Map(IdentityOf, sonar + ours)))
  }

  /** One group. */
  function GroupStep(sonar: seq<Finding>, ours: seq<Finding>, t: Tally): Tally {
    if sonar == [] || ours == [] then t.(missing := t.missing + sonar, extra := t.extra + ours)
    else
      var t := t.(known := t.known || |sonar| != |ours|);
      var uniform := UniformRows(sonar, ours);
      if uniform.Some? then t.(missing := t.missing + uniform.value.0, extra := t.extra + uniform.value.1)
      else if |sonar| != |ours| then t
      else VariableStep(MatchVariable(sonar, ours, t.work), t)
  }

  function VariableStep(r: GroupResult, t: Tally): Tally {
    if r.exhausted then t.(work := r.work, exhausted := true)
    else t.(missing := t.missing + r.missing, extra := t.extra + r.extra, work := r.work)
  }

  /** The groups from the first on, until one exhausts the budget. */
  function MatchGroups(ids: seq<Identity>, sonar: seq<Finding>, ours: seq<Finding>, repr: Rendering, t: Tally): Tally
    decreases |ids|
  {
    if ids == [] || t.exhausted then t
    else MatchGroups(ids[1..], sonar, ours, repr,
                     GroupStep(GroupRows(sonar, ids[0], repr), GroupRows(ours, ids[0], repr), t))
  }

  function EmptyTally(): Tally {
    Tally([], [], WORK_BUDGET, false, false)
  }

  function MatchDetectorRows(sonar: seq<Finding>, ours: seq<Finding>, repr: Rendering): Tally {
    MatchGroups(GroupOrder(sonar, ours, repr), sonar, ours, repr, EmptyTally())
  }

  predicate AllAvailable(findings: seq<Finding>) {
    forall i :: 0 <= i < |findings| ==> Available(findings[i])
  }

  predicate Mismatch(t: Tally) {
    t.missing != [] || t.extra != [] || t.known
  }

  function Judge(t: Tally, sonar: seq<Finding>, ours: seq<Finding>): Comparison {
    var status :=
      if Mismatch(t) then BadMismatch
      else if t.exhausted || !AllAvailable(sonar) || !AllAvailable(ours) then EvidenceUnavailable
      else Pass;
    Comparison(status, multiset(Keys(sonar)), multiset(Keys(ours)), multiset(Keys(t.missing)), multiset(Keys(t.extra)),
               AllAvailable(sonar), AllAvailable(ours), t.exhausted)
  }

  function CompareEvidence(sonar: seq<Finding>, ours: seq<Finding>, repr: Rendering): Comparison {
    Judge(MatchDetectorRows(sonar, ours, repr), sonar, ours)
  }

  // ------------------------------------------------------------ the verdict

  lemma GroupRowsElements(findings: seq<Finding>, id: Identity, repr: Rendering)
    ensures multiset(GroupRows(findings, id, repr)) == multiset(Select(findings, IdentityOf, id))
  {
    SortKeepsElements(ByText(RowText(repr)), Select(findings, IdentityOf, id));
  }

  /** The order lists every identity that occurs, once. */
  lemma GroupOrderLists(sonar: seq<Finding>, ours: seq<Finding>, repr: Rendering)
    ensures var ids := GroupOrder(sonar, ours, repr);
            && (forall i, j :: 0 <= i < j < |ids| ==> ids[i] != ids[j])
            && (forall k :: 0 <= k < |sonar| ==> IdentityOf(sonar[k]) in ids)
            && (forall k :: 0 <= k < |ours| ==> IdentityOf(ours[k]) in ids)
  {
    var all := Map(IdentityOf, sonar + ours);
    var ids := GroupOrder(sonar, ours, repr);
    SortKeepsElements(ByText(repr.identity), Distinct(all));
    SortSameElements(ByText(repr.identity), Distinct(all));
    NoDuplicatesReordered(Distinct(all), ids);
    forall k | 0 <= k < |sonar| ensures IdentityOf(sonar[k]) in ids {
      assert all[k] == IdentityOf((sonar + ours)[k]);
    }
    forall k | 0 <= k < |ours| ensures IdentityOf(ours[k]) in ids {
      assert all[|sonar| + k] == IdentityOf((sonar + ours)[|sonar| + k]);
    }
  }

  /** A group adds a mismatch only if its rows cannot be paired one to one, and within budget it
      does so whenever they cannot. */
  lemma GroupStepVerdict(sonar: seq<Finding>, ours: seq<Finding>, t: Tally)
    requires !t.exhausted
    ensures var r := GroupStep(sonar, ours, t);
            && (Mismatch(t) ==> Mismatch(r))
            && (Reconcilable(Compatible, sonar, ours) && !Mismatch(t) ==> !Mismatch(r))
            && (!Reconcilable(Compatible, sonar, ours) && !r.exhausted ==> Mismatch(r))
  {
    hide MatchVariable, UniformRows, Compatible;
    if Reconcilable(Compatible, sonar, ours) {
      assert |sonar| == |ours|;
    }
    if sonar == [] && ours == [] {
      assert Reconciles(Compatible, sonar, ours, []);
    } else if sonar != [] && ours != [] {
      if UniformRows(sonar, ours).Some? {
        UniformDecides(sonar, ours);
      } else if |sonar| == |ours| && !MatchVariable(sonar, ours, t.work).exhausted {
        VariableDecides(sonar, ours, t.work);
      }
    }
  }

  ghost predicate GroupAgrees(sonar: seq<Finding>, ours: seq<Finding>, id: Identity, repr: Rendering) {
    Reconcilable(Compatible, GroupRows(sonar, id, repr), GroupRows(ours, id, repr))
  }

  lemma {:induction false} MatchGroupsVerdict(ids: seq<Identity>, sonar: seq<Finding>, ours: seq<Finding>, repr: Rendering, t: Tally)
    requires !t.exhausted
    ensures var r := MatchGroups(ids, sonar, ours, repr, t);
            && (Mismatch(t) ==> Mismatch(r))
            && ((forall k :: 0 <= k < |ids| ==> GroupAgrees(sonar, ours, ids[k], repr)) && !Mismatch(t) ==> !Mismatch(r))
            && (!r.exhausted && !(forall k :: 0 <= k < |ids| ==> GroupAgrees(sonar, ours, ids[k], repr)) ==> Mismatch(r))
    decreases |ids|
  {
    hide GroupStep;
    if ids != [] {
      GroupStepVerdict(GroupRows(sonar, ids[0], repr), GroupRows(ours, ids[0], repr), t);
      var t' := GroupStep(GroupRows(sonar, ids[0], repr), GroupRows(ours, ids[0], repr), t);
      if t'.exhausted {
        assert MatchGroups(ids, sonar, ours, repr, t) == t';
      } else {
        MatchGroupsVerdict(ids[1..], sonar, ours, repr, t');
      }
      if forall k :: 0 <= k < |ids| ==> GroupAgrees(sonar, ours, ids[k], repr) {
        assert GroupAgrees(sonar, ours, ids[0], repr);
      } else if GroupAgrees(sonar, ours, ids[0], repr) {
        var k :| 0 <= k < |ids| && !GroupAgrees(sonar, ours, ids[k], repr);
        assert ids[1..][k - 1] == ids[k];
      }
    }
  }

  lemma GroupAgreement(sonar: seq<Finding>, ours: seq<Finding>, id: Identity, repr: Rendering)
    ensures GroupAgrees(sonar, ours, id, repr)
            <==> Reconcilable(Compatible, Select(sonar, IdentityOf, id), Select(ours, IdentityOf, id))
  {
    hide Compatible;
    var s, o := Select(sonar, IdentityOf, id), Select(ours, IdentityOf, id);
    var s', o' := GroupRows(sonar, id, repr), GroupRows(ours, id, repr);
    GroupRowsElements(sonar, id, repr);
    GroupRowsElements(ours, id, repr);
    if Reconcilable(Compatible, s, o) {
      ReconcilableReordered(Compatible, s, o, s', o');
    }
    if Reconcilable(Compatible, s', o') {
      ReconcilableReordered(Compatible, s', o', s, o);
    }
  }

  lemma GroupsAgreeTogether(sonar: seq<Finding>, ours: seq<Finding>, repr: Rendering)
    ensures var ids := GroupOrder(sonar, ours, repr);
            Reconcilable(Compatible, sonar, ours)
            <==> forall k :: 0 <= k < |ids| ==> GroupAgrees(sonar, ours, ids[k], repr)
  {
    var ids := GroupOrder(sonar, ours, repr);
    GroupOrderLists(sonar, ours, repr);
    CompatibleRespectsIdentity();
    GroupsDecide(Compatible, sonar, ours, IdentityOf, ids);
    forall k | 0 <= k < |ids|
      ensures GroupAgrees(sonar, ours, ids[k], repr)
              <==> Reconcilable(Compatible, Select(sonar, IdentityOf, ids[k]), Select(ours, IdentityOf, ids[k]))
    {
      GroupAgreement(sonar, ours, ids[k], repr);
    }
  }

  lemma CompatibleRespectsIdentity()
    ensures Respects(Compatible, IdentityOf)
  {
  }

  /** The verdict is sound and, within budget, complete: lists that can be paired one to one along
      compatible findings are never called a mismatch, whatever the budget; lists that cannot are
      always called one unless the budget ran out. */
  lemma VerdictIsExact(sonar: seq<Finding>, ours: seq<Finding>, repr: Rendering)
    ensures var c := CompareEvidence(sonar, ours, repr);
            && (Reconcilable(Compatible, sonar, ours) ==> c.status != BadMismatch)
            && (!Reconcilable(Compatible, sonar, ours) && !c.exhausted ==> c.status == BadMismatch)
  {
    hide MatchGroups, GroupAgrees;
    GroupsAgreeTogether(sonar, ours, repr);
    MatchGroupsVerdict(GroupOrder(sonar, ours, repr), sonar, ours, repr, EmptyTally());
  }

  /** Forgetting evidence is safe: when findings on either side know less than before, a comparison
      that stayed within budget and found no mismatch does not turn into one. */
  lemma ForgettingIsSafe(sonar: seq<Finding>, ours: seq<Finding>, sonar': seq<Finding>, ours': seq<Finding>, repr: Rendering)
    requires |sonar'| == |sonar| && forall i :: 0 <= i < |sonar| ==> Forgets(sonar'[i], sonar[i])
    requires |ours'| == |ours| && forall i :: 0 <= i < |ours| ==> Forgets(ours'[i], ours[i])
    requires var c := CompareEvidence(sonar, ours, repr); !c.exhausted && c.status != BadMismatch
    ensures CompareEvidence(sonar', ours', repr).status != BadMismatch
  {
    hide CompareEvidence, Compatible, Forgets;
    VerdictIsExact(sonar, ours, repr);
    var p :| Reconciles(Compatible, sonar, ours, p);
    forall i | 0 <= i < |sonar'| ensures Compatible(sonar'[i], ours'[p[i]]) {
      ForgettingKeepsCompatible(sonar'[i], sonar[i], ours'[p[i]], ours[p[i]]);
    }
    assert Reconciles(Compatible, sonar', ours', p);
    VerdictIsExact(sonar', ours', repr);
  }

  // -------------------------------------------------------------------- pass

  lemma AvailableKeys(f: Finding, g: Finding)
    requires Available(f) && Available(g)
    ensures Compatible(f, g) <==> KeyOfFinding(f) == KeyOfFinding(g)
  {
    CompatibleIsProjectedEquality(f, g);
    FullProjection(f, g);
  }

  lemma AvailableSpendsNothing(sonar: seq<Finding>, ours: seq<Finding>, t: Tally)
    requires AllAvailable(sonar) && AllAvailable(ours)
    ensures var r := GroupStep(sonar, ours, t); r.work == t.work && r.exhausted == t.exhausted
  {
    hide MatchVariable;
    if sonar != [] && ours != [] {
      assert SameMask(sonar) && SameMask(ours);
    }
  }

  lemma {:induction false} AvailableRunSpendsNothing(ids: seq<Identity>, sonar: seq<Finding>, ours: seq<Finding>, repr: Rendering, t: Tally)
    requires AllAvailable(sonar) && AllAvailable(ours)
    ensures var r := MatchGroups(ids, sonar, ours, repr, t); r.work == t.work && r.exhausted == t.exhausted
    decreases |ids|
  {
    hide GroupStep;
    if ids != [] && !t.exhausted {
      GroupRowsAvailable(sonar, ids[0], repr);
      GroupRowsAvailable(ours, ids[0], repr);
      AvailableSpendsNothing(GroupRows(sonar, ids[0], repr), GroupRows(ours, ids[0], repr), t);
      AvailableRunSpendsNothing(ids[1..], sonar, ours, repr,
                                GroupStep(GroupRows(sonar, ids[0], repr), GroupRows(ours, ids[0], repr), t));
    }
  }

  lemma GroupRowsAvailable(findings: seq<Finding>, id: Identity, repr: Rendering)
    requires AllAvailable(findings)
    ensures AllAvailable(GroupRows(findings, id, repr))
  {
    SortSameElements(ByText(RowText(repr)), Select(findings, IdentityOf, id));
    SelectRows(findings, IdentityOf, id);
    var rows := GroupRows(findings, id, repr);
    forall i | 0 <= i < |rows| ensures Available(rows[i]) {
      assert rows[i] in findings;
    }
  }

  /** PASS means that all evidence is available on both sides and the two multisets of full
      detector keys are equal, and nothing less; reaching it spends no work. */
  lemma PassIsEquality(sonar: seq<Finding>, ours: seq<Finding>, repr: Rendering)
    ensures CompareEvidence(sonar, ours, repr).status == Pass
            <==> AllAvailable(sonar) && AllAvailable(ours) && multiset(Keys(sonar)) == multiset(Keys(ours))
    ensures AllAvailable(sonar) && AllAvailable(ours) ==>
              var t := MatchDetectorRows(sonar, ours, repr); t.work == WORK_BUDGET && !t.exhausted
  {
    hide MatchGroups, Compatible, Available, KeyOfFinding;
    VerdictIsExact(sonar, ours, repr);
    if AllAvailable(sonar) && AllAvailable(ours) {
      AvailableRunSpendsNothing(GroupOrder(sonar, ours, repr), sonar, ours, repr, EmptyTally());
      forall s, o | 0 <= s < |sonar| && 0 <= o < |ours|
        ensures Compatible(sonar[s], ours[o]) <==> KeyOfFinding(sonar[s]) == KeyOfFinding(ours[o])
      {
        AvailableKeys(sonar[s], ours[o]);
      }
      KeysDecide(sonar, ours, KeyOfFinding);
    }
  }

  // ---------------------------------------------------------------- the loops

  type Groups = map<Identity, (seq<Finding>, seq<Finding>)>

  function RowsOf(groups: Groups, id: Identity): (seq<Finding>, seq<Finding>) {
    if id in groups then groups[id] else ([], [])
  }

  /** The groups hold the rows of both lists by identity, in order of first occurrence. */
  ghost predicate Grouped(order: seq<Identity>, groups: Groups, sonar: seq<Finding>, ours: seq<Finding>) {
    && order == Distinct(Map(IdentityOf, sonar + ours))
    && (forall id :: id in groups <==> id in order)
    && (forall id :: RowsOf(groups, id) == (Select(sonar, IdentityOf, id), Select(ours, IdentityOf, id)))
  }

  function Extended(order: seq<Identity>, id: Identity): seq<Identity> {
    if id in order then order else order + [id]
  }

  lemma OneMoreRow(rows: seq<Finding>, f: Finding)
    ensures Distinct(Map(IdentityOf, rows + [f])) == Extended(Distinct(Map(IdentityOf, rows)), IdentityOf(f))
  {
    MapConcat(IdentityOf, rows, [f]);
    var all := Map(IdentityOf, rows + [f]);
    assert all == Map(IdentityOf, rows) + [IdentityOf(f)];
    assert all[..|rows|] == Map(IdentityOf, rows);
  }

  /** One more row with identity `id` on either side touches that group only. */
  lemma GroupExtends(order: seq<Identity>, groups: Groups, sonar: seq<Finding>, ours: seq<Finding>,
                     sonar': seq<Finding>, ours': seq<Finding>, id: Identity, rows: (seq<Finding>, seq<Finding>))
    requires Grouped(order, groups, sonar, ours)
    requires Distinct(Map(IdentityOf, sonar' + ours')) == Extended(order, id)
    requires forall x :: x != id ==> Select(sonar', IdentityOf, x) == Select(sonar, IdentityOf, x)
    requires forall x :: x != id ==> Select(ours', IdentityOf, x) == Select(ours, IdentityOf, x)
    requires rows == (Select(sonar', IdentityOf, id), Select(ours', IdentityOf, id))
    ensures Grouped(Extended(order, id), groups[id := rows], sonar', ours')
  {
    hide Distinct, Select, Map;
    var groups' := groups[id := rows];
    forall x ensures RowsOf(groups', x) == (Select(sonar', IdentityOf, x), Select(ours', IdentityOf, x)) {
      if x != id {
        assert RowsOf(groups', x) == RowsOf(groups, x);
      }
    }
  }

  lemma SelectOneMore(rows: seq<Finding>, f: Finding)
    ensures Select(rows + [f], IdentityOf, IdentityOf(f)) == Select(rows, IdentityOf, IdentityOf(f)) + [f]
    ensures forall x :: x != IdentityOf(f) ==> Select(rows + [f], IdentityOf, x) == Select(rows, IdentityOf, x)
  {
    SelectAppend(rows, f, IdentityOf, IdentityOf(f));
    forall x | x != IdentityOf(f) ensures Select(rows + [f], IdentityOf, x) == Select(rows, IdentityOf, x) {
      SelectAppend(rows, f, IdentityOf, x);
    }
  }

  lemma GroupedSonar(order: seq<Identity>, groups: Groups, sonar: seq<Finding>, f: Finding)
    requires Grouped(order, groups, sonar, [])
    ensures var id := IdentityOf(f);
            Grouped(Extended(order, id), groups[id := (RowsOf(groups, id).0 + [f], RowsOf(groups, id).1)], sonar + [f], [])
  {
    hide Distinct, Select, Map, Extended;
    OneMoreRow(sonar, f);
    SelectOneMore(sonar, f);
    assert sonar + [] == sonar && sonar + [f] + [] == sonar + [f];
    GroupExtends(order, groups, sonar, [], sonar + [f], [], IdentityOf(f),
                 (RowsOf(groups, IdentityOf(f)).0 + [f], RowsOf(groups, IdentityOf(f)).1));
  }

  lemma GroupedOurs(order: seq<Identity>, groups: Groups, sonar: seq<Finding>, ours: seq<Finding>, f: Finding)
    requires Grouped(order, groups, sonar, ours)
    ensures var id := IdentityOf(f);
            Grouped(Extended(order, id), groups[id := (RowsOf(groups, id).0, RowsOf(groups, id).1 + [f])], sonar, ours + [f])
  {
    hide Distinct, Select, Map, Extended;
    OneMoreRow(sonar + ours, f);
    SelectOneMore(ours, f);
    assert sonar + ours + [f] == sonar + (ours + [f]);
    GroupExtends(order, groups, sonar, ours, sonar, ours + [f], IdentityOf(f),
                 (RowsOf(groups, IdentityOf(f)).0, RowsOf(groups, IdentityOf(f)).1 + [f]));
  }

  lemma NothingGrouped()
    ensures Grouped([], map[], [], [])
  {
  }

  lemma GroupedKeys(order: seq<Identity>, groups: Groups, sonar: seq<Finding>, ours: seq<Finding>)
    requires Grouped(order, groups, sonar, ours)
    ensures forall id :: id in groups <==> id in order
  {
  }

  method GroupDetectorRows(sonar: seq<Finding>, ours: seq<Finding>) returns (order: seq<Identity>, groups: Groups)
    ensures Grouped(order, groups, sonar, ours)
  {
    hide Grouped, RowsOf, Extended;
    order, groups := [], map[];
    NothingGrouped();
    for n := 0 to |sonar|
      invariant Grouped(order, groups, sonar[..n], [])
    {
      GroupedSonar(order, groups, sonar[..n], sonar[n]);
      GroupedKeys(order, groups, sonar[..n], []);
      assert sonar[..n + 1] == sonar[..n] + [sonar[n]];
      order, groups := AddRow(order, groups, sonar[n], true);
    }
    assert sonar[..|sonar|] == sonar;
    for n := 0 to |ours|
      invariant Grouped(order, groups, sonar, ours[..n])
    {
      GroupedOurs(order, groups, sonar, ours[..n], ours[n]);
      GroupedKeys(order, groups, sonar, ours[..n]);
      assert ours[..n + 1] == ours[..n] + [ours[n]];
      order, groups := AddRow(order, groups, ours[n], false);
    }
    assert ours[..|ours|] == ours;
  }

  method AddRow(order0: seq<Identity>, groups0: Groups, f: Finding, sonarSide: bool)
    returns (order: seq<Identity>, groups: Groups)
    requires forall id :: id in groups0 <==> id in order0
    ensures order == Extended(order0, IdentityOf(f))
    ensures var rows := RowsOf(groups0, IdentityOf(f));
            groups == groups0[IdentityOf(f) := if sonarSide then (rows.0 + [f], rows.1) else (rows.0, rows.1 + [f])]
  {
    var id := IdentityOf(f);
    order, groups := order0, groups0;
    if id !in groups {
      order, groups := order + [id], groups[id := ([], [])];
    }
    var rows := groups[id];
    groups := groups[id := if sonarSide then (rows.0 + [f], rows.1) else (rows.0, rows.1 + [f])];
  }

  lemma GroupListed(order: seq<Identity>, groups: Groups, sonar: seq<Finding>, ours: seq<Finding>, repr: Rendering, id: Identity)
    requires Grouped(order, groups, sonar, ours) && id in Sort(ByText(repr.identity), order)
    ensures id in groups
    ensures Sort(ByText(RowText(repr)), groups[id].0) == GroupRows(sonar, id, repr)
    ensures Sort(ByText(RowText(repr)), groups[id].1) == GroupRows(ours, id, repr)
  {
    hide KeyOfFinding;
    SortSameElements(ByText(repr.identity), order);
    assert RowsOf(groups, id) == groups[id];
  }

  method MatchRows(sonar: seq<Finding>, ours: seq<Finding>, repr: Rendering)
    returns (unmatchedSonar: seq<Finding>, unmatchedOurs: seq<Finding>, exhausted: bool, knownMismatch: bool,
             remainingWork: int)
    ensures Tally(unmatchedSonar, unmatchedOurs, remainingWork, exhausted, knownMismatch)
            == MatchDetectorRows(sonar, ours, repr)
  {
    hide GroupStep, GroupRows, KeyOfFinding, Sort;
    var order, groups := GroupDetectorRows(sonar, ours);
    unmatchedSonar, unmatchedOurs := [], [];
    remainingWork, exhausted, knownMismatch := WORK_BUDGET, false, false;
    var identities := Sort(ByText(repr.identity), order);
    ghost var goal := MatchDetectorRows(sonar, ours, repr);
    for i := 0 to |identities|
      invariant !exhausted
      invariant MatchGroups(identities[i..], sonar, ours, repr,
                            Tally(unmatchedSonar, unmatchedOurs, remainingWork, exhausted, knownMismatch)) == goal
    {
      var identity := identities[i];
      assert identities[i..][0] == identity && identities[i..][1..] == identities[i + 1..];
      assert identity in identities;
      GroupListed(order, groups, sonar, ours, repr, identity);
      var sonarRows := Sort(ByText(RowText(repr)), groups[identity].0);
      var oursRows := Sort(ByText(RowText(repr)), groups[identity].1);
      unmatchedSonar, unmatchedOurs, remainingWork, exhausted, knownMismatch :=
        MatchGroup(sonarRows, oursRows, unmatchedSonar, unmatchedOurs, remainingWork, knownMismatch);
      if exhausted {
        break;
      }
    }
  }

  method MatchGroup(sonarRows: seq<Finding>, oursRows: seq<Finding>, unmatchedSonar: seq<Finding>, unmatchedOurs: seq<Finding>,
                    budget: int, known: bool)
    returns (missing: seq<Finding>, extra: seq<Finding>, remainingWork: int, exhausted: bool, knownMismatch: bool)
    ensures Tally(missing, extra, remainingWork, exhausted, knownMismatch)
            == GroupStep(sonarRows, oursRows, Tally(unmatchedSonar, unmatchedOurs, budget, false, known))
  {
    hide MatchVariable, UniformRows;
    missing, extra := unmatchedSonar, unmatchedOurs;
    remainingWork, exhausted, knownMismatch := budget, false, known;
    if sonarRows == [] || oursRows == [] {
      missing, extra := missing + sonarRows, extra + oursRows;
      return;
    }
    var countMismatch := |sonarRows| != |oursRows|;
    if countMismatch {
      knownMismatch := true;
    }
    var uniform := UniformDetectorRows(sonarRows, oursRows);
    if uniform.Some? {
      missing, extra := missing + uniform.value.0, extra + uniform.value.1;
      return;
    }
    if countMismatch {
      return;
    }
    var more, moreExtra;
    more, moreExtra, remainingWork, exhausted := MatchVariableMaskRows(sonarRows, oursRows, remainingWork);
    if exhausted {
      return;
    }
    missing, extra := missing + more, extra + moreExtra;
  }

  method CompareSecurityEvidence(sonar: seq<Finding>, ours: seq<Finding>, repr: Rendering) returns (c: Comparison)
    ensures c == CompareEvidence(sonar, ours, repr)
  {
    hide MatchDetectorRows, AllAvailable, Keys;
    var missing, extra, exhausted, known, work := MatchRows(sonar, ours, repr);
    var sonarAvailable, oursAvailable := AllAvailable(sonar), AllAvailable(ours);
    var status;
    if missing != [] || extra != [] || known {
      status := BadMismatch;
    } else if exhausted || !sonarAvailable || !oursAvailable {
      status := EvidenceUnavailable;
    } else {
      status := Pass;
    }
    c := Comparison(status, multiset(Keys(sonar)), multiset(Keys(ours)), multiset(Keys(missing)), multiset(Keys(extra)),
                    sonarAvailable, oursAvailable, exhausted);
  }
}
