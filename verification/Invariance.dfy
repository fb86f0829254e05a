/** The comparison looks only at detector keys: neither the order of the findings nor their review
    fields can change it, even when the budget runs out. */
module Invariance {
  import opened Orders
  import opened Evidence
  import opened Matching
  import opened Counters
  import opened Uniform
  import opened Reconciling
  import opened Assigning
  import opened Grouping
  import opened Verdict

  ghost predicate Alike(a: seq<Finding>, b: seq<Finding>) {
    |a| == |b| && forall i :: 0 <= i < |a| ==> KeyOfFinding(a[i]) == KeyOfFinding(b[i])
  }

  lemma AlikeConcat(a: seq<Finding>, b: seq<Finding>, a': seq<Finding>, b': seq<Finding>)
    requires Alike(a, a') && Alike(b, b')
    ensures Alike(a + b, a' + b')
  {
    hide KeyOfFinding;
  }

  // ---------------------------------------------------------- group by group

  lemma {:induction false} SurplusOfAlike<K(!new)>(ks: seq<K>, n: nat, a: seq<Finding>, b: seq<Finding>, surplus: multiset<K>, key: Finding -> K)
    requires n <= |ks| && (forall i :: 0 <= i < |ks| ==> ks[i] in Map(key, a)) && Map(key, a) == Map(key, b) && Alike(a, b)
    ensures Alike(SurplusOf(ks, n, a, surplus, key), SurplusOf(ks, n, b, surplus, key))
  {
    hide KeyOfFinding, Map, LastWith, Repeat;
    if n > 0 {
      SurplusOfAlike(ks, n - 1, a, b, surplus, key);
      LastWithAlike(a, b, key, ks[n - 1]);
      RepeatAlike(LastWith(a, key, ks[n - 1]), LastWith(b, key, ks[n - 1]), surplus[ks[n - 1]]);
      AlikeConcat(SurplusOf(ks, n - 1, a, surplus, key), Repeat(LastWith(a, key, ks[n - 1]), surplus[ks[n - 1]]),
                     SurplusOf(ks, n - 1, b, surplus, key), Repeat(LastWith(b, key, ks[n - 1]), surplus[ks[n - 1]]));
    }
  }

  lemma {:induction false} LastWithAlike<K(!new)>(a: seq<Finding>, b: seq<Finding>, key: Finding -> K, k: K)
    requires Alike(a, b) && Map(key, a) == Map(key, b) && k in Map(key, a)
    ensures KeyOfFinding(LastWith(a, key, k)) == KeyOfFinding(LastWith(b, key, k))
  {
    hide KeyOfFinding, Map;
    var n := |a| - 1;
    MapOfFront(a, key);
    MapOfFront(b, key);
    assert Map(key, a)[n] == Map(key, b)[n];
    if key(a[n]) != k {
      assert Map(key, a[..n]) == Map(key, b[..n]);
      LastWithAlike(a[..n], b[..n], key, k);
    }
  }

  lemma {:induction false} RepeatAlike(f: Finding, g: Finding, n: nat)
    requires KeyOfFinding(f) == KeyOfFinding(g)
    ensures Alike(Repeat(f, n), Repeat(g, n))
  {
    hide KeyOfFinding;
    if n > 0 {
      RepeatAlike(f, g, n - 1);
    }
  }

  lemma SurplusAlike(a: seq<Finding>, b: seq<Finding>, a': seq<Finding>, b': seq<Finding>, mask: Mask)
    requires Alike(a, a') && Alike(b, b')
    ensures Alike(Surplus(a, b, Projecting(mask)), Surplus(a', b', Projecting(mask)))
  {
    hide KeyOfFinding, Project;
    var key := Projecting(mask);
    ProjectionsSame(a, a', mask);
    ProjectionsSame(b, b', mask);
    var ks := Distinct(Map(key, a));
    SurplusOfAlike(ks, |ks|, a, a', multiset(Map(key, a)) - multiset(Map(key, b)), key);
  }

  lemma ProjectionsSame(a: seq<Finding>, b: seq<Finding>, mask: Mask)
    requires Alike(a, b)
    ensures Map(Projecting(mask), a) == Map(Projecting(mask), b)
  {
    forall i | 0 <= i < |a| ensures Project(a[i], mask) == Project(b[i], mask) {
      KeyDecides(a[i], b[i]);
    }
  }

  lemma MasksSame(a: seq<Finding>, b: seq<Finding>)
    requires Alike(a, b)
    ensures forall i :: 0 <= i < |a| ==> MaskOf(a[i]) == MaskOf(b[i])
    ensures SameMask(a) == SameMask(b) && AllAvailable(a) == AllAvailable(b)
  {
    forall i | 0 <= i < |a| ensures MaskOf(a[i]) == MaskOf(b[i]) {
      KeyDecides(a[i], b[i]);
    }
  }

  lemma UniformSame(a: seq<Finding>, b: seq<Finding>, a': seq<Finding>, b': seq<Finding>)
    requires Alike(a, a') && Alike(b, b') && a != [] && b != []
    ensures UniformRows(a, b).Some? == UniformRows(a', b').Some?
    ensures UniformRows(a, b).Some? ==>
              && Alike(UniformRows(a, b).value.0, UniformRows(a', b').value.0)
              && Alike(UniformRows(a, b).value.1, UniformRows(a', b').value.1)
  {
    hide KeyOfFinding, Surplus;
    MasksSame(a, a');
    MasksSame(b, b');
    var mask := CommonMask(MaskOf(a[0]), MaskOf(b[0]));
    SurplusAlike(a, b, a', b', mask);
    SurplusAlike(b, a, b', a', mask);
  }

  lemma {:induction false} CompatibleRowSame(f: Finding, ours: seq<Finding>, f': Finding, ours': seq<Finding>, n: nat)
    requires KeyOfFinding(f) == KeyOfFinding(f') && Alike(ours, ours') && n <= |ours|
    ensures CompatibleRow(f, ours, n) == CompatibleRow(f', ours', n)
  {
    hide KeyOfFinding, Compatible;
    if n > 0 {
      CompatibleRowSame(f, ours, f', ours', n - 1);
      KeysDecideCompatibility(f, f', ours[n - 1], ours'[n - 1]);
    }
  }

  lemma GraphSame(a: seq<Finding>, b: seq<Finding>, a': seq<Finding>, b': seq<Finding>)
    requires Alike(a, a') && Alike(b, b')
    ensures GraphOf(a, b) == GraphOf(a', b')
  {
    hide KeyOfFinding, Compatible, CompatibilityGraph;
    forall s | 0 <= s < |a| ensures CompatibleRow(a[s], b, |b|) == CompatibleRow(a'[s], b', |b'|) {
      CompatibleRowSame(a[s], b, a'[s], b', |b|);
    }
  }

  lemma {:induction false} UnownedSame(a: seq<Finding>, b: seq<Finding>, owners: Owners)
    requires Alike(a, b) && |owners| == |a|
    ensures Alike(Unowned(a, owners), Unowned(b, owners))
  {
    hide KeyOfFinding;
    if a != [] {
      UnownedSame(a[..|a| - 1], b[..|b| - 1], owners[..|a| - 1]);
    }
  }

  lemma VariableSame(a: seq<Finding>, b: seq<Finding>, a': seq<Finding>, b': seq<Finding>, work: int)
    requires Alike(a, a') && Alike(b, b')
    ensures var r, r' := MatchVariable(a, b, work), MatchVariable(a', b', work);
            && r.work == r'.work && r.exhausted == r'.exhausted
            && Alike(r.missing, r'.missing) && Alike(r.extra, r'.extra)
  {
    hide KeyOfFinding, Compatible, GraphOf, MatchGraph;
    GraphSame(a, b, a', b');
    GraphResultSame(a, b, a', b', GraphOf(a, b), work - |a| * |b|);
  }

  lemma GraphResultSame(a: seq<Finding>, b: seq<Finding>, a': seq<Finding>, b': seq<Finding>, g: Graph, work: int)
    requires Alike(a, a') && Alike(b, b') && |g| == |a| && GraphOver(g, |b|)
    ensures var r, r' := MatchGraph(a, b, g, work), MatchGraph(a', b', g, work);
            && r.work == r'.work && r.exhausted == r'.exhausted
            && Alike(r.missing, r'.missing) && Alike(r.extra, r'.extra)
  {
    hide KeyOfFinding, AssignCompatibleRows, OwnersMatch;
    var r := AssignCompatibleRows(g, |b|, work);
    assert |r.sonarOwner| == |a| && |r.oursOwner| == |b| by {
      OwnersAreListed(g, |b|, work);
    }
    UnownedSame(a, a', r.sonarOwner);
    UnownedSame(b, b', r.oursOwner);
  }

  /** Two tallies that agree on everything a report or a later group can see. */
  ghost predicate SameTally(t: Tally, t': Tally) {
    && t.work == t'.work && t.exhausted == t'.exhausted && t.known == t'.known
    && Alike(t.missing, t'.missing) && Alike(t.extra, t'.extra)
  }

  lemma GroupStepSame(a: seq<Finding>, b: seq<Finding>, a': seq<Finding>, b': seq<Finding>, t: Tally, t': Tally)
    requires Alike(a, a') && Alike(b, b') && SameTally(t, t')
    ensures SameTally(GroupStep(a, b, t), GroupStep(a', b', t'))
  {
    hide KeyOfFinding, UniformRows, MatchVariable;
    if a == [] || b == [] {
      AlikeConcat(t.missing, a, t'.missing, a');
      AlikeConcat(t.extra, b, t'.extra, b');
    } else {
      UniformSame(a, b, a', b');
      var u, u' := UniformRows(a, b), UniformRows(a', b');
      if u.Some? {
        AlikeConcat(t.missing, u.value.0, t'.missing, u'.value.0);
        AlikeConcat(t.extra, u.value.1, t'.extra, u'.value.1);
      } else if |a| == |b| {
        VariableSame(a, b, a', b', t.work);
        var r, r' := MatchVariable(a, b, t.work), MatchVariable(a', b', t.work);
        AlikeConcat(t.missing, r.missing, t'.missing, r'.missing);
        AlikeConcat(t.extra, r.extra, t'.extra, r'.extra);
      }
    }
  }

  // ------------------------------------------------------------- whole lists

  lemma {:induction false} SelectAlike(a: seq<Finding>, b: seq<Finding>, id: Identity)
    requires Alike(a, b)
    ensures Alike(Select(a, IdentityOf, id), Select(b, IdentityOf, id))
  {
    hide KeyOfFinding;
    if a != [] {
      KeyDecides(a[0], b[0]);
      SelectAlike(a[1..], b[1..], id);
      AlikeConcat(if IdentityOf(a[0]) == id then [a[0]] else [], Select(a[1..], IdentityOf, id),
                     if IdentityOf(b[0]) == id then [b[0]] else [], Select(b[1..], IdentityOf, id));
    }
  }

  lemma KeysPointwise(a: seq<Finding>, b: seq<Finding>)
    ensures Alike(a, b) <==> Keys(a) == Keys(b)
  {
    hide KeyOfFinding;
    if Keys(a) == Keys(b) {
      forall i | 0 <= i < |a| ensures KeyOfFinding(a[i]) == KeyOfFinding(b[i]) {
        assert Keys(a)[i] == Keys(b)[i];
      }
    }
  }

  /** The same keys in any order: one list is a rearrangement of findings with the other's keys. */
  lemma Rearrange(a: seq<Finding>, b: seq<Finding>) returns (c: seq<Finding>)
    requires multiset(Keys(a)) == multiset(Keys(b))
    ensures multiset(c) == multiset(a) && Alike(c, b)
  {
    hide KeyOfFinding;
    var p := PermutationBetween(Keys(b), Keys(a));
    c := Reindex(a, p);
    PermutationKeepsElements(a, p);
    forall i | 0 <= i < |b| ensures KeyOfFinding(c[i]) == KeyOfFinding(b[i]) {
      assert Reindex(Keys(a), p)[i] == Keys(a)[p[i]];
    }
  }

  lemma {:induction false} MapSameElements<T(!new), U(!new)>(f: T -> U, xs: seq<T>, ys: seq<T>)
    requires multiset(xs) == multiset(ys)
    ensures multiset(Map(f, xs)) == multiset(Map(f, ys))
  {
    var p := PermutationBetween(xs, ys);
    assert Map(f, xs) == Reindex(Map(f, ys), p) by {
      forall i | 0 <= i < |xs| ensures Map(f, xs)[i] == Reindex(Map(f, ys), p)[i] {
        assert Reindex(ys, p)[i] == xs[i];
      }
    }
    PermutationKeepsElements(Map(f, ys), p);
  }

  /** A group's sorted rows show the same keys however the findings were listed. */
  lemma GroupRowsAlike(a: seq<Finding>, b: seq<Finding>, id: Identity, repr: Rendering)
    requires multiset(Keys(a)) == multiset(Keys(b)) && TellsApart(repr, a)
    ensures Alike(GroupRows(a, id, repr), GroupRows(b, id, repr))
  {
    hide KeyOfFinding, TellsApart;
    var c := Rearrange(a, b);
    var x, y, z := Select(a, IdentityOf, id), Select(b, IdentityOf, id), Select(c, IdentityOf, id);
    SelectSameElements(c, a, IdentityOf, id);
    SelectAlike(c, b, id);
    MapSameElements(KeyOfFinding, z, x);
    KeysPointwise(z, y);
    SortedKeys(x, repr);
    SortedKeys(y, repr);
    ByTextIsTotalPreorder(repr.key);
    KeysTold(a, id, repr);
    InjectionSeparates(repr.key, Keys(x));
    SortForgetsOrder(ByText(repr.key), Keys(x), Keys(y));
    KeysPointwise(GroupRows(a, id, repr), GroupRows(b, id, repr));
  }

  lemma KeysTold(a: seq<Finding>, id: Identity, repr: Rendering)
    requires TellsApart(repr, a)
    ensures var ks := Keys(Select(a, IdentityOf, id));
            forall i, j :: 0 <= i < |ks| && 0 <= j < |ks| && repr.key(ks[i]) == repr.key(ks[j]) ==> ks[i] == ks[j]
  {
    hide KeyOfFinding;
    var x := Select(a, IdentityOf, id);
    SelectRows(a, IdentityOf, id);
    forall i, j | 0 <= i < |x| && 0 <= j < |x| && repr.key(Keys(x)[i]) == repr.key(Keys(x)[j])
      ensures Keys(x)[i] == Keys(x)[j]
    {
      assert x[i] in x && x[j] in x;
    }
  }

  /** What a comparison sees of a list: in every group the same keys in the same order. */
  ghost predicate GroupsAlike(a: seq<Finding>, b: seq<Finding>, repr: Rendering) {
    forall id :: Alike(GroupRows(a, id, repr), GroupRows(b, id, repr))
  }

  lemma AlikeGroups(a: seq<Finding>, b: seq<Finding>, repr: Rendering)
    requires Alike(a, b)
    ensures GroupsAlike(a, b, repr)
  {
    hide KeyOfFinding, Sort, Select;
    forall id ensures Alike(GroupRows(a, id, repr), GroupRows(b, id, repr)) {
      var x, y := Select(a, IdentityOf, id), Select(b, IdentityOf, id);
      SelectAlike(a, b, id);
      KeysPointwise(x, y);
      SortedKeys(x, repr);
      SortedKeys(y, repr);
      KeysPointwise(GroupRows(a, id, repr), GroupRows(b, id, repr));
    }
  }

  lemma SortedKeys(rows: seq<Finding>, repr: Rendering)
    ensures Keys(Sort(ByText(RowText(repr)), rows)) == Sort(ByText(repr.key), Keys(rows))
  {
    hide KeyOfFinding;
    SortMap(KeyOfFinding, ByText(RowText(repr)), ByText(repr.key), rows);
  }

  lemma InjectionSeparates<T>(text: T -> string, xs: seq<T>)
    requires forall i, j :: 0 <= i < |xs| && 0 <= j < |xs| && text(xs[i]) == text(xs[j]) ==> xs[i] == xs[j]
    ensures Separates(ByText(text), xs)
  {
    var leq := ByText(text);
    forall i, j | 0 <= i < |xs| && 0 <= j < |xs| && leq(xs[i], xs[j]) && leq(xs[j], xs[i]) ensures xs[i] == xs[j] {
      TextLeqTotal(text(xs[i]), text(xs[j]));
    }
  }

  lemma IdentitiesSame(a: seq<Finding>, b: seq<Finding>)
    requires multiset(Keys(a)) == multiset(Keys(b))
    ensures forall i :: 0 <= i < |a| ==> IdentityOf(a[i]) in Map(IdentityOf, b)
  {
    hide KeyOfFinding;
    SameElements(Keys(a), Keys(b));
    forall i | 0 <= i < |a| ensures IdentityOf(a[i]) in Map(IdentityOf, b) {
      assert Keys(a)[i] in Keys(b);
      var j :| 0 <= j < |b| && Keys(b)[j] == Keys(a)[i];
      KeyDecides(a[i], b[j]);
      assert Map(IdentityOf, b)[j] == IdentityOf(a[i]);
    }
  }

  lemma IdentityListed(a: seq<Finding>, b: seq<Finding>, a': seq<Finding>, b': seq<Finding>, id: Identity)
    requires multiset(Keys(a)) == multiset(Keys(a')) && multiset(Keys(b)) == multiset(Keys(b'))
    requires id in Map(IdentityOf, a + b)
    ensures id in Map(IdentityOf, a' + b')
  {
    IdentitiesSame(a, a');
    IdentitiesSame(b, b');
    MapConcat(IdentityOf, a', b');
    var i :| 0 <= i < |a + b| && Map(IdentityOf, a + b)[i] == id;
    if i < |a| {
      assert IdentityOf(a[i]) == id;
    } else {
      assert IdentityOf(b[i - |a|]) == id;
    }
  }

  lemma WithIdentity(findings: seq<Finding>, id: Identity) returns (f: Finding)
    requires id in Map(IdentityOf, findings)
    ensures f in findings && IdentityOf(f) == id
  {
    var i :| 0 <= i < |findings| && Map(IdentityOf, findings)[i] == id;
    f := findings[i];
  }

  lemma IdentitiesTold(findings: seq<Finding>, repr: Rendering)
    requires TellsApart(repr, findings)
    ensures var all := Map(IdentityOf, findings);
            forall i, j :: i in all && j in all && repr.identity(i) == repr.identity(j) ==> i == j
  {
    hide KeyOfFinding, Map;
    var all := Map(IdentityOf, findings);
    forall i, j | i in all && j in all && repr.identity(i) == repr.identity(j) ensures i == j {
      var f := WithIdentity(findings, i);
      var g := WithIdentity(findings, j);
    }
  }

  lemma SameIdentities(a: seq<Finding>, b: seq<Finding>, a': seq<Finding>, b': seq<Finding>)
    requires multiset(Keys(a)) == multiset(Keys(a')) && multiset(Keys(b)) == multiset(Keys(b'))
    ensures forall id :: id in Map(IdentityOf, a + b) <==> id in Map(IdentityOf, a' + b')
  {
    hide Keys;
    forall id ensures id in Map(IdentityOf, a + b) <==> id in Map(IdentityOf, a' + b') {
      if id in Map(IdentityOf, a + b) {
        IdentityListed(a, b, a', b', id);
      }
      if id in Map(IdentityOf, a' + b') {
        IdentityListed(a', b', a, b, id);
      }
    }
  }

  /** Sorting what is distinct by texts that tell it apart depends on the set alone. */
  lemma DistinctSorted<T(!new)>(xs: seq<T>, ys: seq<T>, text: T -> string)
    requires forall x :: x in xs <==> x in ys
    requires forall i, j :: i in xs && j in xs && text(i) == text(j) ==> i == j
    ensures Sort(ByText(text), Distinct(xs)) == Sort(ByText(text), Distinct(ys))
  {
    hide Distinct;
    NoDuplicatesSameElements(Distinct(xs), Distinct(ys));
    ByTextIsTotalPreorder(text);
    InjectionSeparates(text, Distinct(xs));
    SortForgetsOrder(ByText(text), Distinct(xs), Distinct(ys));
  }

  lemma GroupOrderSame(a: seq<Finding>, b: seq<Finding>, a': seq<Finding>, b': seq<Finding>, repr: Rendering)
    requires multiset(Keys(a)) == multiset(Keys(a')) && multiset(Keys(b)) == multiset(Keys(b')) && TellsApart(repr, a + b)
    ensures GroupOrder(a, b, repr) == GroupOrder(a', b', repr)
  {
    hide KeyOfFinding, TellsApart;
    SameIdentities(a, b, a', b');
    IdentitiesTold(a + b, repr);
    DistinctSorted(Map(IdentityOf, a + b), Map(IdentityOf, a' + b'), repr.identity);
  }

  lemma {:induction false} MatchGroupsSame(ids: seq<Identity>, a: seq<Finding>, b: seq<Finding>, a': seq<Finding>, b': seq<Finding>,
                                           repr: Rendering, t: Tally, t': Tally)
    requires GroupsAlike(a, a', repr) && GroupsAlike(b, b', repr)
    requires SameTally(t, t')
    ensures SameTally(MatchGroups(ids, a, b, repr, t), MatchGroups(ids, a', b', repr, t'))
    decreases |ids|
  {
    hide KeyOfFinding, GroupStep, GroupRows;
    if ids != [] && !t.exhausted {
      GroupStepSame(GroupRows(a, ids[0], repr), GroupRows(b, ids[0], repr),
                    GroupRows(a', ids[0], repr), GroupRows(b', ids[0], repr), t, t');
      MatchGroupsSame(ids[1..], a, b, a', b', repr,
                      GroupStep(GroupRows(a, ids[0], repr), GroupRows(b, ids[0], repr), t),
                      GroupStep(GroupRows(a', ids[0], repr), GroupRows(b', ids[0], repr), t'));
    }
  }

  /** Equal tallies, as far as they show, are judged alike. */
  lemma AlikeTallies(t: Tally, t': Tally, a: seq<Finding>, b: seq<Finding>, a': seq<Finding>, b': seq<Finding>)
    requires SameTally(t, t') && multiset(Keys(a)) == multiset(Keys(a')) && multiset(Keys(b)) == multiset(Keys(b'))
    ensures Judge(t, a, b) == Judge(t', a', b')
  {
    hide KeyOfFinding, AllAvailable;
    KeysPointwise(t.missing, t'.missing);
    KeysPointwise(t.extra, t'.extra);
    AvailabilitySame(a, a');
    AvailabilitySame(b, b');
  }

  /** Comparisons that list the same groups and see the same rows in each have the same result. */
  lemma AlikeComparisons(a: seq<Finding>, b: seq<Finding>, a': seq<Finding>, b': seq<Finding>, repr: Rendering)
    requires GroupOrder(a, b, repr) == GroupOrder(a', b', repr)
    requires GroupsAlike(a, a', repr) && GroupsAlike(b, b', repr)
    requires multiset(Keys(a)) == multiset(Keys(a')) && multiset(Keys(b)) == multiset(Keys(b'))
    ensures CompareEvidence(a, b, repr) == CompareEvidence(a', b', repr)
  {
    hide Keys, MatchGroups, GroupOrder, GroupsAlike, Judge, Alike;
    MatchGroupsSame(GroupOrder(a, b, repr), a, b, a', b', repr, EmptyTally(), EmptyTally()) by {
      NothingAlike();
    }
    AlikeTallies(MatchDetectorRows(a, b, repr), MatchDetectorRows(a', b', repr), a, b, a', b');
  }

  lemma NothingAlike()
    ensures Alike([], [])
  {
  }

  /** The whole comparison depends only on the two multisets of detector keys. Reordering the
      findings or changing any review field leaves the status, the reported rows and even whether
      the budget runs out as they were. All that is asked of the sort keys is to tell the findings
      of this comparison apart. */
  lemma OnlyKeysMatter(sonar: seq<Finding>, ours: seq<Finding>, sonar': seq<Finding>, ours': seq<Finding>, repr: Rendering)
    requires TellsApart(repr, sonar + ours)
    requires multiset(Keys(sonar)) == multiset(Keys(sonar')) && multiset(Keys(ours)) == multiset(Keys(ours'))
    ensures CompareEvidence(sonar, ours, repr) == CompareEvidence(sonar', ours', repr)
  {
    hide CompareEvidence, GroupOrder, KeyOfFinding, GroupRows;
    GroupOrderSame(sonar, ours, sonar', ours', repr);
    RearrangedGroups(sonar, ours, sonar', ours', repr);
    AlikeComparisons(sonar, ours, sonar', ours', repr);
  }

  lemma RearrangedGroups(sonar: seq<Finding>, ours: seq<Finding>, sonar': seq<Finding>, ours': seq<Finding>, repr: Rendering)
    requires TellsApart(repr, sonar + ours)
    requires multiset(Keys(sonar)) == multiset(Keys(sonar')) && multiset(Keys(ours)) == multiset(Keys(ours'))
    ensures GroupsAlike(sonar, sonar', repr) && GroupsAlike(ours, ours', repr)
  {
    hide KeyOfFinding, GroupRows, Keys;
    assert forall f :: f in sonar || f in ours ==> f in sonar + ours;
    forall id ensures Alike(GroupRows(sonar, id, repr), GroupRows(sonar', id, repr)) {
      GroupRowsAlike(sonar, sonar', id, repr);
    }
    forall id ensures Alike(GroupRows(ours, id, repr), GroupRows(ours', id, repr)) {
      GroupRowsAlike(ours, ours', id, repr);
    }
  }

  lemma AvailabilitySame(a: seq<Finding>, b: seq<Finding>)
    requires multiset(Keys(a)) == multiset(Keys(b))
    ensures AllAvailable(a) == AllAvailable(b)
  {
    hide KeyOfFinding, Available;
    var c := Rearrange(a, b);
    MasksSame(c, b);
    SameElements(c, a);
    if AllAvailable(a) {
      forall i | 0 <= i < |c| ensures Available(c[i]) {
        assert c[i] in a;
      }
    }
    if AllAvailable(c) {
      forall i | 0 <= i < |a| ensures Available(a[i]) {
        assert a[i] in c;
      }
    }
  }

  ghost predicate SameButReview(f: Finding, g: Finding) {
    f.(review := g.review) == g
  }

  /** Human review state is visible beside the comparison and no part of it, whatever the sort keys. */
  lemma ReviewIsIgnored(sonar: seq<Finding>, ours: seq<Finding>, sonar': seq<Finding>, ours': seq<Finding>, repr: Rendering)
    requires |sonar| == |sonar'| && forall i :: 0 <= i < |sonar| ==> SameButReview(sonar[i], sonar'[i])
    requires |ours| == |ours'| && forall i :: 0 <= i < |ours| ==> SameButReview(ours[i], ours'[i])
    ensures CompareEvidence(sonar, ours, repr) == CompareEvidence(sonar', ours', repr)
  {
    hide CompareEvidence, GroupOrder;
    ReviewHidden(sonar, sonar');
    ReviewHidden(ours, ours');
    AlikeGroups(sonar, sonar', repr);
    AlikeGroups(ours, ours', repr);
    KeysPointwise(sonar, sonar');
    KeysPointwise(ours, ours');
    SameGroupOrder(sonar, ours, sonar', ours', repr);
    AlikeComparisons(sonar, ours, sonar', ours', repr);
  }

  lemma SameGroupOrder(a: seq<Finding>, b: seq<Finding>, a': seq<Finding>, b': seq<Finding>, repr: Rendering)
    requires Map(IdentityOf, a) == Map(IdentityOf, a') && Map(IdentityOf, b) == Map(IdentityOf, b')
    ensures GroupOrder(a, b, repr) == GroupOrder(a', b', repr)
  {
    hide Sort, Distinct;
    MapConcat(IdentityOf, a, b);
    MapConcat(IdentityOf, a', b');
  }

  lemma ReviewHidden(a: seq<Finding>, b: seq<Finding>)
    requires |a| == |b| && forall i :: 0 <= i < |a| ==> SameButReview(a[i], b[i])
    ensures Alike(a, b) && Map(IdentityOf, a) == Map(IdentityOf, b)
  {
  }

  /** Rearranging the findings of either side changes nothing. */
  lemma OrderIsIgnored(sonar: seq<Finding>, ours: seq<Finding>, sonar': seq<Finding>, ours': seq<Finding>, repr: Rendering)
    requires TellsApart(repr, sonar + ours)
    requires multiset(sonar) == multiset(sonar') && multiset(ours) == multiset(ours')
    ensures CompareEvidence(sonar, ours, repr) == CompareEvidence(sonar', ours', repr)
  {
    hide CompareEvidence, KeyOfFinding;
    MapSameElements(KeyOfFinding, sonar, sonar');
    MapSameElements(KeyOfFinding, ours, ours');
    OnlyKeysMatter(sonar, ours, sonar', ours', repr);
  }

  // ------------------------------------------------------- such sort keys exist

  function FirstIndex<T(==)>(xs: seq<T>, x: T): (n: nat)
    ensures n <= |xs|
    ensures x in xs ==> n < |xs| && xs[n] == x
  {
    if xs == [] || xs[0] == x then 0 else 1 + FirstIndex(xs[1..], x)
  }

  function Numbering<T(==)>(xs: seq<T>): T -> string {
    (x: T) => seq(FirstIndex(xs, x), _ => 'I')
  }

  lemma NumberingSeparates<T(!new)>(xs: seq<T>)
    ensures forall x, y :: x in xs && y in xs && Numbering(xs)(x) == Numbering(xs)(y) ==> x == y
  {
    forall x, y | x in xs && y in xs && Numbering(xs)(x) == Numbering(xs)(y) ensures x == y {
      assert |Numbering(xs)(x)| == FirstIndex(xs, x) && |Numbering(xs)(y)| == FirstIndex(xs, y);
    }
  }

  /** Any findings can be told apart by their sort keys. */
  lemma SomeRenderingTellsApart(findings: seq<Finding>) returns (repr: Rendering)
    ensures TellsApart(repr, findings)
  {
    hide KeyOfFinding;
    var ids, keys := Map(IdentityOf, findings), Keys(findings);
    repr := Rendering(Numbering(ids), Numbering(keys));
    NumberingSeparates(ids);
    NumberingSeparates(keys);
    forall f | f in findings ensures IdentityOf(f) in ids && KeyOfFinding(f) in keys {
      var i :| 0 <= i < |findings| && findings[i] == f;
      assert ids[i] == IdentityOf(f) && keys[i] == KeyOfFinding(f);
    }
  }
}
