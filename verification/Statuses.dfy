/** Which status a row of the report has, said of the findings and of the fields of the entry alone
    (tools/oracle/parity.py:1645-2038 and 2109-2129). */
module Statuses {
  import opened Orders
  import opened Counters
  import opened Gate

  // ------------------------------------------------------- comparison rows

  /** How many findings a rule has in a file. */
  ghost function Hits(findings: seq<Finding>, rule: string, file: string): nat {
    if findings == [] then 0
    else Hits(findings[1..], rule, file) + if findings[0].rule == rule && findings[0].file == file then 1 else 0
  }

  ghost predicate Clean(findings: seq<Finding>, rule: string, file: string) {
    forall f :: f in findings ==> !(f.rule == rule && f.file == file)
  }

  /** Both analyzers report the rule equally often in every place and with every message. */
  ghost predicate SameFindings(context: Context, rule: string) {
    forall f: Finding :: f.rule == rule ==> multiset(context.sonar)[f] == multiset(context.ours)[f]
  }

  lemma {:induction false} HitsAreCounted(findings: seq<Finding>, rule: string, file: string)
    ensures |Where(findings, InFile(rule, file))| == Hits(findings, rule, file)
  {
    if findings != [] {
      HitsAreCounted(findings[1..], rule, file);
    }
  }

  lemma CleanMeansEmpty(findings: seq<Finding>, rule: string, file: string)
    ensures multiset(Where(findings, InFile(rule, file))) == multiset{} <==> Clean(findings, rule, file)
  {
    WhereEmpty(findings, InFile(rule, file));
  }

  lemma SameMeansEqual(context: Context, rule: string)
    ensures multiset(Where(context.sonar, OfRule(rule))) == multiset(Where(context.ours, OfRule(rule))) <==> SameFindings(context, rule)
  {
    hide Where;
    var a, b := multiset(Where(context.sonar, OfRule(rule))), multiset(Where(context.ours, OfRule(rule)));
    forall f: Finding
      ensures a[f] == (if f.rule == rule then multiset(context.sonar)[f] else 0)
      ensures b[f] == (if f.rule == rule then multiset(context.ours)[f] else 0)
    {
      WhereCounts(context.sonar, OfRule(rule), f);
      WhereCounts(context.ours, OfRule(rule), f);
    }
    if SameFindings(context, rule) {
      forall f: Finding ensures a[f] == b[f] {
      }
      assert a == b;
    } else {
      var f: Finding :| f.rule == rule && multiset(context.sonar)[f] != multiset(context.ours)[f];
      assert a[f] != b[f];
    }
  }

  /** Every status of a comparison row. A rule is excused if its entry says so or if it needs another
      edition; then only local findings are looked at. */
  lemma StatusesAre(e: Expectation, context: Context)
    requires e.bad != e.good
    ensures var s, excused := ComparisonRow(e, context).status, e.upstream || e.key in context.enterprise;
            var sonarHits, oursHits := Hits(context.sonar, e.key, e.bad), Hits(context.ours, e.key, e.bad);
            var oursClean, bothClean := Clean(context.ours, e.key, e.good), Clean(context.sonar + context.ours, e.key, e.good);
            && (s == GOOD_FIRE <==> if excused then !oursClean else !bothClean)
            && (s == UPSTREAM_UNVERIFIED <==> e.upstream && oursClean && oursHits >= e.minimum)
            && (s == ENTERPRISE_UNVERIFIED <==> excused && !e.upstream && oursClean && oursHits >= e.minimum)
            && (s == BOTH_MISS <==> !excused && bothClean && sonarHits < e.minimum && oursHits < e.minimum)
            && (s == SQ_MISS <==> !excused && bothClean && sonarHits < e.minimum && oursHits >= e.minimum)
            && (s == OURS_MISS <==> if excused then oursClean && oursHits < e.minimum
                                    else bothClean && sonarHits >= e.minimum && oursHits < e.minimum)
            && (s == BAD_MISMATCH <==> !excused && bothClean && sonarHits >= e.minimum && oursHits >= e.minimum && !SameFindings(context, e.key))
            && (s == PASS <==> !excused && bothClean && sonarHits >= e.minimum && oursHits >= e.minimum && SameFindings(context, e.key))
  {
    hide Where, EvidenceFor, Hits, Clean, SameFindings, OfRule, InFile;
    CountersMean(e, context);
    SameMeansEqual(context, e.key);
    CleanBoth(context, e.key, e.good);
  }

  lemma CleanBoth(context: Context, rule: string, file: string)
    ensures Clean(context.sonar + context.ours, rule, file) <==> Clean(context.sonar, rule, file) && Clean(context.ours, rule, file)
  {
    assert forall f :: f in context.sonar + context.ours <==> f in context.sonar || f in context.ours;
  }

  lemma CountersMean(e: Expectation, context: Context)
    requires e.bad != e.good
    ensures var v := EvidenceFor(e, context);
            && (v.oursGood == multiset{} <==> Clean(context.ours, e.key, e.good))
            && (v.sonarGood == multiset{} <==> Clean(context.sonar, e.key, e.good))
            && |v.sonarBad| == Hits(context.sonar, e.key, e.bad) && |v.oursBad| == Hits(context.ours, e.key, e.bad)
            && v.sonarBad + v.sonarGood + v.sonarOther == multiset(Where(context.sonar, OfRule(e.key)))
            && v.oursBad + v.oursGood + v.oursOther == multiset(Where(context.ours, OfRule(e.key)))
  {
    hide Where;
    EvidenceMeans(e, context);
    CleanMeansEmpty(context.ours, e.key, e.good);
    CleanMeansEmpty(context.sonar, e.key, e.good);
    HitsAreCounted(context.sonar, e.key, e.bad);
    HitsAreCounted(context.ours, e.key, e.bad);
  }

  /** What a comparison row shows: its key, and each finding of the rule under its side and its file. */
  lemma RowShows(e: Expectation, context: Context, f: Finding)
    ensures var row := ComparisonRow(e, context);
            && row.key == Text(e.key) && row.observed == None && row.evidence.Some?
            && var v, sonar, ours := row.evidence.value, multiset(context.sonar)[f], multiset(context.ours)[f];
               && v.sonarBad[f] == (if f.rule == e.key && f.file == e.bad then sonar else 0)
               && v.oursBad[f] == (if f.rule == e.key && f.file == e.bad then ours else 0)
               && v.sonarGood[f] == (if f.rule == e.key && f.file == e.good then sonar else 0)
               && v.oursGood[f] == (if f.rule == e.key && f.file == e.good then ours else 0)
               && v.sonarOther[f] == (if f.rule == e.key && f.file != e.bad && f.file != e.good then sonar else 0)
               && v.oursOther[f] == (if f.rule == e.key && f.file != e.bad && f.file != e.good then ours else 0)
  {
    hide Where;
    WhereCounts(context.sonar, InFile(e.key, e.bad), f);
    WhereCounts(context.ours, InFile(e.key, e.bad), f);
    WhereCounts(context.sonar, InFile(e.key, e.good), f);
    WhereCounts(context.ours, InFile(e.key, e.good), f);
    WhereCounts(context.sonar, Elsewhere(e.key, e.bad, e.good), f);
    WhereCounts(context.ours, Elsewhere(e.key, e.bad, e.good), f);
  }

  // ------------------------------------------------------------ other entries

  /** A key that has not been seen and is in the catalog, if there is one. */
  ghost predicate NewKey(raw: Raw, seen: set<string>, context: Context) {
    && raw.Entry? && raw.key.Text? && raw.key.text != "" && raw.key.text !in seen
    && (context.catalog.Some? ==> raw.key.text in context.catalog.value)
  }

  ghost predicate ApprovedInfra(raw: Raw, context: Context)
    requires raw.Entry? && raw.key.Text?
  {
    && raw.infra.Text? && (exists i :: 0 <= i < |raw.infra.text| && !IsSpace(raw.infra.text[i]))
    && raw.key.text in context.infra && context.infra[raw.key.text] == raw.infra.text
  }

  ghost predicate Comparable(raw: Raw, seen: set<string>, context: Context) {
    NewKey(raw, seen, context) && exists bad, good, minimum :: WellFormed(raw, bad, good, minimum, context)
  }

  /** Every outcome of checking an entry: it is compared when its key is new and it is well formed; an
      approved boundary is INFRA, a skipped rule SKIPPED, and everything else INVALID_EXPECTATION. A
      refused entry keeps its key. */
  lemma RefusalsAre(raw: Raw, seen: set<string>, context: Context)
    ensures var c := CheckExpectation(raw, seen, context);
            && (c.Accepted? <==> Comparable(raw, seen, context))
            && (c.Refused? ==>
                  && c.row.key == (if raw.Entry? then raw.key else Nothing)
                  && (c.row.status == INFRA <==> NewKey(raw, seen, context) && raw.infra != Nothing && ApprovedInfra(raw, context))
                  && (c.row.status == SKIPPED <==> NewKey(raw, seen, context) && raw.infra == Nothing && IsTruthy(raw.skip))
                  && c.row.status in {INFRA, SKIPPED, INVALID_EXPECTATION})
  {
    hide WellFormed, Fixtures, Minimum, ValidUpstream, IsTruthy, IsSpace;
    if HasKey(raw) {
      WellFormedMeansAccepted(raw, context);
    } else {
      WellFormedHasKey(raw, context);
    }
  }

  lemma WellFormedHasKey(raw: Raw, context: Context)
    ensures forall bad, good, minimum :: WellFormed(raw, bad, good, minimum, context) ==> HasKey(raw)
  {
  }

  lemma WellFormedMeansAccepted(raw: Raw, context: Context)
    requires HasKey(raw)
    ensures CheckKeyed(raw, context).Accepted? <==> exists bad, good, minimum :: WellFormed(raw, bad, good, minimum, context)
  {
    hide WellFormed, CheckKeyed;
    if CheckKeyed(raw, context).Accepted? {
      var e := CheckKeyed(raw, context).expectation;
      AcceptedIsWellFormed(raw, context);
      AcceptedUpstream(raw, context);
      AcceptedMeansWellFormed(raw, e.bad, e.good, e.minimum, context);
    }
    if bad, good, minimum :| WellFormed(raw, bad, good, minimum, context) {
      AcceptedMeansWellFormed(raw, bad, good, minimum, context);
    }
  }

  ghost predicate OccursAt(text: string, part: string, i: nat) {
    i + |part| <= |text| && text[i..i + |part|] == part
  }

  ghost predicate FirstAt(text: string, part: string, k: nat) {
    OccursAt(text, part, k) && forall i: nat :: i < k ==> !OccursAt(text, part, i)
  }

  lemma OccursInRest(text: string, part: string, i: nat)
    requires text != []
    ensures OccursAt(text[1..], part, i) <==> OccursAt(text, part, i + 1)
  {
    if i + 1 + |part| <= |text| {
      assert text[1..][i..i + |part|] == text[i + 1..i + 1 + |part|];
    }
  }

  lemma OccursAtStart(text: string, part: string)
    ensures OccursAt(text, part, 0) <==> part <= text
  {
  }

  /** A text without the part is left alone. */
  lemma {:induction false} ReplacesNothing(text: string, part: string, instead: string)
    requires part != [] && forall i: nat :: !OccursAt(text, part, i)
    ensures ReplaceText(text, part, instead) == text
    decreases |text|
  {
    OccursAtStart(text, part);
    if |text| >= |part| {
      forall i: nat ensures !OccursAt(text[1..], part, i) {
        OccursInRest(text, part, i);
      }
      hide OccursAt;
      ReplacesNothing(text[1..], part, instead);
      assert text == [text[0]] + text[1..];
    }
  }

  /** Otherwise its first occurrence is replaced, and then the rest is looked at. */
  lemma {:induction false} ReplacesFirst(text: string, part: string, instead: string, k: nat)
    requires part != [] && FirstAt(text, part, k)
    ensures k + |part| <= |text|
    ensures ReplaceText(text, part, instead) == text[..k] + instead + ReplaceText(text[k + |part|..], part, instead)
    decreases k
  {
    hide ReplaceText, OccursAt;
    FirstFits(text, part, k);
    if k == 0 {
      ReplacesAtStart(text, part, instead);
    } else {
      FirstInRest(text, part, k);
      NotAtStart(text, part, instead, k);
      ReplacesFirst(text[1..], part, instead, k - 1);
      hide FirstAt;
      RestOf(text, part, k);
      PutInFront(text[0], text[1..][..k - 1], instead, ReplaceText(text[k + |part|..], part, instead));
    }
  }

  lemma FirstFits(text: string, part: string, k: nat)
    requires FirstAt(text, part, k)
    ensures k + |part| <= |text| && (k == 0 ==> part <= text)
  {
    OccursAtStart(text, part);
  }

  lemma ReplacesAtStart(text: string, part: string, instead: string)
    requires part != [] && part <= text
    ensures ReplaceText(text, part, instead) == text[..0] + instead + ReplaceText(text[|part|..], part, instead)
  {
    assert text[..0] + instead == instead;
  }

  lemma NotAtStart(text: string, part: string, instead: string, k: nat)
    requires part != [] && k > 0 && FirstAt(text, part, k)
    ensures |text| >= |part| && ReplaceText(text, part, instead) == [text[0]] + ReplaceText(text[1..], part, instead)
  {
    assert !OccursAt(text, part, 0);
  }

  lemma PutInFront(c: char, a: string, b: string, d: string)
    ensures [c] + (a + b + d) == ([c] + a) + b + d
  {
  }

  lemma FirstInRest(text: string, part: string, k: nat)
    requires part != [] && k > 0 && FirstAt(text, part, k)
    ensures text != [] && FirstAt(text[1..], part, k - 1)
  {
    OccursInRest(text, part, k - 1);
    forall i: nat | i < k - 1 ensures !OccursAt(text[1..], part, i) {
      OccursInRest(text, part, i);
    }
  }

  lemma RestOf(text: string, part: string, k: nat)
    requires 0 < k && k + |part| <= |text|
    ensures text[1..][k - 1 + |part|..] == text[k + |part|..] && [text[0]] + text[1..][..k - 1] == text[..k]
  {
  }

  /** Row by row: an entry's row depends on the keys before it; a compared row of an incomplete report is
      unverified and shows what it would have been. */
  lemma {:induction false} RowsFollowEntries(expected: seq<Raw>, context: Context, incomplete: bool)
    ensures |ExpectationRows(expected, context, incomplete)| == |expected|
    ensures forall i :: 0 <= i < |expected| ==>
              var row := ExpectationRows(expected, context, incomplete)[i];
              match CheckExpectation(expected[i], SeenIn(expected[..i]), context)
              case Refused(refused) => row == refused
              case Accepted(e) =>
                var compared := ComparisonRow(e, context);
                if incomplete then row == Row(compared.key, ORACLE_UNVERIFIED, Some(compared.status), compared.evidence) else row == compared
  {
    hide CheckExpectation, ComparisonRow, SeenIn;
    if expected != [] {
      var n := |expected| - 1;
      RowsFollowEntries(expected[..n], context, incomplete);
      forall i | 0 <= i < n ensures expected[..n][..i] == expected[..i] {
      }
    }
  }

  // ------------------------------------------------------------ catalog rows

  /** One row for each catalog key without an entry, in the order of the keys. */
  lemma MissingRowsAre(catalog: seq<string>, seen: set<string>)
    ensures forall row :: row in MissingRows(catalog, seen)
              <==> row.key.Text? && row == Terminal(row.key, INVALID_EXPECTATION) && row.key.text in catalog && row.key.text !in seen
    ensures var rows := MissingRows(catalog, seen);
            forall i, j :: 0 <= i < j < |rows| ==> rows[i].key.Text? && rows[j].key.Text? && TextLeq(rows[i].key.text, rows[j].key.text)
  {
    var missing := Without(catalog, seen);
    var sorted := Sort(ByText(AsText()), missing);
    WithoutKeys(catalog, seen);
    SortSameElements(ByText(AsText()), missing);
    ByTextIsTotalPreorder(AsText());
    SortSorts(ByText(AsText()), missing);
    var rows := MissingRows(catalog, seen);
    forall i, j | 0 <= i < j < |rows| ensures rows[i].key.Text? && rows[j].key.Text? && TextLeq(rows[i].key.text, rows[j].key.text) {
      assert ByText(AsText())(sorted[i], sorted[j]);
    }
    forall row ensures row in rows
                 <==> row.key.Text? && row == Terminal(row.key, INVALID_EXPECTATION) && row.key.text in catalog && row.key.text !in seen {
      if row in rows {
        var i :| 0 <= i < |rows| && rows[i] == row;
        assert sorted[i] in sorted;
      }
      if row.key.Text? && row == Terminal(row.key, INVALID_EXPECTATION) && row.key.text in catalog && row.key.text !in seen {
        assert row.key.text in sorted;
        var i :| 0 <= i < |sorted| && sorted[i] == row.key.text;
        assert rows[i] == row;
      }
    }
  }

  /** A finding that has no place in the report. */
  ghost predicate OutOfPlace(f: Finding, native: bool, context: Context, catalog: seq<string>) {
    || (f.rule !in catalog && !native)
    || (context.files.Some? && f.file !in context.files.value)
  }

  ghost predicate HasComplaint(findings: seq<Finding>, source: string, context: Context, catalog: seq<string>, rule: string) {
    exists u :: u in Complaints(findings, source, context, catalog) && u.rule == rule
  }

  ghost predicate HasOutOfPlace(findings: seq<Finding>, source: string, context: Context, catalog: seq<string>, rule: string) {
    exists f :: f in findings && f.rule == rule
      && OutOfPlace(f, source == "hoonarqube" && context.native.Some? && f.rule in context.native.value, context, catalog)
  }

  /** A rule has a row for what is unexpected exactly when some finding of it, in either report, is out of
      place; only our report may have findings of declared native rules. */
  lemma UnexpectedRowsAre(context: Context, catalog: seq<string>, row: Row)
    ensures row in UnexpectedRows(context, catalog)
            <==> row.key.Text? && row == Terminal(row.key, INVALID_ARTIFACT)
                 && (HasOutOfPlace(context.sonar, "Sonar", context, catalog, row.key.text)
                     || HasOutOfPlace(context.ours, "hoonarqube", context, catalog, row.key.text))
  {
    hide Complaints, HasOutOfPlace, Sort, Distinct;
    var a, b := Complaints(context.sonar, "Sonar", context, catalog), Complaints(context.ours, "hoonarqube", context, catalog);
    var sorted := Sort(UnexpectedLeq, Distinct(a + b));
    SortSameElements(UnexpectedLeq, Distinct(a + b));
    assert forall u :: u in sorted <==> u in a || u in b;
    RowsOfUnexpected(sorted, row);
    if row.key.Text? {
      ComplaintsAre(context.sonar, "Sonar", context, catalog, row.key.text);
      ComplaintsAre(context.ours, "hoonarqube", context, catalog, row.key.text);
    }
  }

  lemma RowsOfUnexpected(sorted: seq<Unexpected>, row: Row)
    ensures row in Map(UnexpectedRow, sorted)
            <==> row.key.Text? && row == Terminal(row.key, INVALID_ARTIFACT) && exists u :: u in sorted && u.rule == row.key.text
  {
    var rows := Map(UnexpectedRow, sorted);
    if row in rows {
      var i :| 0 <= i < |rows| && rows[i] == row;
      assert sorted[i] in sorted && rows[i] == UnexpectedRow(sorted[i]);
    }
    if row.key.Text? && row == Terminal(row.key, INVALID_ARTIFACT) {
      if u :| u in sorted && u.rule == row.key.text {
        var i :| 0 <= i < |sorted| && sorted[i] == u;
        assert rows[i] == row;
      }
    }
  }

  lemma {:induction false} ComplaintsAre(findings: seq<Finding>, source: string, context: Context, catalog: seq<string>, rule: string)
    ensures HasComplaint(findings, source, context, catalog, rule) <==> HasOutOfPlace(findings, source, context, catalog, rule)
  {
    if findings != [] {
      var front, last := findings[..|findings| - 1], findings[|findings| - 1];
      ComplaintsAre(front, source, context, catalog, rule);
      assert findings == front + [last];
      LastComplaint(front, last, source, context, catalog, rule);
      LastOutOfPlace(front, last, source, context, catalog, rule);
      ComplaintMeans(last, source, context, catalog);
    }
  }

  lemma LastComplaint(front: seq<Finding>, last: Finding, source: string, context: Context, catalog: seq<string>, rule: string)
    ensures HasComplaint(front + [last], source, context, catalog, rule)
            <==> HasComplaint(front, source, context, catalog, rule)
                 || (last.rule == rule && Complaint(last, source, context, catalog).Some?)
  {
    assert (front + [last])[..|front|] == front;
    if Complaint(last, source, context, catalog).Some? {
      assert Complaint(last, source, context, catalog).value in Complaints(front + [last], source, context, catalog);
    }
    assert forall u :: u in Complaints(front, source, context, catalog) ==> u in Complaints(front + [last], source, context, catalog);
  }

  lemma LastOutOfPlace(front: seq<Finding>, last: Finding, source: string, context: Context, catalog: seq<string>, rule: string)
    ensures HasOutOfPlace(front + [last], source, context, catalog, rule)
            <==> || HasOutOfPlace(front, source, context, catalog, rule)
                 || (last.rule == rule
                     && OutOfPlace(last, source == "hoonarqube" && context.native.Some? && last.rule in context.native.value, context, catalog))
  {
    hide OutOfPlace;
    var all := front + [last];
    assert last in all && forall f :: f in front ==> f in all;
  }

  // ------------------------------------------------------------ classification

  /** A missed rule, about which the server is asked. */
  ghost predicate Asked(row: Row) {
    (row.status == SQ_MISS || row.status == BOTH_MISS) && row.key.Text?
  }

  /** The keys of the asked rows among the first `n` that got this answer. */
  ghost function Answered(rows: seq<Row>, available: (int, string) -> Availability, n: nat, answer: Availability): seq<string>
    requires n <= |rows|
  {
    if n == 0 then []
    else
      Answered(rows, available, n - 1, answer)
      + if Asked(rows[n - 1]) && available(n - 1, rows[n - 1].key.text) == answer then [rows[n - 1].key.text] else []
  }

  /** Which answer gives which status, and which list: a rule that the server does not have is beyond the
      community edition, one that it cannot tell about is unverified, and one that it has stays missed. */
  lemma ClassificationIs(rows: seq<Row>, available: (int, string) -> Availability)
    ensures forall i :: 0 <= i < |rows| ==>
              ClassifyAll(rows, available)[i]
              == if !Asked(rows[i]) || available(i, rows[i].key.text) == Some(true) then rows[i]
                 else if available(i, rows[i].key.text) == Some(false) then rows[i].(status := BEYOND_CE)
                 else rows[i].(status := ORACLE_UNVERIFIED)
    ensures Renamed(rows, available, |rows|, BEYOND_CE) == Answered(rows, available, |rows|, Some(false))
    ensures Renamed(rows, available, |rows|, ORACLE_UNVERIFIED) == Answered(rows, available, |rows|, None)
  {
    ListsAre(rows, available, |rows|);
    hide Renamed, Answered;
    forall i | 0 <= i < |rows|
      ensures ClassifyAll(rows, available)[i]
              == if !Asked(rows[i]) || available(i, rows[i].key.text) == Some(true) then rows[i]
                 else if available(i, rows[i].key.text) == Some(false) then rows[i].(status := BEYOND_CE)
                 else rows[i].(status := ORACLE_UNVERIFIED)
    {
      StepIs(rows[i], i, available);
    }
  }

  lemma StepIs(row: Row, i: int, available: (int, string) -> Availability)
    ensures Classified(row, if row.key.Text? then available(i, row.key.text) else None)
            == if !Asked(row) || available(i, row.key.text) == Some(true) then row
               else if available(i, row.key.text) == Some(false) then row.(status := BEYOND_CE)
               else row.(status := ORACLE_UNVERIFIED)
  {
    if row.key.Text? {
      var answer := available(i, row.key.text);
      if answer.Some? {
        assert answer == if answer.value then Some(true) else Some(false);
      }
    }
  }

  lemma {:induction false} ListsAre(rows: seq<Row>, available: (int, string) -> Availability, n: nat)
    requires n <= |rows|
    ensures Renamed(rows, available, n, BEYOND_CE) == Answered(rows, available, n, Some(false))
    ensures Renamed(rows, available, n, ORACLE_UNVERIFIED) == Answered(rows, available, n, None)
  {
    if n > 0 {
      ListsAre(rows, available, n - 1);
    }
  }
}
