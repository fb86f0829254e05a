/** The whole-report gate: expectations, per-rule verdicts and the failure count
    (tools/oracle/parity.py:1645-2038 and 2087-2129). */
module Gate {
  import opened Orders
  import opened Counters

  // ---------------------------------------------------------------- inputs

  datatype Range = Range(startLine: int, startColumn: int, endLine: int, endColumn: int)

  datatype Finding = Finding(rule: string, file: string, message: string, range: Option<Range>)

  /** A field of an expectation; an absent field reads as `Nothing`, like null. */
  datatype Value = Nothing | Text(text: string) | Whole(n: int) | Truth(b: bool) | Other(truthy: bool)

  /** An entry of the expectation list; only the minimum tells absence from null. */
  datatype Raw = NoObject | Entry(key: Value, infra: Value, skip: Value, bad: Value, good: Value,
                                  minimum: Option<Value>, upstream: Value)

  datatype Context = Context(
    sonar: seq<Finding>, ours: seq<Finding>,
    infra: map<string, string>,
    catalog: Option<seq<string>>, files: Option<seq<string>>,
    enterprise: set<string>, native: Option<seq<string>>)

  // ---------------------------------------------------------------- outputs

  datatype Status =
    | PASS | ENTERPRISE_UNVERIFIED | UPSTREAM_UNVERIFIED
    | GOOD_FIRE | BOTH_MISS | SQ_MISS | OURS_MISS | BAD_MISMATCH
    | INVALID_EXPECTATION | INFRA | SKIPPED | INVALID_ARTIFACT | ORACLE_UNVERIFIED | BEYOND_CE

  datatype Evidence = Evidence(
    sonarBad: multiset<Finding>, oursBad: multiset<Finding>,
    sonarGood: multiset<Finding>, oursGood: multiset<Finding>,
    sonarOther: multiset<Finding>, oursOther: multiset<Finding>)

  datatype Row = Row(key: Value, status: Status, observed: Option<Status>, evidence: Option<Evidence>)

  function Terminal(key: Value, status: Status): Row {
    Row(key, status, None, None)
  }

  predicate IsFailure(status: Status) {
    status !in {PASS, ENTERPRISE_UNVERIFIED, UPSTREAM_UNVERIFIED}
  }

  function FailureCount(rows: seq<Row>): nat {
    if rows == [] then 0
    else FailureCount(rows[..|rows| - 1]) + if IsFailure(rows[|rows| - 1].status) then 1 else 0
  }

  // ------------------------------------------------------------ expectations

  datatype Expectation = Expectation(key: string, bad: string, good: string, minimum: int, upstream: bool)

  predicate IsTruthy(v: Value) {
    match v
    case Nothing => false
    case Text(text) => text != ""
    case Whole(n) => n != 0
    case Truth(b) => b
    case Other(truthy) => truthy
  }

  /** The characters that `str.strip` removes. */
  predicate IsSpace(c: char) {
    || 9 as char <= c <= 13 as char || 28 as char <= c <= 32 as char || c == 133 as char || c == 160 as char
    || c == 5760 as char || 8192 as char <= c <= 8202 as char || c == 8232 as char || c == 8233 as char
    || c == 8239 as char || c == 8287 as char || c == 12288 as char
  }

  predicate IsBlank(text: string) {
    forall i :: 0 <= i < |text| ==> IsSpace(text[i])
  }

  /** `str.replace`: every occurrence, from the left. */
  function ReplaceText(text: string, old_: string, new_: string): string
    requires old_ != ""
    decreases |text|
  {
    if |text| < |old_| then text
    else if text[..|old_|] == old_ then new_ + ReplaceText(text[|old_|..], old_, new_)
    else [text[0]] + ReplaceText(text[1..], old_, new_)
  }

  function GoodFile(bad: string, good: Value): Value {
    if good == Nothing then Text(ReplaceText(bad, "_bad", "_good")) else good
  }

  predicate Available(name: string, files: Option<seq<string>>) {
    files.None? || name in files.value
  }

  /** The bad and good fixtures, if both are named, differ and exist. */
  function Fixtures(raw: Raw, files: Option<seq<string>>): Option<(string, string)>
    requires raw.Entry?
  {
    if !raw.bad.Text? || raw.bad.text == "" then None
    else
      var bad, good := raw.bad.text, GoodFile(raw.bad.text, raw.good);
      if !good.Text? || good.text == "" || good.text == bad then None
      else if !Available(bad, files) || !Available(good.text, files) then None
      else Some((bad, good.text))
  }

  function Minimum(raw: Raw): Option<int>
    requires raw.Entry?
  {
    match raw.minimum
    case None => Some(1)
    case Some(Whole(n)) => if n < 1 then None else Some(n)
    case _ => None
  }

  predicate ValidUpstream(v: Value) {
    v == Nothing || (v.Text? && !IsBlank(v.text))
  }

  function InfraStatus(key: string, declared: Value, approved: map<string, string>): Status {
    if !declared.Text? || IsBlank(declared.text) then INVALID_EXPECTATION
    else if key !in approved || declared.text != approved[key] then INVALID_EXPECTATION
    else INFRA
  }

  predicate HasKey(raw: Raw) {
    raw.Entry? && raw.key.Text? && raw.key.text != ""
  }

  datatype Checked = Accepted(expectation: Expectation) | Refused(row: Row)

  /** An expectation whose key has been accepted as new. */
  function CheckKeyed(raw: Raw, context: Context): Checked
    requires HasKey(raw)
  {
    var key := raw.key.text;
    if context.catalog.Some? && key !in context.catalog.value then Refused(Terminal(raw.key, INVALID_EXPECTATION))
    else if raw.infra != Nothing then Refused(Terminal(raw.key, InfraStatus(key, raw.infra, context.infra)))
    else if IsTruthy(raw.skip) then Refused(Terminal(raw.key, SKIPPED))
    else
      var fixtures := Fixtures(raw, context.files);
      if fixtures.None? then Refused(Terminal(raw.key, INVALID_EXPECTATION))
      else
        var minimum := Minimum(raw);
        if minimum.None? || !ValidUpstream(raw.upstream) then Refused(Terminal(raw.key, INVALID_EXPECTATION))
        else Accepted(Expectation(key, fixtures.value.0, fixtures.value.1, minimum.value, raw.upstream.Text?))
  }

  function CheckExpectation(raw: Raw, seen: set<string>, context: Context): Checked {
    if raw.NoObject? then Refused(Terminal(Nothing, INVALID_EXPECTATION))
    else if !HasKey(raw) || raw.key.text in seen then Refused(Terminal(raw.key, INVALID_EXPECTATION))
    else CheckKeyed(raw, context)
  }

  /** Keys count as seen even when the expectation is refused afterwards. */
  function SeenAfter(raw: Raw, seen: set<string>): set<string> {
    if HasKey(raw) then seen + {raw.key.text} else seen
  }

  // ---------------------------------------------------------------- verdicts

  function Where(findings: seq<Finding>, keep: Finding -> bool): seq<Finding> {
    if findings == [] then []
    else (if keep(findings[0]) then [findings[0]] else []) + Where(findings[1..], keep)
  }

  function InFile(rule: string, file: string): Finding -> bool {
    (f: Finding) => f.rule == rule && f.file == file
  }

  function Elsewhere(rule: string, bad: string, good: string): Finding -> bool {
    (f: Finding) => f.rule == rule && f.file != bad && f.file != good
  }

  function OfRule(rule: string): Finding -> bool {
    (f: Finding) => f.rule == rule
  }

  function EvidenceFor(e: Expectation, context: Context): Evidence {
    Evidence(
      multiset(Where(context.sonar, InFile(e.key, e.bad))), multiset(Where(context.ours, InFile(e.key, e.bad))),
      multiset(Where(context.sonar, InFile(e.key, e.good))), multiset(Where(context.ours, InFile(e.key, e.good))),
      multiset(Where(context.sonar, Elsewhere(e.key, e.bad, e.good))), multiset(Where(context.ours, Elsewhere(e.key, e.bad, e.good))))
  }

  function UnverifiedStatus(evidence: Evidence, minimum: int, success: Status): Status {
    if evidence.oursGood != multiset{} then GOOD_FIRE
    else if |evidence.oursBad| < minimum then OURS_MISS
    else success
  }

  function StandardStatus(evidence: Evidence, minimum: int): Status {
    var sonarMissed, oursMissed := |evidence.sonarBad| < minimum, |evidence.oursBad| < minimum;
    if evidence.sonarGood != multiset{} || evidence.oursGood != multiset{} then GOOD_FIRE
    else if sonarMissed && oursMissed then BOTH_MISS
    else if sonarMissed then SQ_MISS
    else if oursMissed then OURS_MISS
    else if evidence.sonarBad + evidence.sonarGood + evidence.sonarOther
            != evidence.oursBad + evidence.oursGood + evidence.oursOther then BAD_MISMATCH
    else PASS
  }

  function ComparisonStatus(e: Expectation, evidence: Evidence, context: Context): Status {
    if e.upstream then UnverifiedStatus(evidence, e.minimum, UPSTREAM_UNVERIFIED)
    else if e.key in context.enterprise then UnverifiedStatus(evidence, e.minimum, ENTERPRISE_UNVERIFIED)
    else StandardStatus(evidence, e.minimum)
  }

  function ComparisonRow(e: Expectation, context: Context): Row {
    var evidence := EvidenceFor(e, context);
    Row(Text(e.key), ComparisonStatus(e, evidence, context), None, Some(evidence))
  }

  function MarkIncomplete(row: Row): Row {
    row.(status := ORACLE_UNVERIFIED, observed := Some(row.status))
  }

  function RowFor(raw: Raw, seen: set<string>, context: Context, incomplete: bool): Row {
    match CheckExpectation(raw, seen, context)
    case Refused(row) => row
    case Accepted(e) => if incomplete then MarkIncomplete(ComparisonRow(e, context)) else ComparisonRow(e, context)
  }

  function SeenIn(expected: seq<Raw>): set<string> {
    if expected == [] then {} else SeenAfter(expected[|expected| - 1], SeenIn(expected[..|expected| - 1]))
  }

  function ExpectationRows(expected: seq<Raw>, context: Context, incomplete: bool): seq<Row> {
    if expected == [] then []
    else
      var before := expected[..|expected| - 1];
      ExpectationRows(before, context, incomplete)
      + [RowFor(expected[|expected| - 1], SeenIn(before), context, incomplete)]
  }

  function Without(keys: seq<string>, seen: set<string>): seq<string> {
    if keys == [] then []
    else
      var last := keys[|keys| - 1];
      Without(keys[..|keys| - 1], seen) + if last in seen then [] else [last]
  }

  function AsText(): string -> string {
    (s: string) => s
  }

  function MissingRow(key: string): Row {
    Terminal(Text(key), INVALID_EXPECTATION)
  }

  /** Catalog keys without an expectation, sorted. */
  function MissingRows(catalog: seq<string>, seen: set<string>): seq<Row> {
    Map(MissingRow, Sort(ByText(AsText()), Without(catalog, seen)))
  }

  datatype Unexpected = Unexpected(rule: string, source: string, reason: string)

  /** What is wrong with a finding, if anything. */
  function Complaint(f: Finding, source: string, context: Context, catalog: seq<string>): Option<Unexpected> {
    var native := source == "hoonarqube" && context.native.Some? && f.rule in context.native.value;
    if f.rule !in catalog && !native then Some(Unexpected(f.rule, source, "rule absent from oracle contract"))
    else if !Available(f.file, context.files) then
      Some(Unexpected(f.rule, source, "finding references unknown fixture " + f.file))
    else None
  }

  function Complaints(findings: seq<Finding>, source: string, context: Context, catalog: seq<string>): seq<Unexpected> {
    if findings == [] then []
    else
      var c := Complaint(findings[|findings| - 1], source, context, catalog);
      Complaints(findings[..|findings| - 1], source, context, catalog) + if c.Some? then [c.value] else []
  }

  predicate UnexpectedLeq(a: Unexpected, b: Unexpected) {
    if a.rule != b.rule then TextLeq(a.rule, b.rule)
    else if a.source != b.source then TextLeq(a.source, b.source)
    else TextLeq(a.reason, b.reason)
  }

  function UnexpectedRow(u: Unexpected): Row {
    Terminal(Text(u.rule), INVALID_ARTIFACT)
  }

  function UnexpectedRows(context: Context, catalog: seq<string>): seq<Row> {
    Map(UnexpectedRow, Sort(UnexpectedLeq, Distinct(Complaints(context.sonar, "Sonar", context, catalog)
                                                    + Complaints(context.ours, "hoonarqube", context, catalog))))
  }

  function CatalogRows(expected: seq<Raw>, context: Context): seq<Row> {
    if context.catalog.None? then []
    else MissingRows(context.catalog.value, SeenIn(expected)) + UnexpectedRows(context, context.catalog.value)
  }

  function CompareReports(expected: seq<Raw>, context: Context, incomplete: bool): seq<Row> {
    var rows := ExpectationRows(expected, context, incomplete) + CatalogRows(expected, context);
    if incomplete && rows == [] then [Terminal(Nothing, ORACLE_UNVERIFIED)] else rows
  }

  // ------------------------------------------------------- what zero failures mean

  ghost predicate NoFailures(rows: seq<Row>) {
    forall i :: 0 <= i < |rows| ==> !IsFailure(rows[i].status)
  }

  lemma {:induction false} CountIsZero(rows: seq<Row>)
    ensures FailureCount(rows) == 0 <==> NoFailures(rows)
  {
    if rows != [] {
      var front := rows[..|rows| - 1];
      CountIsZero(front);
      assert rows == front + [rows[|rows| - 1]];
    }
  }

  /** One rule meets its contract. Rules whose upstream behaviour is not verified are held to local
      evidence only; for all others both analyzers report the same findings, wherever they are. */
  ghost predicate Holds(e: Expectation, context: Context) {
    if e.upstream || e.key in context.enterprise then
      && (forall f :: f in context.ours && f.rule == e.key ==> f.file != e.good)
      && |Where(context.ours, InFile(e.key, e.bad))| >= e.minimum
    else
      && (forall f :: f in context.sonar + context.ours && f.rule == e.key ==> f.file != e.good)
      && |Where(context.sonar, InFile(e.key, e.bad))| >= e.minimum
      && multiset(Where(context.sonar, OfRule(e.key))) == multiset(Where(context.ours, OfRule(e.key)))
  }

  /** Every finding is about a fixture and a catalog rule, or is ours for a declared native rule. */
  ghost predicate Expected(context: Context, catalog: seq<string>) {
    && (forall f :: f in context.sonar ==> f.rule in catalog && Available(f.file, context.files))
    && (forall f :: f in context.ours ==>
          && (f.rule in catalog || (context.native.Some? && f.rule in context.native.value))
          && Available(f.file, context.files))
  }

  /** The good fixture is named, or the bad one's name says what it is called. */
  ghost predicate NamesGood(good: Value, bad: string, name: string) {
    good == Text(name) || (good == Nothing && name == ReplaceText(bad, "_bad", "_good"))
  }

  /** An entry that can be compared: a catalog rule, two different fixtures that exist, a positive
      minimum, and nothing that takes the rule out of the comparison. */
  ghost predicate WellFormed(raw: Raw, bad: string, good: string, minimum: int, context: Context) {
    && HasKey(raw) && (context.catalog.Some? ==> raw.key.text in context.catalog.value)
    && raw.infra == Nothing && !IsTruthy(raw.skip)
    && raw.bad == Text(bad) && NamesGood(raw.good, bad, good)
    && bad != "" && good != "" && bad != good
    && Available(bad, context.files) && Available(good, context.files)
    && (raw.minimum == Some(Whole(minimum)) || (raw.minimum == None && minimum == 1)) && minimum >= 1
    && (raw.upstream == Nothing
        || (raw.upstream.Text? && exists i :: 0 <= i < |raw.upstream.text| && !IsSpace(raw.upstream.text[i])))
  }

  ghost predicate EntryHolds(raw: Raw, context: Context) {
    exists bad, good, minimum :: WellFormed(raw, bad, good, minimum, context)
      && Holds(Expectation(raw.key.text, bad, good, minimum, raw.upstream.Text?), context)
  }

  /** Each entry is a well-formed expectation with a key of its own, whose rule holds. */
  ghost predicate EntriesHold(expected: seq<Raw>, context: Context) {
    (forall i :: 0 <= i < |expected| ==> EntryHolds(expected[i], context)) && KeysDiffer(expected)
  }

  ghost predicate KeysDiffer(expected: seq<Raw>) {
    forall i, j :: 0 <= i < j < |expected| ==> expected[i].Entry? && expected[j].Entry? && expected[i].key != expected[j].key
  }

  ghost predicate CatalogCovered(expected: seq<Raw>, catalog: seq<string>) {
    forall k :: k in catalog ==> exists i :: 0 <= i < |expected| && expected[i].Entry? && expected[i].key == Text(k)
  }

  lemma {:induction false} WhereCounts(findings: seq<Finding>, keep: Finding -> bool, x: Finding)
    ensures multiset(Where(findings, keep))[x] == if keep(x) then multiset(findings)[x] else 0
  {
    if findings != [] {
      WhereCounts(findings[1..], keep, x);
      assert findings == [findings[0]] + findings[1..];
    }
  }

  lemma WhereEmpty(findings: seq<Finding>, keep: Finding -> bool)
    ensures multiset(Where(findings, keep)) == multiset{} <==> forall f :: f in findings ==> !keep(f)
  {
    var kept := multiset(Where(findings, keep));
    if kept == multiset{} {
      forall f | f in findings ensures !keep(f) {
        WhereCounts(findings, keep, f);
        assert f in multiset(findings);
      }
    }
    if forall f :: f in findings ==> !keep(f) {
      forall x: Finding ensures kept[x] == 0 {
        WhereCounts(findings, keep, x);
        assert x in multiset(findings) <==> x in findings;
      }
    }
  }

  /** The three counters of a rule together are all its findings: bad, good and other files are
      different files. */
  lemma EvidenceIsAll(findings: seq<Finding>, rule: string, bad: string, good: string)
    requires bad != good
    ensures multiset(Where(findings, InFile(rule, bad))) + multiset(Where(findings, InFile(rule, good)))
            + multiset(Where(findings, Elsewhere(rule, bad, good)))
            == multiset(Where(findings, OfRule(rule)))
  {
    var a, b, c := Where(findings, InFile(rule, bad)), Where(findings, InFile(rule, good)), Where(findings, Elsewhere(rule, bad, good));
    var all := multiset(Where(findings, OfRule(rule)));
    forall x: Finding ensures (multiset(a) + multiset(b) + multiset(c))[x] == all[x] {
      WhereCounts(findings, InFile(rule, bad), x);
      WhereCounts(findings, InFile(rule, good), x);
      WhereCounts(findings, Elsewhere(rule, bad, good), x);
      WhereCounts(findings, OfRule(rule), x);
    }
  }

  lemma AcceptedIsWellFormed(raw: Raw, context: Context)
    requires HasKey(raw) && CheckKeyed(raw, context).Accepted?
    ensures var e := CheckKeyed(raw, context).expectation; e.key == raw.key.text && e.bad != e.good && e.minimum >= 1
  {
    hide IsBlank, ReplaceText, Available;
  }

  lemma RefusedFails(raw: Raw, seen: set<string>, context: Context)
    requires CheckExpectation(raw, seen, context).Refused?
    ensures IsFailure(CheckExpectation(raw, seen, context).row.status)
  {
    hide IsBlank, ReplaceText, Available, Fixtures, Minimum;
  }

  lemma GoodFileClear(findings: seq<Finding>, rule: string, good: string)
    ensures multiset(Where(findings, InFile(rule, good))) == multiset{}
            <==> forall f :: f in findings && f.rule == rule ==> f.file != good
  {
    WhereEmpty(findings, InFile(rule, good));
  }

  lemma EvidenceMeans(e: Expectation, context: Context)
    requires e.bad != e.good
    ensures var v := EvidenceFor(e, context);
            && (v.oursGood == multiset{} <==> forall f :: f in context.ours && f.rule == e.key ==> f.file != e.good)
            && (v.sonarGood == multiset{} <==> forall f :: f in context.sonar && f.rule == e.key ==> f.file != e.good)
            && |v.sonarBad| == |Where(context.sonar, InFile(e.key, e.bad))|
            && |v.oursBad| == |Where(context.ours, InFile(e.key, e.bad))|
            && v.sonarBad + v.sonarGood + v.sonarOther == multiset(Where(context.sonar, OfRule(e.key)))
            && v.oursBad + v.oursGood + v.oursOther == multiset(Where(context.ours, OfRule(e.key)))
  {
    hide Where;
    GoodFileClear(context.ours, e.key, e.good);
    GoodFileClear(context.sonar, e.key, e.good);
    EvidenceIsAll(context.sonar, e.key, e.bad, e.good);
    EvidenceIsAll(context.ours, e.key, e.bad, e.good);
  }

  /** A comparison row is no failure exactly when its rule holds. */
  lemma StatusMeansHolds(e: Expectation, context: Context)
    requires e.bad != e.good
    ensures !IsFailure(ComparisonRow(e, context).status) <==> Holds(e, context)
  {
    hide Where, EvidenceFor, OfRule, InFile;
    EvidenceMeans(e, context);
    BadCountsAgree(context.sonar, context.ours, e.key, e.bad);
    assert forall f :: f in context.sonar + context.ours <==> f in context.sonar || f in context.ours;
  }

  /** Equal findings of a rule have equal counts in the bad fixture. */
  lemma BadCountsAgree(a: seq<Finding>, b: seq<Finding>, rule: string, bad: string)
    ensures multiset(Where(a, OfRule(rule))) == multiset(Where(b, OfRule(rule))) ==>
              |Where(a, InFile(rule, bad))| == |Where(b, InFile(rule, bad))|
  {
    var p, q := multiset(Where(a, OfRule(rule))), multiset(Where(b, OfRule(rule)));
    if p == q {
      var x, y := multiset(Where(a, InFile(rule, bad))), multiset(Where(b, InFile(rule, bad)));
      forall f: Finding ensures x[f] == y[f] {
        WhereCounts(a, InFile(rule, bad), f);
        WhereCounts(b, InFile(rule, bad), f);
        WhereCounts(a, OfRule(rule), f);
        WhereCounts(b, OfRule(rule), f);
        assert p[f] == q[f];
      }
      assert x == y;
      assert |x| == |Where(a, InFile(rule, bad))| && |y| == |Where(b, InFile(rule, bad))|;
    }
  }

  lemma {:induction false} SeenKeys(expected: seq<Raw>)
    ensures forall k :: k in SeenIn(expected) <==> exists i :: 0 <= i < |expected| && HasKey(expected[i]) && expected[i].key.text == k
  {
    if expected != [] {
      var front, last := expected[..|expected| - 1], expected[|expected| - 1];
      SeenKeys(front);
      forall k ensures k in SeenIn(expected) <==> exists i :: 0 <= i < |expected| && HasKey(expected[i]) && expected[i].key.text == k {
        if k in SeenIn(front) {
          var i :| 0 <= i < |front| && HasKey(front[i]) && front[i].key.text == k;
          assert expected[i] == front[i];
        }
        if i :| 0 <= i < |expected| && HasKey(expected[i]) && expected[i].key.text == k {
          if i < |front| {
            assert front[i] == expected[i];
          }
        }
      }
    }
  }

  /** An entry is accepted as an expectation exactly when it is well formed. */
  lemma AcceptedMeansWellFormed(raw: Raw, bad: string, good: string, minimum: int, context: Context)
    requires HasKey(raw)
    ensures CheckKeyed(raw, context) == Accepted(Expectation(raw.key.text, bad, good, minimum, raw.upstream.Text?))
            <==> WellFormed(raw, bad, good, minimum, context)
  {
    hide ReplaceText, Available, IsTruthy, IsSpace;
  }

  lemma EntryMeansAccepted(raw: Raw, context: Context)
    ensures EntryHolds(raw, context)
            <==> HasKey(raw) && CheckKeyed(raw, context).Accepted? && Holds(CheckKeyed(raw, context).expectation, context)
  {
    hide CheckKeyed, Holds;
    if EntryHolds(raw, context) {
      var bad, good, minimum :| WellFormed(raw, bad, good, minimum, context)
        && Holds(Expectation(raw.key.text, bad, good, minimum, raw.upstream.Text?), context);
      AcceptedMeansWellFormed(raw, bad, good, minimum, context);
    }
    if HasKey(raw) && CheckKeyed(raw, context).Accepted? && Holds(CheckKeyed(raw, context).expectation, context) {
      var e := CheckKeyed(raw, context).expectation;
      AcceptedIsWellFormed(raw, context);
      AcceptedUpstream(raw, context);
      AcceptedMeansWellFormed(raw, e.bad, e.good, e.minimum, context);
    }
  }

  /** The row of one entry is no failure exactly when its key is new, the entry is well formed and its
      rule holds. */
  lemma RowMeansEntry(raw: Raw, seen: set<string>, context: Context)
    ensures !IsFailure(RowFor(raw, seen, context, false).status)
            <==> EntryHolds(raw, context) && raw.key.text !in seen
  {
    hide CheckKeyed, ComparisonRow, Holds, EntryHolds;
    EntryMeansAccepted(raw, context);
    if CheckExpectation(raw, seen, context).Refused? {
      RefusedFails(raw, seen, context);
    } else {
      AcceptedIsWellFormed(raw, context);
      StatusMeansHolds(CheckKeyed(raw, context).expectation, context);
    }
  }

  lemma EntryHasKey(raw: Raw, context: Context)
    requires EntryHolds(raw, context)
    ensures HasKey(raw)
  {
  }

  lemma {:induction false} ExpectationRowsMeanEntries(expected: seq<Raw>, context: Context)
    ensures NoFailures(ExpectationRows(expected, context, false)) <==> EntriesHold(expected, context)
  {
    hide EntryHolds, RowFor, IsFailure, EntriesHold;
    if expected != [] {
      var front, last := expected[..|expected| - 1], expected[|expected| - 1];
      ExpectationRowsMeanEntries(front, context);
      RowMeansEntry(last, SeenIn(front), context);
      LastRow(ExpectationRows(front, context, false), RowFor(last, SeenIn(front), context, false));
      EntriesSplit(expected, context);
      if EntryHolds(last, context) {
        EntryHasKey(last, context);
        NewKeyUnseen(front, last);
      }
    } else {
      NoEntries(context);
    }
  }

  lemma NoEntries(context: Context)
    ensures EntriesHold([], context)
  {
  }

  lemma LastRow(rows: seq<Row>, row: Row)
    ensures NoFailures(rows + [row]) <==> NoFailures(rows) && !IsFailure(row.status)
  {
    hide IsFailure;
    var all := rows + [row];
    if NoFailures(all) {
      forall i | 0 <= i < |rows| ensures !IsFailure(rows[i].status) {
        assert all[i] == rows[i];
      }
      assert all[|rows|] == row;
    }
  }

  ghost predicate KeyIsNew(front: seq<Raw>, raw: Raw) {
    raw.Entry? && forall i :: 0 <= i < |front| && HasKey(front[i]) ==> front[i].key != raw.key
  }

  lemma NewKeyUnseen(front: seq<Raw>, raw: Raw)
    requires HasKey(raw)
    ensures KeyIsNew(front, raw) <==> raw.key.text !in SeenIn(front)
  {
    SeenKeys(front);
  }

  lemma EntriesSplit(expected: seq<Raw>, context: Context)
    requires expected != []
    ensures var front, last := expected[..|expected| - 1], expected[|expected| - 1];
            EntriesHold(expected, context) <==> EntriesHold(front, context) && EntryHolds(last, context) && KeyIsNew(front, last)
  {
    hide EntryHolds, HasKey;
    var n := |expected| - 1;
    var front, last := expected[..n], expected[n];
    assert expected == front + [last];
    if EntriesHold(expected, context) {
      EntriesLeft(front, last, context);
    }
    if EntriesHold(front, context) && EntryHolds(last, context) && KeyIsNew(front, last) {
      EntriesJoin(front, last, context);
    }
  }

  lemma EntriesLeft(front: seq<Raw>, last: Raw, context: Context)
    requires EntriesHold(front + [last], context)
    ensures EntriesHold(front, context) && EntryHolds(last, context) && KeyIsNew(front, last)
  {
    hide EntryHolds, KeysDiffer, KeyIsNew;
    var all := front + [last];
    assert EntryHolds(all[|front|], context);
    EntryHasKey(last, context);
    KeysLeft(front, last);
    forall i | 0 <= i < |front| ensures EntryHolds(front[i], context) {
      assert front[i] == all[i];
    }
  }

  lemma KeysLeft(front: seq<Raw>, last: Raw)
    requires KeysDiffer(front + [last]) && HasKey(last)
    ensures KeysDiffer(front) && KeyIsNew(front, last)
  {
    var all := front + [last];
    assert all[|front|] == last && forall i :: 0 <= i < |front| ==> front[i] == all[i];
    forall i | 0 <= i < |front| ensures front[i].Entry? && front[i].key != last.key {
      assert all[i].Entry? && all[i].key != all[|front|].key;
    }
    forall i, j | 0 <= i < j < |front| ensures front[i].Entry? && front[j].Entry? && front[i].key != front[j].key {
      assert all[i].Entry? && all[j].Entry? && all[i].key != all[j].key;
    }
  }

  lemma EntriesJoin(front: seq<Raw>, last: Raw, context: Context)
    requires EntriesHold(front, context) && EntryHolds(last, context) && KeyIsNew(front, last)
    ensures EntriesHold(front + [last], context)
  {
    hide EntryHolds;
    var all := front + [last];
    EntriesHaveKeys(front, context);
    forall i, j | 0 <= i < j < |all| ensures all[i].Entry? && all[j].Entry? && all[i].key != all[j].key {
      assert all[i] == front[i];
      assert j < |front| ==> all[j] == front[j];
    }
  }

  lemma {:induction false} WithoutKeys(keys: seq<string>, seen: set<string>)
    ensures forall k :: k in Without(keys, seen) <==> k in keys && k !in seen
  {
    if keys != [] {
      var front, last := keys[..|keys| - 1], keys[|keys| - 1];
      WithoutKeys(front, seen);
      assert keys == front + [last];
    }
  }

  lemma MissingRowsMeanKeys(catalog: seq<string>, seen: set<string>)
    ensures forall i :: 0 <= i < |MissingRows(catalog, seen)| ==> IsFailure(MissingRows(catalog, seen)[i].status)
    ensures MissingRows(catalog, seen) == [] <==> forall k :: k in catalog ==> k in seen
  {
    WithoutKeys(catalog, seen);
    var missing := Without(catalog, seen);
    SortSameElements(ByText(AsText()), missing);
    if missing != [] {
      assert missing[0] in missing;
    }
  }

  lemma {:induction false} ComplaintsAbout(findings: seq<Finding>, source: string, context: Context, catalog: seq<string>)
    ensures Complaints(findings, source, context, catalog) == []
            <==> forall i :: 0 <= i < |findings| ==> Complaint(findings[i], source, context, catalog).None?
  {
    hide Complaint;
    if findings != [] {
      ComplaintsAbout(findings[..|findings| - 1], source, context, catalog);
    }
  }

  lemma ComplaintMeans(f: Finding, source: string, context: Context, catalog: seq<string>)
    ensures Complaint(f, source, context, catalog).None?
            <==> && (f.rule in catalog || (source == "hoonarqube" && context.native.Some? && f.rule in context.native.value))
                 && Available(f.file, context.files)
  {
  }

  lemma UnexpectedRowsMeanFindings(context: Context, catalog: seq<string>)
    ensures forall i :: 0 <= i < |UnexpectedRows(context, catalog)| ==> IsFailure(UnexpectedRows(context, catalog)[i].status)
    ensures UnexpectedRows(context, catalog) == [] <==> Expected(context, catalog)
  {
    hide Complaint, Complaints, Available, Expected;
    ComplaintsAbout(context.sonar, "Sonar", context, catalog);
    ComplaintsAbout(context.ours, "hoonarqube", context, catalog);
    var complaints := Complaints(context.sonar, "Sonar", context, catalog) + Complaints(context.ours, "hoonarqube", context, catalog);
    SortSameElements(UnexpectedLeq, Distinct(complaints));
    if complaints != [] {
      assert complaints[0] in Distinct(complaints);
    }
    SourcesDiffer();
    ExpectedByPosition(context, catalog);
  }

  lemma SourcesDiffer()
    ensures "Sonar" != "hoonarqube"
  {
    assert "Sonar"[0] != "hoonarqube"[0];
  }

  lemma ExpectedByPosition(context: Context, catalog: seq<string>)
    ensures Expected(context, catalog)
            <==> && (forall i :: 0 <= i < |context.sonar| ==> Complaint(context.sonar[i], "Sonar", context, catalog).None?)
                 && (forall i :: 0 <= i < |context.ours| ==> Complaint(context.ours[i], "hoonarqube", context, catalog).None?)
  {
    hide Complaint, Available;
    SourcesDiffer();
    forall i | 0 <= i < |context.sonar|
      ensures Complaint(context.sonar[i], "Sonar", context, catalog).None?
              <==> context.sonar[i].rule in catalog && Available(context.sonar[i].file, context.files)
    {
      ComplaintMeans(context.sonar[i], "Sonar", context, catalog);
    }
    forall i | 0 <= i < |context.ours|
      ensures Complaint(context.ours[i], "hoonarqube", context, catalog).None?
              <==> && (context.ours[i].rule in catalog || (context.native.Some? && context.ours[i].rule in context.native.value))
                   && Available(context.ours[i].file, context.files)
    {
      ComplaintMeans(context.ours[i], "hoonarqube", context, catalog);
    }
  }

  lemma NoFailuresConcat(a: seq<Row>, b: seq<Row>)
    ensures NoFailures(a + b) <==> NoFailures(a) && NoFailures(b)
  {
    hide IsFailure;
    var c := a + b;
    if NoFailures(c) {
      forall i | 0 <= i < |a| ensures !IsFailure(a[i].status) {
        assert c[i] == a[i];
      }
      forall i | 0 <= i < |b| ensures !IsFailure(b[i].status) {
        assert c[|a| + i] == b[i];
      }
    }
  }

  lemma CatalogRowsMeanCoverage(expected: seq<Raw>, context: Context)
    ensures NoFailures(CatalogRows(expected, context))
            <==> context.catalog.Some? ==>
                   && (forall k :: k in context.catalog.value ==> k in SeenIn(expected))
                   && Expected(context, context.catalog.value)
  {
    hide MissingRows, UnexpectedRows, IsFailure, Expected, SeenIn;
    if context.catalog.Some? {
      var missing := MissingRows(context.catalog.value, SeenIn(expected));
      var unexpected := UnexpectedRows(context, context.catalog.value);
      MissingRowsMeanKeys(context.catalog.value, SeenIn(expected));
      UnexpectedRowsMeanFindings(context, context.catalog.value);
      NoFailuresConcat(missing, unexpected);
      if missing != [] {
        assert IsFailure(missing[0].status);
      }
      if unexpected != [] {
        assert IsFailure(unexpected[0].status);
      }
    }
  }

  lemma CoverageByKeys(expected: seq<Raw>, catalog: seq<string>)
    requires forall i :: 0 <= i < |expected| ==> HasKey(expected[i])
    ensures CatalogCovered(expected, catalog) <==> forall k :: k in catalog ==> k in SeenIn(expected)
  {
    SeenKeys(expected);
    if forall k :: k in catalog ==> k in SeenIn(expected) {
      forall k | k in catalog ensures exists i :: 0 <= i < |expected| && expected[i].Entry? && expected[i].key == Text(k) {
        var i :| 0 <= i < |expected| && HasKey(expected[i]) && expected[i].key.text == k;
        assert expected[i].key == Text(k);
      }
    }
    if CatalogCovered(expected, catalog) {
      forall k | k in catalog ensures k in SeenIn(expected) {
        var i :| 0 <= i < |expected| && expected[i].Entry? && expected[i].key == Text(k);
        assert HasKey(expected[i]) && expected[i].key.text == k;
      }
    }
  }

  /** An incomplete native report can never come out clean. */
  lemma {:induction false} IncompleteFails(expected: seq<Raw>, context: Context)
    ensures forall i :: 0 <= i < |ExpectationRows(expected, context, true)| ==>
              IsFailure(ExpectationRows(expected, context, true)[i].status)
    ensures |ExpectationRows(expected, context, true)| == |expected|
  {
    hide CheckExpectation, ComparisonRow;
    if expected != [] {
      var front, last := expected[..|expected| - 1], expected[|expected| - 1];
      IncompleteFails(front, context);
      if CheckExpectation(last, SeenIn(front), context).Refused? {
        RefusedFails(last, SeenIn(front), context);
      }
    }
  }

  lemma CatalogRowsFail(expected: seq<Raw>, context: Context)
    ensures forall i :: 0 <= i < |CatalogRows(expected, context)| ==> IsFailure(CatalogRows(expected, context)[i].status)
  {
    hide MissingRows, UnexpectedRows, IsFailure, SeenIn;
    if context.catalog.Some? {
      MissingRowsMeanKeys(context.catalog.value, SeenIn(expected));
      UnexpectedRowsMeanFindings(context, context.catalog.value);
    }
  }

  /** The gate is exact. There are no failures if and only if the native report is complete, every
      entry is a well-formed expectation with a key of its own whose rule holds, and, given a
      catalog, the entries cover it and no finding is unexpected. */
  lemma GateIsExact(expected: seq<Raw>, context: Context, incomplete: bool)
    ensures FailureCount(CompareReports(expected, context, incomplete)) == 0
            <==> && !incomplete
                 && EntriesHold(expected, context)
                 && (context.catalog.Some? ==>
                       CatalogCovered(expected, context.catalog.value) && Expected(context, context.catalog.value))
  {
    hide ExpectationRows, CatalogRows, EntriesHold, CatalogCovered, Expected, IsFailure, FailureCount;
    var rows := CompareReports(expected, context, incomplete);
    CountIsZero(rows);
    NoFailuresConcat(ExpectationRows(expected, context, incomplete), CatalogRows(expected, context));
    if incomplete {
      IncompleteIsDirty(expected, context);
    } else {
      ExpectationRowsMeanEntries(expected, context);
      CatalogRowsMeanCoverage(expected, context);
      if EntriesHold(expected, context) && context.catalog.Some? {
        EntriesHaveKeys(expected, context);
        CoverageByKeys(expected, context.catalog.value);
      }
    }
  }

  lemma EntriesHaveKeys(expected: seq<Raw>, context: Context)
    requires EntriesHold(expected, context)
    ensures forall i :: 0 <= i < |expected| ==> HasKey(expected[i])
  {
    hide EntryHolds;
    forall i | 0 <= i < |expected| ensures HasKey(expected[i]) {
      EntryHasKey(expected[i], context);
    }
  }

  lemma IncompleteIsDirty(expected: seq<Raw>, context: Context)
    ensures !NoFailures(CompareReports(expected, context, true))
  {
    hide ExpectationRows, CatalogRows;
    var rows := CompareReports(expected, context, true);
    IncompleteFails(expected, context);
    CatalogRowsFail(expected, context);
    assert IsFailure(rows[0].status);
  }

  // -------------------------------------------------- the reports as a whole

  /** A rule whose row says PASS has equal findings in both reports, none of them in its good
      fixture. */
  lemma PassMeansEqual(e: Expectation, context: Context)
    requires e.bad != e.good && ComparisonRow(e, context).status == PASS
    ensures multiset(Where(context.sonar, OfRule(e.key))) == multiset(Where(context.ours, OfRule(e.key)))
    ensures forall f :: f in context.sonar + context.ours && f.rule == e.key ==> f.file != e.good
  {
    hide Where, EvidenceFor, OfRule, InFile;
    EvidenceMeans(e, context);
  }

  function InCatalog(catalog: seq<string>): Finding -> bool {
    (f: Finding) => f.rule in catalog
  }

  /** A rule that is not held against upstream: it needs another edition, or its entry says so. */
  ghost predicate Excused(rule: string, expected: seq<Raw>, context: Context) {
    || rule in context.enterprise
    || exists i :: 0 <= i < |expected| && expected[i].Entry? && expected[i].key == Text(rule) && expected[i].upstream.Text?
  }

  /** The catalog rules that both analyzers are held to. */
  ghost function Compared(expected: seq<Raw>, context: Context): Finding -> bool
    requires context.catalog.Some?
  {
    (f: Finding) => f.rule in context.catalog.value && !Excused(f.rule, expected, context)
  }

  lemma ComparedEntryEqual(raw: Raw, context: Context, f: Finding)
    requires EntryHolds(raw, context)
    requires !raw.upstream.Text? && raw.key == Text(f.rule) && f.rule !in context.enterprise
    ensures multiset(context.sonar)[f] == multiset(context.ours)[f]
  {
    hide Where, WellFormed;
    WhereCounts(context.sonar, OfRule(f.rule), f);
    WhereCounts(context.ours, OfRule(f.rule), f);
  }

  lemma AcceptedUpstream(raw: Raw, context: Context)
    requires HasKey(raw) && CheckKeyed(raw, context).Accepted?
    ensures CheckKeyed(raw, context).expectation.upstream == raw.upstream.Text?
  {
    hide IsBlank, ReplaceText, Available;
  }

  /** Zero failures speak of the complete reports, whichever rules are excused: the two reports are
      the same multiset of findings on all catalog rules but those, Sonar reports nothing outside the
      catalog, and what else the native report holds belongs to declared native rules. */
  lemma CleanGateMeansEqualReports(expected: seq<Raw>, context: Context, incomplete: bool)
    requires context.catalog.Some? && FailureCount(CompareReports(expected, context, incomplete)) == 0
    ensures !incomplete
    ensures multiset(Where(context.sonar, Compared(expected, context))) == multiset(Where(context.ours, Compared(expected, context)))
    ensures forall f :: f in context.sonar ==> f.rule in context.catalog.value
    ensures forall f :: f in context.ours && f.rule !in context.catalog.value ==>
              context.native.Some? && f.rule in context.native.value
  {
    hide CompareReports, EntryHolds, Where, FailureCount, Available;
    GateIsExact(expected, context, incomplete);
    var a, b := multiset(Where(context.sonar, Compared(expected, context))), multiset(Where(context.ours, Compared(expected, context)));
    forall f: Finding ensures a[f] == b[f] {
      WhereCounts(context.sonar, Compared(expected, context), f);
      WhereCounts(context.ours, Compared(expected, context), f);
      if Compared(expected, context)(f) {
        var i :| 0 <= i < |expected| && expected[i].Entry? && expected[i].key == Text(f.rule);
        ComparedEntryEqual(expected[i], context, f);
      }
    }
    assert a == b;
  }

  /** Without excused rules, the catalog part of the native report is the whole Sonar report. */
  lemma CleanGateWithoutExcuses(expected: seq<Raw>, context: Context, incomplete: bool)
    requires context.catalog.Some? && FailureCount(CompareReports(expected, context, incomplete)) == 0
    requires forall k :: k in context.catalog.value ==> !Excused(k, expected, context)
    ensures multiset(context.sonar) == multiset(Where(context.ours, InCatalog(context.catalog.value)))
  {
    hide CompareReports, Where, FailureCount, Excused;
    CleanGateMeansEqualReports(expected, context, incomplete);
    var compared := Compared(expected, context);
    var a, b := multiset(context.sonar), multiset(Where(context.ours, InCatalog(context.catalog.value)));
    assert multiset(Where(context.sonar, compared)) == multiset(Where(context.ours, compared));
    forall f: Finding ensures a[f] == b[f] {
      WhereCounts(context.sonar, compared, f);
      WhereCounts(context.ours, compared, f);
      WhereCounts(context.ours, InCatalog(context.catalog.value), f);
      assert f in a ==> f in context.sonar;
    }
    assert a == b;
  }

  // -------------------------------------------------------- later classification

  /** What a look at the server says about a missed rule: no such rule, not known, or there. */
  type Availability = Option<bool>

  function Classified(row: Row, available: Availability): Row {
    if row.status !in {SQ_MISS, BOTH_MISS} || !row.key.Text? then row
    else if available == Some(false) then row.(status := BEYOND_CE)
    else if available == None then row.(status := ORACLE_UNVERIFIED)
    else row
  }

  function ClassifyAll(rows: seq<Row>, available: (int, string) -> Availability): (after: seq<Row>)
    ensures |after| == |rows|
    ensures forall i :: 0 <= i < |rows| ==>
              after[i] == Classified(rows[i], if rows[i].key.Text? then available(i, rows[i].key.text) else None)
  {
    seq(|rows|, i requires 0 <= i < |rows| =>
      Classified(rows[i], if rows[i].key.Text? then available(i, rows[i].key.text) else None))
  }

  /** The keys of the rows from the first to the `n`th that become `status`. */
  function Renamed(rows: seq<Row>, available: (int, string) -> Availability, n: nat, status: Status): seq<string>
    requires n <= |rows|
  {
    if n == 0 then []
    else
      var row, after := rows[n - 1], ClassifyAll(rows, available)[n - 1];
      Renamed(rows, available, n - 1, status)
      + if row.key.Text? && after != row && after.status == status then [row.key.text] else []
  }

  /** Classification never turns a failure green, nor anything else red: row by row, what failed
      still fails and what did not is untouched. */
  lemma {:induction false} ClassificationKeepsFailures(rows: seq<Row>, available: (int, string) -> Availability)
    ensures FailureCount(ClassifyAll(rows, available)) == FailureCount(rows)
    ensures forall i :: 0 <= i < |rows| ==>
              && (IsFailure(ClassifyAll(rows, available)[i].status) <==> IsFailure(rows[i].status))
              && (rows[i].status !in {SQ_MISS, BOTH_MISS} ==> ClassifyAll(rows, available)[i] == rows[i])
  {
    SameFailures(rows, ClassifyAll(rows, available));
  }

  lemma {:induction false} SameFailures(a: seq<Row>, b: seq<Row>)
    requires |a| == |b| && forall i :: 0 <= i < |a| ==> (IsFailure(a[i].status) <==> IsFailure(b[i].status))
    ensures FailureCount(a) == FailureCount(b)
  {
    hide IsFailure;
    if a != [] {
      SameFailures(a[..|a| - 1], b[..|b| - 1]);
    }
  }

  /** What becomes of one row, and of the two lists with it. */
  lemma ClassifyStep(rows: seq<Row>, available: (int, string) -> Availability, i: nat)
    requires i < |rows|
    ensures var row, after := rows[i], ClassifyAll(rows, available)[i];
            && after == Classified(row, if row.key.Text? then available(i, row.key.text) else None)
            && forall status :: Renamed(rows, available, i + 1, status)
                 == Renamed(rows, available, i, status)
                    + if row.key.Text? && after != row && after.status == status then [row.key.text] else []
  {
    hide Classified;
  }

  /** Rewrites the statuses of missed rules in place. The server is asked once for each such row. */
  method ClassifySqMisses(rows: array<Row>, available: (int, string) -> Availability)
    returns (beyond: seq<string>, unverified: seq<string>)
    modifies rows
    ensures rows[..] == ClassifyAll(old(rows[..]), available)
    ensures beyond == Renamed(old(rows[..]), available, rows.Length, BEYOND_CE)
    ensures unverified == Renamed(old(rows[..]), available, rows.Length, ORACLE_UNVERIFIED)
  {
    hide ClassifyAll, Renamed;
    ghost var before := rows[..];
    ghost var after := ClassifyAll(before, available);
    beyond, unverified := [], [];
    NothingRenamed(before, available);
    for i := 0 to rows.Length
      invariant forall k :: 0 <= k < i ==> rows[k] == after[k]
      invariant forall k :: i <= k < rows.Length ==> rows[k] == before[k]
      invariant beyond == Renamed(before, available, i, BEYOND_CE)
      invariant unverified == Renamed(before, available, i, ORACLE_UNVERIFIED)
    {
      var row := rows[i];
      ClassifyStep(before, available, i);
      if row.status !in {SQ_MISS, BOTH_MISS} || !row.key.Text? {
        continue;
      }
      var answer := available(i, row.key.text);
      if answer == Some(false) {
        rows[i] := row.(status := BEYOND_CE);
        beyond := beyond + [row.key.text];
      } else if answer == None {
        rows[i] := row.(status := ORACLE_UNVERIFIED);
        unverified := unverified + [row.key.text];
      }
    }
  }

  lemma NothingRenamed(rows: seq<Row>, available: (int, string) -> Availability)
    ensures forall status :: Renamed(rows, available, 0, status) == []
  {
  }

  // ---------------------------------------------------------------- the loop

  method Compare(expected: seq<Raw>, context: Context, incomplete: bool) returns (rows: seq<Row>)
    ensures rows == CompareReports(expected, context, incomplete)
  {
    hide RowFor, CheckExpectation, UnexpectedRows, Sort, SeenAfter, Without;
    var seen: set<string> := {};
    rows := [];
    for i := 0 to |expected|
      invariant rows == ExpectationRows(expected[..i], context, incomplete)
      invariant seen == SeenIn(expected[..i])
    {
      var row;
      row, seen := CompareOne(expected[i], seen, context, incomplete);
      rows := rows + [row];
      assert expected[..i + 1][..i] == expected[..i];
    }
    assert expected[..|expected|] == expected;
    ghost var entries := rows;
    if context.catalog.Some? {
      var uncovered := Uncovered(context.catalog.value, seen);
      rows := rows + (Map(MissingRow, Sort(ByText(AsText()), uncovered)) + UnexpectedRows(context, context.catalog.value));
    }
    assert rows == entries + CatalogRows(expected, context);
    if incomplete && rows == [] {
      rows := rows + [Terminal(Nothing, ORACLE_UNVERIFIED)];
    }
  }

  method Uncovered(keys: seq<string>, seen: set<string>) returns (uncovered: seq<string>)
    ensures uncovered == Without(keys, seen)
  {
    uncovered := [];
    for k := 0 to |keys|
      invariant uncovered == Without(keys[..k], seen)
    {
      assert keys[..k + 1][..k] == keys[..k];
      if keys[k] !in seen {
        uncovered := uncovered + [keys[k]];
      }
    }
    assert keys[..|keys|] == keys;
  }

  method CompareOne(raw: Raw, seen0: set<string>, context: Context, incomplete: bool) returns (row: Row, seen: set<string>)
    ensures row == RowFor(raw, seen0, context, incomplete) && seen == SeenAfter(raw, seen0)
  {
    hide CheckKeyed, ComparisonRow;
    seen := seen0;
    if raw.NoObject? {
      return Terminal(Nothing, INVALID_EXPECTATION), seen;
    }
    if !HasKey(raw) || raw.key.text in seen {
      if HasKey(raw) {
        assert seen + {raw.key.text} == seen;
      }
      return Terminal(raw.key, INVALID_EXPECTATION), seen;
    }
    seen := seen + {raw.key.text};
    var checked := CheckKeyed(raw, context);
    if checked.Refused? {
      return checked.row, seen;
    }
    row := ComparisonRow(checked.expectation, context);
    if incomplete {
      row := MarkIncomplete(row);
    }
  }
}
