/** Security findings and the facts a detector states about them
    (tools/oracle/parity.py:1127-1195). */
module Evidence {
  import opened Orders
  import opened Freezing

  /** A validated finding. The facets `range`, `flows` and `secondary` are known only when the
      flag beside them says so; `review` is human state and no part of the evidence. */
  datatype FindingRow = FindingRow(
    rule: string, file: string, message: string, kind: string,
    range: Json, rangeKnown: bool,
    flows: Json, flowsKnown: bool,
    secondary: Json, secondaryKnown: bool,
    review: Json)

  type Finding = f: FindingRow | WellFormed(f.range) && WellFormed(f.flows) && WellFormed(f.secondary)
    witness FindingRow("", "", "", "", Leaf(Null), false, List([]), false, List([]), false, Leaf(Null))

  datatype Identity = Identity(rule: string, file: string, message: string, kind: string)

  datatype Mask = Mask(range: bool, flows: bool, secondary: bool)

  /** The rule, file, message and frozen range and detector object of a finding. */
  datatype DetectorKey = DetectorKey(rule: string, file: string, message: string, range: Frozen, detector: Frozen)

  datatype ProjectedKey = ProjectedKey(identity: Identity, range: Option<Frozen>, flows: Option<Frozen>, secondary: Option<Frozen>)

  function IdentityOf(f: Finding): Identity {
    Identity(f.rule, f.file, f.message, f.kind)
  }

  function MaskOf(f: Finding): Mask {
    Mask(f.rangeKnown, f.flowsKnown, f.secondaryKnown)
  }

  predicate Available(f: Finding) {
    f.flowsKnown && f.secondaryKnown && f.rangeKnown
  }

  function Flag(b: bool): Json {
    Leaf(Num(if b then 1.0 else 0.0))
  }

  /** The detector object, its entries in the order in which the source writes them. */
  function DetectorObject(f: Finding): Json {
    Dict([Entry("kind", Leaf(Str(f.kind))),
          Entry("flows", f.flows),
          Entry("secondary_locations", f.secondary),
          Entry("flow_evidence_available", Flag(f.flowsKnown)),
          Entry("secondary_location_evidence_available", Flag(f.secondaryKnown)),
          Entry("primary_range_evidence_available", Flag(f.rangeKnown))])
  }

  function KeyOfFinding(f: Finding): DetectorKey {
    DetectorKey(f.rule, f.file, f.message, Freeze(f.range), Freeze(DetectorObject(f)))
  }

  /** Whether the facts that both findings know agree. */
  predicate Compatible(left: Finding, right: Finding) {
    && IdentityOf(left) == IdentityOf(right)
    && !(|| (left.rangeKnown && right.rangeKnown && !JsonEq(left.range, right.range))
         || (left.flowsKnown && right.flowsKnown && !JsonEq(left.flows, right.flows))
         || (left.secondaryKnown && right.secondaryKnown && !JsonEq(left.secondary, right.secondary)))
  }

  function Project(f: Finding, mask: Mask): ProjectedKey {
    ProjectedKey(IdentityOf(f),
                 if mask.range then Some(Freeze(f.range)) else None,
                 if mask.flows then Some(Freeze(f.flows)) else None,
                 if mask.secondary then Some(Freeze(f.secondary)) else None)
  }

  function CommonMask(a: Mask, b: Mask): Mask {
    Mask(a.range && b.range, a.flows && b.flows, a.secondary && b.secondary)
  }

  // ------------------------------------------------------------------- lemmas

  /** Under the facets both sides know, compatibility is equality of projected keys. */
  lemma CompatibleIsProjectedEquality(left: Finding, right: Finding)
    ensures var mask := CommonMask(MaskOf(left), MaskOf(right));
            Compatible(left, right) <==> Project(left, mask) == Project(right, mask)
  {
    FreezeIsCanonical(left.range, right.range);
    FreezeIsCanonical(left.flows, right.flows);
    FreezeIsCanonical(left.secondary, right.secondary);
  }

  /** Unknown facets agree with everything, so compatibility is not transitive. */
  lemma CompatibleIsNotTransitive(f: Finding, g: Finding, unknown: Finding)
    requires IdentityOf(f) == IdentityOf(g) == IdentityOf(unknown)
    requires MaskOf(unknown) == Mask(false, false, false)
    requires f.rangeKnown && g.rangeKnown && !JsonEq(f.range, g.range)
    ensures Compatible(f, unknown) && Compatible(unknown, g) && !Compatible(f, g)
  {
  }

  lemma DetectorObjectWellFormed(f: Finding)
    ensures WellFormed(DetectorObject(f))
  {
  }

  predicate SameKeys(a: seq<Entry>, b: seq<Entry>) {
    |a| == |b| && forall i :: 0 <= i < |a| ==> a[i].key == b[i].key
  }

  /** Objects that list the same distinct keys in the same order are compared entry by entry. */
  lemma AlignedObjects(a: seq<Entry>, b: seq<Entry>)
    requires SameKeys(a, b) && DistinctKeys(a) && DistinctKeys(b)
    ensures JsonEq(Dict(a), Dict(b)) <==> forall i :: 0 <= i < |a| ==> JsonEq(a[i].value, b[i].value)
  {
    if JsonEq(Dict(a), Dict(b)) {
      forall i | 0 <= i < |a| ensures JsonEq(a[i].value, b[i].value) {
        var j :| 0 <= j < |b| && b[j].key == a[i].key && JsonEq(a[i].value, b[j].value);
        assert j == i;
      }
    }
    if forall i :: 0 <= i < |a| ==> JsonEq(a[i].value, b[i].value) {
      forall i | 0 <= i < |a|
        ensures exists j :: 0 <= j < |b| && b[j].key == a[i].key && JsonEq(a[i].value, b[j].value)
      {
        assert b[i].key == a[i].key;
      }
    }
  }

  lemma FlagsAgree(b: bool, c: bool)
    ensures JsonEq(Flag(b), Flag(c)) <==> b == c
  {
  }

  /** The six values of a detector object, in order. */
  function DetectorValues(f: Finding): seq<Json> {
    [Leaf(Str(f.kind)), f.flows, f.secondary, Flag(f.flowsKnown), Flag(f.secondaryKnown), Flag(f.rangeKnown)]
  }

  lemma DetectorValuesAgree(f: Finding, g: Finding)
    ensures (forall i :: 0 <= i < 6 ==> JsonEq(DetectorValues(f)[i], DetectorValues(g)[i]))
            <==> && f.kind == g.kind && MaskOf(f) == MaskOf(g)
                 && JsonEq(f.flows, g.flows) && JsonEq(f.secondary, g.secondary)
  {
    FlagsAgree(f.flowsKnown, g.flowsKnown);
    FlagsAgree(f.secondaryKnown, g.secondaryKnown);
    FlagsAgree(f.rangeKnown, g.rangeKnown);
    var v, w := DetectorValues(f), DetectorValues(g);
    assert v[0] == Leaf(Str(f.kind)) && w[0] == Leaf(Str(g.kind));
    assert v[1] == f.flows && w[1] == g.flows;
    assert v[2] == f.secondary && w[2] == g.secondary;
    assert v[3] == Flag(f.flowsKnown) && w[3] == Flag(g.flowsKnown);
    assert v[4] == Flag(f.secondaryKnown) && w[4] == Flag(g.secondaryKnown);
    assert v[5] == Flag(f.rangeKnown) && w[5] == Flag(g.rangeKnown);
  }

  lemma DetectorObjectShape(f: Finding, g: Finding)
    ensures SameKeys(DetectorObject(f).entries, DetectorObject(g).entries)
    ensures |DetectorObject(f).entries| == 6
    ensures forall i :: 0 <= i < 6 ==> DetectorObject(f).entries[i].value == DetectorValues(f)[i]
  {
  }

  lemma DetectorObjectsAgree(f: Finding, g: Finding)
    ensures JsonEq(DetectorObject(f), DetectorObject(g))
            <==> && f.kind == g.kind && MaskOf(f) == MaskOf(g)
                 && JsonEq(f.flows, g.flows) && JsonEq(f.secondary, g.secondary)
  {
    DetectorObjectWellFormed(f);
    DetectorObjectWellFormed(g);
    DetectorObjectShape(f, g);
    DetectorObjectShape(g, f);
    DetectorValuesAgree(f, g);
    AlignedObjects(DetectorObject(f).entries, DetectorObject(g).entries);
  }

  /** Detector keys are equal exactly when identity, availability and every facet agree. */
  lemma DetectorKeysAgree(f: Finding, g: Finding)
    ensures KeyOfFinding(f) == KeyOfFinding(g)
            <==> && IdentityOf(f) == IdentityOf(g) && MaskOf(f) == MaskOf(g)
                 && JsonEq(f.range, g.range) && JsonEq(f.flows, g.flows) && JsonEq(f.secondary, g.secondary)
  {
    DetectorObjectWellFormed(f);
    DetectorObjectWellFormed(g);
    FreezeIsCanonical(f.range, g.range);
    FreezeIsCanonical(DetectorObject(f), DetectorObject(g));
    DetectorObjectsAgree(f, g);
  }

  /** The same, field by field: all but the review state counts. */
  lemma KeysInFields(f: Finding, g: Finding)
    ensures KeyOfFinding(f) == KeyOfFinding(g)
            <==> && f.rule == g.rule && f.file == g.file && f.message == g.message && f.kind == g.kind
                 && f.rangeKnown == g.rangeKnown && f.flowsKnown == g.flowsKnown && f.secondaryKnown == g.secondaryKnown
                 && JsonEq(f.range, g.range) && JsonEq(f.flows, g.flows) && JsonEq(f.secondary, g.secondary)
    ensures IdentityOf(f) == IdentityOf(g)
            <==> f.rule == g.rule && f.file == g.file && f.message == g.message && f.kind == g.kind
  {
    hide KeyOfFinding, JsonEq;
    DetectorKeysAgree(f, g);
  }

  /** A finding's detector key decides its identity, its mask and its projected keys. */
  lemma KeyDecides(f: Finding, g: Finding)
    requires KeyOfFinding(f) == KeyOfFinding(g)
    ensures IdentityOf(f) == IdentityOf(g) && MaskOf(f) == MaskOf(g)
    ensures forall mask :: Project(f, mask) == Project(g, mask)
  {
    DetectorKeysAgree(f, g);
    FreezeIsCanonical(f.range, g.range);
    FreezeIsCanonical(f.flows, g.flows);
    FreezeIsCanonical(f.secondary, g.secondary);
  }

  /** Compatibility looks only at detector keys. */
  lemma KeysDecideCompatibility(f: Finding, f': Finding, g: Finding, g': Finding)
    requires KeyOfFinding(f) == KeyOfFinding(f') && KeyOfFinding(g) == KeyOfFinding(g')
    ensures Compatible(f, g) <==> Compatible(f', g')
  {
    KeyDecides(f, f');
    KeyDecides(g, g');
    CompatibleIsProjectedEquality(f, g);
    CompatibleIsProjectedEquality(f', g');
  }

  /** With every facet known, the projected key is as fine as the detector key. */
  lemma FullProjection(f: Finding, g: Finding)
    requires Available(f) && Available(g)
    ensures Project(f, Mask(true, true, true)) == Project(g, Mask(true, true, true))
            <==> KeyOfFinding(f) == KeyOfFinding(g)
  {
    DetectorKeysAgree(f, g);
    FreezeIsCanonical(f.range, g.range);
    FreezeIsCanonical(f.flows, g.flows);
    FreezeIsCanonical(f.secondary, g.secondary);
  }

  /** `weak` states no more than `strong`: each facet it still knows is unchanged. */
  ghost predicate Forgets(weak: Finding, strong: Finding) {
    && IdentityOf(weak) == IdentityOf(strong)
    && (weak.rangeKnown ==> strong.rangeKnown && JsonEq(weak.range, strong.range))
    && (weak.flowsKnown ==> strong.flowsKnown && JsonEq(weak.flows, strong.flows))
    && (weak.secondaryKnown ==> strong.secondaryKnown && JsonEq(weak.secondary, strong.secondary))
  }

  lemma ForgettingKeepsCompatible(weak: Finding, strong: Finding, weak': Finding, strong': Finding)
    requires Forgets(weak, strong) && Forgets(weak', strong') && Compatible(strong, strong')
    ensures Compatible(weak, weak')
  {
    FreezeIsCanonical(weak.range, strong.range);
    FreezeIsCanonical(weak'.range, strong'.range);
    FreezeIsCanonical(weak.flows, strong.flows);
    FreezeIsCanonical(weak'.flows, strong'.flows);
    FreezeIsCanonical(weak.secondary, strong.secondary);
    FreezeIsCanonical(weak'.secondary, strong'.secondary);
    CompatibleIsProjectedEquality(strong, strong');
    CompatibleIsProjectedEquality(weak, weak');
  }

  /** What two compatible findings know together. */
  function Together(f: Finding, g: Finding): Finding {
    FindingRow(f.rule, f.file, f.message, f.kind,
               if f.rangeKnown then f.range else g.range, true,
               if f.flowsKnown then f.flows else g.flows, true,
               if f.secondaryKnown then f.secondary else g.secondary, true, f.review)
  }

  lemma TogetherIsTruth(f: Finding, g: Finding)
    requires Compatible(f, g)
    ensures Available(Together(f, g)) && Forgets(f, Together(f, g)) && Forgets(g, Together(f, g))
  {
    hide JsonEq;
    JsonEqIsReflexive(f);
    JsonEqIsReflexive(g);
    FacetsAgree(f, g);
  }

  /** Findings are compatible exactly when both can be what is left of one finding with every facet
      known. */
  lemma CompatibleMeansOneTruth(f: Finding, g: Finding)
    ensures Compatible(f, g) <==> exists whole: Finding :: Available(whole) && Forgets(f, whole) && Forgets(g, whole)
  {
    hide Compatible, Forgets, Available;
    if Compatible(f, g) {
      TogetherIsTruth(f, g);
    }
    if whole: Finding :| Available(whole) && Forgets(f, whole) && Forgets(g, whole) {
      JsonEqIsReflexive(whole);
      ForgettingKeepsCompatible(f, whole, g, whole);
    }
  }

  lemma JsonEqIsReflexive(f: Finding)
    ensures JsonEq(f.range, f.range) && JsonEq(f.flows, f.flows) && JsonEq(f.secondary, f.secondary)
    ensures Compatible(f, f)
  {
    FreezeIsCanonical(f.range, f.range);
    FreezeIsCanonical(f.flows, f.flows);
    FreezeIsCanonical(f.secondary, f.secondary);
  }

  /** Equality of facets does not depend on the side it is read from. */
  lemma FacetsAgree(f: Finding, g: Finding)
    ensures JsonEq(f.range, g.range) <==> JsonEq(g.range, f.range)
    ensures JsonEq(f.flows, g.flows) <==> JsonEq(g.flows, f.flows)
    ensures JsonEq(f.secondary, g.secondary) <==> JsonEq(g.secondary, f.secondary)
  {
    FreezeIsCanonical(f.range, g.range);
    FreezeIsCanonical(g.range, f.range);
    FreezeIsCanonical(f.flows, g.flows);
    FreezeIsCanonical(g.flows, f.flows);
    FreezeIsCanonical(f.secondary, g.secondary);
    FreezeIsCanonical(g.secondary, f.secondary);
  }
}
