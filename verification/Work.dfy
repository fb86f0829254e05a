/** What a search costs, exactly: one unit for every row entry it looks at
    (tools/oracle/parity.py:1255-1344 and 1396-1418). */
module Work {
  import opened Orders
  import opened Evidence
  import opened Matching
  import opened Searching
  import opened Assigning
  import opened Uniform
  import opened Reconciling
  import opened Grouping
  import opened Verdict

  // ------------------------------------------------------------ what is looked at

  /** The entries of a row up to its first free position, that one included. */
  function Examined(row: seq<nat>, owner: Owners): nat
    requires forall i :: 0 <= i < |row| ==> row[i] < |owner|
  {
    if row == [] then 0 else if owner[row[0]].None? then 1 else 1 + Examined(row[1..], owner)
  }

  /** The entries looked at in the rows of these positions. */
  function Entries(g: Graph, owner: Owners, rows: seq<nat>): nat
    requires GraphOver(g, |owner|) && forall i :: 0 <= i < |rows| ==> rows[i] < |g|
  {
    if rows == [] then 0 else Examined(g[rows[0]], owner) + Entries(g, owner, rows[1..])
  }

  function AllEntries(g: Graph): nat {
    if g == [] then 0 else |g[|g| - 1]| + AllEntries(g[..|g| - 1])
  }

  /** A budget that no search can exhaust. */
  function Plenty(g: Graph): nat {
    AllEntries(g) * |g|
  }

  /** Budget `work` pays for `units`, or runs out. */
  ghost predicate Pays(work: int, units: nat, left: int, exhausted: bool) {
    && (exhausted <==> units > Payable(work))
    && left == if exhausted then Drained(work) else work - units
  }

  // ------------------------------------------------------------------- one row

  /** No free position has been visited yet. */
  ghost predicate NoneFree(owner: Owners, st: Search) {
    forall o :: o in st.visitedOurs ==> o < |owner| && owner[o].Some?
  }

  lemma {:induction false} ScanPays(s: nat, row: seq<nat>, k: nat, owner: Owners, st: Search)
    requires k <= |row| && forall i :: 0 <= i < |row| ==> row[i] < |owner|
    requires NoneFree(owner, st) && st.free.None? && !st.exhausted
    ensures var r := Scan(s, row, k, owner, st);
            && Pays(st.work, Examined(row[k..], owner), r.work, r.exhausted)
            && (r.free.None? ==> NoneFree(owner, r))
            && (r.exhausted ==> r.free.None?)
    decreases |row| - k
  {
    if k < |row| {
      assert row[k..][0] == row[k] && row[k..][1..] == row[k + 1..];
      if st.work > 0 {
        var o, st1 := row[k], st.(work := st.work - 1);
        if o in st.visitedOurs {
          ScanPays(s, row, k + 1, owner, st1);
        } else if owner[o].Some? {
          ScanPays(s, row, k + 1, owner, Visit(s, o, owner, st1));
        }
      }
    }
  }

  /** The budget decides only whether a scan gets to its end. */
  lemma {:induction false} ScanIgnoresWork(s: nat, row: seq<nat>, k: nat, owner: Owners, st: Search, work: int)
    requires k <= |row| && forall i :: 0 <= i < |row| ==> row[i] < |owner|
    requires !Scan(s, row, k, owner, st).exhausted && !Scan(s, row, k, owner, st.(work := work)).exhausted
    ensures var r, q := Scan(s, row, k, owner, st), Scan(s, row, k, owner, st.(work := work)); r == q.(work := r.work)
    decreases |row| - k
  {
    if k < |row| {
      var o, st1 := row[k], st.(work := st.work - 1);
      if o in st.visitedOurs {
        ScanIgnoresWork(s, row, k + 1, owner, st1, work - 1);
      } else if owner[o].Some? {
        assert Visit(s, o, owner, st1.(work := work - 1)) == Visit(s, o, owner, st1).(work := work - 1);
        ScanIgnoresWork(s, row, k + 1, owner, Visit(s, o, owner, st1), work - 1);
      }
    }
  }

  // ------------------------------------------------------------- one search

  /** The search with a budget that it cannot exhaust. */
  function Freely(start: nat, g: Graph, owner: Owners): Search
    requires start < |g| && GraphOver(g, |owner|) && OwnersBelow(owner, |g|)
  {
    FindAugmentingPath(start, g, owner, Plenty(g))
  }

  /** The positions a search has taken from its queue. */
  function Dequeued(st: Search): seq<nat>
    requires st.head <= |st.queue|
  {
    st.queue[..st.head]
  }

  lemma {:induction false} RowWithin(g: Graph, s: nat)
    requires s < |g|
    ensures |g[s]| <= AllEntries(g)
  {
    if s < |g| - 1 {
      RowWithin(g[..|g| - 1], s);
    }
  }

  lemma StartIsShaped(start: nat, g: Graph, work: int)
    requires start < |g|
    ensures Shaped(|g|, StartAt(start, work))
  {
  }

  lemma PlentyIsEnough(start: nat, g: Graph, owner: Owners)
    requires start < |g| && GraphOver(g, |owner|) && OwnersBelow(owner, |g|)
    ensures !Freely(start, g, owner).exhausted && Shaped(|g|, Freely(start, g, owner))
    ensures forall i :: 0 <= i < |Freely(start, g, owner).queue| ==> Freely(start, g, owner).queue[i] < |g|
  {
    hide Run;
    forall s | 0 <= s < |g| ensures |g[s]| <= AllEntries(g) {
      RowWithin(g, s);
    }
    StartIsShaped(start, g, Plenty(g));
    RunWork(g, owner, StartAt(start, Plenty(g)), AllEntries(g));
    var r := Freely(start, g, owner);
    QueueFits(|g|, r);
    Widen(AllEntries(g), r.head, |g|);
  }

  lemma QueueFits(n: nat, st: Search)
    requires Shaped(n, st)
    ensures st.head <= |st.queue| <= n
    ensures forall i :: 0 <= i < |st.queue| ==> st.queue[i] < n
  {
    SubsetSize(st.visitedSonar, Universe(n));
    forall i | 0 <= i < |st.queue| ensures st.queue[i] < n {
      assert st.queue[i] in st.visitedSonar;
    }
  }

  /** What a search costs: the entries in the rows it takes from the queue. */
  function SearchCost(start: nat, g: Graph, owner: Owners): nat
    requires start < |g| && GraphOver(g, |owner|) && OwnersBelow(owner, |g|)
  {
    PlentyIsEnough(start, g, owner);
    Entries(g, owner, Dequeued(Freely(start, g, owner)))
  }

  lemma {:induction false} RunContinues(g: Graph, owner: Owners, st: Search)
    requires GraphOver(g, |owner|) && OwnersBelow(owner, |g|) && Shaped(|g|, st)
    ensures var r := Run(g, owner, st);
            Shaped(|g|, r) && st.queue <= r.queue && st.head <= r.head
    decreases Universe(|g|) - st.visitedSonar, |st.queue| - st.head
  {
    if st.head < |st.queue| && st.free.None? && !st.exhausted {
      RunStep(g, owner, st);
      var s, st1 := st.queue[st.head], st.(head := st.head + 1);
      ScanContinues(|g|, s, g[s], owner, st1);
      hide Run, Shaped, Scan;
      RunContinues(g, owner, Scan(s, g[s], 0, owner, st1));
    }
  }

  lemma ScanContinues(n: nat, s: nat, row: seq<nat>, owner: Owners, st: Search)
    requires forall i :: 0 <= i < |row| ==> row[i] < |owner|
    requires Shaped(n, st) && OwnersBelow(owner, n)
    ensures st.queue <= Scan(s, row, 0, owner, st).queue
  {
    ScanKeepsShape(n, s, row, 0, owner, st);
  }

  lemma RowsTaken(g: Graph, queue: seq<nat>, head: nat, last: nat, owner: Owners)
    requires head < last <= |queue| && GraphOver(g, |owner|) && forall i :: 0 <= i < |queue| ==> queue[i] < |g|
    ensures Entries(g, owner, queue[head..last]) == Examined(g[queue[head]], owner) + Entries(g, owner, queue[head + 1..last])
  {
    assert queue[head..last][0] == queue[head] && queue[head..last][1..] == queue[head + 1..last];
  }

  /** A run and one on a budget that suffices: the first is exhausted exactly when what is looked at is
      more than it has, and otherwise does the same and pays for it. */
  ghost predicate RunsAlike(g: Graph, owner: Owners, st: Search, much: int, r: Search, q: Search)
    requires GraphOver(g, |owner|)
  {
    && st.head <= q.head <= |q.queue| && (forall i :: 0 <= i < |q.queue| ==> q.queue[i] < |g|)
    && Pays(st.work, Entries(g, owner, q.queue[st.head..q.head]), r.work, r.exhausted)
    && Pays(much, Entries(g, owner, q.queue[st.head..q.head]), q.work, false)
    && (!r.exhausted ==> r == q.(work := r.work))
  }

  ghost predicate Descends(n: nat, st: Search, r: Search) {
    || Universe(n) - r.visitedSonar < Universe(n) - st.visitedSonar
    || (r.visitedSonar == st.visitedSonar && |r.queue| - r.head < |st.queue| - st.head)
  }

  /** The search after the next row of the queue. */
  function AfterRow(g: Graph, owner: Owners, st: Search): Search
    requires GraphOver(g, |owner|) && st.head < |st.queue| && st.queue[st.head] < |g|
  {
    Scan(st.queue[st.head], g[st.queue[st.head]], 0, owner, st.(head := st.head + 1))
  }

  ghost predicate Underway(g: Graph, owner: Owners, st: Search) {
    && GraphOver(g, |owner|) && OwnersBelow(owner, |g|) && Shaped(|g|, st)
    && !st.exhausted && st.free.None? && NoneFree(owner, st)
    && st.head < |st.queue| && st.queue[st.head] < |g|
  }

  /** One round: the search goes on from a smaller state. */
  lemma Round(g: Graph, owner: Owners, st: Search)
    requires Underway(g, owner, st)
    ensures var a := AfterRow(g, owner, st);
            && Shaped(|g|, a) && a.head == st.head + 1 && Descends(|g|, st, a)
            && Run(g, owner, st) == Run(g, owner, a)
  {
    hide Run, Scan, Shaped, NoneFree, OwnersBelow;
    RunStep(g, owner, st);
  }

  /** One round on either budget: both pay for the row, and find the same. */
  lemma RoundsAgree(g: Graph, owner: Owners, st: Search, much: int)
    requires Underway(g, owner, st)
    ensures var n, a, b := Examined(g[st.queue[st.head]], owner), AfterRow(g, owner, st), AfterRow(g, owner, st.(work := much));
            && Pays(st.work, n, a.work, a.exhausted) && Pays(much, n, b.work, b.exhausted)
            && (a.free.None? ==> NoneFree(owner, a)) && (b.free.None? ==> NoneFree(owner, b))
            && (!a.exhausted && !b.exhausted ==> a.(work := b.work) == b)
  {
    hide Scan, Shaped, NoneFree, OwnersBelow, Examined, Pays;
    assert st.(work := much).(head := st.head + 1) == st.(head := st.head + 1).(work := much);
    HeadIgnored(owner, st);
    RowPays(g, owner, st.queue[st.head], st.(head := st.head + 1), much);
  }

  lemma ShapedWork(n: nat, st: Search, work: int)
    requires Shaped(n, st)
    ensures Shaped(n, st.(work := work))
  {
  }

  lemma HeadIgnored(owner: Owners, st: Search)
    requires NoneFree(owner, st)
    ensures NoneFree(owner, st.(head := st.head + 1))
  {
  }

  lemma {:induction false} RunPays(g: Graph, owner: Owners, st: Search, much: int)
    requires GraphOver(g, |owner|) && OwnersBelow(owner, |g|) && Shaped(|g|, st)
    requires !st.exhausted && (st.free.None? ==> NoneFree(owner, st))
    requires !Run(g, owner, st.(work := much)).exhausted
    ensures RunsAlike(g, owner, st, much, Run(g, owner, st), Run(g, owner, st.(work := much)))
    decreases Universe(|g|) - st.visitedSonar, |st.queue| - st.head
  {
    hide Run, Scan, Shaped, NoneFree, Entries, RunsAlike, OwnersBelow, Examined, AfterRow;
    ShapedWork(|g|, st, much);
    var q := Run(g, owner, st.(work := much));
    RunContinues(g, owner, st.(work := much));
    QueueFits(|g|, q);
    if st.head < |st.queue| && st.free.None? {
      QueueFits(|g|, st);
      var w := st.(work := much);
      NoneFreeWork(owner, st, much);
      var a, b := AfterRow(g, owner, st), AfterRow(g, owner, w);
      Round(g, owner, st);
      Round(g, owner, w);
      RoundsAgree(g, owner, st, much);
      RoundEnds(g, owner, a, b);
      RowsTaken(g, q.queue, st.head, q.head, owner);
      if a.exhausted {
        assert b.(work := b.work) == b;
        RunPays(g, owner, b, b.work);
      } else {
        RunPays(g, owner, a, b.work);
      }
      RoundPays(g, owner, st, much, a, b, Run(g, owner, a), q);
    } else {
      QueueFits(|g|, st);
      RunEnd(g, owner, st);
      RunEnd(g, owner, st.(work := much));
      NothingToPay(g, owner, st, much);
    }
  }

  lemma RoundEnds(g: Graph, owner: Owners, a: Search, b: Search)
    requires GraphOver(g, |owner|) && OwnersBelow(owner, |g|) && Shaped(|g|, a) && Shaped(|g|, b)
    ensures a.exhausted ==> Run(g, owner, a) == a
    ensures b.exhausted ==> Run(g, owner, b).exhausted
    ensures b.queue <= Run(g, owner, b).queue && b.head <= Run(g, owner, b).head
  {
    hide Scan, Shaped;
    RunContinues(g, owner, b);
    if a.exhausted {
      RunEnd(g, owner, a);
    }
    if b.exhausted {
      RunEnd(g, owner, b);
    }
  }

  lemma NothingToPay(g: Graph, owner: Owners, st: Search, much: int)
    requires GraphOver(g, |owner|) && st.head <= |st.queue| && forall i :: 0 <= i < |st.queue| ==> st.queue[i] < |g|
    requires !st.exhausted
    ensures RunsAlike(g, owner, st, much, st, st.(work := much))
  {
    assert st.queue[st.head..st.head] == [];
  }

  lemma RowPays(g: Graph, owner: Owners, s: nat, st: Search, much: int)
    requires s < |g| && GraphOver(g, |owner|) && !st.exhausted && st.free.None? && NoneFree(owner, st)
    ensures forall i :: 0 <= i < |g[s]| ==> g[s][i] < |owner|
    ensures var n, a, b := Examined(g[s], owner), Scan(s, g[s], 0, owner, st), Scan(s, g[s], 0, owner, st.(work := much));
            && Pays(st.work, n, a.work, a.exhausted) && Pays(much, n, b.work, b.exhausted)
            && (a.free.None? ==> NoneFree(owner, a)) && (b.free.None? ==> NoneFree(owner, b))
            && (!a.exhausted && !b.exhausted ==> a == b.(work := a.work))
  {
    hide Scan, Pays, NoneFree;
    assert g[s][0..] == g[s];
    ScanPays(s, g[s], 0, owner, st);
    NoneFreeWork(owner, st, much);
    ScanPays(s, g[s], 0, owner, st.(work := much));
    if !Scan(s, g[s], 0, owner, st).exhausted && !Scan(s, g[s], 0, owner, st.(work := much)).exhausted {
      ScanIgnoresWork(s, g[s], 0, owner, st, much);
    }
  }

  lemma NoneFreeWork(owner: Owners, st: Search, work: int)
    requires NoneFree(owner, st)
    ensures NoneFree(owner, st.(work := work))
  {
  }

  /** Paying for a row and then for the rest is paying for both. */
  lemma RoundPays(g: Graph, owner: Owners, st: Search, much: int, a: Search, b: Search, r: Search, q: Search)
    requires GraphOver(g, |owner|) && st.head < q.head <= |q.queue| && (forall i :: 0 <= i < |q.queue| ==> q.queue[i] < |g|)
    requires Entries(g, owner, q.queue[st.head..q.head])
             == Examined(g[q.queue[st.head]], owner) + Entries(g, owner, q.queue[st.head + 1..q.head])
    requires Pays(st.work, Examined(g[q.queue[st.head]], owner), a.work, a.exhausted)
    requires Pays(much, Examined(g[q.queue[st.head]], owner), b.work, false)
    requires a.head == b.head == st.head + 1
    requires if a.exhausted then r == a && RunsAlike(g, owner, b, b.work, q, q) else RunsAlike(g, owner, a, b.work, r, q)
    ensures RunsAlike(g, owner, st, much, r, q)
  {
    hide Entries, Examined;
  }

  /** A search is exhausted exactly when the entries it has to look at are more than its budget, and
      otherwise spends exactly one unit for each of them. */
  lemma SearchPaysExactly(start: nat, g: Graph, owner: Owners, work: int)
    requires start < |g| && GraphOver(g, |owner|) && OwnersBelow(owner, |g|)
    ensures var r := FindAugmentingPath(start, g, owner, work);
            && Pays(work, SearchCost(start, g, owner), r.work, r.exhausted)
            && (!r.exhausted ==> r == Freely(start, g, owner).(work := r.work))
  {
    hide Run, Entries, OwnersBelow;
    var st := StartAt(start, work);
    StartIsShaped(start, g, work);
    PlentyIsEnough(start, g, owner);
    assert st.(work := Plenty(g)) == StartAt(start, Plenty(g));
    RunPays(g, owner, st, Plenty(g));
    var q := Freely(start, g, owner);
    assert q.queue[0..q.head] == Dequeued(q);
  }

  // ------------------------------------------------------------- all searches

  /** The assignment without a budget: both owner lists and what all searches cost. */
  datatype Unbounded = Unbounded(sonarOwner: Owners, oursOwner: Owners, cost: nat)

  function AssignFreely(g: Graph, start: nat, so: Owners, oo: Owners): Unbounded
    requires Ready(g, start, so, oo) && start <= |g|
    decreases |g| - start
  {
    if start == |g| then Unbounded(so, oo, 0)
    else
      ReadySearches(g, start, so, oo);
      var r := Augment(g, start, so, oo, Plenty(g));
      var rest := AssignFreely(g, start + 1, r.sonarOwner, r.oursOwner);
      rest.(cost := SearchCost(start, g, oo) + rest.cost)
  }

  lemma ReadySearches(g: Graph, start: nat, so: Owners, oo: Owners)
    requires Ready(g, start, so, oo) && start < |g|
    ensures GraphOver(g, |oo|) && OwnersBelow(oo, |g|)
  {
  }

  lemma AugmentPays(g: Graph, start: nat, so: Owners, oo: Owners, work: int)
    requires Ready(g, start, so, oo) && start < |g|
    ensures OwnersBelow(oo, |g|)
    ensures var r, q := Augment(g, start, so, oo, work), Augment(g, start, so, oo, Plenty(g));
            && Pays(work, SearchCost(start, g, oo), r.work, r.exhausted)
            && (!r.exhausted ==> r.sonarOwner == q.sonarOwner && r.oursOwner == q.oursOwner)
  {
    ReadySearches(g, start, so, oo);
    hide FindAugmentingPath, Flip, FlipReady, Tree, SearchCost, OwnersMatch;
    SearchPaysExactly(start, g, oo, work);
    PlentyIsEnough(start, g, oo);
    SearchResult(start, g, so, oo, work);
    SearchResult(start, g, so, oo, Plenty(g));
  }

  lemma AssignUnfolds(g: Graph, start: nat, so: Owners, oo: Owners, work: int)
    requires Ready(g, start, so, oo) && start < |g|
    ensures OwnersBelow(oo, |g|)
    ensures AssignFreely(g, start, so, oo).cost >= SearchCost(start, g, oo)
    ensures var r := Augment(g, start, so, oo, work);
            && Pays(work, SearchCost(start, g, oo), r.work, r.exhausted)
            && (r.exhausted ==> Assign(g, start, so, oo, work) == r)
            && (!r.exhausted ==>
                  && Assign(g, start, so, oo, work) == Assign(g, start + 1, r.sonarOwner, r.oursOwner, r.work)
                  && var rest := AssignFreely(g, start + 1, r.sonarOwner, r.oursOwner);
                     AssignFreely(g, start, so, oo) == rest.(cost := SearchCost(start, g, oo) + rest.cost))
  {
    hide Augment, Ready, SearchCost, OwnersBelow, Pays;
    AugmentPays(g, start, so, oo, work);
  }

  lemma AssignsNothing(g: Graph, so: Owners, oo: Owners, work: int)
    requires Ready(g, |g|, so, oo)
    ensures Assign(g, |g|, so, oo, work) == Assignment(so, oo, work, false)
    ensures AssignFreely(g, |g|, so, oo) == Unbounded(so, oo, 0)
  {
  }

  /** The assignment is exhausted exactly when all searches together have to look at more entries than
      the budget holds; otherwise it spends exactly that and assigns as it would without a budget. */
  lemma {:induction false} AssignPaysExactly(g: Graph, start: nat, so: Owners, oo: Owners, work: int)
    requires Ready(g, start, so, oo) && start <= |g|
    ensures var r, free := Assign(g, start, so, oo, work), AssignFreely(g, start, so, oo);
            && Pays(work, free.cost, r.work, r.exhausted)
            && (!r.exhausted ==> r.sonarOwner == free.sonarOwner && r.oursOwner == free.oursOwner)
    decreases |g| - start
  {
    hide Augment, Ready, SearchCost, OwnersBelow, Assign, AssignFreely, OwnersMatch, Matched;
    if start == |g| {
      AssignsNothing(g, so, oo, work);
    } else {
      AssignUnfolds(g, start, so, oo, work);
      var r := Augment(g, start, so, oo, work);
      if !r.exhausted {
        AssignPaysExactly(g, start + 1, r.sonarOwner, r.oursOwner, r.work);
      }
    }
  }

  // ------------------------------------------------------------------- groups

  /** What all searches of a graph cost together. */
  function SearchesCost(g: Graph, m: nat): nat
    requires GraphOver(g, m)
  {
    AssignStart(g, m, 0);
    AssignFreely(g, 0, NoOwners(|g|), NoOwners(m)).cost
  }

  lemma SearchesPayExactly(g: Graph, m: nat, work: int)
    requires GraphOver(g, m)
    ensures var r := AssignCompatibleRows(g, m, work); Pays(work, SearchesCost(g, m), r.work, r.exhausted)
  {
    hide Assign, AssignFreely, Ready;
    AssignStart(g, m, 0);
    AssignStart(g, m, work);
    AssignPaysExactly(g, 0, NoOwners(|g|), NoOwners(m), work);
  }

  /** What a group with differing masks costs: its pairs and its searches. */
  function VariableCost(sonar: seq<Finding>, ours: seq<Finding>): nat {
    var g := GraphOf(sonar, ours);
    assert GraphOver(g, |ours|) by {
      GraphFits(sonar, ours);
    }
    |sonar| * |ours| + SearchesCost(g, |ours|)
  }

  lemma VariablePaysExactly(sonar: seq<Finding>, ours: seq<Finding>, work: int)
    ensures var r := MatchVariable(sonar, ours, work); Pays(work, VariableCost(sonar, ours), r.work, r.exhausted)
  {
    hide GraphOf, AssignCompatibleRows, SearchesCost, Unowned, CompatibilityGraph;
    GraphFits(sonar, ours);
    SearchesPayExactly(GraphOf(sonar, ours), |ours|, work - |sonar| * |ours|);
  }

  /** What a group costs: nothing, unless both sides have equally many rows and some side's masks
      differ. */
  function GroupSpends(sonar: seq<Finding>, ours: seq<Finding>): nat {
    if sonar != [] && |sonar| == |ours| && !(SameMask(sonar) && SameMask(ours)) then VariableCost(sonar, ours) else 0
  }

  lemma GroupPaysExactly(sonar: seq<Finding>, ours: seq<Finding>, t: Tally)
    requires !t.exhausted && t.work >= 0
    ensures var r := GroupStep(sonar, ours, t); Pays(t.work, GroupSpends(sonar, ours), r.work, r.exhausted)
  {
    hide MatchVariable, VariableCost;
    VariablePaysExactly(sonar, ours, t.work);
  }

  function TotalSpends(ids: seq<Identity>, sonar: seq<Finding>, ours: seq<Finding>, repr: Rendering): nat {
    if ids == [] then 0
    else GroupSpends(GroupRows(sonar, ids[0], repr), GroupRows(ours, ids[0], repr)) + TotalSpends(ids[1..], sonar, ours, repr)
  }

  lemma {:induction false} GroupsPayExactly(ids: seq<Identity>, sonar: seq<Finding>, ours: seq<Finding>, repr: Rendering, t: Tally)
    requires !t.exhausted && t.work >= 0
    ensures var r := MatchGroups(ids, sonar, ours, repr, t);
            Pays(t.work, TotalSpends(ids, sonar, ours, repr), r.work, r.exhausted)
    decreases |ids|
  {
    hide GroupStep, GroupRows, GroupSpends;
    if ids != [] {
      var s, o := GroupRows(sonar, ids[0], repr), GroupRows(ours, ids[0], repr);
      GroupPaysExactly(s, o, t);
      var t' := GroupStep(s, o, t);
      if t'.exhausted {
        assert MatchGroups(ids[1..], sonar, ours, repr, t') == t';
      } else {
        GroupsPayExactly(ids[1..], sonar, ours, repr, t');
      }
    }
  }

  /** A comparison runs out exactly when its groups together cost more than 100,000 units. */
  lemma ExhaustedExactly(sonar: seq<Finding>, ours: seq<Finding>, repr: Rendering)
    ensures CompareEvidence(sonar, ours, repr).exhausted <==> TotalSpends(GroupOrder(sonar, ours, repr), sonar, ours, repr) > 100_000
  {
    hide MatchGroups, GroupOrder, TotalSpends;
    GroupsPayExactly(GroupOrder(sonar, ours, repr), sonar, ours, repr, EmptyTally());
  }
}
