/** Maximum bipartite matching by augmenting paths (tools/oracle/parity.py:1316-1344). */
module Assigning {
  import opened Orders
  import opened Matching
  import opened Searching

  // ------------------------------------------------------- flipping one path

  /** Every position of the first list that claims a partner has it, along an edge. */
  ghost predicate ClaimsHold(g: Graph, so: Owners, oo: Owners) {
    && |so| == |g|
    && forall s :: 0 <= s < |so| && so[s].Some? ==>
         so[s].value < |oo| && oo[so[s].value] == Some(s) && Edge(g, s, so[s].value)
  }

  /** Every position of the second list but `o` is claimed by the owner it names. */
  ghost predicate OwnersClaim(so: Owners, oo: Owners, o: nat) {
    forall p :: 0 <= p < |oo| && p != o && oo[p].Some? ==>
      oo[p].value < |so| && so[oo[p].value] == Some(p)
  }

  ghost predicate Unclaimed(so: Owners, o: nat) {
    forall s :: 0 <= s < |so| ==> so[s] != Some(o)
  }

  ghost predicate HangUpTo(so: Owners, queue: seq<nat>, parent: map<nat, nat>, last: nat) {
    forall s :: s in queue && Index(queue, s) <= last ==> Hangs(so, queue, parent, s)
  }

  /** Between two steps of the flip only the pending position `o` may be out of step: no position
      claims it, while its own entry may be stale. Up to where the path continues, the queue still
      hangs together as the search left it. */
  ghost predicate FlipReady(g: Graph, queue: seq<nat>, parent: map<nat, nat>, o: nat, so: Owners, oo: Owners) {
    && o < |oo| && queue != []
    && SeenAlongEdges(g, |oo|, queue, parent)
    && ClaimsHold(g, so, oo) && OwnersClaim(so, oo, o) && Unclaimed(so, o)
    && o in parent
    && HangUpTo(so, queue, parent, Index(queue, parent[o]))
  }

  lemma FlipStepClaims(g: Graph, s: nat, o: nat, so: Owners, oo: Owners)
    requires ClaimsHold(g, so, oo) && OwnersClaim(so, oo, o) && Unclaimed(so, o)
    requires Edge(g, s, o) && o < |oo|
    ensures var so', oo' := so[s := Some(o)], oo[o := Some(s)];
            && ClaimsHold(g, so', oo')
            && (so[s].None? ==> OwnersMatch(g, so', oo'))
            && (so[s].Some? ==> OwnersClaim(so', oo', so[s].value) && Unclaimed(so', so[s].value))
  {
  }

  lemma FlipStepHangs(so: Owners, queue: seq<nat>, parent: map<nat, nat>, s: nat, o: nat, last: nat)
    requires s in queue && s < |so| && HangUpTo(so, queue, parent, Index(queue, s)) && last < Index(queue, s)
    ensures HangUpTo(so[s := Some(o)], queue, parent, last)
  {
    forall x | x in queue && Index(queue, x) <= last ensures Hangs(so[s := Some(o)], queue, parent, x) {
      assert Hangs(so, queue, parent, x);
    }
  }

  lemma FlipStep(g: Graph, queue: seq<nat>, parent: map<nat, nat>, o: nat, so: Owners, oo: Owners)
    requires FlipReady(g, queue, parent, o, so, oo)
    ensures parent[o] < |so|
    ensures var s := parent[o];
            if so[s].None? then s == queue[0] && OwnersMatch(g, so[s := Some(o)], oo[o := Some(s)])
            else && FlipReady(g, queue, parent, so[s].value, so[s := Some(o)], oo[o := Some(s)])
                 && Index(queue, parent[so[s].value]) < Index(queue, s)
  {
    var s := parent[o];
    assert Hangs(so, queue, parent, s);
    FlipStepClaims(g, s, o, so, oo);
    if so[s].Some? {
      FlipStepHangs(so, queue, parent, s, o, Index(queue, parent[so[s].value]));
    }
  }

  /** Walks the path back from the free position `o`, handing each position of the first list its
      new partner and taking up the one it gave away. */
  function Flip(g: Graph, queue: seq<nat>, parent: map<nat, nat>, o: nat, so: Owners, oo: Owners): (Owners, Owners)
    requires FlipReady(g, queue, parent, o, so, oo)
    decreases Index(queue, parent[o])
  {
    FlipStep(g, queue, parent, o, so, oo);
    var s := parent[o];
    var so', oo' := so[s := Some(o)], oo[o := Some(s)];
    if so[s].None? then (so', oo') else Flip(g, queue, parent, so[s].value, so', oo')
  }

  /** A flip leaves a matching that covers one more position of the first list, the start, and
      changes nothing inside a dead region that the path's end lies outside of. */
  lemma {:induction false} FlipAugments(g: Graph, queue: seq<nat>, parent: map<nat, nat>, o: nat, so: Owners, oo: Owners,
                                        ds: set<nat>, dO: set<nat>)
    requires FlipReady(g, queue, parent, o, so, oo)
    requires DeadRegion(g, oo, ds, dO) && o !in dO
    ensures var r := Flip(g, queue, parent, o, so, oo);
            && |r.0| == |so| && |r.1| == |oo|
            && OwnersMatch(g, r.0, r.1)
            && Matched(r.0) == Matched(so) + {queue[0]}
            && DeadRegion(g, r.1, ds, dO)
    decreases Index(queue, parent[o])
  {
    FlipStep(g, queue, parent, o, so, oo);
    var s := parent[o];
    var so', oo' := so[s := Some(o)], oo[o := Some(s)];
    assert Edge(g, s, o) && s !in ds;
    assert Matched(so') == Matched(so) + {s};
    assert DeadRegion(g, oo', ds, dO);
    if so[s].Some? {
      var p := so[s].value;
      assert oo[p] == Some(s);
      FlipAugments(g, queue, parent, p, so', oo', ds, dO);
    }
  }

  // --------------------------------------------------------- the whole search

  datatype Assignment = Assignment(sonarOwner: Owners, oursOwner: Owners, work: int, exhausted: bool)

  lemma TreeIsFlippable(g: Graph, so: Owners, oo: Owners, st: Search)
    requires OwnersMatch(g, so, oo) && Tree(g, so, oo, st) && st.free.Some?
    ensures FlipReady(g, st.queue, st.parent, st.free.value, so, oo)
  {
  }

  /** A matching that leaves every position from `start` on free. */
  ghost predicate Ready(g: Graph, start: nat, so: Owners, oo: Owners) {
    && OwnersMatch(g, so, oo) && GraphOver(g, |oo|)
    && forall s :: start <= s < |so| ==> so[s].None?
  }

  /** One search and, if it succeeds, one flip. */
  function Augment(g: Graph, start: nat, so: Owners, oo: Owners, work: int): (r: Assignment)
    requires Ready(g, start, so, oo) && start < |g|
    ensures Ready(g, start + 1, r.sonarOwner, r.oursOwner) && |r.oursOwner| == |oo|
    ensures Matched(r.sonarOwner) == Matched(so) || Matched(r.sonarOwner) == Matched(so) + {start}
  {
    SearchResult(start, g, so, oo, work);
    var st := FindAugmentingPath(start, g, oo, work);
    if st.exhausted || st.free.None? then Assignment(so, oo, st.work, st.exhausted)
    else
      TreeIsFlippable(g, so, oo, st);
      FlipAugments(g, st.queue, st.parent, st.free.value, so, oo, {}, {});
      var (so', oo') := Flip(g, st.queue, st.parent, st.free.value, so, oo);
      ReadyAgain(g, start, so, so', oo');
      Assignment(so', oo', st.work, false)
  }

  lemma ReadyAgain(g: Graph, start: nat, so: Owners, so': Owners, oo': Owners)
    requires OwnersMatch(g, so', oo') && GraphOver(g, |oo'|) && |so| == |so'|
    requires Matched(so') == Matched(so) + {start}
    requires forall s :: start <= s < |so| ==> so[s].None?
    ensures Ready(g, start + 1, so', oo')
  {
    forall s | start + 1 <= s < |so'| ensures so'[s].None? {
      assert s !in Matched(so');
    }
  }

  /** The starts from `start` on. */
  function Assign(g: Graph, start: nat, so: Owners, oo: Owners, work: int): (r: Assignment)
    requires Ready(g, start, so, oo) && start <= |g|
    ensures OwnersMatch(g, r.sonarOwner, r.oursOwner) && |r.oursOwner| == |oo|
    decreases |g| - start
  {
    if start == |g| then Assignment(so, oo, work, false)
    else
      var r := Augment(g, start, so, oo, work);
      if r.exhausted then r else Assign(g, start + 1, r.sonarOwner, r.oursOwner, r.work)
  }

  function NoOwners(n: nat): (owners: Owners)
    ensures |owners| == n && forall i :: 0 <= i < n ==> owners[i] == None
  {
    seq(n, _ => None)
  }

  function AssignCompatibleRows(g: Graph, m: nat, work: int): (r: Assignment)
    requires GraphOver(g, m)
    ensures OwnersMatch(g, r.sonarOwner, r.oursOwner) && |r.oursOwner| == m
  {
    assert Ready(g, 0, NoOwners(|g|), NoOwners(m));
    Assign(g, 0, NoOwners(|g|), NoOwners(m), work)
  }

  lemma OwnersAreListed(g: Graph, m: nat, work: int)
    requires GraphOver(g, m)
    ensures var r := AssignCompatibleRows(g, m, work);
            |r.sonarOwner| == |g| && |r.oursOwner| == m
  {
    hide Assign;
  }

  // ------------------------------------------------------------- maximality

  /** Every start already tried is matched or lies in the dead region. */
  ghost predicate Settled(so: Owners, ds: set<nat>, start: nat) {
    && (forall s :: 0 <= s < start && s < |so| ==> so[s].Some? || s in ds)
    && (forall s :: s in ds ==> s < start)
  }

  lemma DeadRegionsJoin(g: Graph, oo: Owners, ds: set<nat>, dO: set<nat>, es: set<nat>, eo: set<nat>)
    requires DeadRegion(g, oo, ds, dO) && DeadRegion(g, oo, es, eo)
    ensures DeadRegion(g, oo, ds + es, dO + eo)
  {
  }

  /** A search never reaches a free position through a dead region. */
  lemma FreeIsAlive(g: Graph, oo: Owners, st: Search, ds: set<nat>, dO: set<nat>)
    requires OwnersSeen(oo, st) && st.free.Some? && DeadRegion(g, oo, ds, dO)
    ensures st.free.value !in dO
  {
  }

  lemma VisitedBelow(g: Graph, so: Owners, oo: Owners, st: Search, start: nat)
    requires Tree(g, so, oo, st) && st.queue[0] == start
    requires forall s :: start <= s < |so| ==> so[s].None?
    ensures forall s :: s in st.visitedSonar ==> s <= start
  {
    forall s | s in st.visitedSonar ensures s <= start {
      assert s in st.queue && Hangs(so, st.queue, st.parent, s);
    }
  }

  /** One successful step either matches the start or adds its whole search to the dead region. */
  lemma AugmentSettles(g: Graph, start: nat, so: Owners, oo: Owners, work: int, ds: set<nat>, dO: set<nat>)
    returns (ds': set<nat>, dO': set<nat>)
    requires Ready(g, start, so, oo) && start < |g|
    requires DeadRegion(g, oo, ds, dO) && Settled(so, ds, start)
    ensures var r := Augment(g, start, so, oo, work);
            !r.exhausted ==> DeadRegion(g, r.oursOwner, ds', dO') && Settled(r.sonarOwner, ds', start + 1)
  {
    ds', dO' := ds, dO;
    SearchResult(start, g, so, oo, work);
    var st := FindAugmentingPath(start, g, oo, work);
    if !st.exhausted {
      if st.free.None? {
        VisitedBelow(g, so, oo, st, start);
        DeadRegionsJoin(g, oo, ds, dO, st.visitedSonar, st.visitedOurs);
        assert start in st.queue;
        ds', dO' := ds + st.visitedSonar, dO + st.visitedOurs;
      } else {
        TreeIsFlippable(g, so, oo, st);
        FreeIsAlive(g, oo, st, ds, dO);
        FlipAugments(g, st.queue, st.parent, st.free.value, so, oo, ds, dO);
        SettledByFlip(so, Augment(g, start, so, oo, work).sonarOwner, ds, start);
      }
    }
  }

  lemma SettledByFlip(so: Owners, so': Owners, ds: set<nat>, start: nat)
    requires |so| == |so'| && Matched(so') == Matched(so) + {start} && Settled(so, ds, start)
    ensures Settled(so', ds, start + 1)
  {
    forall s | 0 <= s < start + 1 && s < |so'| ensures so'[s].Some? || s in ds {
      assert s in Matched(so') <==> s in Matched(so) + {start};
    }
  }

  lemma {:induction false} AssignIsMaximum(g: Graph, start: nat, so: Owners, oo: Owners, work: int,
                                           ds: set<nat>, dO: set<nat>, pairs: set<(nat, nat)>)
    requires Ready(g, start, so, oo) && start <= |g|
    requires DeadRegion(g, oo, ds, dO) && Settled(so, ds, start)
    requires IsMatching(g, pairs)
    ensures var r := Assign(g, start, so, oo, work);
            !r.exhausted ==> |pairs| <= |Matched(r.sonarOwner)|
    decreases |g| - start
  {
    if start == |g| {
      DeadRegionProvesMaximum(g, so, oo, ds, dO, pairs);
    } else {
      var r := Augment(g, start, so, oo, work);
      var ds', dO' := AugmentSettles(g, start, so, oo, work, ds, dO);
      if !r.exhausted {
        AssignIsMaximum(g, start + 1, r.sonarOwner, r.oursOwner, r.work, ds', dO', pairs);
      }
    }
  }

  lemma NothingSettled(g: Graph, m: nat)
    ensures DeadRegion(g, NoOwners(m), {}, {}) && Settled(NoOwners(|g|), {}, 0)
  {
  }

  /** Within budget the assignment is a maximum matching: its pairs form a matching of the graph
      and no matching is larger. */
  lemma MaximumMatching(g: Graph, m: nat, work: int)
    requires GraphOver(g, m)
    ensures var r := AssignCompatibleRows(g, m, work);
            && OwnersMatch(g, r.sonarOwner, r.oursOwner)
            && IsMatching(g, PairsOf(r.sonarOwner))
            && |Matched(r.sonarOwner)| == |Matched(r.oursOwner)| == |PairsOf(r.sonarOwner)|
            && (!r.exhausted ==>
                  forall pairs :: IsMatching(g, pairs) ==> |pairs| <= |PairsOf(r.sonarOwner)|)
  {
    hide Assign, Ready, IsMatching, OwnersMatch;
    AssignStart(g, m, work);
    var r := AssignCompatibleRows(g, m, work);
    PairsOfIsMatching(g, r.sonarOwner, r.oursOwner);
    if !r.exhausted {
      NothingSettled(g, m);
      forall pairs | IsMatching(g, pairs) ensures |pairs| <= |PairsOf(r.sonarOwner)| {
        AssignIsMaximum(g, 0, NoOwners(|g|), NoOwners(m), work, {}, {}, pairs);
      }
    }
  }

  // -------------------------------------------------------------- work bound

  /** Searches `start`, `start + 1`, ... below `n`, where search `k` takes at most `k + 1`
      positions from its queue. */
  function SearchBound(m: nat, start: nat, n: nat): nat
    decreases n - start
  {
    if start >= n then 0 else m * (start + 1) + SearchBound(m, start + 1, n)
  }

  lemma {:induction false} SearchBoundClosed(m: nat, n: nat)
    ensures 2 * SearchBound(m, 0, n) == m * (n * (n + 1))
  {
    SearchBoundFrom(m, 0, n);
  }

  lemma {:induction false} SearchBoundFrom(m: nat, start: nat, n: nat)
    requires start <= n
    ensures 2 * SearchBound(m, start, n) == m * (n * (n + 1)) - m * (start * (start + 1))
    decreases n - start
  {
    if start < n {
      SearchBoundFrom(m, start + 1, n);
      TriangleStep(m, start);
    }
  }

  lemma TriangleStep(m: nat, k: nat)
    ensures m * ((k + 1) * (k + 2)) == m * (k * (k + 1)) + 2 * (m * (k + 1))
  {
    var a := k + 1;
    assert a * (k + 2) == k * a + 2 * a;
    assert m * (k * a + 2 * a) == m * (k * a) + m * (2 * a);
  }

  /** What one search may spend when only the positions below `start` are matched. */
  ghost predicate SpendsAtMost(limit: nat, before: int, after: int, exhausted: bool) {
    && before - after <= limit
    && (before >= 0 ==> after >= 0)
    && (exhausted ==> before < limit)
  }

  lemma SearchDequeuesFew(start: nat, g: Graph, so: Owners, oo: Owners, work: int)
    requires Ready(g, start, so, oo) && start < |g|
    ensures OwnersBelow(oo, |g|)
    ensures FindAugmentingPath(start, g, oo, work).head <= start + 1
  {
    SearchResult(start, g, so, oo, work);
    var r := FindAugmentingPath(start, g, oo, work);
    VisitedBelow(g, so, oo, r, start);
    SubsetSize(r.visitedSonar, Universe(start + 1));
  }

  lemma SearchWork(start: nat, g: Graph, so: Owners, oo: Owners, work: int, m: nat)
    requires Ready(g, start, so, oo) && start < |g|
    requires forall s :: 0 <= s < |g| ==> |g[s]| <= m
    ensures OwnersBelow(oo, |g|)
    ensures var st := FindAugmentingPath(start, g, oo, work);
            SpendsAtMost(m * (start + 1), work, st.work, st.exhausted)
  {
    hide Run;
    SearchDequeuesFew(start, g, so, oo, work);
    RunWork(g, oo, StartAt(start, work), m);
    var st := FindAugmentingPath(start, g, oo, work);
    Widen(m, st.head, start + 1);
  }

  lemma AugmentSpendsAsSearch(start: nat, g: Graph, so: Owners, oo: Owners, work: int)
    requires Ready(g, start, so, oo) && start < |g| && OwnersBelow(oo, |g|)
    ensures Augment(g, start, so, oo, work).work == FindAugmentingPath(start, g, oo, work).work
    ensures Augment(g, start, so, oo, work).exhausted == FindAugmentingPath(start, g, oo, work).exhausted
  {
    hide FindAugmentingPath, Flip, Tree;
  }

  lemma Widen(m: nat, a: nat, b: nat)
    requires a <= b
    ensures m * a <= m * b
  {
  }

  lemma {:induction false} AssignWork(g: Graph, start: nat, so: Owners, oo: Owners, work: int, m: nat)
    requires Ready(g, start, so, oo) && start <= |g|
    requires forall s :: 0 <= s < |g| ==> |g[s]| <= m
    ensures var r := Assign(g, start, so, oo, work);
            SpendsAtMost(SearchBound(m, start, |g|), work, r.work, r.exhausted)
    decreases |g| - start
  {
    if start < |g| {
      hide Augment, Ready, FindAugmentingPath, OwnersBelow;
      SearchWork(start, g, so, oo, work, m);
      AugmentSpendsAsSearch(start, g, so, oo, work);
      var r := Augment(g, start, so, oo, work);
      if !r.exhausted {
        AssignWork(g, start + 1, r.sonarOwner, r.oursOwner, r.work, m);
      }
    }
  }

  /** No search gives work back. */
  lemma {:induction false} AssignNeverGains(g: Graph, start: nat, so: Owners, oo: Owners, work: int)
    requires Ready(g, start, so, oo) && start <= |g|
    ensures Assign(g, start, so, oo, work).work <= work
    decreases |g| - start
  {
    hide Augment, Ready;
    if start < |g| {
      AugmentNeverGains(g, start, so, oo, work);
      var r := Augment(g, start, so, oo, work);
      if !r.exhausted {
        AssignNeverGains(g, start + 1, r.sonarOwner, r.oursOwner, r.work);
      }
    }
  }

  lemma AugmentNeverGains(g: Graph, start: nat, so: Owners, oo: Owners, work: int)
    requires Ready(g, start, so, oo) && start < |g|
    ensures Augment(g, start, so, oo, work).work <= work
  {
    hide FindAugmentingPath;
    SearchResult(start, g, so, oo, work);
    SearchNeverGains(start, g, oo, work);
  }

  // ---------------------------------------------------------------- the loop

  /** What one round of the loop amounts to. */
  lemma AssignStep(g: Graph, start: nat, so: Owners, oo: Owners, work: int)
    requires Ready(g, start, so, oo) && start < |g|
    ensures GraphOver(g, |oo|) && OwnersBelow(oo, |g|)
    ensures var st := FindAugmentingPath(start, g, oo, work);
            if st.exhausted then Assign(g, start, so, oo, work) == Assignment(so, oo, st.work, true)
            else if st.free.None? then
              Ready(g, start + 1, so, oo) && Assign(g, start, so, oo, work) == Assign(g, start + 1, so, oo, st.work)
            else
              && FlipReady(g, st.queue, st.parent, st.free.value, so, oo)
              && var (so', oo') := Flip(g, st.queue, st.parent, st.free.value, so, oo);
                 Ready(g, start + 1, so', oo') && Assign(g, start, so, oo, work) == Assign(g, start + 1, so', oo', st.work)
  {
    hide FindAugmentingPath, Flip, FlipReady, Tree;
    SearchResult(start, g, so, oo, work);
    var st := FindAugmentingPath(start, g, oo, work);
    var r := Augment(g, start, so, oo, work);
    assert Assign(g, start, so, oo, work) == if r.exhausted then r else Assign(g, start + 1, r.sonarOwner, r.oursOwner, r.work);
    if !st.exhausted && st.free.Some? {
      TreeIsFlippable(g, so, oo, st);
      var (so', oo') := Flip(g, st.queue, st.parent, st.free.value, so, oo);
      assert r == Assignment(so', oo', st.work, false);
    }
  }

  lemma AssignStart(g: Graph, m: nat, work: int)
    requires GraphOver(g, m)
    ensures Ready(g, 0, NoOwners(|g|), NoOwners(m))
    ensures AssignCompatibleRows(g, m, work) == Assign(g, 0, NoOwners(|g|), NoOwners(m), work)
  {
    hide Assign;
  }

  lemma AssignEnd(g: Graph, so: Owners, oo: Owners, work: int)
    requires Ready(g, |g|, so, oo)
    ensures |so| == |g| && Assign(g, |g|, so, oo, work) == Assignment(so, oo, work, false)
  {
    hide Augment;
  }

  method AssignRows(compatible: Graph, oursCount: nat, budget: int)
    returns (sonarOwner: array<Option<nat>>, oursOwner: array<Option<nat>>, remainingWork: int, exhausted: bool)
    requires GraphOver(compatible, oursCount)
    ensures fresh(sonarOwner) && fresh(oursOwner)
    ensures Assignment(sonarOwner[..], oursOwner[..], remainingWork, exhausted)
            == AssignCompatibleRows(compatible, oursCount, budget)
  {
    hide Assign, Ready, FlipReady, Flip, FindAugmentingPath, AssignCompatibleRows, GraphOver, OwnersBelow;
    sonarOwner := new Option<nat>[|compatible|](_ => None);
    oursOwner := new Option<nat>[oursCount](_ => None);
    remainingWork, exhausted := budget, false;
    assert sonarOwner[..] == NoOwners(|compatible|) && oursOwner[..] == NoOwners(oursCount);
    AssignStart(compatible, oursCount, budget);
    for start := 0 to |compatible|
      invariant fresh(sonarOwner) && fresh(oursOwner) && sonarOwner != oursOwner
      invariant oursOwner.Length == oursCount
      invariant Ready(compatible, start, sonarOwner[..], oursOwner[..])
      invariant Assign(compatible, start, sonarOwner[..], oursOwner[..], remainingWork)
                == AssignCompatibleRows(compatible, oursCount, budget)
      invariant !exhausted
    {
      AssignStep(compatible, start, sonarOwner[..], oursOwner[..], remainingWork);
      ghost var st := FindAugmentingPath(start, compatible, oursOwner[..], remainingWork);
      var parentOurs, freeOurs;
      parentOurs, freeOurs, remainingWork, exhausted := FindPath(start, compatible, oursOwner, remainingWork);
      if exhausted {
        return;
      }
      if freeOurs == None {
        continue;
      }
      FlipPath(compatible, st.queue, parentOurs, freeOurs.value, sonarOwner, oursOwner);
    }
    AssignEnd(compatible, sonarOwner[..], oursOwner[..], remainingWork);
  }

  /** The flip in place, from the free position back to the start of the search. */
  method FlipPath(ghost g: Graph, ghost queue: seq<nat>, parentOurs: map<nat, nat>, freeOurs: nat,
                  sonarOwner: array<Option<nat>>, oursOwner: array<Option<nat>>)
    requires sonarOwner != oursOwner
    requires FlipReady(g, queue, parentOurs, freeOurs, sonarOwner[..], oursOwner[..])
    modifies sonarOwner, oursOwner
    ensures (sonarOwner[..], oursOwner[..])
            == old(Flip(g, queue, parentOurs, freeOurs, sonarOwner[..], oursOwner[..]))
  {
    ghost var goal := Flip(g, queue, parentOurs, freeOurs, sonarOwner[..], oursOwner[..]);
    var oursIndex: Option<nat> := Some(freeOurs);
    while oursIndex != None
      invariant oursIndex.Some? ==>
                  && FlipReady(g, queue, parentOurs, oursIndex.value, sonarOwner[..], oursOwner[..])
                  && Flip(g, queue, parentOurs, oursIndex.value, sonarOwner[..], oursOwner[..]) == goal
      invariant oursIndex.None? ==> (sonarOwner[..], oursOwner[..]) == goal
      decreases if oursIndex.Some? then 1 + Index(queue, parentOurs[oursIndex.value]) else 0
    {
      ghost var so, oo := sonarOwner[..], oursOwner[..];
      FlipStep(g, queue, parentOurs, oursIndex.value, so, oo);
      var sonarIndex := parentOurs[oursIndex.value];
      var previousOurs := sonarOwner[sonarIndex];
      sonarOwner[sonarIndex] := oursIndex;
      oursOwner[oursIndex.value] := Some(sonarIndex);
      assert sonarOwner[..] == so[sonarIndex := oursIndex];
      assert oursOwner[..] == oo[oursIndex.value := Some(sonarIndex)];
      oursIndex := previousOurs;
    }
  }
}
