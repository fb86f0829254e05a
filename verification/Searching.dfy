/** Breadth-first search for an augmenting path under a work budget
    (tools/oracle/parity.py:1255-1313). */
module Searching {
  import opened Orders
  import opened Matching

  /** The variables of the search between two steps. */
  datatype Search = Search(
    queue: seq<nat>, head: nat,
    visitedSonar: set<nat>, visitedOurs: set<nat>,
    parent: map<nat, nat>, free: Option<nat>,
    work: int, exhausted: bool)

  function SpendWork(remaining: int): (r: (int, bool))
    ensures r.1 <==> remaining > 0
    ensures r.0 == if r.1 then remaining - 1 else remaining
  {
    if remaining <= 0 then (remaining, false) else (remaining - 1, true)
  }

  /** Asking for units one by one until one is refused. */
  function SpendUnits(remaining: int, units: nat): (int, bool)
    decreases units
  {
    if units == 0 then (remaining, true)
    else
      var (left, spent) := SpendWork(remaining);
      if !spent then (left, false) else SpendUnits(left, units - 1)
  }

  /** A budget grants as many units as it holds and no more, and is never overdrawn. */
  lemma {:induction false} UnitsAreCounted(remaining: nat, units: nat)
    ensures SpendUnits(remaining, units) == if units <= remaining then (remaining - units, true) else (0, false)
    decreases units
  {
    if units > 0 && remaining > 0 {
      UnitsAreCounted(remaining - 1, units - 1);
    }
  }

  function StartAt(start: nat, work: int): Search {
    Search([start], 0, {start}, {}, map[], None, work, false)
  }

  /** The inner loop: the rest of row `row` of position `s`, from entry `k` on. */
  function Scan(s: nat, row: seq<nat>, k: nat, owner: Owners, st: Search): Search
    requires k <= |row| && forall i :: 0 <= i < |row| ==> row[i] < |owner|
    decreases |row| - k
  {
    if k == |row| then st
    else
      var (work, spent) := SpendWork(st.work);
      if !spent then st.(work := work, exhausted := true)
      else if row[k] in st.visitedOurs then Scan(s, row, k + 1, owner, st.(work := work))
      else
        var st := Visit(s, row[k], owner, st.(work := work));
        if owner[row[k]].None? then st else Scan(s, row, k + 1, owner, st)
  }

  /** Visits `o` from `s`: a free position ends the search, an owner joins the queue. */
  function Visit(s: nat, o: nat, owner: Owners, st: Search): Search
    requires o < |owner|
  {
    var st := st.(visitedOurs := st.visitedOurs + {o}, parent := st.parent[o := s]);
    if owner[o].None? then st.(free := Some(o)) else Enqueue(st, owner[o].value)
  }

  function Enqueue(st: Search, p: nat): Search {
    if p in st.visitedSonar then st
    else st.(visitedSonar := st.visitedSonar + {p}, queue := st.queue + [p])
  }

  /** The queue lists each visited position of the first list once. */
  ghost predicate Shaped(n: nat, st: Search) {
    && st.head <= |st.queue|
    && (forall s :: s in st.queue <==> s in st.visitedSonar)
    && |st.queue| == |st.visitedSonar|
    && st.visitedSonar <= Universe(n)
  }

  ghost predicate OwnersBelow(owner: Owners, n: nat) {
    forall o :: 0 <= o < |owner| && owner[o].Some? ==> owner[o].value < n
  }

  lemma EnqueueKeepsShape(n: nat, st: Search, p: nat)
    requires Shaped(n, st) && p < n
    ensures var r := Enqueue(st, p);
            && Shaped(n, r) && st.queue <= r.queue
            && (r.queue == st.queue || st.visitedSonar < r.visitedSonar)
  {
    if p !in st.visitedSonar {
      var r := Enqueue(st, p);
      assert r.queue[..|st.queue|] == st.queue;
      forall s ensures s in r.queue <==> s in r.visitedSonar {
        assert s in r.queue <==> s in st.queue || s == p;
      }
    }
  }

  /** One queue continues another: nothing was dequeued, and it grew only by new positions. */
  ghost predicate Continues(st: Search, r: Search) {
    && r.head == st.head
    && st.queue <= r.queue
    && st.visitedSonar <= r.visitedSonar
    && (r.queue == st.queue || st.visitedSonar < r.visitedSonar)
  }

  lemma ContinuesOn(a: Search, b: Search, c: Search)
    requires Continues(a, b) && Continues(b, c)
    ensures Continues(a, c)
  {
  }

  lemma VisitContinues(n: nat, s: nat, o: nat, owner: Owners, st: Search)
    requires Shaped(n, st) && o < |owner| && (owner[o].Some? ==> owner[o].value < n)
    ensures Shaped(n, Visit(s, o, owner, st)) && Continues(st, Visit(s, o, owner, st))
  {
    if owner[o].Some? {
      EnqueueKeepsShape(n, st.(visitedOurs := st.visitedOurs + {o}, parent := st.parent[o := s]), owner[o].value);
    }
  }

  lemma WorkIsNoPartOfShape(n: nat, st: Search, work: int, exhausted: bool)
    requires Shaped(n, st)
    ensures var r := st.(work := work, exhausted := exhausted); Shaped(n, r) && Continues(st, r)
  {
  }

  lemma {:induction false} ScanKeepsShape(n: nat, s: nat, row: seq<nat>, k: nat, owner: Owners, st: Search)
    requires k <= |row| && forall i :: 0 <= i < |row| ==> row[i] < |owner|
    requires Shaped(n, st) && OwnersBelow(owner, n)
    ensures Shaped(n, Scan(s, row, k, owner, st)) && Continues(st, Scan(s, row, k, owner, st))
    decreases |row| - k
  {
    hide Shaped, Continues, Visit;
    WorkIsNoPartOfShape(n, st, st.work, st.exhausted);
    WorkIsNoPartOfShape(n, st, st.work, true);
    if k < |row| && st.work > 0 {
      var o, st1 := row[k], st.(work := st.work - 1);
      WorkIsNoPartOfShape(n, st, st.work - 1, st.exhausted);
      if o in st.visitedOurs {
        ScanKeepsShape(n, s, row, k + 1, owner, st1);
        ContinuesOn(st, st1, Scan(s, row, k + 1, owner, st1));
      } else {
        var st2 := Visit(s, o, owner, st1);
        VisitContinues(n, s, o, owner, st1);
        ContinuesOn(st, st1, st2);
        if owner[o].Some? {
          ScanKeepsShape(n, s, row, k + 1, owner, st2);
          ContinuesOn(st, st2, Scan(s, row, k + 1, owner, st2));
        }
      }
    }
  }

  /** The outer loop. */
  function Run(g: Graph, owner: Owners, st: Search): Search
    requires GraphOver(g, |owner|) && OwnersBelow(owner, |g|) && Shaped(|g|, st)
    decreases Universe(|g|) - st.visitedSonar, |st.queue| - st.head
  {
    if st.head < |st.queue| && st.free.None? && !st.exhausted then
      var s := st.queue[st.head];
      assert s in st.visitedSonar;
      ScanKeepsShape(|g|, s, g[s], 0, owner, st.(head := st.head + 1));
      Run(g, owner, Scan(s, g[s], 0, owner, st.(head := st.head + 1)))
    else st
  }

  function FindAugmentingPath(start: nat, g: Graph, owner: Owners, work: int): Search
    requires start < |g| && GraphOver(g, |owner|) && OwnersBelow(owner, |g|)
  {
    Run(g, owner, StartAt(start, work))
  }

  // ---------------------------------------------------------- the search tree

  function Index(queue: seq<nat>, s: nat): (i: nat)
    requires s in queue
    ensures i < |queue| && queue[i] == s
    ensures forall j :: 0 <= j < i ==> queue[j] != s
  {
    if queue[0] == s then 0 else 1 + Index(queue[1..], s)
  }

  lemma IndexStable(queue: seq<nat>, more: seq<nat>, s: nat)
    requires queue <= more && s in queue
    ensures s in more && Index(more, s) == Index(queue, s)
  {
    var i, j := Index(queue, s), Index(more, s);
    assert more[i] == s;
    assert j < |queue| ==> queue[j] == s;
  }

  lemma IndexOfNew(queue: seq<nat>, s: nat)
    requires s !in queue
    ensures Index(queue + [s], s) == |queue|
  {
    assert (queue + [s])[|queue|] == s;
    forall i | 0 <= i < |queue| ensures (queue + [s])[i] != s {
    }
  }

  /** Position `s` of the queue hangs in the tree: the start is free, every other position was
      reached through the position it is matched to, from an earlier position of the queue. */
  ghost predicate Hangs(so: Owners, queue: seq<nat>, parent: map<nat, nat>, s: nat)
    requires s in queue
  {
    && s < |so|
    && if s == queue[0] then so[s].None?
       else && so[s].Some? && so[s].value in parent
            && parent[so[s].value] in queue
            && Index(queue, parent[so[s].value]) < Index(queue, s)
  }

  ghost predicate AllHang(so: Owners, queue: seq<nat>, parent: map<nat, nat>) {
    forall s :: s in queue ==> Hangs(so, queue, parent, s)
  }

  /** Every visited position of the second list was seen along an edge from the queue. */
  ghost predicate SeenAlongEdges(g: Graph, m: nat, queue: seq<nat>, parent: map<nat, nat>) {
    forall o :: o in parent ==> o < m && Edge(g, parent[o], o) && parent[o] in queue
  }

  /** Owners of visited positions are queued; the one visited position without an owner, if
      any, is the search's result. */
  ghost predicate OwnersSeen(oo: Owners, st: Search) {
    && (forall o :: o in st.visitedOurs ==>
          o < |oo| && if oo[o].None? then st.free == Some(o) else oo[o].value in st.visitedSonar)
    && (st.free.Some? ==> st.free.value in st.visitedOurs && oo[st.free.value].None?)
  }

  ghost predicate Tree(g: Graph, so: Owners, oo: Owners, st: Search) {
    && Shaped(|g|, st) && st.queue != []
    && st.parent.Keys == st.visitedOurs
    && SeenAlongEdges(g, |oo|, st.queue, st.parent)
    && OwnersSeen(oo, st)
    && AllHang(so, st.queue, st.parent)
  }

  /** Everything compatible with the first `h` positions of the queue has been visited. */
  ghost predicate Closed(g: Graph, st: Search, h: nat) {
    forall i, o :: 0 <= i < h && i < |st.queue| && Edge(g, st.queue[i], o) ==> o in st.visitedOurs
  }

  lemma HangsStable(so: Owners, queue: seq<nat>, more: seq<nat>, parent: map<nat, nat>, s: nat)
    requires queue <= more && s in queue && Hangs(so, queue, parent, s)
    ensures s in more && Hangs(so, more, parent, s)
  {
    IndexStable(queue, more, s);
    if s != queue[0] {
      IndexStable(queue, more, parent[so[s].value]);
    }
  }

  /** A new position of the second list, seen from `s`, changes no place in the queue. */
  lemma VisitKeepsHanging(so: Owners, st: Search, s: nat, o: nat)
    requires st.parent.Keys == st.visitedOurs && o !in st.visitedOurs
    requires AllHang(so, st.queue, st.parent)
    ensures AllHang(so, st.queue, st.parent[o := s])
  {
    forall x | x in st.queue ensures Hangs(so, st.queue, st.parent[o := s], x) {
      assert Hangs(so, st.queue, st.parent, x);
    }
  }

  /** The owner of a newly seen position hangs behind everything already queued. */
  lemma EnqueueKeepsHanging(so: Owners, st: Search, s: nat, o: nat, p: nat)
    requires st.queue != [] && s in st.queue && p !in st.queue
    requires p < |so| && so[p] == Some(o) && o in st.parent && st.parent[o] == s
    requires AllHang(so, st.queue, st.parent)
    ensures AllHang(so, st.queue + [p], st.parent)
  {
    var more := st.queue + [p];
    IndexOfNew(st.queue, p);
    IndexStable(st.queue, more, s);
    forall x | x in more ensures Hangs(so, more, st.parent, x) {
      if x != p {
        assert x in st.queue;
        HangsStable(so, st.queue, more, st.parent, x);
      }
    }
  }

  lemma VisitSeesOwner(oo: Owners, st: Search, s: nat, o: nat)
    requires OwnersSeen(oo, st) && st.free.None? && o < |oo| && o !in st.visitedOurs
    ensures OwnersSeen(oo, Visit(s, o, oo, st))
  {
  }

  lemma VisitFollowsEdge(g: Graph, oo: Owners, st: Search, s: nat, o: nat)
    requires SeenAlongEdges(g, |oo|, st.queue, st.parent)
    requires s in st.queue && Edge(g, s, o) && o < |oo|
    ensures SeenAlongEdges(g, |oo|, Visit(s, o, oo, st).queue, Visit(s, o, oo, st).parent)
  {
  }

  lemma VisitKeepsShape(n: nat, oo: Owners, st: Search, s: nat, o: nat)
    requires Shaped(n, st) && o < |oo| && (oo[o].Some? ==> oo[o].value < n)
    requires st.parent.Keys == st.visitedOurs
    ensures var r := Visit(s, o, oo, st);
            Shaped(n, r) && Continues(st, r) && r.parent.Keys == r.visitedOurs == st.visitedOurs + {o}
  {
    hide Shaped, Continues;
    VisitContinues(n, s, o, oo, st);
  }

  lemma VisitHangs(n: nat, so: Owners, oo: Owners, st: Search, s: nat, o: nat)
    requires Shaped(n, st) && st.queue != [] && st.parent.Keys == st.visitedOurs && AllHang(so, st.queue, st.parent)
    requires s in st.queue && o < |oo| && o !in st.visitedOurs
    requires oo[o].Some? ==> oo[o].value < |so| && so[oo[o].value] == Some(o)
    ensures AllHang(so, Visit(s, o, oo, st).queue, Visit(s, o, oo, st).parent)
  {
    VisitKeepsHanging(so, st, s, o);
    if oo[o].Some? && oo[o].value !in st.visitedSonar {
      EnqueueKeepsHanging(so, st.(visitedOurs := st.visitedOurs + {o}, parent := st.parent[o := s]), s, o, oo[o].value);
    }
  }

  /** One unvisited entry of a row keeps the tree. */
  lemma VisitKeepsTree(g: Graph, so: Owners, oo: Owners, st: Search, s: nat, o: nat)
    requires Tree(g, so, oo, st) && st.free.None?
    requires s in st.queue && Edge(g, s, o) && o < |oo| && o !in st.visitedOurs
    requires oo[o].Some? ==> oo[o].value < |g| == |so| && so[oo[o].value] == Some(o)
    ensures var r := Visit(s, o, oo, st);
            Tree(g, so, oo, r) && s in r.queue && r.visitedOurs == st.visitedOurs + {o}
  {
    VisitKeepsShape(|g|, oo, st, s, o);
    VisitHangs(|g|, so, oo, st, s, o);
    VisitSeesOwner(oo, st, s, o);
    VisitFollowsEdge(g, oo, st, s, o);
  }

  lemma VisitOutcome(oo: Owners, st: Search, s: nat, o: nat)
    requires o < |oo|
    ensures Visit(s, o, oo, st).free == (if oo[o].None? then Some(o) else st.free)
    ensures Visit(s, o, oo, st).exhausted == st.exhausted
  {
  }

  lemma WorkIsNoPartOfTree(g: Graph, so: Owners, oo: Owners, st: Search, work: int)
    requires Tree(g, so, oo, st)
    ensures Tree(g, so, oo, st.(work := work)) && Tree(g, so, oo, st.(work := work, exhausted := true))
  {
  }

  /** What one scan of the row of `s` from entry `k` on leaves behind. */
  ghost predicate Scanned(g: Graph, so: Owners, oo: Owners, st: Search, s: nat, k: nat, r: Search)
    requires s < |g|
  {
    && Tree(g, so, oo, r)
    && st.visitedOurs <= r.visitedOurs
    && (r.free.None? && !r.exhausted ==> forall i :: k <= i < |g[s]| ==> g[s][i] in r.visitedOurs)
  }

  lemma {:induction false} ScanKeepsTree(g: Graph, so: Owners, oo: Owners, st: Search, s: nat, k: nat)
    requires OwnersMatch(g, so, oo) && Tree(g, so, oo, st) && st.free.None? && !st.exhausted
    requires s in st.queue && s < |g| && GraphOver(g, |oo|) && k <= |g[s]|
    ensures Scanned(g, so, oo, st, s, k, Scan(s, g[s], k, oo, st))
    decreases |g[s]| - k
  {
    hide Tree, Visit;
    WorkIsNoPartOfTree(g, so, oo, st, st.work);
    if k < |g[s]| && st.work > 0 {
      var o, st1 := g[s][k], st.(work := st.work - 1);
      WorkIsNoPartOfTree(g, so, oo, st, st.work - 1);
      if o in st.visitedOurs {
        ScanKeepsTree(g, so, oo, st1, s, k + 1);
      } else {
        VisitKeepsTree(g, so, oo, st1, s, o);
        VisitOutcome(oo, st1, s, o);
        if oo[o].Some? {
          ScanKeepsTree(g, so, oo, Visit(s, o, oo, st1), s, k + 1);
        }
      }
    }
  }

  lemma ClosedGrows(g: Graph, st: Search, r: Search, s: nat)
    requires st.head < |st.queue| && s == st.queue[st.head] && s < |g|
    requires st.queue <= r.queue && r.head == st.head + 1 && st.visitedOurs <= r.visitedOurs
    requires Closed(g, st, st.head) && forall i :: 0 <= i < |g[s]| ==> g[s][i] in r.visitedOurs
    ensures Closed(g, r, r.head)
  {
    forall i, o | 0 <= i < r.head && i < |r.queue| && Edge(g, r.queue[i], o) ensures o in r.visitedOurs {
      assert r.queue[i] == st.queue[i];
    }
  }

  lemma TreeIsShaped(g: Graph, so: Owners, oo: Owners, st: Search)
    requires Tree(g, so, oo, st)
    ensures Shaped(|g|, st) && st.queue != []
    ensures st.head >= |st.queue| && Closed(g, st, st.head) ==> Closed(g, st, |st.queue|)
  {
  }

  lemma HeadIsNoPartOfTree(g: Graph, so: Owners, oo: Owners, st: Search)
    requires Tree(g, so, oo, st) && st.head < |st.queue|
    ensures st.queue[st.head] < |g| && Shaped(|g|, st.(head := st.head + 1)) && Tree(g, so, oo, st.(head := st.head + 1))
  {
    assert st.queue[st.head] in st.visitedSonar;
  }

  /** One round keeps the tree and what is closed of it. */
  lemma RoundKeepsTree(g: Graph, so: Owners, oo: Owners, st: Search)
    requires OwnersMatch(g, so, oo) && GraphOver(g, |oo|) && OwnersBelow(oo, |g|)
    requires Tree(g, so, oo, st) && Closed(g, st, st.head)
    requires st.head < |st.queue| && st.free.None? && !st.exhausted
    ensures var s := st.queue[st.head];
            && s < |g| && (forall i :: 0 <= i < |g[s]| ==> g[s][i] < |oo|)
            && var r := Scan(s, g[s], 0, oo, st.(head := st.head + 1));
               && Tree(g, so, oo, r) && r.queue != [] && r.queue[0] == st.queue[0]
               && (r.free.None? && !r.exhausted ==> Closed(g, r, r.head))
  {
    hide Scan, Closed, Tree;
    HeadIsNoPartOfTree(g, so, oo, st);
    var s, st1 := st.queue[st.head], st.(head := st.head + 1);
    ScanKeepsShape(|g|, s, g[s], 0, oo, st1);
    ScanKeepsTree(g, so, oo, st1, s, 0);
    var st2 := Scan(s, g[s], 0, oo, st1);
    TreeIsShaped(g, so, oo, st2);
    if st2.free.None? && !st2.exhausted {
      ClosedGrows(g, st, st2, s);
    }
  }

  /** The whole search keeps the tree; one that ends without a free position and within budget
      has visited everything compatible with what it reached. */
  lemma {:induction false} RunKeepsTree(g: Graph, so: Owners, oo: Owners, st: Search)
    requires OwnersMatch(g, so, oo) && GraphOver(g, |oo|) && OwnersBelow(oo, |g|)
    requires Tree(g, so, oo, st)
    requires st.free.None? && !st.exhausted ==> Closed(g, st, st.head)
    ensures var r := Run(g, oo, st);
            && Tree(g, so, oo, r) && r.queue[0] == st.queue[0]
            && (r.free.None? && !r.exhausted ==> Closed(g, r, |r.queue|))
    decreases Universe(|g|) - st.visitedSonar, |st.queue| - st.head
  {
    TreeIsShaped(g, so, oo, st);
    if st.head < |st.queue| && st.free.None? && !st.exhausted {
      hide Tree, Scan, Shaped, Closed, OwnersMatch, OwnersBelow;
      RunStep(g, oo, st);
      RoundKeepsTree(g, so, oo, st);
      RunKeepsTree(g, so, oo, Scan(st.queue[st.head], g[st.queue[st.head]], 0, oo, st.(head := st.head + 1)));
    } else {
      RunEnd(g, oo, st);
    }
  }

  /** What a search from a free position establishes. */
  lemma SearchResult(start: nat, g: Graph, so: Owners, oo: Owners, work: int)
    requires OwnersMatch(g, so, oo) && GraphOver(g, |oo|) && start < |g| && so[start].None?
    ensures OwnersBelow(oo, |g|)
    ensures var r := FindAugmentingPath(start, g, oo, work);
            && Tree(g, so, oo, r) && r.queue[0] == start
            && (r.free.None? && !r.exhausted ==> DeadRegion(g, oo, r.visitedSonar, r.visitedOurs))
  {
    var st := StartAt(start, work);
    assert Hangs(so, st.queue, st.parent, start);
    RunKeepsTree(g, so, oo, st);
    var r := Run(g, oo, st);
    if r.free.None? && !r.exhausted {
      forall s, o | s in r.visitedSonar && Edge(g, s, o) ensures o in r.visitedOurs {
        assert r.queue[Index(r.queue, s)] == s;
      }
    }
  }

  // -------------------------------------------------------------- work spent

  /** Scanning spends at most one unit an entry, and stops short only when the budget is gone. */
  lemma {:induction false} ScanWork(s: nat, row: seq<nat>, k: nat, owner: Owners, st: Search)
    requires k <= |row| && forall i :: 0 <= i < |row| ==> row[i] < |owner|
    requires !st.exhausted
    ensures var r := Scan(s, row, k, owner, st);
            && st.work - r.work <= |row| - k
            && (st.work >= 0 ==> r.work >= 0)
            && (r.exhausted ==> st.work < |row| - k)
    decreases |row| - k
  {
    if k < |row| && st.work > 0 {
      var o, st1 := row[k], st.(work := st.work - 1);
      if o in st.visitedOurs {
        ScanWork(s, row, k + 1, owner, st1);
      } else if owner[o].Some? {
        ScanWork(s, row, k + 1, owner, Visit(s, o, owner, st1));
      }
    }
  }

  lemma MoreRows(m: nat, h: int)
    ensures m * (h + 1) == m + m * h
  {
  }

  /** A whole search spends at most a row's width for each position it takes from the queue. */
  lemma {:induction false} RunWork(g: Graph, owner: Owners, st: Search, m: nat)
    requires GraphOver(g, |owner|) && OwnersBelow(owner, |g|) && Shaped(|g|, st)
    requires !st.exhausted && forall s :: 0 <= s < |g| ==> |g[s]| <= m
    ensures var r := Run(g, owner, st);
            && Shaped(|g|, r) && st.head <= r.head
            && st.work - r.work <= m * (r.head - st.head)
            && (st.work >= 0 ==> r.work >= 0)
            && (r.exhausted ==> st.work < m * (r.head - st.head))
    decreases Universe(|g|) - st.visitedSonar, |st.queue| - st.head
  {
    hide Scan;
    if st.head < |st.queue| && st.free.None? {
      var s := st.queue[st.head];
      assert s in st.visitedSonar;
      var st1 := st.(head := st.head + 1);
      ScanKeepsShape(|g|, s, g[s], 0, owner, st1);
      ScanWork(s, g[s], 0, owner, st1);
      var st2 := Scan(s, g[s], 0, owner, st1);
      MoreRows(m, 0);
      if st2.exhausted {
        assert Run(g, owner, st2) == st2;
      } else {
        RunWork(g, owner, st2, m);
        MoreRows(m, Run(g, owner, st2).head - st2.head);
      }
    }
  }

  lemma {:induction false} ScanNeverGains(s: nat, row: seq<nat>, k: nat, owner: Owners, st: Search)
    requires k <= |row| && forall i :: 0 <= i < |row| ==> row[i] < |owner|
    ensures Scan(s, row, k, owner, st).work <= st.work
    decreases |row| - k
  {
    if k < |row| && st.work > 0 {
      var o, st1 := row[k], st.(work := st.work - 1);
      if o in st.visitedOurs {
        ScanNeverGains(s, row, k + 1, owner, st1);
      } else if owner[o].Some? {
        ScanNeverGains(s, row, k + 1, owner, Visit(s, o, owner, st1));
      }
    }
  }

  lemma {:induction false} RunNeverGains(g: Graph, owner: Owners, st: Search)
    requires GraphOver(g, |owner|) && OwnersBelow(owner, |g|) && Shaped(|g|, st)
    ensures Run(g, owner, st).work <= st.work
    decreases Universe(|g|) - st.visitedSonar, |st.queue| - st.head
  {
    hide Scan;
    if st.head < |st.queue| && st.free.None? && !st.exhausted {
      var s := st.queue[st.head];
      assert s in st.visitedSonar;
      var st1 := st.(head := st.head + 1);
      ScanKeepsShape(|g|, s, g[s], 0, owner, st1);
      ScanNeverGains(s, g[s], 0, owner, st1);
      RunNeverGains(g, owner, Scan(s, g[s], 0, owner, st1));
    }
  }

  lemma SearchNeverGains(start: nat, g: Graph, owner: Owners, work: int)
    requires start < |g| && GraphOver(g, |owner|) && OwnersBelow(owner, |g|)
    ensures FindAugmentingPath(start, g, owner, work).work <= work
  {
    hide Run;
    RunNeverGains(g, owner, StartAt(start, work));
  }

  // ---------------------------------------------------------------- the loops

  lemma RunStart(start: nat, g: Graph, owner: Owners, work: int)
    requires start < |g| && GraphOver(g, |owner|) && OwnersBelow(owner, |g|)
    ensures Shaped(|g|, StartAt(start, work))
    ensures Run(g, owner, StartAt(start, work)) == FindAugmentingPath(start, g, owner, work)
  {
    hide Run;
  }

  /** What one round of the outer loop amounts to, and why there is an end to the rounds. */
  lemma RunStep(g: Graph, owner: Owners, st: Search)
    requires GraphOver(g, |owner|) && OwnersBelow(owner, |g|) && Shaped(|g|, st)
    requires st.head < |st.queue| && st.free.None? && !st.exhausted
    ensures var s := st.queue[st.head];
            && s < |g| && (forall i :: 0 <= i < |g[s]| ==> g[s][i] < |owner|)
            && var r := Scan(s, g[s], 0, owner, st.(head := st.head + 1));
               && Shaped(|g|, r) && Run(g, owner, st) == Run(g, owner, r) && r.head == st.head + 1
               && (Universe(|g|) - r.visitedSonar < Universe(|g|) - st.visitedSonar
                   || (r.visitedSonar == st.visitedSonar && |r.queue| - r.head < |st.queue| - st.head))
  {
    hide Scan;
    var s := st.queue[st.head];
    assert s in st.visitedSonar;
    ScanKeepsShape(|g|, s, g[s], 0, owner, st.(head := st.head + 1));
  }

  lemma RunEnd(g: Graph, owner: Owners, st: Search)
    requires GraphOver(g, |owner|) && OwnersBelow(owner, |g|) && Shaped(|g|, st)
    requires !(st.head < |st.queue| && st.free.None? && !st.exhausted)
    ensures Run(g, owner, st) == st
  {
  }

  /** The search as the source writes it, over the owner array of the second list. */
  method FindPath(start: nat, compatible: Graph, oursOwner: array<Option<nat>>, budget: int)
    returns (parentOurs: map<nat, nat>, freeOurs: Option<nat>, remainingWork: int, exhausted: bool)
    requires start < |compatible| && GraphOver(compatible, oursOwner.Length) && OwnersBelow(oursOwner[..], |compatible|)
    ensures var r := FindAugmentingPath(start, compatible, oursOwner[..], budget);
            parentOurs == r.parent && freeOurs == r.free && remainingWork == r.work && exhausted == r.exhausted
  {
    hide Run, Scan, Shaped, OwnersBelow;
    RunStart(start, compatible, oursOwner[..], budget);
    var queue, queueIndex := [start], 0;
    var visitedSonar: set<nat>, visitedOurs: set<nat> := {start}, {};
    parentOurs, freeOurs, remainingWork, exhausted := map[], None, budget, false;
    ghost var owner := oursOwner[..];
    ghost var st := StartAt(start, budget);
    while queueIndex < |queue| && freeOurs == None && !exhausted
      invariant st == Search(queue, queueIndex, visitedSonar, visitedOurs, parentOurs, freeOurs, remainingWork, exhausted)
      invariant Shaped(|compatible|, st)
      invariant Run(compatible, owner, st) == FindAugmentingPath(start, compatible, owner, budget)
      decreases Universe(|compatible|) - visitedSonar, |queue| - queueIndex
    {
      RunStep(compatible, owner, st);
      var sonarIndex := queue[queueIndex];
      queueIndex := queueIndex + 1;
      st := Scan(sonarIndex, compatible[sonarIndex], 0, owner, st.(head := queueIndex));
      queue, visitedSonar, visitedOurs, parentOurs, freeOurs, remainingWork, exhausted :=
        ScanRow(sonarIndex, compatible[sonarIndex], oursOwner, queue, visitedSonar, visitedOurs, parentOurs, remainingWork, queueIndex);
    }
    RunEnd(compatible, owner, st);
  }

  method ScanRow(sonarIndex: nat, row: seq<nat>, oursOwner: array<Option<nat>>,
                 queue0: seq<nat>, visitedSonar0: set<nat>, visitedOurs0: set<nat>, parent0: map<nat, nat>, budget: int,
                 ghost head: nat)
    returns (queue: seq<nat>, visitedSonar: set<nat>, visitedOurs: set<nat>, parentOurs: map<nat, nat>,
             freeOurs: Option<nat>, remainingWork: int, exhausted: bool)
    requires forall i :: 0 <= i < |row| ==> row[i] < oursOwner.Length
    ensures Search(queue, head, visitedSonar, visitedOurs, parentOurs, freeOurs, remainingWork, exhausted)
            == Scan(sonarIndex, row, 0, oursOwner[..],
                    Search(queue0, head, visitedSonar0, visitedOurs0, parent0, None, budget, false))
  {
    queue, visitedSonar, visitedOurs, parentOurs := queue0, visitedSonar0, visitedOurs0, parent0;
    freeOurs, remainingWork, exhausted := None, budget, false;
    ghost var owner := oursOwner[..];
    ghost var goal := Scan(sonarIndex, row, 0, owner, Search(queue, head, visitedSonar, visitedOurs, parentOurs, freeOurs, remainingWork, exhausted));
    for k := 0 to |row|
      invariant freeOurs == None && !exhausted
      invariant goal == Scan(sonarIndex, row, k, owner,
                             Search(queue, head, visitedSonar, visitedOurs, parentOurs, freeOurs, remainingWork, exhausted))
    {
      var oursIndex := row[k];
      var spent := SpendWork(remainingWork);
      remainingWork := spent.0;
      if !spent.1 {
        exhausted := true;
        break;
      }
      if oursIndex in visitedOurs {
        continue;
      }
      visitedOurs := visitedOurs + {oursIndex};
      parentOurs := parentOurs[oursIndex := sonarIndex];
      var previousSonar := oursOwner[oursIndex];
      if previousSonar == None {
        freeOurs := Some(oursIndex);
        break;
      }
      if previousSonar.value !in visitedSonar {
        visitedSonar := visitedSonar + {previousSonar.value};
        queue := queue + [previousSonar.value];
      }
    }
  }
}
