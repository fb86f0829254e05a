/** Projecting a list of text edits onto a source file
    (tools/oracle/python_quickfix_current_contracts.py:43-63). */
module Edits {
  import opened Orders

  datatype Position = Position(line: int, column: int)

  datatype Edit = Edit(start: Position, end: Position, replacement: string)

  /** An edit with its positions resolved to offsets. */
  datatype Span = Span(from: int, to: int, text: string)

  // ----------------------------------------------------------- lines and offsets

  predicate IsAscii(s: string) {
    forall i :: 0 <= i < |s| ==> s[i] < 128 as char
  }

  /** The ASCII characters that end a line for `str.splitlines`. */
  predicate EndsLine(c: char) {
    c == '\n' || c == '\r' || c == 11 as char || c == 12 as char || c == 28 as char || c == 29 as char || c == 30 as char
  }

  /** The length of the first line, its line end included; a carriage return takes a line feed
      that follows it along. */
  function LineLength(s: string): (n: nat)
    requires s != []
    ensures 1 <= n <= |s|
  {
    if s[0] == '\r' && |s| > 1 && s[1] == '\n' then 2
    else if EndsLine(s[0]) || |s| == 1 then 1
    else 1 + LineLength(s[1..])
  }

  function SplitLines(s: string): seq<string> {
    if s == [] then [] else [s[..LineLength(s)]] + SplitLines(s[LineLength(s)..])
  }

  function Join(lines: seq<string>): string {
    if lines == [] then [] else lines[0] + Join(lines[1..])
  }

  /** Splitting loses nothing and makes no empty lines. */
  lemma {:induction false} SplitJoins(s: string)
    ensures Join(SplitLines(s)) == s
    ensures forall i :: 0 <= i < |SplitLines(s)| ==> SplitLines(s)[i] != []
  {
    if s != [] {
      SplitJoins(s[LineLength(s)..]);
      assert s == s[..LineLength(s)] + s[LineLength(s)..];
    }
  }

  /** A whole line: line ends occur only at its end, a carriage return with its line feed counting
      as one. */
  predicate OneLine(line: string) {
    forall i :: 0 <= i < |line| - 1 && EndsLine(line[i]) ==>
      i == |line| - 2 && line[i] == '\r' && line[i + 1] == '\n'
  }

  /** A line break separates these texts, and does not cut a carriage return from its line feed. */
  predicate Broken(line: string, rest: string) {
    && line != [] && EndsLine(line[|line| - 1])
    && !(line[|line| - 1] == '\r' && rest != [] && rest[0] == '\n')
  }

  lemma {:induction false} FirstLineIsOne(s: string)
    requires s != []
    ensures OneLine(s[..LineLength(s)])
    ensures LineLength(s) < |s| ==> Broken(s[..LineLength(s)], s[LineLength(s)..])
  {
    if !(s[0] == '\r' && |s| > 1 && s[1] == '\n') && !EndsLine(s[0]) && |s| > 1 {
      FirstLineIsOne(s[1..]);
      var n := LineLength(s[1..]);
      var tail, line := s[1..][..n], s[..n + 1];
      assert line == [s[0]] + tail;
      forall i | 0 <= i < |line| - 1 && EndsLine(line[i])
        ensures i == |line| - 2 && line[i] == '\r' && line[i + 1] == '\n'
      {
        assert EndsLine(tail[i - 1]) && line[i + 1] == tail[i];
      }
      assert s[1..][n..] == s[n + 1..];
    }
  }

  /** Splitting breaks at every line end and nowhere else. */
  lemma {:induction false} SplitsAtLineEnds(s: string)
    ensures var lines := SplitLines(s);
            && (forall k :: 0 <= k < |lines| ==> OneLine(lines[k]))
            && (forall k :: 0 <= k < |lines| - 1 ==> Broken(lines[k], lines[k + 1]))
    ensures s != [] ==> SplitLines(s) != [] && SplitLines(s)[0] != [] && SplitLines(s)[0][0] == s[0]
  {
    if s != [] {
      FirstLineIsOne(s);
      SplitsAtLineEnds(s[LineLength(s)..]);
    }
  }

  /** A line in front of `rest`: characters that end no line, then one line end or, at the end of the
      text, none. The line ends are line feed, vertical tab, form feed, carriage return, the three
      information separators, and a carriage return with its line feed. */
  ghost predicate IsLine(line: string, rest: string) {
    && line != []
    && if line[0] as int in {10, 11, 12, 13, 28, 29, 30} then
         line == "\r\n" || (|line| == 1 && !(line[0] == '\r' && rest != [] && rest[0] == '\n'))
       else if |line| == 1 then rest == []
       else IsLine(line[1..], rest)
  }

  ghost predicate AreLines(lines: seq<string>) {
    lines != [] ==> IsLine(lines[0], Join(lines[1..])) && AreLines(lines[1..])
  }

  lemma {:induction false} LineEndsHere(line: string, rest: string)
    requires IsLine(line, rest)
    ensures LineLength(line + rest) == |line|
  {
    var s := line + rest;
    assert s[0] == line[0] && |s| >= 1;
    if line[0] as int !in {10, 11, 12, 13, 28, 29, 30} && |line| > 1 {
      LineEndsHere(line[1..], rest);
      assert s[1..] == line[1..] + rest;
    } else if line == "\r\n" {
      assert s[1] == '\n';
    } else {
      assert |line| == 1;
      assert rest != [] ==> s[1] == rest[0];
    }
  }

  /** Splitting finds exactly the lines that a text was made of. */
  lemma {:induction false} LinesComeBack(lines: seq<string>)
    requires AreLines(lines)
    ensures SplitLines(Join(lines)) == lines
  {
    if lines != [] {
      var line, rest := lines[0], Join(lines[1..]);
      LineEndsHere(line, rest);
      LinesComeBack(lines[1..]);
      var s := line + rest;
      assert s[..|line|] == line && s[|line|..] == rest;
    }
  }

  /** Where line `k` starts: the total length of the lines before it. */
  function StartOf(lines: seq<string>, k: nat): nat
    requires k <= |lines|
  {
    if k == 0 then 0 else StartOf(lines, k - 1) + |lines[k - 1]|
  }

  function Starts(lines: seq<string>): (starts: seq<int>)
    ensures |starts| == |lines| + 1
    ensures forall k :: 0 <= k <= |lines| ==> starts[k] == StartOf(lines, k)
  {
    seq(|lines| + 1, k requires 0 <= k <= |lines| => StartOf(lines, k))
  }

  lemma {:induction false} StartOfTail(lines: seq<string>, k: nat)
    requires 1 <= k <= |lines|
    ensures StartOf(lines, k) == |lines[0]| + StartOf(lines[1..], k - 1)
  {
    if k > 1 {
      StartOfTail(lines, k - 1);
    }
  }

  lemma {:induction false} LastStart(lines: seq<string>)
    ensures StartOf(lines, |lines|) == |Join(lines)|
  {
    if lines != [] {
      LastStart(lines[1..]);
      StartOfTail(lines, |lines|);
    }
  }

  /** Python's indexing: negative indices count from the end. */
  function PyIndex(xs: seq<int>, i: int): Option<int> {
    if 0 <= i < |xs| then Some(xs[i])
    else if -|xs| <= i < 0 then Some(xs[|xs| + i])
    else None
  }

  function Offset(starts: seq<int>, p: Position): Option<int> {
    match PyIndex(starts, p.line - 1)
    case None => None
    case Some(start) => Some(start + p.column)
  }

  /** Lines are counted from one, and from zero down they are counted back from the end of the text. */
  lemma LinesCountBack(lines: seq<string>, line: int, column: int)
    ensures Offset(Starts(lines), Position(line, column))
            == if 1 <= line <= |lines| + 1 then Some(StartOf(lines, line - 1) + column)
               else if -|lines| <= line <= 0 then Some(StartOf(lines, |lines| + line) + column)
               else None
  {
    hide StartOf;
    var starts := Starts(lines);
    assert |starts| == |lines| + 1;
    if 1 <= line <= |lines| + 1 {
      assert starts[line - 1] == StartOf(lines, line - 1);
    } else if -|lines| <= line <= 0 {
      assert starts[|lines| + line] == StartOf(lines, |lines| + line);
    }
  }

  /** Positions that name a character of the source, or its end. */
  predicate Names(lines: seq<string>, p: Position) {
    || (1 <= p.line <= |lines| && 0 <= p.column < |lines[p.line - 1]|)
    || p == Position(|lines| + 1, 0)
  }

  predicate Before(p: Position, q: Position) {
    p.line < q.line || (p.line == q.line && p.column < q.column)
  }

  lemma {:induction false} StartsGrow(lines: seq<string>, j: nat, k: nat)
    requires j <= k <= |lines|
    ensures StartOf(lines, j) <= StartOf(lines, k)
    decreases k
  {
    if j < k {
      StartsGrow(lines, j, k - 1);
    }
  }

  /** Reading order of positions is the order of their offsets, so distinct positions never share
      an offset. */
  lemma OffsetsFollowPositions(lines: seq<string>, p: Position, q: Position)
    requires Names(lines, p) && Names(lines, q)
    ensures var a, b := Offset(Starts(lines), p), Offset(Starts(lines), q);
            a.Some? && b.Some? && (Before(p, q) <==> a.value < b.value)
  {
    if p.line < q.line {
      StartsGrow(lines, p.line, q.line - 1);
    } else if q.line < p.line {
      StartsGrow(lines, q.line, p.line - 1);
    }
  }

  lemma NamedOffsetsFit(lines: seq<string>, p: Position)
    requires Names(lines, p)
    ensures var a := Offset(Starts(lines), p); a.Some? && 0 <= a.value <= |Join(lines)|
  {
    LastStart(lines);
    if p.line <= |lines| {
      StartsGrow(lines, p.line, |lines|);
    }
  }

  /** Every offset up to the length of the source belongs to a position. */
  lemma {:induction false} PositionAt(lines: seq<string>, n: nat) returns (p: Position)
    requires (forall i :: 0 <= i < |lines| ==> lines[i] != []) && n <= |Join(lines)|
    ensures Names(lines, p) && Offset(Starts(lines), p) == Some(n)
  {
    LastStart(lines);
    if n == |Join(lines)| {
      p := Position(|lines| + 1, 0);
    } else {
      var k := 0;
      while StartOf(lines, k + 1) <= n
        invariant k < |lines| && StartOf(lines, k) <= n < StartOf(lines, |lines|)
        decreases |lines| - k
      {
        assert k + 1 < |lines|;
        k := k + 1;
      }
      p := Position(k + 1, n - StartOf(lines, k));
    }
  }

  // ------------------------------------------------------------ applying edits

  /** Python's slice bound: negative values count from the end, all values are clamped. */
  function Bound(k: int, n: nat): (b: nat)
    ensures b <= n
  {
    if k < 0 then (if n + k < 0 then 0 else n + k) else if k > n then n else k
  }

  function Replace(source: string, span: Span): string {
    source[..Bound(span.from, |source|)] + span.text + source[Bound(span.to, |source|)..]
  }

  /** Offsets before the text count back from its end, as far as it reaches, and offsets behind it are
      its end; the two ends are cut independently. */
  lemma SlicesCountBack(source: string, span: Span, i: nat, j: nat)
    requires i <= |source| && j <= |source|
    requires span.from == i || span.from == i - |source| < 0 || (i == 0 && span.from < -|source|) || (i == |source| && span.from > i)
    requires span.to == j || span.to == j - |source| < 0 || (j == 0 && span.to < -|source|) || (j == |source| && span.to > j)
    ensures Replace(source, span) == source[..i] + span.text + source[j..]
  {
  }

  function ReplaceAll(source: string, spans: seq<Span>): string
    decreases |spans|
  {
    if spans == [] then source else ReplaceAll(Replace(source, spans[0]), spans[1..])
  }

  function Resolve(starts: seq<int>, e: Edit): Option<Span> {
    var a, b := Offset(starts, e.start), Offset(starts, e.end);
    if a.None? || b.None? then None else Some(Span(a.value, b.value, e.replacement))
  }

  function ResolveAll(starts: seq<int>, edits: seq<Edit>): Option<seq<Span>> {
    if edits == [] then Some([])
    else
      var init, last := ResolveAll(starts, edits[..|edits| - 1]), Resolve(starts, edits[|edits| - 1]);
      if init.None? || last.None? then None else Some(init.value + [last.value])
  }

  /** The order of `sorted(..., reverse=True)`: later starts first, equal starts as listed. */
  function Later(): (Span, Span) -> bool {
    (x: Span, y: Span) => x.from >= y.from
  }

  function Earlier(): (Span, Span) -> bool {
    (x: Span, y: Span) => x.from <= y.from
  }

  /** The projected source; nothing when the source is not ASCII or a line does not exist. */
  function Projection(source: string, edits: seq<Edit>): Option<string> {
    if !IsAscii(source) then None
    else
      var spans := ResolveAll(Starts(SplitLines(source)), edits);
      if spans.None? then None else Some(ReplaceAll(source, Sort(Later(), spans.value)))
  }

  // -------------------------------------------------- simultaneous replacement

  predicate Apart(x: Span, y: Span) {
    x.to <= y.from || y.to <= x.from
  }

  /** Spans inside a source of length `n`, pairwise apart. */
  ghost predicate Disjoint(spans: seq<Span>, n: nat) {
    && (forall i :: 0 <= i < |spans| ==> 0 <= spans[i].from <= spans[i].to <= n)
    && (forall i, j :: 0 <= i < j < |spans| ==> Apart(spans[i], spans[j]))
  }

  ghost predicate DistinctStarts(spans: seq<Span>) {
    forall i, j :: 0 <= i < j < |spans| ==> spans[i].from != spans[j].from
  }

  ghost predicate Independent(spans: seq<Span>, n: nat) {
    Disjoint(spans, n) && DistinctStarts(spans)
  }

  /** Spans in reading order from offset `pos` on. */
  ghost predicate Ascending(spans: seq<Span>, pos: int, n: int) {
    if spans == [] then 0 <= pos <= n
    else 0 <= pos <= spans[0].from <= spans[0].to && Ascending(spans[1..], spans[0].to, n)
  }

  /** All replacements at once: the untouched gaps and the new texts, one after the other. */
  ghost function Simultaneous(source: string, spans: seq<Span>, pos: nat): string
    requires Ascending(spans, pos, |source|)
  {
    if spans == [] then source[pos..]
    else
      AscendingFits(spans, pos, |source|);
      source[pos..spans[0].from] + spans[0].text + Simultaneous(source, spans[1..], spans[0].to)
  }

  lemma {:induction false} AscendingFits(spans: seq<Span>, pos: int, n: int)
    requires Ascending(spans, pos, n)
    ensures 0 <= pos <= n
    ensures forall i :: 0 <= i < |spans| ==> pos <= spans[i].from <= spans[i].to <= n
  {
    if spans != [] {
      AscendingFits(spans[1..], spans[0].to, n);
    }
  }

  /** Replacing inside a prefix leaves what follows the prefix alone. */
  lemma ReplaceInPrefix(prefix: string, rest: string, span: Span)
    requires 0 <= span.from <= span.to <= |prefix|
    ensures Replace(prefix + rest, span) == Replace(prefix, span) + rest
  {
  }

  /** Spans in reading order, applied from the last to the first. */
  function Backwards(spans: seq<Span>): seq<Span> {
    if spans == [] then [] else Backwards(spans[1..]) + [spans[0]]
  }

  lemma {:induction false} ReplaceAllConcat(source: string, a: seq<Span>, b: seq<Span>)
    ensures ReplaceAll(source, a + b) == ReplaceAll(ReplaceAll(source, a), b)
    decreases |a|
  {
    if a == [] {
      assert a + b == b;
    } else {
      assert (a + b)[0] == a[0] && (a + b)[1..] == a[1..] + b;
      ReplaceAllConcat(Replace(source, a[0]), a[1..], b);
    }
  }

  /** The heart of the argument: when the later spans have been replaced, the text before them
      still is the original's, so the next span can be replaced at its original offsets. */
  lemma {:induction false} BackwardsIsSimultaneous(source: string, spans: seq<Span>, pos: nat)
    requires Ascending(spans, pos, |source|)
    ensures pos <= |source|
    ensures ReplaceAll(source, Backwards(spans)) == source[..pos] + Simultaneous(source, spans, pos)
    decreases |spans|
  {
    AscendingFits(spans, pos, |source|);
    if spans == [] {
      assert source == source[..pos] + source[pos..];
    } else {
      hide ReplaceAll, Replace;
      var x, rest := spans[0], spans[1..];
      BackwardsIsSimultaneous(source, rest, x.to);
      ReplaceAllConcat(source, Backwards(rest), [x]);
      ReplaceOne(source[..x.to] + Simultaneous(source, rest, x.to), x);
      ReplaceFirst(source, x, pos, Simultaneous(source, rest, x.to));
    }
  }

  lemma ReplaceOne(source: string, x: Span)
    ensures ReplaceAll(source, [x]) == Replace(source, x)
  {
    hide Replace;
    assert [x][1..] == [];
    assert ReplaceAll(Replace(source, x), []) == Replace(source, x);
  }

  lemma ReplaceFirst(source: string, x: Span, pos: nat, tail: string)
    requires pos <= x.from <= x.to <= |source|
    ensures Replace(source[..x.to] + tail, x) == source[..pos] + (source[pos..x.from] + x.text + tail)
  {
    ReplaceInPrefix(source[..x.to], tail, x);
    assert Replace(source[..x.to], x) == source[..x.from] + x.text;
    assert source[..x.from] == source[..pos] + source[pos..x.from];
  }

  ghost predicate InReadingOrder(spans: seq<Span>, n: int) {
    && (forall i :: 0 <= i < |spans| ==> 0 <= spans[i].from <= spans[i].to <= n)
    && (forall i, j :: 0 <= i < j < |spans| ==> spans[i].to <= spans[j].from && spans[i].from < spans[j].from)
  }

  lemma {:induction false} ReadingOrderAscends(spans: seq<Span>, pos: int, n: int)
    requires InReadingOrder(spans, n) && 0 <= pos <= n && (spans != [] ==> pos <= spans[0].from)
    ensures Ascending(spans, pos, n)
    decreases |spans|
  {
    if spans != [] {
      ReadingOrderAscends(spans[1..], spans[0].to, n);
    }
  }

  lemma OrdersAreTotal()
    ensures TotalPreorder(Later()) && TotalPreorder(Earlier())
  {
  }

  /** Sorting independent spans by start puts them in reading order. */
  lemma SortedReads(spans: seq<Span>, n: nat)
    requires Independent(spans, n)
    ensures InReadingOrder(Sort(Earlier(), spans), n)
  {
    var leq := Earlier();
    var sorted := Sort(leq, spans);
    OrdersAreTotal();
    SortSorts(leq, spans);
    SortKeepsElements(leq, spans);
    var p := PermutationBetween(sorted, spans);
    forall i | 0 <= i < |sorted| ensures sorted[i] == spans[p[i]] {
      assert Reindex(spans, p)[i] == sorted[i];
    }
    forall i, j | 0 <= i < j < |sorted| ensures sorted[i].to <= sorted[j].from && sorted[i].from < sorted[j].from {
      assert leq(sorted[i], sorted[j]);
      assert p[i] != p[j];
      if p[i] < p[j] {
        assert Apart(spans[p[i]], spans[p[j]]);
      } else {
        assert Apart(spans[p[j]], spans[p[i]]);
      }
    }
  }

  lemma {:induction false} BackwardsBag(spans: seq<Span>)
    ensures multiset(Backwards(spans)) == multiset(spans)
  {
    if spans != [] {
      BackwardsBag(spans[1..]);
      assert spans == [spans[0]] + spans[1..];
    }
  }

  lemma {:induction false} BackwardsAt(spans: seq<Span>, i: nat)
    requires i < |spans|
    ensures |Backwards(spans)| == |spans| && Backwards(spans)[i] == spans[|spans| - 1 - i]
  {
    if |spans| > 1 {
      BackwardsAt(spans[1..], if i < |spans| - 1 then i else 0);
    }
  }

  lemma BackwardsDescends(up: seq<Span>, n: nat)
    requires InReadingOrder(up, n)
    ensures Sorted(Later(), Backwards(up)) && Separates(Later(), Backwards(up))
  {
    var down := Backwards(up);
    if up != [] {
      BackwardsAt(up, 0);
      assert |down| == |up|;
      forall i, j | 0 <= i < j < |down| ensures down[i].from > down[j].from {
        BackwardsAt(up, i);
        BackwardsAt(up, j);
      }
    }
  }

  /** On distinct starts, sorting backwards is the reverse of sorting forwards. */
  lemma LaterIsBackwards(spans: seq<Span>, n: nat)
    requires Independent(spans, n)
    ensures Sort(Later(), spans) == Backwards(Sort(Earlier(), spans))
  {
    hide Independent, InReadingOrder, Sort, Backwards;
    var up := Sort(Earlier(), spans);
    SortedReads(spans, n);
    OrdersAreTotal();
    SortKeepsElements(Earlier(), spans);
    SortKeepsElements(Later(), spans);
    SortSorts(Later(), spans);
    BackwardsBag(up);
    BackwardsDescends(up, n);
    SortedIsUnique(Later(), Backwards(up), Sort(Later(), spans));
  }

  /** Applying independent edits from the last start backwards replaces them all at once. */
  lemma ProjectionIsSimultaneous(source: string, edits: seq<Edit>)
    requires IsAscii(source) && ResolveAll(Starts(SplitLines(source)), edits).Some?
    requires Independent(ResolveAll(Starts(SplitLines(source)), edits).value, |source|)
    ensures var ordered := Sort(Earlier(), ResolveAll(Starts(SplitLines(source)), edits).value);
            && Ascending(ordered, 0, |source|)
            && Projection(source, edits) == Some(Simultaneous(source, ordered, 0))
  {
    var spans := ResolveAll(Starts(SplitLines(source)), edits).value;
    var ordered := Sort(Earlier(), spans);
    LaterIsBackwards(spans, |source|);
    SortedReads(spans, |source|);
    ReadingOrderAscends(ordered, 0, |source|);
    BackwardsIsSimultaneous(source, ordered, 0);
    assert source[..0] + Simultaneous(source, ordered, 0) == Simultaneous(source, ordered, 0);
  }

  /** Edits inside the source, pairwise apart and with distinct starts, said of their positions. */
  ghost predicate PositionsIndependent(edits: seq<Edit>) {
    && (forall i :: 0 <= i < |edits| ==> !Before(edits[i].end, edits[i].start))
    && (forall i, j :: 0 <= i < j < |edits| ==>
          && (!Before(edits[j].start, edits[i].end) || !Before(edits[i].start, edits[j].end))
          && edits[i].start != edits[j].start)
  }

  ghost predicate AllNamed(lines: seq<string>, edits: seq<Edit>) {
    forall i :: 0 <= i < |edits| ==> Names(lines, edits[i].start) && Names(lines, edits[i].end)
  }

  lemma NamedEditResolves(source: string, e: Edit)
    requires Names(SplitLines(source), e.start) && Names(SplitLines(source), e.end)
    ensures var x := Resolve(Starts(SplitLines(source)), e);
            && x.Some? && 0 <= x.value.from <= |source| && 0 <= x.value.to <= |source|
            && (x.value.from <= x.value.to <==> !Before(e.end, e.start))
  {
    hide Names, SplitLines, Offset, Starts, Before;
    SplitJoins(source);
    NamedOffsetsFit(SplitLines(source), e.start);
    NamedOffsetsFit(SplitLines(source), e.end);
    OffsetsFollowPositions(SplitLines(source), e.end, e.start);
  }

  lemma NamedEditsCompare(lines: seq<string>, e: Edit, f: Edit)
    requires Names(lines, e.start) && Names(lines, e.end) && Names(lines, f.start) && Names(lines, f.end)
    ensures var x, y := Resolve(Starts(lines), e), Resolve(Starts(lines), f);
            && x.Some? && y.Some?
            && (x.value.to <= y.value.from <==> !Before(f.start, e.end))
            && (x.value.from == y.value.from <==> e.start == f.start)
  {
    hide Names, Offset, Starts, Before;
    OffsetsFollowPositions(lines, f.start, e.end);
    OffsetsFollowPositions(lines, f.start, e.start);
    OffsetsFollowPositions(lines, e.start, f.start);
    OffsetsFollowPositions(lines, f.start, f.end);
    BeforeIsTotal(e.start, f.start);
  }

  /** Whether edits are independent can be read off their lines and columns. */
  lemma PositionsDecide(source: string, edits: seq<Edit>)
    requires AllNamed(SplitLines(source), edits)
    ensures var spans := ResolveAll(Starts(SplitLines(source)), edits);
            spans.Some? && (Independent(spans.value, |source|) <==> PositionsIndependent(edits))
  {
    hide Names, SplitLines, Starts, Before, Resolve, ResolveAll;
    var lines := SplitLines(source);
    var starts := Starts(lines);
    ResolvePointwise(starts, edits);
    forall i | 0 <= i < |edits|
      ensures var x := Resolve(starts, edits[i]);
              && x.Some? && 0 <= x.value.from <= |source| && 0 <= x.value.to <= |source|
              && (x.value.from <= x.value.to <==> !Before(edits[i].end, edits[i].start))
    {
      NamedEditResolves(source, edits[i]);
    }
    var spans := ResolveAll(starts, edits).value;
    assert forall i :: 0 <= i < |edits| ==> Resolve(starts, edits[i]) == Some(spans[i]);
    forall i, j | 0 <= i < |edits| && 0 <= j < |edits|
      ensures spans[i].to <= spans[j].from <==> !Before(edits[j].start, edits[i].end)
      ensures spans[i].from == spans[j].from <==> edits[i].start == edits[j].start
    {
      NamedEditsCompare(lines, edits[i], edits[j]);
    }
    IndependentByPositions(spans, edits, |source|);
  }

  lemma IndependentByPositions(spans: seq<Span>, edits: seq<Edit>, n: nat)
    requires |spans| == |edits|
    requires forall i :: 0 <= i < |edits| ==>
               && 0 <= spans[i].from <= n && 0 <= spans[i].to <= n
               && (spans[i].from <= spans[i].to <==> !Before(edits[i].end, edits[i].start))
    requires forall i, j :: 0 <= i < |edits| && 0 <= j < |edits| ==>
               && (spans[i].to <= spans[j].from <==> !Before(edits[j].start, edits[i].end))
               && (spans[i].from == spans[j].from <==> edits[i].start == edits[j].start)
    ensures Independent(spans, n) <==> PositionsIndependent(edits)
  {
    hide Before;
  }

  lemma BeforeIsTotal(p: Position, q: Position)
    ensures Before(p, q) || Before(q, p) || p == q
    ensures p == q ==> !Before(p, q)
  {
  }

  /** The order in which edits are listed does not matter as long as no two start at one place,
      be they apart or overlapping, inside the source or not. */
  lemma EditOrderIsIgnored(source: string, edits: seq<Edit>, edits': seq<Edit>)
    requires multiset(edits) == multiset(edits')
    requires var spans := ResolveAll(Starts(SplitLines(source)), edits); spans.Some? ==> DistinctStarts(spans.value)
    ensures Projection(source, edits') == Projection(source, edits)
  {
    hide Resolve, ResolveAll, ReplaceAll, Sort, IsAscii, SplitLines, Starts;
    var starts := Starts(SplitLines(source));
    var p := PermutationBetween(edits', edits);
    ResolveReindexed(starts, edits, edits', p);
    if ResolveAll(starts, edits).Some? {
      var spans := ResolveAll(starts, edits).value;
      PermutationKeepsElements(spans, p);
      OrdersAreTotal();
      SortForgetsOrder(Later(), spans, Reindex(spans, p));
    }
  }

  lemma {:induction false} ResolvePointwise(starts: seq<int>, edits: seq<Edit>)
    ensures ResolveAll(starts, edits).Some? <==> forall i :: 0 <= i < |edits| ==> Resolve(starts, edits[i]).Some?
    ensures ResolveAll(starts, edits).Some? ==>
              && |ResolveAll(starts, edits).value| == |edits|
              && forall i :: 0 <= i < |edits| ==> Resolve(starts, edits[i]) == Some(ResolveAll(starts, edits).value[i])
  {
    if edits != [] {
      ResolvePointwise(starts, edits[..|edits| - 1]);
    }
  }

  /** Reordering edits reorders what they resolve to. */
  lemma ResolveReindexed(starts: seq<int>, edits: seq<Edit>, edits': seq<Edit>, p: seq<nat>)
    requires IsPermutation(p, |edits|) && |edits'| == |edits| && Reindex(edits, p) == edits'
    ensures ResolveAll(starts, edits).None? ==> ResolveAll(starts, edits').None?
    ensures ResolveAll(starts, edits).Some? ==>
              && |ResolveAll(starts, edits).value| == |edits|
              && ResolveAll(starts, edits') == Some(Reindex(ResolveAll(starts, edits).value, p))
  {
    hide Resolve, ResolveAll;
    ResolvePointwise(starts, edits);
    ResolvePointwise(starts, edits');
    if ResolveAll(starts, edits).Some? {
      var spans := ResolveAll(starts, edits).value;
      forall i | 0 <= i < |edits'| ensures Resolve(starts, edits'[i]) == Some(Reindex(spans, p)[i]) {
        assert Reindex(edits, p)[i] == edits[p[i]];
      }
      assert ResolveAll(starts, edits').value == Reindex(spans, p);
    } else {
      var i :| 0 <= i < |edits| && Resolve(starts, edits[i]).None?;
      Covers(p, i);
      var j :| 0 <= j < |p| && p[j] == i;
      assert Reindex(edits, p)[j] == edits[i];
    }
  }

  /** A permutation reaches every position. */
  lemma Covers(p: seq<nat>, i: nat)
    requires IsPermutation(p, |p|) && i < |p|
    ensures i in p
  {
    var all := seq(|p|, k requires 0 <= k < |p| => k);
    PermutationKeepsElements(all, p);
    assert Reindex(all, p) == p;
    SameElements(p, all);
    assert all[i] == i;
  }

  /** The projection fails exactly for a source that is not ASCII or an edit that names a line which is
      not there, counted either way. */
  lemma ProjectionFails(source: string, edits: seq<Edit>)
    ensures var n := |SplitLines(source)|;
            Projection(source, edits).None?
            <==> || (exists i :: 0 <= i < |source| && source[i] >= 128 as char)
                 || (exists i :: 0 <= i < |edits| && (!(-n <= edits[i].start.line <= n + 1) || !(-n <= edits[i].end.line <= n + 1)))
  {
    hide SplitLines, ReplaceAll, Sort, Starts;
    var lines := SplitLines(source);
    ResolvePointwise(Starts(lines), edits);
    forall i | 0 <= i < |edits|
      ensures Resolve(Starts(lines), edits[i]).None?
              <==> !(-|lines| <= edits[i].start.line <= |lines| + 1) || !(-|lines| <= edits[i].end.line <= |lines| + 1)
    {
      LinesCountBack(lines, edits[i].start.line, edits[i].start.column);
      LinesCountBack(lines, edits[i].end.line, edits[i].end.column);
    }
  }

  // ------------------------------------------------------------------- length

  function Growth(spans: seq<Span>): int {
    if spans == [] then 0 else |spans[0].text| - (spans[0].to - spans[0].from) + Growth(spans[1..])
  }

  lemma {:induction false} SimultaneousLength(source: string, spans: seq<Span>, pos: nat)
    requires Ascending(spans, pos, |source|)
    ensures pos <= |source| && |Simultaneous(source, spans, pos)| == |source| - pos + Growth(spans)
    decreases |spans|
  {
    AscendingFits(spans, pos, |source|);
    if spans != [] {
      SimultaneousLength(source, spans[1..], spans[0].to);
    }
  }

  lemma {:induction false} GrowthOfInsert(leq: (Span, Span) -> bool, x: Span, spans: seq<Span>)
    ensures Growth(Insert(leq, x, spans)) == Growth([x]) + Growth(spans)
  {
    if spans != [] {
      GrowthOfInsert(leq, x, spans[1..]);
      assert ([x] + spans)[1..] == spans;
    }
  }

  lemma {:induction false} GrowthOfSort(leq: (Span, Span) -> bool, spans: seq<Span>)
    ensures Growth(Sort(leq, spans)) == Growth(spans)
  {
    if spans != [] {
      GrowthOfSort(leq, spans[1..]);
      GrowthOfInsert(leq, spans[0], Sort(leq, spans[1..]));
    }
  }

  /** The length changes by the sum of what each edit adds and removes. */
  lemma ProjectionLength(source: string, edits: seq<Edit>, spans: seq<Span>)
    requires IsAscii(source) && ResolveAll(Starts(SplitLines(source)), edits) == Some(spans)
    requires Independent(spans, |source|)
    ensures var r := Projection(source, edits); r.Some? && |r.value| == |source| + Growth(spans)
  {
    hide IsAscii, Starts, SplitLines, ResolveAll, Independent;
    ProjectionIsSimultaneous(source, edits);
    SimultaneousLength(source, Sort(Earlier(), spans), 0);
    GrowthOfSort(Earlier(), spans);
  }

  // ---------------------------------------------------------------- the loops

  method LineStarts(lines: seq<string>) returns (starts: seq<int>)
    ensures starts == Starts(lines)
  {
    starts := [0];
    for k := 0 to |lines|
      invariant |starts| == k + 1
      invariant forall j :: 0 <= j <= k ==> starts[j] == StartOf(lines, j)
    {
      starts := starts + [starts[|starts| - 1] + |lines[k]|];
    }
  }

  method Projected(source: string, edits: seq<Edit>) returns (result: Option<string>)
    ensures result == Projection(source, edits)
  {
    if !IsAscii(source) {
      return None;
    }
    var starts := LineStarts(SplitLines(source));
    var spans: seq<Span> := [];
    for i := 0 to |edits|
      invariant ResolveAll(starts, edits[..i]) == Some(spans)
    {
      var span := Resolve(starts, edits[i]);
      assert edits[..i + 1][..i] == edits[..i];
      if span == None {
        ResolvePointwise(starts, edits);
        return None;
      }
      spans := spans + [span.value];
    }
    assert edits[..|edits|] == edits;
    var ordered := Sort(Later(), spans);
    var text := source;
    for i := 0 to |ordered|
      invariant ReplaceAll(text, ordered[i..]) == ReplaceAll(source, ordered)
    {
      var span := ordered[i];
      text := text[..Bound(span.from, |text|)] + span.text + text[Bound(span.to, |text|)..];
      assert ordered[i..][1..] == ordered[i + 1..];
    }
    return Some(text);
  }
}
