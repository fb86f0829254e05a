/** Python's `Counter` subtraction over rows with keys (tools/oracle/parity.py:1197-1212). */
module Counters {
  import opened Orders

  /** The elements in order of first occurrence, as the keys of a dictionary or counter. */
  function Distinct<K(==,!new)>(ks: seq<K>): (ds: seq<K>)
    ensures forall k :: k in ds <==> k in ks
    ensures forall i, j :: 0 <= i < j < |ds| ==> ds[i] != ds[j]
  {
    if ks == [] then []
    else
      var ds, k := Distinct(ks[..|ks| - 1]), ks[|ks| - 1];
      assert ks == ks[..|ks| - 1] + [k];
      if k in ds then ds else ds + [k]
  }

  lemma MapOfFront<T, K(!new)>(rows: seq<T>, key: T -> K)
    requires rows != []
    ensures Map(key, rows) == Map(key, rows[..|rows| - 1]) + [key(rows[|rows| - 1])]
  {
    var front, last := rows[..|rows| - 1], rows[|rows| - 1];
    assert rows == front + [last];
    MapConcat(key, front, [last]);
    assert Map(key, [last]) == [key(last)];
  }

  /** The last row with key `k`: later rows overwrite earlier ones in a dictionary. */
  function LastWith<T, K(==,!new)>(rows: seq<T>, key: T -> K, k: K): (row: T)
    requires k in Map(key, rows)
    ensures key(row) == k && row in rows
  {
    MapOfFront(rows, key);
    if key(rows[|rows| - 1]) == k then rows[|rows| - 1]
    else LastWith(rows[..|rows| - 1], key, k)
  }

  function Repeat<T>(row: T, n: nat): seq<T> {
    if n == 0 then [] else [row] + Repeat(row, n - 1)
  }

  /** For each of the first `n` listed keys, as many copies of its row as the counter says. */
  function SurplusOf<T, K(==,!new)>(ks: seq<K>, n: nat, rows: seq<T>, surplus: multiset<K>, key: T -> K): seq<T>
    requires n <= |ks| && forall i :: 0 <= i < |ks| ==> ks[i] in Map(key, rows)
  {
    if n == 0 then []
    else SurplusOf(ks, n - 1, rows, surplus, key) + Repeat(LastWith(rows, key, ks[n - 1]), surplus[ks[n - 1]])
  }

  /** The rows of `left` that `right` lacks, counted by key. */
  function Surplus<T, K(==,!new)>(left: seq<T>, right: seq<T>, key: T -> K): seq<T> {
    var ks := Distinct(Map(key, left));
    SurplusOf(ks, |ks|, left, multiset(Map(key, left)) - multiset(Map(key, right)), key)
  }

  lemma {:induction false} RepeatKeys<T, K(!new)>(row: T, n: nat, key: T -> K)
    ensures Map(key, Repeat(row, n)) == Repeat(key(row), n)
  {
    if n > 0 {
      RepeatKeys(row, n - 1, key);
      MapConcat(key, [row], Repeat(row, n - 1));
      assert Map(key, [row]) == [key(row)];
    }
  }

  lemma {:induction false} RepeatCounts<K(!new)>(k: K, n: nat)
    ensures multiset(Repeat(k, n)) == multiset{}[k := n]
  {
    if n > 0 {
      RepeatCounts(k, n - 1);
    }
  }

  lemma {:induction false} RepeatRows<T>(row: T, n: nat)
    ensures forall r :: r in Repeat(row, n) ==> r == row
  {
    if n > 0 {
      RepeatRows(row, n - 1);
    }
  }

  /** The keys of `SurplusOf`, without the rows. */
  function KeySurplus<K>(ks: seq<K>, n: nat, surplus: multiset<K>): seq<K>
    requires n <= |ks|
  {
    if n == 0 then [] else KeySurplus(ks, n - 1, surplus) + Repeat(ks[n - 1], surplus[ks[n - 1]])
  }

  lemma {:induction false} SurplusOfKeys<T, K(!new)>(ks: seq<K>, n: nat, rows: seq<T>, surplus: multiset<K>, key: T -> K)
    requires n <= |ks| && forall i :: 0 <= i < |ks| ==> ks[i] in Map(key, rows)
    ensures Map(key, SurplusOf(ks, n, rows, surplus, key)) == KeySurplus(ks, n, surplus)
    decreases n
  {
    hide LastWith, Repeat, Map, SurplusOf, KeySurplus;
    if n == 0 {
      NoKeys(ks, rows, surplus, key);
    } else {
      SurplusOfKeys(ks, n - 1, rows, surplus, key);
      OneMoreKey(ks, n, rows, surplus, key);
    }
  }

  lemma NoKeys<T, K(!new)>(ks: seq<K>, rows: seq<T>, surplus: multiset<K>, key: T -> K)
    requires forall i :: 0 <= i < |ks| ==> ks[i] in Map(key, rows)
    ensures Map(key, SurplusOf(ks, 0, rows, surplus, key)) == KeySurplus(ks, 0, surplus)
  {
  }

  lemma OneMoreKey<T, K(!new)>(ks: seq<K>, n: nat, rows: seq<T>, surplus: multiset<K>, key: T -> K)
    requires 0 < n <= |ks| && forall i :: 0 <= i < |ks| ==> ks[i] in Map(key, rows)
    requires Map(key, SurplusOf(ks, n - 1, rows, surplus, key)) == KeySurplus(ks, n - 1, surplus)
    ensures Map(key, SurplusOf(ks, n, rows, surplus, key)) == KeySurplus(ks, n, surplus)
  {
    hide LastWith, Repeat, Map;
    var k := ks[n - 1];
    AppendKeys(SurplusOf(ks, n - 1, rows, surplus, key), LastWith(rows, key, k), surplus[k], key,
               KeySurplus(ks, n - 1, surplus), k);
  }

  lemma AppendKeys<T, K(!new)>(front: seq<T>, row: T, n: nat, key: T -> K, keys: seq<K>, k: K)
    requires Map(key, front) == keys && key(row) == k
    ensures Map(key, front + Repeat(row, n)) == keys + Repeat(k, n)
  {
    RepeatKeys(row, n, key);
    MapConcat(key, front, Repeat(row, n));
  }

  lemma CountsAdd<K(!new)>(a: seq<K>, row: K, n: nat, k: K)
    ensures multiset(a + Repeat(row, n))[k] == multiset(a)[k] + if k == row then n else 0
  {
    RepeatCounts(row, n);
  }

  lemma LastIsNew<K(!new)>(ks: seq<K>, n: nat)
    requires 0 < n <= |ks| && forall i, j :: 0 <= i < j < |ks| ==> ks[i] != ks[j]
    ensures ks[n - 1] !in ks[..n - 1]
    ensures forall k :: k in ks[..n] <==> k in ks[..n - 1] || k == ks[n - 1]
  {
    assert ks[..n] == ks[..n - 1] + [ks[n - 1]];
  }

  lemma {:induction false} KeySurplusCounts<K(!new)>(ks: seq<K>, n: nat, surplus: multiset<K>, k: K)
    requires n <= |ks| && forall i, j :: 0 <= i < j < |ks| ==> ks[i] != ks[j]
    ensures multiset(KeySurplus(ks, n, surplus))[k] == if k in ks[..n] then surplus[k] else 0
  {
    if n > 0 {
      hide Repeat;
      KeySurplusCounts(ks, n - 1, surplus, k);
      CountsAdd(KeySurplus(ks, n - 1, surplus), ks[n - 1], surplus[ks[n - 1]], k);
      LastIsNew(ks, n);
    }
  }

  lemma {:induction false} SurplusOfRows<T, K(!new)>(ks: seq<K>, n: nat, rows: seq<T>, surplus: multiset<K>, key: T -> K)
    requires n <= |ks| && forall i :: 0 <= i < |ks| ==> ks[i] in Map(key, rows)
    ensures forall r :: r in SurplusOf(ks, n, rows, surplus, key) ==> r in rows
  {
    if n > 0 {
      SurplusOfRows(ks, n - 1, rows, surplus, key);
      RepeatRows(LastWith(rows, key, ks[n - 1]), surplus[ks[n - 1]]);
    }
  }

  /** The surplus has exactly the keys that one side has more often than the other, and its rows
      are rows of that side. One row stands for all rows of its key. */
  lemma SurplusKeys<T, K(!new)>(left: seq<T>, right: seq<T>, key: T -> K)
    ensures multiset(Map(key, Surplus(left, right, key))) == multiset(Map(key, left)) - multiset(Map(key, right))
    ensures forall r :: r in Surplus(left, right, key) ==> r in left
  {
    var ks := Distinct(Map(key, left));
    var surplus := multiset(Map(key, left)) - multiset(Map(key, right));
    SurplusOfRows(ks, |ks|, left, surplus, key);
    SurplusOfKeys(ks, |ks|, left, surplus, key);
    KeySurplusTotal(Map(key, left), surplus);
  }

  lemma KeySurplusTotal<K(!new)>(all: seq<K>, surplus: multiset<K>)
    requires surplus <= multiset(all)
    ensures multiset(KeySurplus(Distinct(all), |Distinct(all)|, surplus)) == surplus
  {
    var ks := Distinct(all);
    assert ks[..|ks|] == ks;
    forall k ensures multiset(KeySurplus(ks, |ks|, surplus))[k] == surplus[k] {
      KeySurplusCounts(ks, |ks|, surplus, k);
      assert k in multiset(all) <==> k in all;
    }
  }

  lemma BagDifference<K(!new)>(a: multiset<K>, b: multiset<K>)
    ensures a - b == multiset{} <==> a <= b
    ensures |a - b| == |a| - |a * b|
  {
    assert a == (a - b) + a * b;
    if a - b == multiset{} {
      forall k ensures a[k] <= b[k] {
        assert (a - b)[k] == 0;
      }
    }
  }

  lemma SurplusEmpty<T, K(!new)>(left: seq<T>, right: seq<T>, key: T -> K)
    ensures Surplus(left, right, key) == [] <==> multiset(Map(key, left)) <= multiset(Map(key, right))
    ensures |Surplus(left, right, key)| == |left| - |multiset(Map(key, left)) * multiset(Map(key, right))|
  {
    hide Surplus;
    SurplusKeys(left, right, key);
    BagDifference(multiset(Map(key, left)), multiset(Map(key, right)));
    BagSize(Map(key, Surplus(left, right, key)));
    BagSize(Map(key, left));
  }

  lemma BagSize<K>(ks: seq<K>)
    ensures |multiset(ks)| == |ks| && (ks == [] <==> multiset(ks) == multiset{})
  {
  }

  method UnmatchedRows<T, K(==,!new)>(left: seq<T>, right: seq<T>, key: T -> K)
    returns (missing: seq<T>, extra: seq<T>)
    ensures missing == Surplus(left, right, key) && extra == Surplus(right, left, key)
  {
    var leftKeys, leftCounter, leftRows := CountRows(left, key);
    var rightKeys, rightCounter, rightRows := CountRows(right, key);
    missing := RowsOfCounter(leftKeys, leftCounter - rightCounter, leftRows, left, right, key);
    extra := RowsOfCounter(rightKeys, rightCounter - leftCounter, rightRows, right, left, key);
  }

  method RowsOfCounter<T, K(==,!new)>(ks: seq<K>, surplus: multiset<K>, last: map<K, T>,
                                      ghost left: seq<T>, ghost right: seq<T>, ghost key: T -> K)
    returns (rows: seq<T>)
    requires ks == Distinct(Map(key, left)) && Remembers(left, key, last)
    requires surplus == multiset(Map(key, left)) - multiset(Map(key, right))
    ensures rows == Surplus(left, right, key)
  {
    rows := [];
    for i := 0 to |ks|
      invariant rows == SurplusOf(ks, i, left, surplus, key)
    {
      rows := rows + Repeat(last[ks[i]], surplus[ks[i]]);
    }
  }

  /** `last` holds the last row of every key. */
  ghost predicate Remembers<T, K(!new)>(rows: seq<T>, key: T -> K, last: map<K, T>) {
    && (forall k :: k in last <==> k in Map(key, rows))
    && (forall k :: k in last ==> last[k] == LastWith(rows, key, k))
  }

  lemma RemembersOneMore<T, K(!new)>(rows: seq<T>, key: T -> K, last: map<K, T>)
    requires rows != [] && Remembers(rows[..|rows| - 1], key, last)
    ensures Remembers(rows, key, last[key(rows[|rows| - 1]) := rows[|rows| - 1]])
  {
    MapOfFront(rows, key);
  }

  /** Counts the rows by key, remembering the last row of each. */
  method CountRows<T, K(==,!new)>(rows: seq<T>, key: T -> K)
    returns (ks: seq<K>, counter: multiset<K>, last: map<K, T>)
    ensures ks == Distinct(Map(key, rows)) && counter == multiset(Map(key, rows))
    ensures Remembers(rows, key, last)
  {
    ks, counter, last := [], multiset{}, map[];
    for n := 0 to |rows|
      invariant ks == Distinct(Map(key, rows[..n])) && counter == multiset(Map(key, rows[..n]))
      invariant Remembers(rows[..n], key, last)
    {
      var k := key(rows[n]);
      ghost var after := rows[..n + 1];
      assert after[..n] == rows[..n];
      MapOfFront(after, key);
      RemembersOneMore(after, key, last);
      assert Map(key, after)[..n] == Map(key, rows[..n]);
      ks := if k in ks then ks else ks + [k];
      counter := counter + multiset{k};
      last := last[k := rows[n]];
    }
    assert rows[..|rows|] == rows;
  }
}
