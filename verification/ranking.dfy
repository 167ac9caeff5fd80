/** The ranking step: `scored.sort((a, b) => b.score - a.score)`, a stable
    sort in descending order of an integer key, modelled as insertion sort. */
module Ranking {
  import opened Seqs

  ghost predicate Descending<T>(s: seq<T>, key: T -> int)
  {
    forall i, j :: 0 <= i < j < |s| ==> key(s[i]) >= key(s[j])
  }

  /** Places `x` before the first element whose key is not larger, so it
      goes ahead of the equal keys that came after it in the input. */
  function Insert<T>(x: T, sorted: seq<T>, key: T -> int): (r: seq<T>)
    ensures multiset(r) == multiset(sorted) + multiset{x}
  {
    if |sorted| == 0 || key(sorted[0]) <= key(x) then [x] + sorted
    else
      assert sorted == [sorted[0]] + sorted[1..];
      [sorted[0]] + Insert(x, sorted[1..], key)
  }

  lemma {:induction false} InsertDescending<T>(x: T, sorted: seq<T>, key: T -> int)
    requires Descending(sorted, key)
    ensures Descending(Insert(x, sorted, key), key)
  {
    if |sorted| > 0 && key(sorted[0]) > key(x) {
      var rest := Insert(x, sorted[1..], key);
      InsertDescending(x, sorted[1..], key);
      forall j | 0 <= j < |rest|
        ensures key(rest[j]) <= key(sorted[0])
      {
        assert rest[j] in multiset(rest);
        if rest[j] != x {
          assert rest[j] in multiset(sorted[1..]);
          var m :| 0 <= m < |sorted[1..]| && sorted[1..][m] == rest[j];
          assert sorted[m + 1] == rest[j];
        }
      }
      var r := [sorted[0]] + rest;
      assert forall i :: 1 <= i < |r| ==> r[i] == rest[i - 1];
    }
  }

  function SortDesc<T>(s: seq<T>, key: T -> int): (r: seq<T>)
    ensures multiset(r) == multiset(s)
    ensures Descending(r, key)
  {
    if |s| == 0 then []
    else
      assert s == [s[0]] + s[1..];
      var rest := SortDesc(s[1..], key);
      InsertDescending(s[0], rest, key);
      Insert(s[0], rest, key)
  }

  /** The selector for one key value. */
  function WithKey<T>(key: T -> int, k: int): T -> bool
  {
    x => key(x) == k
  }

  lemma {:induction false} InsertKeepsTies<T>(x: T, sorted: seq<T>, key: T -> int, k: int)
    ensures Filter(Insert(x, sorted, key), WithKey(key, k)) ==
      (if key(x) == k then [x] else []) + Filter(sorted, WithKey(key, k))
  {
    var keep := WithKey(key, k);
    var r := Insert(x, sorted, key);
    if |sorted| == 0 || key(sorted[0]) <= key(x) {
      assert r == [x] + sorted;
      assert r[1..] == sorted;
    } else {
      var y := sorted[0];
      var tail := sorted[1..];
      var rest := Insert(x, tail, key);
      assert r == [y] + rest;
      assert sorted == [y] + tail;
      InsertKeepsTies(x, tail, key, k);
      FilterCons(y, rest, keep);
      FilterCons(y, tail, keep);
      var tie := if key(x) == k then [x] else [];
      var head := if keep(y) then [y] else [];
      assert tie == [] || head == [];
      assert head + (tie + Filter(tail, keep)) == tie + (head + Filter(tail, keep));
    }
  }

  /** Filtering a sequence with a known first element. */
  lemma FilterCons<T>(y: T, rest: seq<T>, keep: T -> bool)
    ensures Filter([y] + rest, keep) == (if keep(y) then [y] else []) + Filter(rest, keep)
  {
    assert ([y] + rest)[0] == y;
    assert ([y] + rest)[1..] == rest;
  }

  /** Stability: the elements sharing any one key come out in input order. */
  lemma {:induction false} SortDescIsStable<T>(s: seq<T>, key: T -> int, k: int)
    ensures Filter(SortDesc(s, key), WithKey(key, k)) == Filter(s, WithKey(key, k))
  {
    if |s| > 0 {
      SortDescIsStable(s[1..], key, k);
      InsertKeepsTies(s[0], SortDesc(s[1..], key), key, k);
    }
  }

  /** Reference definition of the winner: the first element whose key is
      maximal. */
  function EarliestMax<T>(s: seq<T>, key: T -> int): (i: nat)
    requires |s| > 0
    ensures i < |s|
    ensures forall j :: 0 <= j < |s| ==> key(s[j]) <= key(s[i])
    ensures forall j :: 0 <= j < i ==> key(s[j]) < key(s[i])
  {
    if |s| == 1 then 0
    else
      var j := 1 + EarliestMax(s[1..], key);
      assert s[j] == s[1..][j - 1];
      if key(s[0]) >= key(s[j]) then 0 else j
  }

  /** The head of the stable descending sort is the earliest maximal element. */
  lemma {:induction false} SortDescHead<T>(s: seq<T>, key: T -> int)
    requires |s| > 0
    ensures SortDesc(s, key)[0] == s[EarliestMax(s, key)]
  {
    if |s| > 1 {
      var t := SortDesc(s[1..], key);
      SortDescHead(s[1..], key);
      assert |t| > 0 by {
        assert s[1] in multiset(s[1..]);
      }
      var j := 1 + EarliestMax(s[1..], key);
      assert s[j] == s[1..][j - 1];
    }
  }
}
