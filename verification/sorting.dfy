/** The two sorts the matcher performs on its by-value copies: tables by
    name and keys by (key type, name). `std::sort` is stood in for by an
    insertion sort, proved to return a sorted permutation of its input. */
module Sorting {
  import opened Lexical
  import opened Schema

  /** No table is followed by one whose name sorts strictly before it. */
  predicate TablesSorted(ts: seq<Table>)
  {
    forall i, j :: 0 <= i < j < |ts| ==> !TableLess(ts[j], ts[i])
  }

  function InsertTable(t: Table, ts: seq<Table>): (r: seq<Table>)
    ensures multiset(r) == multiset(ts) + multiset{t}
    ensures |r| == |ts| + 1
  {
    if |ts| == 0 then [t]
    else
      assert ts == [ts[0]] + ts[1..];
      if TableLess(ts[0], t) then [ts[0]] + InsertTable(t, ts[1..]) else [t] + ts
  }

  lemma {:induction false} InsertTableSorted(t: Table, ts: seq<Table>)
    requires TablesSorted(ts)
    ensures TablesSorted(InsertTable(t, ts))
  {
    if |ts| == 0 {
    } else if TableLess(ts[0], t) {
      var rest := InsertTable(t, ts[1..]);
      InsertTableSorted(t, ts[1..]);
      forall j | 0 <= j < |rest|
        ensures !TableLess(rest[j], ts[0])
      {
        assert rest[j] in multiset(rest);
        if rest[j] == t {
          StrLessAsymmetric(ts[0].name, t.name);
        } else {
          assert rest[j] in multiset(ts[1..]);
          var k :| 0 <= k < |ts[1..]| && ts[1..][k] == rest[j];
          assert ts[k + 1] == rest[j];
        }
      }
    } else {
      forall j | 0 <= j < |ts|
        ensures !TableLess(ts[j], t)
      {
        if j > 0 {
          StrNotLessTransitive(t.name, ts[0].name, ts[j].name);
        }
      }
    }
  }

  /** The table list sorted by name. */
  function SortTables(ts: seq<Table>): (r: seq<Table>)
    ensures multiset(r) == multiset(ts)
    ensures |r| == |ts|
    ensures TablesSorted(r)
  {
    if |ts| == 0 then []
    else
      var rest := SortTables(ts[1..]);
      InsertTableSorted(ts[0], rest);
      assert ts == [ts[0]] + ts[1..];
      InsertTable(ts[0], rest)
  }

  /** No key is followed by one that sorts strictly before it. */
  predicate KeysSorted(ks: seq<Key>)
  {
    forall i, j :: 0 <= i < j < |ks| ==> !KeyLess(ks[j], ks[i])
  }

  function InsertKey(k: Key, ks: seq<Key>): (r: seq<Key>)
    ensures multiset(r) == multiset(ks) + multiset{k}
    ensures |r| == |ks| + 1
  {
    if |ks| == 0 then [k]
    else
      assert ks == [ks[0]] + ks[1..];
      if KeyLess(ks[0], k) then [ks[0]] + InsertKey(k, ks[1..]) else [k] + ks
  }

  lemma {:induction false} InsertKeySorted(k: Key, ks: seq<Key>)
    requires KeysSorted(ks)
    ensures KeysSorted(InsertKey(k, ks))
  {
    if |ks| == 0 {
    } else if KeyLess(ks[0], k) {
      var rest := InsertKey(k, ks[1..]);
      InsertKeySorted(k, ks[1..]);
      forall j | 0 <= j < |rest|
        ensures !KeyLess(rest[j], ks[0])
      {
        assert rest[j] in multiset(rest);
        if rest[j] == k {
          KeyLessStrictWeakOrder(ks[0], k, ks[0]);
        } else {
          assert rest[j] in multiset(ks[1..]);
          var i :| 0 <= i < |ks[1..]| && ks[1..][i] == rest[j];
          assert ks[i + 1] == rest[j];
        }
      }
    } else {
      forall j | 0 <= j < |ks|
        ensures !KeyLess(ks[j], k)
      {
        if j > 0 {
          KeyNotLessTransitive(k, ks[0], ks[j]);
        }
      }
    }
  }

  /** The key list sorted by (key type, name). */
  function SortKeys(ks: seq<Key>): (r: seq<Key>)
    ensures multiset(r) == multiset(ks)
    ensures |r| == |ks|
    ensures KeysSorted(r)
  {
    if |ks| == 0 then []
    else
      var rest := SortKeys(ks[1..]);
      InsertKeySorted(ks[0], rest);
      assert ks == [ks[0]] + ks[1..];
      InsertKey(ks[0], rest)
  }
}
