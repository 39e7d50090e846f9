/** The row order an SQL `ORDER BY` clause gives, and the row sequence a keyed
    table yields before it is ordered. */
module Ordering {

  /** `s` is in ascending order of `key`. */
  ghost predicate SortedBy<T>(s: seq<T>, key: T -> int) {
    forall i, j | 0 <= i < j < |s| :: key(s[i]) <= key(s[j])
  }

  /** Putting an element no larger than the head in front of an ascending sequence keeps it
      ascending. */
  lemma SortedCons<T>(h: T, t: seq<T>, key: T -> int)
    requires SortedBy(t, key)
    requires t == [] || key(h) <= key(t[0])
    ensures SortedBy([h] + t, key)
  {
    var r := [h] + t;
    assert forall j | 1 <= j < |r| :: r[j] == t[j - 1];
    assert forall j | 0 <= j < |t| :: key(h) <= key(t[j]);
  }

  /** Inserts `x` into the ascending sequence `s`, before the first element whose key is not smaller. */
  function Insert<T(==)>(x: T, s: seq<T>, key: T -> int): (r: seq<T>)
    requires SortedBy(s, key)
    ensures |r| == |s| + 1
    ensures r[0] == x || (s != [] && r[0] == s[0])
    ensures SortedBy(r, key)
  {
    if s == [] then [x]
    else if key(x) <= key(s[0]) then
      SortedCons(x, s, key);
      [x] + s
    else
      var tail := s[1..];
      assert forall j | 0 <= j < |tail| :: tail[j] == s[j + 1];
      var rest := Insert(x, tail, key);
      SortedCons(s[0], rest, key);
      [s[0]] + rest
  }

  /** Insertion adds `x` and loses nothing. */
  lemma {:induction false} InsertPermutes<T>(x: T, s: seq<T>, key: T -> int)
    requires SortedBy(s, key)
    ensures multiset(Insert(x, s, key)) == multiset(s) + multiset{x}
  {
    if s != [] && key(x) > key(s[0]) {
      var tail := s[1..];
      assert SortedBy(tail, key) by {
        assert forall j | 0 <= j < |tail| :: tail[j] == s[j + 1];
      }
      InsertPermutes(x, tail, key);
      assert s == [s[0]] + tail;
      assert Insert(x, s, key) == [s[0]] + Insert(x, tail, key);
    }
  }

  /** The rows of `s` ordered by ascending `key` (ties keep no particular order). */
  function SortBy<T(==)>(s: seq<T>, key: T -> int): (r: seq<T>)
    ensures multiset(r) == multiset(s)
    ensures |r| == |s|
    ensures SortedBy(r, key)
  {
    if s == [] then []
    else
      var rest := SortBy(s[1..], key);
      InsertPermutes(s[0], rest, key);
      assert s == [s[0]] + s[1..];
      Insert(s[0], rest, key)
  }

  /** Two sequences with the same elements, counted with multiplicity, have the same members. */
  lemma SameMembers<T>(a: seq<T>, b: seq<T>)
    requires multiset(a) == multiset(b)
    ensures forall i | 0 <= i < |a| :: a[i] in b
    ensures forall i | 0 <= i < |b| :: b[i] in a
  {
    assert forall i | 0 <= i < |a| :: a[i] in multiset(a);
    assert forall i | 0 <= i < |b| :: b[i] in multiset(b);
  }

  /** The keys of `keys` in the range `lo <= k < hi`, ascending: the order in which an
      auto-increment table stores its rows. */
  function KeysBetween(keys: set<int>, lo: int, hi: int): (r: seq<int>)
    ensures forall k :: k in r <==> k in keys && lo <= k < hi
    ensures forall i, j | 0 <= i < j < |r| :: r[i] < r[j]
    decreases hi - lo
  {
    if lo >= hi then []
    else
      var rest := KeysBetween(keys, lo + 1, hi);
      assert forall j | 0 <= j < |rest| :: lo < rest[j] by {
        forall j | 0 <= j < |rest| ensures lo < rest[j] { assert rest[j] in rest; }
      }
      (if lo in keys then [lo] else []) + rest
  }

  /** The rows of a table whose keys all lie in `lo <= k < hi`, in ascending key order;
      `id` gives the key a row carries. */
  function TableRows<V(==)>(table: map<int, V>, lo: int, hi: int, id: V -> int): (r: seq<V>)
    requires forall k | k in table :: lo <= k < hi && id(table[k]) == k
    ensures forall k | k in table :: table[k] in r
    ensures forall x | x in r :: id(x) in table && table[id(x)] == x
    ensures forall i, j | 0 <= i < j < |r| :: id(r[i]) < id(r[j])
  {
    var ks := KeysBetween(table.Keys, lo, hi);
    var r := seq(|ks|, i requires 0 <= i < |ks| => table[ks[i]]);
    assert forall i | 0 <= i < |r| :: r[i] == table[ks[i]] && id(r[i]) == ks[i];
    assert forall k | k in table :: table[k] in r by {
      forall k | k in table ensures table[k] in r {
        var i :| 0 <= i < |ks| && ks[i] == k;
        assert r[i] == table[k];
      }
    }
    assert forall x | x in r :: id(x) in table && table[id(x)] == x by {
      forall x | x in r ensures id(x) in table && table[id(x)] == x {
        var i :| 0 <= i < |r| && r[i] == x;
        assert ks[i] in ks;
      }
    }
    r
  }
}
