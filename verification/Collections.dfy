/** Options, powers of two, filters and the stable sort (`sort_by_key`,
    `ORDER BY`) used throughout the model. */
module Collections {

  datatype Option<+T> = None | Some(value: T)

  function Get<K, V>(m: map<K, V>, k: K): Option<V> {
    if k in m then Some(m[k]) else None
  }

  function Last<T>(s: seq<T>): Option<T> {
    if s == [] then None else Some(s[|s| - 1])
  }

  function Max(a: int, b: int): int {
    if a < b then b else a
  }

  function Min(a: int, b: int): int {
    if a < b then a else b
  }

  function Pow2(k: nat): nat {
    if k == 0 then 1 else 2 * Pow2(k - 1)
  }

  function Filter<T>(s: seq<T>, p: T -> bool): seq<T> {
    if s == [] then []
    else
      var rest := Filter(s[..|s| - 1], p);
      if p(s[|s| - 1]) then rest + [s[|s| - 1]] else rest
  }

  lemma {:induction false} FilterMembers<T>(s: seq<T>, p: T -> bool)
    ensures forall i :: 0 <= i < |Filter(s, p)| ==> Filter(s, p)[i] in s && p(Filter(s, p)[i])
    ensures forall x <- s :: p(x) ==> x in Filter(s, p)
  {
    if s != [] {
      assert s == s[..|s| - 1] + [s[|s| - 1]];
      FilterMembers(s[..|s| - 1], p);
    }
  }

  lemma {:induction false} FilterAppend<T>(s: seq<T>, t: seq<T>, p: T -> bool)
    ensures Filter(s + t, p) == Filter(s, p) + Filter(t, p)
  {
    if t == [] {
      assert s + t == s;
    } else {
      assert (s + t)[..|s + t| - 1] == s + t[..|t| - 1];
      FilterAppend(s, t[..|t| - 1], p);
    }
  }

  lemma FilterPush<T>(s: seq<T>, x: T, p: T -> bool)
    ensures Filter(s + [x], p) == if p(x) then Filter(s, p) + [x] else Filter(s, p)
  {
    assert (s + [x])[..|s + [x]| - 1] == s;
  }

  lemma {:induction false} FilterAll<T>(s: seq<T>, p: T -> bool)
    requires forall x <- s :: p(x)
    ensures Filter(s, p) == s
  {
    if s != [] {
      FilterAll(s[..|s| - 1], p);
    }
  }

  lemma {:induction false} FilterNone<T>(s: seq<T>, p: T -> bool)
    requires forall x <- s :: !p(x)
    ensures Filter(s, p) == []
  {
    if s != [] {
      FilterNone(s[..|s| - 1], p);
    }
  }

  ghost predicate SortedBy<T>(s: seq<T>, key: T -> int) {
    forall i, j :: 0 <= i < j < |s| ==> key(s[i]) <= key(s[j])
  }

  ghost predicate StrictlySortedBy<T>(s: seq<T>, key: T -> int) {
    forall i, j :: 0 <= i < j < |s| ==> key(s[i]) < key(s[j])
  }

  lemma {:induction false} FilterSorted<T>(s: seq<T>, p: T -> bool, key: T -> int)
    requires SortedBy(s, key)
    ensures SortedBy(Filter(s, p), key)
  {
    if s != [] {
      FilterSorted(s[..|s| - 1], p, key);
      FilterMembers(s[..|s| - 1], p);
      assert forall x <- s[..|s| - 1] :: key(x) <= key(s[|s| - 1]);
    }
  }

  /** In a sorted sequence, dropping what lies below `lo` leaves the newest
      element that satisfies `p` newest, or leaves none at all. */
  lemma {:induction false} FilterNewest<T>(s: seq<T>, p: T -> bool, q: T -> bool, key: T -> int, lo: int)
    requires SortedBy(s, key)
    requires forall x <- s :: p(x) ==> (q(x) <==> lo <= key(x))
    ensures KeepsNewest(Filter(s, p), Filter(Filter(s, q), p), key, lo)
  {
    if s != [] {
      FilterNewest(s[..|s| - 1], p, q, key, lo);
      FilterNewestStep(s, p, q, key, lo);
    }
  }

  /** `kept` has the newest of `all`, or nothing if that lies below `lo`. */
  ghost predicate KeepsNewest<T>(all: seq<T>, kept: seq<T>, key: T -> int, lo: int) {
    if all == [] || key(all[|all| - 1]) < lo then kept == []
    else kept != [] && kept[|kept| - 1] == all[|all| - 1]
  }

  lemma FilterNewestStep<T>(s: seq<T>, p: T -> bool, q: T -> bool, key: T -> int, lo: int)
    requires s != [] && SortedBy(s, key)
    requires p(s[|s| - 1]) ==> (q(s[|s| - 1]) <==> lo <= key(s[|s| - 1]))
    requires KeepsNewest(Filter(s[..|s| - 1], p), Filter(Filter(s[..|s| - 1], q), p), key, lo)
    ensures KeepsNewest(Filter(s, p), Filter(Filter(s, q), p), key, lo)
  {
    var front, last := s[..|s| - 1], s[|s| - 1];
    FilterAtMost(front, p, key, last);
    FilterPush(Filter(front, q), last, p);
  }

  /** Insert after every element whose key is not larger: a stable insertion. */
  function Insert<T>(s: seq<T>, x: T, key: T -> int): (r: seq<T>)
    ensures multiset(r) == multiset(s) + multiset{x}
  {
    if s == [] || key(s[|s| - 1]) <= key(x) then s + [x]
    else
      assert s == s[..|s| - 1] + [s[|s| - 1]];
      Insert(s[..|s| - 1], x, key) + [s[|s| - 1]]
  }

  /** A stable sort by `key`. */
  function Sort<T>(s: seq<T>, key: T -> int): (r: seq<T>)
    ensures multiset(r) == multiset(s)
  {
    if s == [] then []
    else
      assert s == s[..|s| - 1] + [s[|s| - 1]];
      Insert(Sort(s[..|s| - 1], key), s[|s| - 1], key)
  }

  lemma SortMembers<T>(s: seq<T>, key: T -> int)
    ensures |Sort(s, key)| == |s|
    ensures forall x :: x in Sort(s, key) <==> x in s
  {
    assert |multiset(Sort(s, key))| == |multiset(s)|;
    forall x ensures x in Sort(s, key) <==> x in s {
      assert x in multiset(Sort(s, key)) <==> x in multiset(s);
    }
  }

  lemma {:induction false} InsertSorted<T>(s: seq<T>, x: T, key: T -> int)
    requires SortedBy(s, key)
    ensures SortedBy(Insert(s, x, key), key)
  {
    if s != [] && key(s[|s| - 1]) > key(x) {
      var front := s[..|s| - 1];
      InsertSorted(front, x, key);
      var r := Insert(front, x, key);
      forall i | 0 <= i < |r| ensures key(r[i]) <= key(s[|s| - 1]) {
        assert r[i] in multiset(front) + multiset{x};
      }
    }
  }

  lemma {:induction false} SortSorted<T>(s: seq<T>, key: T -> int)
    ensures SortedBy(Sort(s, key), key)
  {
    if s != [] {
      SortSorted(s[..|s| - 1], key);
      InsertSorted(Sort(s[..|s| - 1], key), s[|s| - 1], key);
    }
  }

  lemma {:induction false} SortOfSorted<T>(s: seq<T>, key: T -> int)
    requires SortedBy(s, key)
    ensures Sort(s, key) == s
  {
    if s != [] {
      SortOfSorted(s[..|s| - 1], key);
    }
  }

  lemma {:induction false} FilterInsert<T>(s: seq<T>, x: T, key: T -> int, p: T -> bool)
    requires SortedBy(s, key)
    ensures Filter(Insert(s, x, key), p)
         == if p(x) then Insert(Filter(s, p), x, key) else Filter(s, p)
  {
    if s == [] || key(s[|s| - 1]) <= key(x) {
      FilterInsertLast(s, x, key, p);
    } else {
      FilterInsert(s[..|s| - 1], x, key, p);
      FilterInsertStep(s, x, key, p);
    }
  }

  lemma FilterInsertLast<T>(s: seq<T>, x: T, key: T -> int, p: T -> bool)
    requires SortedBy(s, key) && (s != [] ==> key(s[|s| - 1]) <= key(x))
    ensures Filter(Insert(s, x, key), p)
         == if p(x) then Insert(Filter(s, p), x, key) else Filter(s, p)
  {
    FilterPush(s, x, p);
    FilterAtMost(s, p, key, x);
  }

  lemma FilterAtMost<T>(s: seq<T>, p: T -> bool, key: T -> int, x: T)
    requires SortedBy(s, key) && (s != [] ==> key(s[|s| - 1]) <= key(x))
    ensures var kept := Filter(s, p); kept != [] ==> key(kept[|kept| - 1]) <= key(x)
  {
    var kept := Filter(s, p);
    if kept != [] {
      FilterMembers(s, p);
      assert kept[|kept| - 1] in s;
    }
  }

  lemma FilterInsertStep<T>(s: seq<T>, x: T, key: T -> int, p: T -> bool)
    requires s != [] && key(s[|s| - 1]) > key(x)
    requires var front := s[..|s| - 1];
      Filter(Insert(front, x, key), p) == if p(x) then Insert(Filter(front, p), x, key) else Filter(front, p)
    ensures Filter(Insert(s, x, key), p)
         == if p(x) then Insert(Filter(s, p), x, key) else Filter(s, p)
  {
    var front, last := s[..|s| - 1], s[|s| - 1];
    FilterPush(Insert(front, x, key), last, p);
    InsertBefore(Filter(front, p), last, x, key);
  }

  lemma InsertBefore<T>(s: seq<T>, last: T, x: T, key: T -> int)
    requires key(last) > key(x)
    ensures Insert(s + [last], x, key) == Insert(s, x, key) + [last]
  {
    assert (s + [last])[..|s + [last]| - 1] == s;
  }

  /** Stability: selecting rows before or after the sort is the same. */
  lemma {:induction false} FilterSort<T>(s: seq<T>, key: T -> int, p: T -> bool)
    ensures Filter(Sort(s, key), p) == Sort(Filter(s, p), key)
  {
    if s != [] {
      var front := s[..|s| - 1];
      FilterSort(front, key, p);
      SortSorted(front, key);
      FilterInsert(Sort(front, key), s[|s| - 1], key, p);
    }
  }

  /** Strictly sorted sequences are determined by their elements. */
  lemma {:induction false} StrictlySortedUnique<T>(s: seq<T>, t: seq<T>, key: T -> int)
    requires StrictlySortedBy(s, key) && StrictlySortedBy(t, key)
    requires forall x :: x in s <==> x in t
    ensures s == t
  {
    assert t == [] || t[0] in s;
    if s != [] {
      assert s[0] in t;
      var a, b := s[|s| - 1], t[|t| - 1];
      assert a in t && b in s;
      assert a == b by {
        var i :| 0 <= i < |t| && t[i] == a;
        var j :| 0 <= j < |s| && s[j] == b;
      }
      var s', t' := s[..|s| - 1], t[..|t| - 1];
      forall x ensures x in s' <==> x in t' {
        assert x in s' ==> key(x) < key(a) && x in t;
        assert x in t' ==> key(x) < key(b) && x in s;
      }
      StrictlySortedUnique(s', t', key);
    }
  }

  /** `dedup_by_key`: of neighbours with one key the first stays. */
  function Dedup<T>(s: seq<T>, key: T -> int): (r: seq<T>)
    ensures s != [] ==> r != [] && key(r[|r| - 1]) == key(s[|s| - 1])
  {
    if |s| <= 1 then s
    else
      var rest := Dedup(s[..|s| - 1], key);
      if key(s[|s| - 1]) == key(s[|s| - 2]) then rest else rest + [s[|s| - 1]]
  }

  lemma PushKeepsStrict<T>(s: seq<T>, last: T, key: T -> int)
    requires StrictlySortedBy(s, key) && (s != [] ==> key(s[|s| - 1]) < key(last))
    ensures StrictlySortedBy(s + [last], key)
  {
    forall i | 0 <= i < |s| ensures key(s[i]) < key(last) {
      assert i < |s| - 1 ==> key(s[i]) < key(s[|s| - 1]);
    }
  }

  lemma DedupSorted<T>(s: seq<T>, key: T -> int)
    requires SortedBy(s, key)
    ensures StrictlySortedBy(Dedup(s, key), key)
    ensures forall i :: 0 <= i < |Dedup(s, key)| ==> Dedup(s, key)[i] in s
  {
    DedupMembers(s, key);
    DedupStrict(s, key);
  }

  lemma {:induction false} DedupMembers<T>(s: seq<T>, key: T -> int)
    ensures forall i :: 0 <= i < |Dedup(s, key)| ==> Dedup(s, key)[i] in s
  {
    if |s| > 1 {
      DedupMembers(s[..|s| - 1], key);
    }
  }

  lemma {:induction false} DedupStrict<T>(s: seq<T>, key: T -> int)
    requires SortedBy(s, key)
    ensures StrictlySortedBy(Dedup(s, key), key)
  {
    if |s| > 1 {
      var front, last := s[..|s| - 1], s[|s| - 1];
      DedupStrict(front, key);
      assert key(front[|front| - 1]) <= key(last);
      if key(front[|front| - 1]) != key(last) {
        PushKeepsStrict(Dedup(front, key), last, key);
      }
    }
  }

  /** With no two keys alike there is nothing to sort or drop. */
  lemma {:induction false} NothingToDedup<T>(s: seq<T>, key: T -> int)
    requires StrictlySortedBy(s, key)
    ensures Dedup(s, key) == s
  {
    if |s| > 1 {
      NothingToDedup(s[..|s| - 1], key);
      assert key(s[|s| - 2]) < key(s[|s| - 1]);
    }
  }

  lemma StrictlyInOrder<T>(s: seq<T>, key: T -> int)
    requires StrictlySortedBy(s, key)
    ensures Dedup(Sort(s, key), key) == s
  {
    SortOfSorted(s, key);
    NothingToDedup(s, key);
  }

  /** Every key stays represented. */
  lemma {:induction false} DedupCovers<T>(s: seq<T>, key: T -> int, x: T) returns (d: T)
    requires x in s
    ensures d in Dedup(s, key) && key(d) == key(x)
  {
    var r := Dedup(s, key);
    if x == s[|s| - 1] {
      d := r[|r| - 1];
    } else {
      d := DedupCovers(s[..|s| - 1], key, x);
    }
  }

  /** How many elements lie below `floor`: `partition_point` on a sorted
      sequence. */
  function CountBelow<T>(s: seq<T>, key: T -> int, floor: int): (n: nat)
    ensures n <= |s|
    ensures n < |s| ==> key(s[n]) >= floor
    ensures forall i :: 0 <= i < n ==> key(s[i]) < floor
  {
    if s == [] || key(s[0]) >= floor then 0 else 1 + CountBelow(s[1..], key, floor)
  }
}
