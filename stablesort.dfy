/** What `list.sort(key=f, reverse=True)` produces: the same elements ordered
    by descending key, where elements with equal keys keep their relative
    order (Python's sort is stable, also when reversed). A sorted sequence is
    pinned down by the subsequence of each key, so stability is stated as
    "every key's subsequence is unchanged". */
module StableSort {

  /** Keys never increase from left to right. */
  predicate SortedDesc<T>(s: seq<T>, key: T -> int) {
    forall i, j :: 0 <= i < j < |s| ==> key(s[i]) >= key(s[j])
  }

  /** The elements of `s` whose key is `k`, in their order in `s`. */
  function Filter<T(==)>(s: seq<T>, key: T -> int, k: int): seq<T> {
    if s == [] then []
    else (if key(s[0]) == k then [s[0]] else []) + Filter(s[1..], key, k)
  }

  lemma {:induction false} FilterMember<T>(s: seq<T>, key: T -> int, k: int, x: T)
    ensures x in Filter(s, key, k) <==> x in s && key(x) == k
  {
    if s != [] {
      FilterMember(s[1..], key, k, x);
      assert s == [s[0]] + s[1..];
    }
  }

  /** Places `x` before the first element whose key is at most `x`'s, so that
      `x` lands in front of every element with its own key. */
  function Insert<T(==)>(x: T, s: seq<T>, key: T -> int): (r: seq<T>)
    ensures multiset(r) == multiset{x} + multiset(s)
  {
    if s == [] || key(s[0]) <= key(x) then
      [x] + s
    else
      assert s == [s[0]] + s[1..];
      [s[0]] + Insert(x, s[1..], key)
  }

  lemma {:induction false} InsertSorted<T>(x: T, s: seq<T>, key: T -> int)
    requires SortedDesc(s, key)
    ensures SortedDesc(Insert(x, s, key), key)
  {
    if s != [] && key(s[0]) > key(x) {
      var rest := s[1..];
      var t := Insert(x, rest, key);
      assert SortedDesc(rest, key) by {
        forall i, j | 0 <= i < j < |rest| ensures key(rest[i]) >= key(rest[j]) {
          assert rest[i] == s[i + 1] && rest[j] == s[j + 1];
        }
      }
      InsertSorted(x, rest, key);
      InsertHead(x, rest, key);
      var r := [s[0]] + t;
      forall i, j | 0 <= i < j < |r| ensures key(r[i]) >= key(r[j]) {
        assert r[j] == t[j - 1];
        if i > 0 {
          assert r[i] == t[i - 1];
        } else {
          assert key(s[0]) >= key(t[0]);
        }
      }
    }
  }

  /** The head of an insertion is the inserted element or the old head. */
  lemma InsertHead<T>(x: T, s: seq<T>, key: T -> int)
    ensures Insert(x, s, key)[0] == x || (s != [] && Insert(x, s, key)[0] == s[0])
  {
  }

  /** Inserting `x` keeps every key's subsequence as putting `x` in front
      does: `x` goes before every element with its own key. */
  lemma {:induction false} InsertFilter<T>(x: T, s: seq<T>, key: T -> int, k: int)
    ensures Filter(Insert(x, s, key), key, k) == Filter([x] + s, key, k)
  {
    if s != [] && key(s[0]) > key(x) {
      var rest := s[1..];
      var t := Insert(x, rest, key);
      InsertFilter(x, rest, key, k);
      HeadTail(s);
      FilterCons(s[0], t, key, k);
      FilterCons(x, rest, key, k);
      FilterCons(x, s, key, k);
      FilterCons(s[0], rest, key, k);
    }
  }

  lemma HeadTail<T>(s: seq<T>)
    requires s != []
    ensures [s[0]] + s[1..] == s
  {
  }

  /** Filtering a sequence with one more element in front. */
  lemma FilterCons<T>(y: T, s: seq<T>, key: T -> int, k: int)
    ensures key(y) == k ==> Filter([y] + s, key, k) == [y] + Filter(s, key, k)
    ensures key(y) != k ==> Filter([y] + s, key, k) == Filter(s, key, k)
  {
    assert ([y] + s)[1..] == s;
  }

  /** Insertion sort by descending key: a permutation of `s`, sorted, and
      stable. */
  function SortDesc<T(==)>(s: seq<T>, key: T -> int): (r: seq<T>)
    ensures multiset(r) == multiset(s)
    ensures SortedDesc(r, key)
    ensures forall k :: Filter(r, key, k) == Filter(s, key, k)
  {
    if s == [] then []
    else
      assert s == [s[0]] + s[1..];
      var t := SortDesc(s[1..], key);
      InsertSorted(s[0], t, key);
      assert forall k :: Filter(Insert(s[0], t, key), key, k) == Filter(s, key, k) by {
        forall k ensures Filter(Insert(s[0], t, key), key, k) == Filter(s, key, k) {
          InsertFilter(s[0], t, key, k);
          FilterCons(s[0], t, key, k);
          FilterCons(s[0], s[1..], key, k);
        }
      }
      Insert(s[0], t, key)
  }

  /** Elements with equal keys appear in increasing `rank`. */
  predicate OrderedWithinKeys<T>(s: seq<T>, key: T -> int, rank: T -> int) {
    forall i, j :: 0 <= i < j < |s| && key(s[i]) == key(s[j]) ==> rank(s[i]) < rank(s[j])
  }

  /** Ranks strictly increase from left to right. */
  predicate Increasing<T>(s: seq<T>, rank: T -> int) {
    forall i, j :: 0 <= i < j < |s| ==> rank(s[i]) < rank(s[j])
  }

  /** A stable reordering keeps the order within each key: when every key's
      subsequence is the same in `r` as in `s`, elements with equal keys are in
      increasing rank in `r` whenever they are in `s`. */
  lemma {:induction false} SameFiltersKeepOrder<T(!new)>(r: seq<T>, s: seq<T>, key: T -> int, rank: T -> int)
    requires forall k :: Filter(r, key, k) == Filter(s, key, k)
    requires OrderedWithinKeys(s, key, rank)
    ensures OrderedWithinKeys(r, key, rank)
  {
    forall i, j | 0 <= i < j < |r| && key(r[i]) == key(r[j])
      ensures rank(r[i]) < rank(r[j])
    {
      var k := key(r[i]);
      FilterIncreasing(s, key, rank, k);
      IncreasingFilterOrders(r, key, rank, k, i, j);
    }
  }

  /** Each key's subsequence of a sequence ordered within keys is increasing. */
  lemma {:induction false} FilterIncreasing<T(!new)>(s: seq<T>, key: T -> int, rank: T -> int, k: int)
    requires OrderedWithinKeys(s, key, rank)
    ensures Increasing(Filter(s, key, k), rank)
  {
    if s != [] {
      var rest := s[1..];
      assert OrderedWithinKeys(rest, key, rank) by {
        forall i, j | 0 <= i < j < |rest| && key(rest[i]) == key(rest[j])
          ensures rank(rest[i]) < rank(rest[j])
        {
          assert rest[i] == s[i + 1] && rest[j] == s[j + 1];
        }
      }
      FilterIncreasing(rest, key, rank, k);
      var f := Filter(rest, key, k);
      if key(s[0]) == k {
        forall y | y in f ensures rank(s[0]) < rank(y) {
          FilterMember(rest, key, k, y);
          var m :| 0 <= m < |rest| && rest[m] == y;
          assert s[m + 1] == y;
        }
        var g := [s[0]] + f;
        assert Filter(s, key, k) == g;
        forall i, j | 0 <= i < j < |g| ensures rank(g[i]) < rank(g[j]) {
          if i > 0 {
            assert g[i] == f[i - 1] && g[j] == f[j - 1];
          } else {
            assert g[j] == f[j - 1];
            assert g[j] in f;
          }
        }
      } else {
        assert Filter(s, key, k) == f;
      }
    }
  }

  /** In a sequence whose key-`k` subsequence is increasing, two elements of
      key `k` are in increasing rank. */
  lemma {:induction false} IncreasingFilterOrders<T>(s: seq<T>, key: T -> int, rank: T -> int, k: int, i: int, j: int)
    requires 0 <= i < j < |s| && key(s[i]) == k && key(s[j]) == k
    requires Increasing(Filter(s, key, k), rank)
    ensures rank(s[i]) < rank(s[j])
  {
    var rest := s[1..];
    var f := Filter(rest, key, k);
    if i == 0 {
      assert Filter(s, key, k) == [s[0]] + f;
      assert s[j] == rest[j - 1];
      FilterMember(rest, key, k, s[j]);
      assert s[j] in f;
      var q :| 0 <= q < |f| && f[q] == s[j];
      var g := Filter(s, key, k);
      assert g[0] == s[0] && g[q + 1] == s[j];
    } else {
      var g := Filter(s, key, k);
      assert Increasing(f, rank) by {
        if key(s[0]) == k {
          assert g == [s[0]] + f;
          forall a, b | 0 <= a < b < |f| ensures rank(f[a]) < rank(f[b]) {
            assert f[a] == g[a + 1] && f[b] == g[b + 1];
          }
        } else {
          assert g == f;
        }
      }
      IncreasingFilterOrders(rest, key, rank, k, i - 1, j - 1);
    }
  }
}
