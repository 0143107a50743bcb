/**
 Rust's stable `sort_by_key`, as an insertion sort on values, and the two facts that
 single it out: the result is ordered by key, and entries with equal keys keep their order.
 */
module StableSort {

  function Insert<T>(key: T -> int, x: T, s: seq<T>): (r: seq<T>)
    ensures multiset(r) == multiset{x} + multiset(s)
  {
    if s == [] || key(x) <= key(s[0]) then [x] + s
    else
      assert s == [s[0]] + s[1..];
      [s[0]] + Insert(key, x, s[1..])
  }

  function Sort<T>(key: T -> int, s: seq<T>): (r: seq<T>)
    ensures multiset(r) == multiset(s)
  {
    if s == [] then []
    else
      assert s == [s[0]] + s[1..];
      Insert(key, s[0], Sort(key, s[1..]))
  }

  ghost predicate Ordered<T>(key: T -> int, s: seq<T>) {
    forall i, j :: 0 <= i < j < |s| ==> key(s[i]) <= key(s[j])
  }

  function WithKey<T>(key: T -> int, k: int, s: seq<T>): seq<T> {
    if s == [] then []
    else (if key(s[0]) == k then [s[0]] else []) + WithKey(key, k, s[1..])
  }

  lemma {:induction false} InsertKeepsOrder<T>(key: T -> int, x: T, s: seq<T>)
    requires Ordered(key, s)
    ensures Ordered(key, Insert(key, x, s))
  {
    if s != [] && key(x) > key(s[0]) {
      InsertKeepsOrder(key, x, s[1..]);
      var rest := Insert(key, x, s[1..]);
      forall j | 0 <= j < |rest| ensures key(s[0]) <= key(rest[j]) {
        assert rest[j] in multiset(rest);
        assert rest[j] == x || rest[j] in s[1..];
      }
    }
  }

  lemma {:induction false} SortIsOrdered<T>(key: T -> int, s: seq<T>)
    ensures Ordered(key, Sort(key, s))
  {
    if s != [] {
      SortIsOrdered(key, s[1..]);
      InsertKeepsOrder(key, s[0], Sort(key, s[1..]));
    }
  }

  lemma {:induction false} InsertIsStable<T>(key: T -> int, x: T, s: seq<T>, k: int)
    ensures WithKey(key, k, Insert(key, x, s)) == (if key(x) == k then [x] else []) + WithKey(key, k, s)
  {
    hide WithKey;
    WithKeyOneMore(key, k, x, s);
    if |s| > 0 && key(x) > key(s[0]) {
      InsertIsStable(key, x, s[1..], k);
      assert Insert(key, x, s) == [s[0]] + Insert(key, x, s[1..]);
      WithKeyHead(key, k, s);
      WithKeyOneMore(key, k, s[0], Insert(key, x, s[1..]));
    }
  }

  lemma WithKeyHead<T>(key: T -> int, k: int, s: seq<T>)
    requires s != []
    ensures WithKey(key, k, s) == if key(s[0]) == k then [s[0]] + WithKey(key, k, s[1..]) else WithKey(key, k, s[1..])
  {
  }

  lemma WithKeyOneMore<T>(key: T -> int, k: int, x: T, s: seq<T>)
    ensures WithKey(key, k, [x] + s) == (if key(x) == k then [x] else []) + WithKey(key, k, s)
  {
    assert ([x] + s)[1..] == s;
  }

  lemma {:induction false} SortIsStable<T>(key: T -> int, s: seq<T>, k: int)
    ensures WithKey(key, k, Sort(key, s)) == WithKey(key, k, s)
  {
    if s != [] {
      SortIsStable(key, s[1..], k);
      InsertIsStable(key, s[0], Sort(key, s[1..]), k);
    }
  }

  /** Those two facts leave no choice: any ordered, stable rearrangement is this sort. */
  lemma {:induction false} StableOrderIsUnique<T>(key: T -> int, s: seq<T>, t: seq<T>)
    requires Ordered(key, s) && Ordered(key, t)
    requires forall k :: WithKey(key, k, s) == WithKey(key, k, t)
    ensures s == t
    decreases |s|
  {
    hide WithKey;
    if |s| > 0 || |t| > 0 {
      SameHead(key, s, t);
      forall k ensures WithKey(key, k, s[1..]) == WithKey(key, k, t[1..]) {
        SameTail(key, k, s, t);
      }
      StableOrderIsUnique(key, s[1..], t[1..]);
      assert s == [s[0]] + s[1..] && t == [t[0]] + t[1..];
    }
  }

  lemma SameTail<T>(key: T -> int, k: int, s: seq<T>, t: seq<T>)
    requires |s| > 0 && |t| > 0 && s[0] == t[0] && WithKey(key, k, s) == WithKey(key, k, t)
    ensures WithKey(key, k, s[1..]) == WithKey(key, k, t[1..])
  {
    hide WithKey;
    WithKeyHead(key, k, s);
    WithKeyHead(key, k, t);
    if key(s[0]) == k {
      assert WithKey(key, k, s)[1..] == WithKey(key, k, s[1..]);
      assert WithKey(key, k, t)[1..] == WithKey(key, k, t[1..]);
    }
  }

  /** The first entry of one is no later than any entry of the other with its key. */
  lemma HeadIsFound<T>(key: T -> int, s: seq<T>, t: seq<T>)
    requires Ordered(key, s) && |t| > 0 && WithKey(key, key(t[0]), s) == WithKey(key, key(t[0]), t)
    ensures |s| > 0 && key(s[0]) <= key(t[0])
  {
    hide WithKey;
    WithKeyHead(key, key(t[0]), t);
    HasKey(key, key(t[0]), s);
  }

  lemma SameHead<T>(key: T -> int, s: seq<T>, t: seq<T>)
    requires Ordered(key, s) && Ordered(key, t) && (|s| > 0 || |t| > 0)
    requires forall k :: WithKey(key, k, s) == WithKey(key, k, t)
    ensures |s| > 0 && |t| > 0 && s[0] == t[0]
  {
    hide WithKey, Ordered;
    if |t| > 0 { HeadIsFound(key, s, t); }
    if |s| > 0 { HeadIsFound(key, t, s); }
    HeadIsFound(key, s, t);
    WithKeyHead(key, key(s[0]), s);
    WithKeyHead(key, key(s[0]), t);
    assert WithKey(key, key(s[0]), s)[0] == WithKey(key, key(s[0]), t)[0];
  }

  lemma {:induction false} HasKey<T>(key: T -> int, k: int, s: seq<T>)
    requires WithKey(key, k, s) != []
    ensures exists i :: 0 <= i < |s| && key(s[i]) == k
  {
    if key(s[0]) != k {
      HasKey(key, k, s[1..]);
      var i :| 0 <= i < |s[1..]| && key(s[1..][i]) == k;
      assert s[i + 1] == s[1..][i];
    }
  }
}
