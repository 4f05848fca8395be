/** List comprehensions and dictionaries built in a loop, as the source uses them. */
module Collections {

  /** `[x for x in s if p(x)]`: the elements of `s` that satisfy `p`, in their order. */
  function Filter<T(!new)>(s: seq<T>, p: T -> bool): (r: seq<T>)
    ensures |r| <= |s|
  {
    if s == [] then [] else (if p(s[0]) then [s[0]] else []) + Filter(s[1..], p)
  }

  /** The filtered list holds exactly the elements of `s` that satisfy `p`. */
  lemma {:induction false} FilterMembers<T(!new)>(s: seq<T>, p: T -> bool)
    ensures forall x :: x in Filter(s, p) <==> x in s && p(x)
  {
    if s != [] {
      FilterMembers(s[1..], p);
      assert s == [s[0]] + s[1..];
    }
  }

  /** A condition that every element satisfies keeps the whole list. */
  lemma {:induction false} FilterKeepsAll<T(!new)>(s: seq<T>, p: T -> bool)
    requires forall i :: 0 <= i < |s| ==> p(s[i])
    ensures Filter(s, p) == s
  {
    if s != [] {
      assert p(s[0]);
      FilterKeepsAll(s[1..], p);
      assert s == [s[0]] + s[1..];
    }
  }

  /** Two disjoint conditions that both imply a third select no more elements than the third,
      and exactly as many when every element satisfying the third satisfies one of the two. */
  lemma {:induction false} FilterDisjoint<T(!new)>(s: seq<T>, p: T -> bool, q: T -> bool, r: T -> bool)
    requires forall x :: p(x) ==> r(x)
    requires forall x :: q(x) ==> r(x)
    requires forall x :: !(p(x) && q(x))
    ensures |Filter(s, p)| + |Filter(s, q)| <= |Filter(s, r)|
    ensures (forall x :: x in s && r(x) ==> p(x) || q(x)) ==> |Filter(s, p)| + |Filter(s, q)| == |Filter(s, r)|
  {
    if s != [] {
      FilterDisjoint(s[1..], p, q, r);
      assert forall x :: x in s[1..] ==> x in s;
    }
  }

  /** Filtering distributes over concatenation. */
  lemma {:induction false} FilterAppend<T(!new)>(a: seq<T>, b: seq<T>, p: T -> bool)
    ensures Filter(a + b, p) == Filter(a, p) + Filter(b, p)
  {
    if a != [] {
      assert (a + b)[1..] == a[1..] + b;
      FilterAppend(a[1..], b, p);
    } else {
      assert a + b == b;
    }
  }

  /** The positions of `s` whose element satisfies `p`. */
  function PositionsWhere<T>(s: seq<T>, p: T -> bool): set<int> {
    set i | 0 <= i < |s| && p(s[i])
  }

  /** The filtered list has one element per position that satisfies `p`. */
  lemma {:induction false} FilterCount<T(!new)>(s: seq<T>, p: T -> bool)
    ensures |Filter(s, p)| == |PositionsWhere(s, p)|
  {
    if s != [] {
      var n := |s| - 1;
      var init := s[..n];
      FilterCount(init, p);
      FilterAppend(init, [s[n]], p);
      assert init + [s[n]] == s;
      FilterCons(p, s[n], []);
      assert [s[n]] + [] == [s[n]];
      PositionsSnoc(s, p);
      assert n !in PositionsWhere(init, p);
    }
  }

  /** The positions of a list are those of its front part and, when it qualifies, its last one. */
  lemma PositionsSnoc<T>(s: seq<T>, p: T -> bool)
    requires s != []
    ensures var n := |s| - 1;
            PositionsWhere(s, p) == PositionsWhere(s[..n], p) + (if p(s[n]) then {n} else {})
  {
    var n := |s| - 1;
    forall i | 0 <= i < n ensures s[..n][i] == s[i] {
    }
  }

  /** Filtering twice is filtering once by both conditions. */
  lemma {:induction false} FilterFilter<T(!new)>(s: seq<T>, p: T -> bool, q: T -> bool, pq: T -> bool)
    requires forall x :: pq(x) == (p(x) && q(x))
    ensures Filter(Filter(s, p), q) == Filter(s, pq)
  {
    if s != [] {
      var rest := Filter(s[1..], p);
      FilterFilter(s[1..], p, q, pq);
      FilterCons(p, s[0], s[1..]);
      FilterCons(pq, s[0], s[1..]);
      assert [s[0]] + s[1..] == s;
      if p(s[0]) {
        FilterCons(q, s[0], rest);
      } else {
        assert [] + rest == rest;
      }
    }
  }

  /** The dictionary built by `for x in xs: d[key(x)] = x`: a later element overwrites an earlier one. */
  function IndexBy<K, T>(xs: seq<T>, key: T -> K): (m: map<K, T>)
    ensures m.Keys == set x | x in xs :: key(x)
  {
    if xs == [] then map[]
    else
      var init := xs[..|xs| - 1];
      assert xs == init + [xs[|xs| - 1]];
      IndexBy(init, key)[key(xs[|xs| - 1]) := xs[|xs| - 1]]
  }

  /** The entry stored under a key is the last element of `xs` with that key. */
  lemma {:induction false} IndexByLastWins<K, T>(xs: seq<T>, key: T -> K, i: nat)
    requires i < |xs|
    requires forall j :: i < j < |xs| ==> key(xs[j]) != key(xs[i])
    ensures key(xs[i]) in IndexBy(xs, key) && IndexBy(xs, key)[key(xs[i])] == xs[i]
  {
    if i < |xs| - 1 {
      IndexByLastWins(xs[..|xs| - 1], key, i);
    }
  }

  /** Every entry of the dictionary is the last element of `xs` carrying its key. */
  lemma {:induction false} IndexByEntry<K, T>(xs: seq<T>, key: T -> K, k: K)
    requires k in IndexBy(xs, key)
    ensures exists i :: 0 <= i < |xs| && key(xs[i]) == k && IndexBy(xs, key)[k] == xs[i]
                        && forall j :: i < j < |xs| ==> key(xs[j]) != k
  {
    var n := |xs| - 1;
    var init := xs[..n];
    if key(xs[n]) != k {
      assert IndexBy(xs, key) == IndexBy(init, key)[key(xs[n]) := xs[n]];
      IndexByEntry(init, key, k);
      var i :| 0 <= i < n && key(init[i]) == k && IndexBy(init, key)[k] == init[i]
               && forall j :: i < j < n ==> key(init[j]) != k;
      assert init[i] == xs[i];
      forall j | i < j < |xs| ensures key(xs[j]) != k {
        if j < n {
          assert init[j] == xs[j];
        }
      }
    }
  }

  ghost predicate SortedBy<T>(key: T -> int, s: seq<T>) {
    forall i, j :: 0 <= i < j < |s| ==> key(s[i]) <= key(s[j])
  }

  /** Inserts `x` before the first element whose key is not smaller. */
  function InsertBy<T(!new)>(key: T -> int, x: T, s: seq<T>): (r: seq<T>)
    ensures |r| == |s| + 1 && (r[0] == x || (s != [] && r[0] == s[0]))
  {
    if s == [] || key(x) <= key(s[0]) then [x] + s
    else [s[0]] + InsertBy(key, x, s[1..])
  }

  /** Insertion into a sorted list gives a sorted list. */
  lemma {:induction false} InsertBySorted<T(!new)>(key: T -> int, x: T, s: seq<T>)
    requires SortedBy(key, s)
    ensures SortedBy(key, InsertBy(key, x, s))
  {
    if s != [] && key(x) > key(s[0]) {
      var rest := InsertBy(key, x, s[1..]);
      assert SortedBy(key, s[1..]) by {
        forall i, j | 0 <= i < j < |s[1..]| ensures key(s[1..][i]) <= key(s[1..][j]) {
          assert s[1..][i] == s[i + 1] && s[1..][j] == s[j + 1];
        }
      }
      InsertBySorted(key, x, s[1..]);
      assert key(s[0]) <= key(rest[0]);
      var r := [s[0]] + rest;
      forall i, j | 0 <= i < j < |r| ensures key(r[i]) <= key(r[j]) {
        assert r[j] == rest[j - 1];
        if i > 0 {
          assert r[i] == rest[i - 1];
        } else if j > 1 {
          assert key(rest[0]) <= key(rest[j - 1]);
        }
      }
    }
  }

  /** Insertion adds `x` and loses nothing. */
  lemma {:induction false} InsertByPermutes<T(!new)>(key: T -> int, x: T, s: seq<T>)
    ensures multiset(InsertBy(key, x, s)) == multiset(s) + multiset{x}
  {
    if s != [] && key(x) > key(s[0]) {
      InsertByPermutes(key, x, s[1..]);
      assert s == [s[0]] + s[1..];
    }
  }

  /** Python's `sorted(s, key=key)`: an insertion sort, which keeps equal keys in input order. */
  function SortBy<T(!new)>(key: T -> int, s: seq<T>): (r: seq<T>)
    ensures SortedBy(key, r)
    ensures multiset(r) == multiset(s)
  {
    if s == [] then []
    else
      assert s == [s[0]] + s[1..];
      InsertByPermutes(key, s[0], SortBy(key, s[1..]));
      InsertBySorted(key, s[0], SortBy(key, s[1..]));
      InsertBy(key, s[0], SortBy(key, s[1..]))
  }

  /** The condition "has key `d`". */
  function AtKey<T>(key: T -> int, d: int): T -> bool {
    y => key(y) == d
  }

  /** Filtering a list by the key of its first element. */
  lemma FilterCons<T(!new)>(p: T -> bool, x: T, s: seq<T>)
    ensures Filter([x] + s, p) == (if p(x) then [x] else []) + Filter(s, p)
  {
    assert ([x] + s)[0] == x && ([x] + s)[1..] == s;
  }

  /** Putting `y` in front of two lists whose filters differ only by `x` in front keeps that
      difference, when `x` and `y` are not both kept. */
  lemma ConsKeepsFilterFront<T(!new)>(p: T -> bool, x: T, y: T, rest: seq<T>, tail: seq<T>)
    requires !(p(x) && p(y))
    requires Filter(rest, p) == (if p(x) then [x] else []) + Filter(tail, p)
    ensures Filter([y] + rest, p) == (if p(x) then [x] else []) + Filter([y] + tail, p)
  {
    FilterCons(p, y, rest);
    FilterCons(p, y, tail);
    if p(x) {
      assert Filter([y] + rest, p) == Filter(rest, p);
      assert Filter([y] + tail, p) == Filter(tail, p);
    } else {
      assert Filter(rest, p) == Filter(tail, p);
    }
  }

  /** Among the elements with any one key, `x` is inserted before those already in the list. */
  lemma {:induction false} InsertByAtKey<T(!new)>(key: T -> int, x: T, s: seq<T>, d: int)
    ensures Filter(InsertBy(key, x, s), AtKey(key, d))
            == (if key(x) == d then [x] else []) + Filter(s, AtKey(key, d))
  {
    var at := AtKey(key, d);
    if s == [] || key(x) <= key(s[0]) {
      FilterCons(at, x, s);
    } else {
      var rest := InsertBy(key, x, s[1..]);
      assert InsertBy(key, x, s) == [s[0]] + rest;
      assert [s[0]] + s[1..] == s;
      InsertByAtKey(key, x, s[1..], d);
      ConsKeepsFilterFront(at, x, s[0], rest, s[1..]);
    }
  }

  /** The sort is stable: the elements with any one key keep their relative order. */
  lemma {:induction false} SortByStable<T(!new)>(key: T -> int, s: seq<T>, d: int)
    ensures Filter(SortBy(key, s), AtKey(key, d)) == Filter(s, AtKey(key, d))
  {
    if s != [] {
      SortByStable(key, s[1..], d);
      InsertByAtKey(key, s[0], SortBy(key, s[1..]), d);
      FilterCons(AtKey(key, d), s[0], s[1..]);
      assert [s[0]] + s[1..] == s;
    }
  }

  /** The head of a sorted list has the least key of the input. */
  lemma SortByHeadIsLeast<T(!new)>(key: T -> int, s: seq<T>)
    requires s != []
    ensures |SortBy(key, s)| == |s|
    ensures forall x :: x in s ==> key(SortBy(key, s)[0]) <= key(x)
  {
    var r := SortBy(key, s);
    assert |r| == |s| by {
      assert |multiset(r)| == |multiset(s)|;
    }
    forall x | x in s ensures key(r[0]) <= key(x) {
      assert x in multiset(r);
      var k :| 0 <= k < |r| && r[k] == x;
    }
  }

  /** Sorting keeps the length. */
  lemma SortByLength<T(!new)>(key: T -> int, s: seq<T>)
    ensures |SortBy(key, s)| == |s|
  {
    assert |multiset(SortBy(key, s))| == |multiset(s)|;
  }

  /** The head of the sorted list is the first element of the input with the least key: every
      element before it has a strictly greater key. */
  lemma {:induction false} SortByHeadIsFirstLeast<T(!new)>(key: T -> int, s: seq<T>)
    requires s != []
    ensures |SortBy(key, s)| == |s|
    ensures exists i :: 0 <= i < |s| && SortBy(key, s)[0] == s[i]
                        && forall j :: 0 <= j < i ==> key(s[j]) > key(s[i])
    decreases |s|, 1
  {
    SortByLength(key, s);
    var t := SortBy(key, s[1..]);
    assert SortBy(key, s) == InsertBy(key, s[0], t);
    if t == [] || key(s[0]) <= key(t[0]) {
      assert SortBy(key, s)[0] == s[0];
    } else {
      var i := HeadOfTail(key, s, t);
      assert SortBy(key, s)[0] == s[i];
    }
  }

  /** The step of `SortByHeadIsFirstLeast` where the head of the input is not the least. */
  lemma {:induction false} HeadOfTail<T(!new)>(key: T -> int, s: seq<T>, t: seq<T>) returns (i: nat)
    requires s != [] && t == SortBy(key, s[1..]) && t != [] && key(s[0]) > key(t[0])
    ensures 0 < i < |s| && t[0] == s[i] && forall j :: 0 <= j < i ==> key(s[j]) > key(s[i])
    decreases |s|, 0
  {
    SortByHeadIsFirstLeast(key, s[1..]);
    var rest := s[1..];
    var k :| 0 <= k < |rest| && t[0] == rest[k] && forall j :: 0 <= j < k ==> key(rest[j]) > key(rest[k]);
    i := k + 1;
    forall j | 0 <= j < i ensures key(s[j]) > key(s[i]) {
      if j > 0 {
        assert s[j] == rest[j - 1];
      }
    }
  }
}
