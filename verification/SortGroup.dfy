/**
 Python's sorted(s, key=...) and itertools.groupby(s, key=...) on string keys: a stable sort
 and a grouping of neighbours only.
 */
module SortGroup {
  import opened Prelude
  import opened StringOrder

  /** The elements with one key, in order. */
  function WithKey<T>(s: seq<T>, key: T -> string, g: string): seq<T> {
    if s == [] then []
    else if key(s[0]) == g then [s[0]] + WithKey(s[1..], key, g)
    else WithKey(s[1..], key, g)
  }

  lemma {:induction false} WithKeySplit<T>(a: seq<T>, b: seq<T>, key: T -> string, g: string)
    ensures WithKey(a + b, key, g) == WithKey(a, key, g) + WithKey(b, key, g)
  {
    if a == [] {
      assert a + b == b;
    } else {
      assert (a + b)[1..] == a[1..] + b;
      WithKeySplit(a[1..], b, key, g);
    }
  }

  lemma {:induction false} WithKeyMember<T>(s: seq<T>, key: T -> string, g: string, x: T)
    ensures x in WithKey(s, key, g) <==> x in s && key(x) == g
  {
    if s != [] {
      WithKeyMember(s[1..], key, g, x);
      assert s == [s[0]] + s[1..];
    }
  }

  lemma {:induction false} AllWithKey<T>(s: seq<T>, key: T -> string, g: string)
    requires forall x :: x in s ==> key(x) == g
    ensures WithKey(s, key, g) == s
  {
    if s != [] {
      AllWithKey(s[1..], key, g);
      assert s == [s[0]] + s[1..];
    }
  }

  lemma {:induction false} NoneWithKey<T>(s: seq<T>, key: T -> string, g: string)
    requires forall x :: x in s ==> key(x) != g
    ensures WithKey(s, key, g) == []
  {
    if s != [] {
      NoneWithKey(s[1..], key, g);
    }
  }

  // ---- sorting ----

  ghost predicate Sorted<T>(s: seq<T>, key: T -> string) {
    forall i, j :: 0 <= i < j < |s| ==> Le(key(s[i]), key(s[j]))
  }

  function Insert<T>(x: T, s: seq<T>, key: T -> string): seq<T> {
    if s == [] || Le(key(x), key(s[0])) then [x] + s else [s[0]] + Insert(x, s[1..], key)
  }

  function SortBy<T>(s: seq<T>, key: T -> string): seq<T> {
    if s == [] then [] else Insert(s[0], SortBy(s[1..], key), key)
  }

  lemma {:induction false} InsertMember<T>(x: T, s: seq<T>, key: T -> string)
    ensures multiset(Insert(x, s, key)) == multiset{x} + multiset(s)
  {
    if s != [] && !Le(key(x), key(s[0])) {
      InsertMember(x, s[1..], key);
      assert s == [s[0]] + s[1..];
    }
  }

  lemma {:induction false} InsertSorted<T>(x: T, s: seq<T>, key: T -> string)
    requires Sorted(s, key)
    ensures Sorted(Insert(x, s, key), key)
  {
    if s != [] {
      if Le(key(x), key(s[0])) {
        forall j | 0 <= j < |s|
          ensures Le(key(x), key(s[j]))
        {
          if j > 0 {
            Transitive(key(x), key(s[0]), key(s[j]));
          }
        }
      } else {
        Total(key(x), key(s[0]));
        var rest := Insert(x, s[1..], key);
        InsertSorted(x, s[1..], key);
        InsertMember(x, s[1..], key);
        forall j | 0 <= j < |rest|
          ensures Le(key(s[0]), key(rest[j]))
        {
          assert rest[j] in multiset(rest);
        }
      }
    }
  }

  lemma {:induction false} InsertStable<T>(x: T, s: seq<T>, key: T -> string, g: string)
    ensures WithKey(Insert(x, s, key), key, g) == WithKey([x] + s, key, g)
  {
    if s != [] && !Le(key(x), key(s[0])) {
      Total(key(x), key(x));
      InsertStable(x, s[1..], key, g);
      assert ([s[0]] + Insert(x, s[1..], key))[1..] == Insert(x, s[1..], key);
      assert ([x] + s)[1..] == s && ([x] + s[1..])[1..] == s[1..];
    }
  }

  lemma {:induction false} SortBySorts<T>(s: seq<T>, key: T -> string)
    ensures Sorted(SortBy(s, key), key) && multiset(SortBy(s, key)) == multiset(s)
  {
    if s != [] {
      SortBySorts(s[1..], key);
      InsertSorted(s[0], SortBy(s[1..], key), key);
      InsertMember(s[0], SortBy(s[1..], key), key);
      assert s == [s[0]] + s[1..];
    }
  }

  /** Sorting leaves elements with equal keys in their order. */
  lemma {:induction false} SortByStable<T>(s: seq<T>, key: T -> string, g: string)
    ensures WithKey(SortBy(s, key), key, g) == WithKey(s, key, g)
  {
    if s != [] {
      var rest := SortBy(s[1..], key);
      SortByStable(s[1..], key, g);
      InsertStable(s[0], rest, key, g);
      assert ([s[0]] + rest)[1..] == rest;
    }
  }

  /** There is only one stable sort: whatever is sorted and has the same elements in the same
      order for each key. */
  lemma {:induction false} OneStableSort<T>(a: seq<T>, b: seq<T>, key: T -> string)
    requires Sorted(a, key) && Sorted(b, key)
    requires forall g :: WithKey(a, key, g) == WithKey(b, key, g)
    ensures a == b
  {
    if a != [] {
      var x := a[0];
      assert WithKey(a, key, key(x)) == WithKey(b, key, key(x));
      FirstKeys(a, b, key);
      FirstKeys(b, a, key);
      Antisymmetric(key(a[0]), key(b[0]));
      assert WithKey(a, key, key(x))[0] == a[0] && WithKey(b, key, key(x))[0] == b[0];
      forall g
        ensures WithKey(a[1..], key, g) == WithKey(b[1..], key, g)
      {
        assert WithKey(a, key, g) == WithKey(b, key, g);
        SameTail(a, b, key, g);
      }
      OneStableSort(a[1..], b[1..], key);
      assert a == [a[0]] + a[1..] && b == [b[0]] + b[1..];
    }
  }

  lemma FirstKeys<T>(a: seq<T>, b: seq<T>, key: T -> string)
    requires a != [] && b != [] && Sorted(b, key)
    requires WithKey(a, key, key(a[0])) == WithKey(b, key, key(a[0]))
    ensures Le(key(b[0]), key(a[0]))
  {
    WithKeyMember(a, key, key(a[0]), a[0]);
    WithKeyMember(b, key, key(a[0]), a[0]);
    var j :| 0 <= j < |b| && b[j] == a[0];
    if j == 0 {
      Total(key(b[0]), key(b[0]));
    }
  }

  lemma SameTail<T>(a: seq<T>, b: seq<T>, key: T -> string, g: string)
    requires a != [] && b != [] && a[0] == b[0]
    requires WithKey(a, key, g) == WithKey(b, key, g)
    ensures WithKey(a[1..], key, g) == WithKey(b[1..], key, g)
  {
    var x := if key(a[0]) == g then [a[0]] else [];
    assert WithKey(a, key, g) == x + WithKey(a[1..], key, g);
    assert WithKey(b, key, g) == x + WithKey(b[1..], key, g);
    assert WithKey(a, key, g)[|x|..] == WithKey(a[1..], key, g);
    assert WithKey(b, key, g)[|x|..] == WithKey(b[1..], key, g);
  }

  // ---- grouping neighbours ----

  datatype Group<T> = Group(key: string, members: seq<T>)

  /** Length of the longest prefix with the first element's key. */
  function RunLength<T>(s: seq<T>, key: T -> string): (n: nat)
    requires s != []
    ensures 1 <= n <= |s|
  {
    if |s| > 1 && key(s[1]) == key(s[0]) then 1 + RunLength(s[1..], key) else 1
  }

  function GroupBy<T>(s: seq<T>, key: T -> string): seq<Group<T>>
    decreases |s|
  {
    if s == [] then []
    else
      var n := RunLength(s, key);
      [Group(key(s[0]), s[..n])] + GroupBy(s[n..], key)
  }

  ghost predicate Absent<T>(g: string, s: seq<T>, key: T -> string) {
    forall x :: x in s ==> key(x) != g
  }

  /** Once the key g has stopped it does not come back. */
  ghost predicate Stops<T>(g: string, s: seq<T>, key: T -> string) {
    s != [] ==> if key(s[0]) == g then Stops(g, s[1..], key) else Absent(g, s, key)
  }

  /** Elements with equal keys stand together. */
  ghost predicate Blocks<T>(s: seq<T>, key: T -> string) {
    s != [] ==> Stops(key(s[0]), s[1..], key) && Blocks(s[1..], key)
  }

  lemma {:induction false} SortedBlocks<T>(s: seq<T>, key: T -> string)
    requires Sorted(s, key)
    ensures Blocks(s, key)
  {
    if s != [] {
      SortedBlocks(s[1..], key);
      SortedStops(s[0], s[1..], key);
    }
  }

  lemma {:induction false} SortedStops<T>(x: T, s: seq<T>, key: T -> string)
    requires Sorted([x] + s, key)
    ensures Stops(key(x), s, key)
  {
    hide Le;
    if s != [] {
      var all := [x] + s;
      if key(s[0]) == key(x) {
        assert all[1..] == s;
        assert [x] + s[1..] == all[1..][0 := x];
        SortedStops(x, s[1..], key);
      } else {
        assert Le(key(all[0]), key(all[1]));
        forall y | y in s
          ensures key(y) != key(x)
        {
          var i :| 0 <= i < |s| && s[i] == y;
          if key(y) == key(x) {
            assert i > 0 && Le(key(all[1]), key(all[i + 1]));
            Antisymmetric(key(x), key(s[0]));
          }
        }
      }
    }
  }

  /** The run at the front: all of one key, and none of it left behind. */
  lemma {:induction false} RunSplit<T>(s: seq<T>, key: T -> string)
    requires s != [] && Blocks(s, key)
    ensures var n := RunLength(s, key);
            && (forall x :: x in s[..n] ==> key(x) == key(s[0]))
            && Absent(key(s[0]), s[n..], key) && Blocks(s[n..], key)
  {
    var n := RunLength(s, key);
    if |s| > 1 && key(s[1]) == key(s[0]) {
      RunSplit(s[1..], key);
      assert s[..n] == [s[0]] + s[1..][..n - 1] && s[n..] == s[1..][n - 1..];
    } else {
      assert s[..n] == [s[0]] && s[n..] == s[1..];
    }
  }

  /** Each key heads one group, and the group has all its elements in order. */
  ghost predicate Exact<T>(groups: seq<Group<T>>, s: seq<T>, key: T -> string) {
    && (forall i, j :: 0 <= i < j < |groups| ==> groups[i].key != groups[j].key)
    && (forall i :: 0 <= i < |groups| ==> groups[i].members != [])
    && (forall i :: 0 <= i < |groups| ==> groups[i].members == WithKey(s, key, groups[i].key))
    && (forall x :: x in s ==> HasKey(groups, key(x)))
  }

  ghost predicate HasKey<T>(groups: seq<Group<T>>, g: string) {
    exists i :: 0 <= i < |groups| && groups[i].key == g
  }

  /** When equal keys stand together, grouping neighbours groups everything. */
  lemma {:induction false} GroupByExact<T>(s: seq<T>, key: T -> string)
    requires Blocks(s, key)
    ensures Exact(GroupBy(s, key), s, key)
    decreases |s|
  {
    hide WithKey, Blocks, Absent;
    if s != [] {
      var n := RunLength(s, key);
      RunSplit(s, key);
      GroupByExact(s[n..], key);
      assert s == s[..n] + s[n..];
      ExactMore(key(s[0]), s[..n], s[n..], key, GroupBy(s[n..], key));
    }
  }

  lemma ExactMore<T>(g: string, first: seq<T>, rest: seq<T>, key: T -> string, groups: seq<Group<T>>)
    requires first != [] && (forall x :: x in first ==> key(x) == g)
    requires Absent(g, rest, key) && Exact(groups, rest, key)
    ensures Exact([Group(g, first)] + groups, first + rest, key)
  {
    hide WithKey, HasKey;
    var all := [Group(g, first)] + groups;
    AllWithKey(first, key, g);
    NoneWithKey(rest, key, g);
    WithKeySplit(first, rest, key, g);
    forall i | 0 <= i < |groups|
      ensures groups[i].key != g
      ensures groups[i].members == WithKey(first + rest, key, groups[i].key)
    {
      WithKeyMember(rest, key, groups[i].key, groups[i].members[0]);
      NoneWithKey(first, key, groups[i].key);
      WithKeySplit(first, rest, key, groups[i].key);
    }
    forall x | x in first + rest
      ensures HasKey(all, key(x))
    {
      HasKeyMore(Group(g, first), groups, key(x));
    }
  }

  lemma HasKeyMore<T>(first: Group<T>, groups: seq<Group<T>>, g: string)
    requires first.key == g || HasKey(groups, g)
    ensures HasKey([first] + groups, g)
  {
    var all := [first] + groups;
    if first.key == g {
      assert all[0].key == g;
    } else {
      var i :| 0 <= i < |groups| && groups[i].key == g;
      assert all[i + 1].key == g;
    }
  }

  /** Taking the elements with one key leaves blocks of another key together. */
  lemma {:induction false} BlocksWithKey<T>(s: seq<T>, key: T -> string, g: string, block: T -> string)
    requires Blocks(s, block)
    ensures Blocks(WithKey(s, key, g), block)
  {
    if s != [] {
      BlocksWithKey(s[1..], key, g, block);
      StopsWithKey(block(s[0]), s[1..], key, g, block);
      assert key(s[0]) == g ==> WithKey(s, key, g)[1..] == WithKey(s[1..], key, g);
    }
  }

  lemma {:induction false} StopsWithKey<T>(b: string, s: seq<T>, key: T -> string, g: string, block: T -> string)
    requires Stops(b, s, block)
    ensures Stops(b, WithKey(s, key, g), block)
  {
    if s != [] {
      var r := WithKey(s, key, g);
      if block(s[0]) == b {
        StopsWithKey(b, s[1..], key, g, block);
        assert key(s[0]) == g ==> r[1..] == WithKey(s[1..], key, g);
      } else {
        forall x | x in r
          ensures block(x) != b
        {
          WithKeyMember(s, key, g, x);
        }
      }
    }
  }

  /** A run of one key in front of blocks without it. */
  lemma {:induction false} BlocksAppend<T>(g: string, first: seq<T>, rest: seq<T>, key: T -> string)
    requires (forall x :: x in first ==> key(x) == g) && Absent(g, rest, key) && Blocks(rest, key)
    ensures Stops(g, first + rest, key) && Blocks(first + rest, key)
  {
    if first == [] {
      assert first + rest == rest;
    } else {
      assert (first + rest)[1..] == first[1..] + rest;
      BlocksAppend(g, first[1..], rest, key);
    }
  }

  /** Groups of a sorted sequence come in strictly ascending order of their keys. */
  lemma {:induction false} GroupsAscend<T>(s: seq<T>, key: T -> string)
    requires Sorted(s, key)
    ensures Exact(GroupBy(s, key), s, key)
    ensures Ascending(GroupBy(s, key))
    decreases |s|
  {
    hide Le, WithKey, Exact, Blocks;
    SortedBlocks(s, key);
    GroupByExact(s, key);
    if s != [] {
      var n := RunLength(s, key);
      forall i, j | 0 <= i < j < |s[n..]|
        ensures Le(key(s[n..][i]), key(s[n..][j]))
      {
        assert s[n..][i] == s[n + i] && s[n..][j] == s[n + j];
      }
      GroupsAscend(s[n..], key);
      AscendingMore(s, n, key);
    }
  }

  ghost predicate Ascending<T>(groups: seq<Group<T>>) {
    forall i, j :: 0 <= i < j < |groups| ==> Le(groups[i].key, groups[j].key) && groups[i].key != groups[j].key
  }

  lemma AscendingMore<T>(s: seq<T>, n: nat, key: T -> string)
    requires s != [] && n == RunLength(s, key) && Sorted(s, key)
    requires Exact(GroupBy(s, key), s, key) && Ascending(GroupBy(s[n..], key))
    ensures Ascending(GroupBy(s, key))
  {
    hide Le, WithKey;
    var groups, rest := GroupBy(s, key), GroupBy(s[n..], key);
    assert groups == [groups[0]] + rest;
    forall j | 0 < j < |groups|
      ensures Le(groups[0].key, groups[j].key)
    {
      var x := groups[j].members[0];
      WithKeyMember(s, key, groups[j].key, x);
      var k :| 0 <= k < |s| && s[k] == x;
      assert groups[0].key == key(s[0]) && groups[j].key == key(s[k]);
      assert k > 0;
    }
  }
}
