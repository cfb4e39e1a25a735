/** Keeping the newest of a list: the shared shape of "sort ascending by some time stamp, then drop
    the first few" that the lease quota, the job table, the run registry and the rate limiter all use.
    The sort is stable, as JavaScript's is. */
module Retention {
  import opened Wrappers

  ghost predicate Ascending<T(!new)>(s: seq<T>, key: T -> int) {
    forall i, j | 0 <= i < j < |s| :: key(s[i]) <= key(s[j])
  }

  /** Puts x in front of the first element that is not smaller; x came earlier, so it precedes its equals. */
  function Insert<T>(x: T, s: seq<T>, key: T -> int): seq<T> {
    if s == [] then [x]
    else if key(x) <= key(s[0]) then [x] + s
    else [s[0]] + Insert(x, s[1..], key)
  }

  function SortBy<T>(s: seq<T>, key: T -> int): seq<T> {
    if s == [] then [] else Insert(s[0], SortBy(s[1..], key), key)
  }

  lemma ConsKeepsOrder<T(!new)>(x: T, s: seq<T>, rest: seq<T>, key: T -> int)
    requires s != [] && Ascending(s, key) && key(s[0]) < key(x)
    requires Ascending(rest, key) && multiset(rest) == multiset(s[1..]) + multiset{x}
    ensures Ascending([s[0]] + rest, key)
    ensures multiset([s[0]] + rest) == multiset(s) + multiset{x}
  {
    assert s == [s[0]] + s[1..];
    forall j | 0 <= j < |rest| ensures key(s[0]) <= key(rest[j]) {
      assert rest[j] in multiset(rest);
      assert rest[j] == x || rest[j] in s[1..];
    }
  }

  lemma {:induction false} InsertKeepsOrder<T(!new)>(x: T, s: seq<T>, key: T -> int)
    requires Ascending(s, key)
    ensures Ascending(Insert(x, s, key), key)
    ensures multiset(Insert(x, s, key)) == multiset(s) + multiset{x}
  {
    if s == [] {
    } else if key(x) <= key(s[0]) {
      assert multiset([x] + s) == multiset{x} + multiset(s);
    } else {
      InsertKeepsOrder(x, s[1..], key);
      ConsKeepsOrder(x, s, Insert(x, s[1..], key), key);
    }
  }

  lemma {:induction false} SortByIsSorted<T(!new)>(s: seq<T>, key: T -> int)
    ensures Ascending(SortBy(s, key), key)
    ensures multiset(SortBy(s, key)) == multiset(s)
    ensures |SortBy(s, key)| == |s|
  {
    if s == [] {
    } else {
      SortByIsSorted(s[1..], key);
      InsertKeepsOrder(s[0], SortBy(s[1..], key), key);
      assert s == [s[0]] + s[1..];
      assert |multiset(SortBy(s, key))| == |multiset(s)|;
    }
  }

  /** The first `count` elements of the sorted list: the ones to drop. Nothing when count is not positive. */
  function Oldest<T>(s: seq<T>, key: T -> int, count: int): seq<T> {
    if count <= 0 then []
    else if count >= |SortBy(s, key)| then SortBy(s, key)
    else SortBy(s, key)[..count]
  }

  function Newest<T>(s: seq<T>, key: T -> int, count: int): seq<T> {
    if count <= 0 then SortBy(s, key)
    else if count >= |SortBy(s, key)| then []
    else SortBy(s, key)[count..]
  }

  /** Dropped and kept together are the list, and nothing kept is older than anything dropped. */
  lemma OldestSplits<T(!new)>(s: seq<T>, key: T -> int, count: int)
    ensures multiset(Oldest(s, key, count)) + multiset(Newest(s, key, count)) == multiset(s)
    ensures |Oldest(s, key, count)| == (if count <= 0 then 0 else if count >= |s| then |s| else count)
    ensures |Newest(s, key, count)| == |s| - |Oldest(s, key, count)|
    ensures forall a, b | a in Oldest(s, key, count) && b in Newest(s, key, count) :: key(a) <= key(b)
  {
    SortByIsSorted(s, key);
    var sorted := SortBy(s, key);
    if 0 < count < |sorted| {
      assert sorted == sorted[..count] + sorted[count..];
    }
  }

  ghost predicate Distinct<T(!new)>(s: seq<T>) {
    forall i, j | 0 <= i < j < |s| :: s[i] != s[j]
  }

  lemma {:induction false} DistinctCounts<T(!new)>(s: seq<T>)
    requires Distinct(s)
    ensures forall x | x in s :: multiset(s)[x] == 1
  {
    if s == [] {
    } else {
      var rest := s[1..];
      DistinctCounts(rest);
      assert s == [s[0]] + rest;
      assert s[0] !in rest;
    }
  }

  lemma {:induction false} CountsDistinct<T(!new)>(s: seq<T>)
    requires forall x | x in s :: multiset(s)[x] == 1
    ensures Distinct(s)
  {
    forall i, j | 0 <= i < j < |s| ensures s[i] != s[j] {
      assert s == s[..j] + s[j..];
      assert multiset(s) == multiset(s[..j]) + multiset(s[j..]);
      assert s[j] == s[j..][0] && s[i] == s[..j][i];
      assert multiset(s[j..])[s[j]] >= 1 && multiset(s[..j])[s[i]] >= 1;
      assert multiset(s)[s[j]] == multiset(s[..j])[s[j]] + multiset(s[j..])[s[j]];
      assert s[j] in s;
    }
  }

  /** For a list without repeats, dropped and kept have no element in common. */
  lemma OldestSplitsDistinct<T(!new)>(s: seq<T>, key: T -> int, count: int)
    requires Distinct(s)
    ensures forall x :: x in s <==> x in Oldest(s, key, count) || x in Newest(s, key, count)
    ensures forall x :: !(x in Oldest(s, key, count) && x in Newest(s, key, count))
    ensures Distinct(Oldest(s, key, count))
  {
    OldestSplits(s, key, count);
    DistinctCounts(s);
    var a, b := Oldest(s, key, count), Newest(s, key, count);
    forall x ensures x in s <==> x in a || x in b {
      assert x in s <==> x in multiset(s);
      assert x in a <==> x in multiset(a);
      assert x in b <==> x in multiset(b);
    }
    forall x ensures !(x in a && x in b) {
      assert x in a ==> multiset(a)[x] >= 1 && x in s;
      assert x in b ==> multiset(b)[x] >= 1;
    }
    forall x | x in a ensures multiset(a)[x] == 1 {
      assert x in multiset(a);
      assert multiset(a)[x] <= multiset(s)[x];
      assert x in s;
    }
    CountsDistinct(a);
  }

  /** A list without repeats is no longer than any list that holds all its elements. */
  lemma {:induction false} SubsetIsShorter<T(!new)>(a: seq<T>, b: seq<T>)
    requires Distinct(a) && forall x | x in a :: x in b
    ensures |a| <= |b|
  {
    if a == [] {
    } else {
      assert a[0] in b;
      var i :| 0 <= i < |b| && b[i] == a[0];
      var others := b[..i] + b[i + 1..];
      forall x | x in a[1..] ensures x in others {
        assert x in a && x in b;
        var k :| 1 <= k < |a| && a[k] == x;
        var j :| 0 <= j < |b| && b[j] == x;
        assert j < i ==> others[j] == x;
        assert j > i ==> others[j - 1] == x;
      }
      SubsetIsShorter(a[1..], others);
    }
  }

  lemma ConcatDistinct<T(!new)>(a: seq<T>, b: seq<T>)
    requires Distinct(a) && Distinct(b) && forall x | x in a :: x !in b
    ensures Distinct(a + b)
  {
    forall i, j | 0 <= i < j < |a + b| ensures (a + b)[i] != (a + b)[j] {
      assert i < |a| <= j ==> a[i] in a && b[j - |a|] in b;
    }
  }

  // ---- records that end ----

  /** When each record ended; one that is still going has not. */
  type Ends = map<string, Option<int>>

  predicate IsFinished(ends: Ends, id: string) { id in ends && ends[id].Some? }

  function Finished(ids: seq<string>, ends: Ends): seq<string> {
    if ids == [] then []
    else
      var init, id := Finished(ids[..|ids| - 1], ends), ids[|ids| - 1];
      if IsFinished(ends, id) then init + [id] else init
  }

  function EndOf(ends: Ends): string -> int { id => if id in ends && ends[id].Some? then ends[id].value else 0 }

  lemma {:induction false} FinishedFacts(ids: seq<string>, ends: Ends)
    ensures forall id :: id in Finished(ids, ends) <==> id in ids && IsFinished(ends, id)
    ensures Distinct(ids) ==> Distinct(Finished(ids, ends))
  {
    if ids == [] {
    } else {
      var init, last := ids[..|ids| - 1], ids[|ids| - 1];
      FinishedFacts(init, ends);
      assert ids == init + [last];
      assert Distinct(ids) ==> Distinct(init) && last !in init;
    }
  }

  function Minus(ids: seq<string>, gone: seq<string>): seq<string> {
    if ids == [] then []
    else
      var init, id := Minus(ids[..|ids| - 1], gone), ids[|ids| - 1];
      if id in gone then init else init + [id]
  }

  lemma {:induction false} MinusFacts(ids: seq<string>, gone: seq<string>)
    ensures forall id :: id in Minus(ids, gone) <==> id in ids && id !in gone
    ensures Distinct(ids) ==> Distinct(Minus(ids, gone))
  {
    if ids == [] {
    } else {
      var init, last := ids[..|ids| - 1], ids[|ids| - 1];
      MinusFacts(init, gone);
      assert ids == init + [last];
      assert Distinct(ids) ==> Distinct(init) && last !in init;
    }
  }

  lemma {:induction false} SameInsert<T(!new)>(x: T, s: seq<T>, f: T -> int, g: T -> int)
    requires f(x) == g(x) && forall y | y in s :: f(y) == g(y)
    ensures Insert(x, s, f) == Insert(x, s, g)
  {
    if s == [] {
    } else {
      SameInsert(x, s[1..], f, g);
    }
  }

  /** Sorting by keys that agree on the list. */
  lemma {:induction false} SameKeys<T(!new)>(s: seq<T>, f: T -> int, g: T -> int)
    requires forall x | x in s :: f(x) == g(x)
    ensures SortBy(s, f) == SortBy(s, g)
    ensures forall count :: Oldest(s, f, count) == Oldest(s, g, count)
  {
    if s == [] {
    } else {
      SameKeys(s[1..], f, g);
      SortByIsSorted(s[1..], g);
      forall y | y in SortBy(s[1..], g) ensures f(y) == g(y) {
        assert y in multiset(SortBy(s[1..], g));
        assert y in s[1..];
      }
      SameInsert(s[0], SortBy(s[1..], g), f, g);
    }
  }
}
