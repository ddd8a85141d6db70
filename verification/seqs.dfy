// The vector operations of the lease table and the entry index, with what each does to the contents.
module Seqs {

  // Index of the first element that satisfies p, or |s| when none does.
  function FirstIndex<T>(s: seq<T>, p: T -> bool): (i: nat)
    ensures i <= |s|
    ensures i < |s| ==> p(s[i])
    ensures forall j :: 0 <= j < i ==> !p(s[j])
  {
    if s == [] then 0 else if p(s[0]) then 0 else 1 + FirstIndex(s[1..], p)
  }

  predicate Exists<T>(s: seq<T>, p: T -> bool) {
    FirstIndex(s, p) < |s|
  }

  function Not<T>(p: T -> bool): T -> bool { x => !p(x) }

  // The elements that satisfy p, in order.
  function Filter<T(!new)>(s: seq<T>, p: T -> bool): (r: seq<T>)
    ensures |r| <= |s|
    ensures forall x :: x in r <==> x in s && p(x)
  {
    if s == [] then [] else
      var rest := Filter(s[..|s| - 1], p);
      var x := s[|s| - 1];
      assert s == s[..|s| - 1] + [x];
      if p(x) then rest + [x] else rest
  }

  // One more element of a prefix.
  lemma FilterPrefix<T(!new)>(s: seq<T>, i: nat, p: T -> bool)
    requires i < |s|
    ensures Filter(s[..i + 1], p) == Filter(s[..i], p) + (if p(s[i]) then [s[i]] else [])
  {
    assert s[..i + 1][..i] == s[..i];
  }

  lemma FilterAppend<T(!new)>(s: seq<T>, x: T, p: T -> bool)
    ensures Filter(s + [x], p) == Filter(s, p) + (if p(x) then [x] else [])
  {
    assert (s + [x])[..|s|] == s;
  }

  // Remove position i by moving the last element into it.
  function SwapRemove<T>(s: seq<T>, i: nat): (r: seq<T>)
    requires i < |s|
    ensures |r| == |s| - 1
    ensures multiset(r) == multiset(s) - multiset{s[i]}
  {
    var n := |s| - 1;
    assert s == s[..n] + [s[n]];
    if i == n then s[..n]
    else
      assert s[..n] == s[..i] + [s[i]] + s[i + 1..n];
      s[..n][i := s[n]]
  }

  function RemoveAt<T>(s: seq<T>, i: nat): (r: seq<T>)
    requires i < |s|
    ensures |r| == |s| - 1
  {
    s[..i] + s[i + 1..]
  }

  function InsertAt<T>(s: seq<T>, i: nat, x: T): (r: seq<T>)
    requires i <= |s|
    ensures |r| == |s| + 1
  {
    s[..i] + [x] + s[i..]
  }

  lemma InsertAtAdds<T>(s: seq<T>, i: nat, x: T)
    requires i <= |s|
    ensures multiset(InsertAt(s, i, x)) == multiset(s) + multiset{x}
  {
    assert s == s[..i] + s[i..];
  }

  // A filter splits over a concatenation.
  lemma {:induction false} FilterConcat<T(!new)>(a: seq<T>, b: seq<T>, p: T -> bool)
    ensures Filter(a + b, p) == Filter(a, p) + Filter(b, p)
  {
    if b == [] {
      assert a + b == a;
    } else {
      assert (a + b)[..|a + b| - 1] == a + b[..|b| - 1];
      FilterConcat(a, b[..|b| - 1], p);
    }
  }

  lemma {:induction false} FilterAll<T(!new)>(s: seq<T>, p: T -> bool)
    requires forall x :: x in s ==> p(x)
    ensures Filter(s, p) == s
  {
    if s != [] {
      FilterAll(s[..|s| - 1], p);
    }
  }

  // Conditions that agree on the elements filter alike.
  lemma {:induction false} FilterAlike<T(!new)>(s: seq<T>, p: T -> bool, q: T -> bool)
    requires forall x :: x in s ==> p(x) == q(x)
    ensures Filter(s, p) == Filter(s, q)
  {
    if s != [] {
      FilterAlike(s[..|s| - 1], p, q);
    }
  }

  // Two filters in a row are one filter by both.
  lemma {:induction false} FilterTwice<T(!new)>(s: seq<T>, p: T -> bool, q: T -> bool, both: T -> bool)
    requires forall x :: x in s ==> both(x) == (p(x) && q(x))
    ensures Filter(Filter(s, p), q) == Filter(s, both)
  {
    if s != [] {
      var front, x := s[..|s| - 1], s[|s| - 1];
      FilterTwice(front, p, q, both);
      if p(x) {
        FilterPrefix(Filter(s, p), |Filter(front, p)|, q);
        assert Filter(s, p)[..|Filter(front, p)|] == Filter(front, p);
        assert Filter(s, p)[..|Filter(s, p)|] == Filter(s, p);
      }
    }
  }

  // Filtering keeps any order relation between neighbours further apart.
  lemma {:induction false} FilterKeepsPairs<T(!new)>(s: seq<T>, p: T -> bool, rel: (T, T) -> bool)
    requires forall i, j :: 0 <= i < j < |s| ==> rel(s[i], s[j])
    ensures forall i, j :: 0 <= i < j < |Filter(s, p)| ==> rel(Filter(s, p)[i], Filter(s, p)[j])
  {
    if s != [] {
      var front, x := s[..|s| - 1], s[|s| - 1];
      FilterKeepsPairs(front, p, rel);
      var rest := Filter(front, p);
      forall i | 0 <= i < |rest| ensures rel(rest[i], x) {
        assert rest[i] in front;
        var k :| 0 <= k < |front| && front[k] == rest[i];
      }
    }
  }

  // So does a swap-remove, for a symmetric relation.
  lemma SwapRemoveKeepsPairs<T>(s: seq<T>, k: nat, rel: (T, T) -> bool)
    requires k < |s|
    requires forall i, j :: 0 <= i < |s| && 0 <= j < |s| && i != j ==> rel(s[i], s[j])
    ensures var r := SwapRemove(s, k);
            forall i, j :: 0 <= i < |r| && 0 <= j < |r| && i != j ==> rel(r[i], r[j])
  {
    var r := SwapRemove(s, k);
    var n := |s| - 1;
    forall i, j | 0 <= i < n && 0 <= j < n && i != j ensures rel(r[i], r[j]) {
      assert r[i] == s[if i == k then n else i];
      assert r[j] == s[if j == k then n else j];
    }
  }

  // How many elements satisfy p.
  function Count<T(!new)>(s: seq<T>, p: T -> bool): nat {
    |Filter(s, p)|
  }

  lemma CountConcat<T(!new)>(a: seq<T>, b: seq<T>, p: T -> bool)
    ensures Count(a + b, p) == Count(a, p) + Count(b, p)
  {
    FilterConcat(a, b, p);
  }

  lemma {:induction false} FilterMultiset<T(!new)>(s: seq<T>, p: T -> bool, x: T)
    ensures multiset(Filter(s, p))[x] == if p(x) then multiset(s)[x] else 0
  {
    if s != [] {
      FilterMultiset(s[..|s| - 1], p, x);
      assert s == s[..|s| - 1] + [s[|s| - 1]];
    }
  }

  // A count does not depend on the order.
  lemma CountPermutation<T(!new)>(a: seq<T>, b: seq<T>, p: T -> bool)
    requires multiset(a) == multiset(b)
    ensures Count(a, p) == Count(b, p)
  {
    forall x ensures multiset(Filter(a, p))[x] == multiset(Filter(b, p))[x] {
      FilterMultiset(a, p, x);
      FilterMultiset(b, p, x);
    }
    assert multiset(Filter(a, p)) == multiset(Filter(b, p));
    assert |Filter(a, p)| == |multiset(Filter(a, p))|;
    assert |Filter(b, p)| == |multiset(Filter(b, p))|;
  }

  // Nor on the elements, as long as the same places are hits.
  lemma {:induction false} CountPointwise<T(!new), U(!new)>(a: seq<T>, b: seq<U>, p: T -> bool, q: U -> bool)
    requires |a| == |b| && forall i :: 0 <= i < |a| ==> p(a[i]) == q(b[i])
    ensures Count(a, p) == Count(b, q)
  {
    if a != [] {
      CountPointwise(a[..|a| - 1], b[..|b| - 1], p, q);
    }
  }

  // Overwriting one element moves a count by that element alone.
  lemma CountUpdate<T(!new)>(s: seq<T>, i: nat, x: T, p: T -> bool)
    requires i < |s|
    ensures Count(s[i := x], p) ==
            Count(s, p) - (if p(s[i]) then 1 else 0) + (if p(x) then 1 else 0)
  {
    assert s == s[..i] + [s[i]] + s[i + 1..];
    assert s[i := x] == s[..i] + [x] + s[i + 1..];
    CountConcat(s[..i] + [s[i]], s[i + 1..], p);
    CountConcat(s[..i], [s[i]], p);
    CountConcat(s[..i] + [x], s[i + 1..], p);
    CountConcat(s[..i], [x], p);
    assert [x][..0] == [] && [s[i]][..0] == [];
  }

  lemma CountInsertAt<T(!new)>(s: seq<T>, i: nat, x: T, p: T -> bool)
    requires i <= |s|
    ensures Count(InsertAt(s, i, x), p) == Count(s, p) + (if p(x) then 1 else 0)
  {
    assert s == s[..i] + s[i..];
    CountConcat(s[..i], s[i..], p);
    CountConcat(s[..i] + [x], s[i..], p);
    CountConcat(s[..i], [x], p);
    assert [x][..0] == [];
  }

  lemma CountRemoveAt<T(!new)>(s: seq<T>, i: nat, p: T -> bool)
    requires i < |s|
    ensures Count(RemoveAt(s, i), p) == Count(s, p) - (if p(s[i]) then 1 else 0)
  {
    assert s == InsertAt(RemoveAt(s, i), i, s[i]);
    CountInsertAt(RemoveAt(s, i), i, s[i], p);
  }

  lemma CountSwapRemove<T(!new)>(s: seq<T>, i: nat, p: T -> bool)
    requires i < |s|
    ensures Count(SwapRemove(s, i), p) == Count(s, p) - (if p(s[i]) then 1 else 0)
  {
    var n := |s| - 1;
    assert s == s[..n] + [s[n]];
    CountConcat(s[..n], [s[n]], p);
    assert [s[n]][..0] == [];
    if i != n {
      CountUpdate(s[..n], i, s[n], p);
    }
  }

  lemma {:induction false} CountFilter<T(!new)>(s: seq<T>, q: T -> bool, p: T -> bool)
    ensures Count(Filter(s, q), p) <= Count(s, p)
  {
    if s != [] {
      var front, x := s[..|s| - 1], s[|s| - 1];
      CountFilter(front, q, p);
      if q(x) {
        CountConcat(Filter(front, q), [x], p);
        assert [x][..0] == [];
      }
    }
  }

  // The hits on either side of one.
  lemma CountAround<T(!new)>(s: seq<T>, i: nat, p: T -> bool)
    requires i < |s| && p(s[i])
    ensures Count(s, p) == Count(s[..i], p) + 1 + Count(s[i + 1..], p)
  {
    assert s == s[..i] + [s[i]] + s[i + 1..];
    CountConcat(s[..i] + [s[i]], s[i + 1..], p);
    CountConcat(s[..i], [s[i]], p);
    assert [s[i]][..0] == [];
  }

  // A hit is the only one exactly when the count is one.
  lemma CountOne<T(!new)>(s: seq<T>, i: nat, p: T -> bool)
    requires i < |s| && p(s[i])
    ensures Count(s, p) == 1 <==> forall j :: 0 <= j < |s| && j != i ==> !p(s[j])
  {
    var a, b := s[..i], s[i + 1..];
    CountAround(s, i, p);
    hide Count;
    CountZero(a, p);
    CountZero(b, p);
    assert forall j :: 0 <= j < |s| && j != i ==> s[j] == if j < i then a[j] else b[j - i - 1];
    if forall j :: 0 <= j < |s| && j != i ==> !p(s[j]) {
      assert forall j :: 0 <= j < |a| ==> a[j] == s[j];
      assert forall j :: 0 <= j < |b| ==> b[j] == s[j + i + 1];
    }
  }

  lemma CountZero<T(!new)>(s: seq<T>, p: T -> bool)
    ensures Count(s, p) == 0 <==> forall j :: 0 <= j < |s| ==> !p(s[j])
  {
    var f := Filter(s, p);
    if f == [] {
      assert forall j :: 0 <= j < |s| ==> s[j] in s && s[j] !in f;
    } else {
      assert f[0] in f;
    }
  }

  // Members after a swap-remove from a sequence without duplicates.
  lemma SwapRemoveMembers<T(!new)>(s: seq<T>, i: nat)
    requires i < |s|
    requires forall j, k :: 0 <= j < k < |s| ==> s[j] != s[k]
    ensures forall x :: x in SwapRemove(s, i) <==> x in s && x != s[i]
  {
    var r := SwapRemove(s, i);
    forall x ensures x in r <==> x in s && x != s[i] {
      if x in r {
        var k :| 0 <= k < |r| && r[k] == x;
        assert x == s[k] || (k == i && x == s[|s| - 1]);
      }
      if x in s && x != s[i] {
        var k :| 0 <= k < |s| && s[k] == x;
        if k == |s| - 1 {
          assert r[i] == x;
        } else {
          assert r[k] == x;
        }
      }
    }
  }

  // A count is the number of places that satisfy p.
  ghost function Places<T(!new)>(s: seq<T>, p: T -> bool): set<int> { set i | 0 <= i < |s| && p(s[i]) }

  lemma PlacesOfMore<T(!new)>(s: seq<T>, p: T -> bool)
    requires s != []
    ensures var n := |s| - 1;
            Places(s, p) == Places(s[..n], p) + (if p(s[n]) then {n} else {}) && n !in Places(s[..n], p)
  {
    var n := |s| - 1;
    forall i ensures i in Places(s, p) <==> i in Places(s[..n], p) + (if p(s[n]) then {n} else {}) {
      assert 0 <= i < n ==> s[..n][i] == s[i];
    }
  }

  lemma {:induction false} CountIsPlaces<T(!new)>(s: seq<T>, p: T -> bool)
    ensures Count(s, p) == |Places(s, p)|
  {
    if s != [] {
      PlacesOfMore(s, p);
      hide Places;
      CountIsPlaces(s[..|s| - 1], p);
    }
  }
}
