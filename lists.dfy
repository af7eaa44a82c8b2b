/** Python list idioms the services use: comprehensions with a condition, `p in posts`,
    the slice `posts[skip:limit]` and the SQL `OFFSET skip LIMIT limit`. */
module Lists {

  function Min(a: int, b: int): int { if a < b then a else b }
  function Max(a: int, b: int): int { if a < b then b else a }

  /** No element occurs twice. */
  predicate NoDup<T(==)>(s: seq<T>)
  {
    forall x | x in multiset(s) :: multiset(s)[x] == 1
  }

  /** `r` is `s` with some elements dropped and the rest kept in their order. */
  predicate IsSubsequence<T(==)>(r: seq<T>, s: seq<T>)
  {
    if r == [] then true
    else if s == [] then false
    else if r[0] == s[0] then IsSubsequence(r[1..], s[1..])
    else IsSubsequence(r, s[1..])
  }

  /** `[x for x in s if f(x)]`. */
  function Filter<T(==)>(s: seq<T>, f: T -> bool): (r: seq<T>)
    ensures forall x <- r :: x in s && f(x)
    ensures forall x <- s :: f(x) ==> x in r
    ensures multiset(r) <= multiset(s)
    ensures |r| <= |s|
  {
    if s == [] then []
    else
      assert s == [s[0]] + s[1..];
      if f(s[0]) then [s[0]] + Filter(s[1..], f)
    else Filter(s[1..], f)
  }

  /** `[x for x in a if x in b]`. */
  function KeepIn<T(==)>(a: seq<T>, b: seq<T>): seq<T>
  {
    Filter(a, x => x in b)
  }

  lemma {:induction false} FilterIsSubsequence<T>(s: seq<T>, f: T -> bool)
    ensures IsSubsequence(Filter(s, f), s)
  {
    if s != [] {
      FilterIsSubsequence(s[1..], f);
      if f(s[0]) {
        assert ([s[0]] + Filter(s[1..], f))[1..] == Filter(s[1..], f);
      } else if Filter(s[1..], f) != [] {
        var r := Filter(s[1..], f);
        assert r[0] in r;
      }
    }
  }

  predicate Distinct<T(==)>(s: seq<T>)
  {
    forall i, j :: 0 <= i < j < |s| ==> s[i] != s[j]
  }

  /** Dropping elements keeps the rest pairwise distinct. */
  lemma {:induction false} DistinctFilter<T>(s: seq<T>, f: T -> bool)
    requires Distinct(s)
    ensures Distinct(Filter(s, f))
  {
    if s != [] {
      DistinctFilter(s[1..], f);
      if f(s[0]) {
        var t := Filter(s[1..], f);
        assert s[0] !in s[1..] by {
          forall k | 0 <= k < |s[1..]| ensures s[1..][k] != s[0] {
            assert s[1..][k] == s[k + 1];
          }
        }
        var r := [s[0]] + t;
        forall i, j | 0 <= i < j < |r| ensures r[i] != r[j] {
          if i == 0 { assert r[j] == t[j - 1]; assert r[j] in t; }
          else { assert r[i] == t[i - 1] && r[j] == t[j - 1]; }
        }
      }
    }
  }

  /** `[y for y in s if y != x]`: `s` without `x`, the order of the rest kept. */
  function Remove<T(==)>(s: seq<T>, x: T): (r: seq<T>)
    ensures x !in r
    ensures forall y <- r :: y in s
    ensures forall y <- s :: y != x ==> y in r
    ensures Distinct(s) ==> Distinct(r)
  {
    var keep := (y: T) => y != x;
    if Distinct(s) then DistinctFilter(s, keep); Filter(s, keep) else Filter(s, keep)
  }

  /** Pairwise-distinct elements in the index sense are distinct in the multiset sense. */
  lemma {:induction false} DistinctNoDup<T>(s: seq<T>)
    requires forall i, j :: 0 <= i < j < |s| ==> s[i] != s[j]
    ensures NoDup(s)
  {
    if s != [] {
      DistinctNoDup(s[1..]);
      assert s == [s[0]] + s[1..];
      assert s[0] !in s[1..] by {
        forall k | 0 <= k < |s[1..]| ensures s[1..][k] != s[0] {
          assert s[1..][k] == s[k + 1];
        }
      }
    }
  }

  lemma NoDupSub<T>(a: seq<T>, b: seq<T>)
    requires multiset(a) <= multiset(b) && NoDup(b)
    ensures NoDup(a)
  {
    forall x | x in multiset(a) ensures multiset(a)[x] == 1 {
      assert multiset(a)[x] <= multiset(b)[x];
    }
  }

  lemma NoDupConcat<T>(a: seq<T>, b: seq<T>)
    requires NoDup(a) && NoDup(b)
    requires forall x <- a :: x !in b
    ensures NoDup(a + b)
  {
    assert multiset(a + b) == multiset(a) + multiset(b);
    forall x | x in multiset(a + b) ensures multiset(a + b)[x] == 1 {
      if x in a { assert x !in multiset(b); } else { assert x !in multiset(a); }
    }
  }

  /** Python's reading of a slice bound `i` against a list of length `n`. */
  function SliceBound(i: int, n: nat): (r: nat)
    ensures r <= n
  {
    if i < 0 then (if i + n < 0 then 0 else i + n)
    else if i > n then n else i
  }

  /** Python `s[start:stop]`. */
  function PySlice<T(==)>(s: seq<T>, start: int, stop: int): (r: seq<T>)
    ensures 0 <= start && 0 <= stop ==> |r| == Max(0, Min(stop, |s|) - start)
    ensures 0 <= start ==> forall i :: 0 <= i < |r| ==> start + i < |s| && r[i] == s[start + i]
    ensures multiset(r) <= multiset(s)
    ensures forall x <- r :: x in s
  {
    var a, b := SliceBound(start, |s|), SliceBound(stop, |s|);
    if a < b then
      assert s == s[..a] + s[a..b] + s[b..];
      assert multiset(s) == multiset(s[..a]) + multiset(s[a..b]) + multiset(s[b..]);
      s[a..b]
    else []
  }

  /** SQL `OFFSET skip LIMIT limit`: at most `limit` rows, starting after the first `skip`. */
  function OffsetLimit<T(==)>(s: seq<T>, skip: nat, limit: nat): (r: seq<T>)
    ensures |r| == Max(0, Min(skip + limit, |s|) - skip)
    ensures |r| <= limit
    ensures forall i :: 0 <= i < |r| ==> r[i] == s[skip + i]
    ensures multiset(r) <= multiset(s)
    ensures forall x <- r :: x in s
  {
    var a, b := Min(skip, |s|), Min(skip + limit, |s|);
    assert s == s[..a] + s[a..b] + s[b..];
    assert multiset(s) == multiset(s[..a]) + multiset(s[a..b]) + multiset(s[b..]);
    s[a..b]
  }

  /** The filters cut with `posts[skip:limit]`: `limit` is an end index, not a count,
      so the page holds `limit - skip` items where a query would hold `limit`. */
  lemma PySliceIsOffsetOfDifference<T>(s: seq<T>, skip: nat, limit: nat)
    requires skip <= limit
    ensures PySlice(s, skip, limit) == OffsetLimit(s, skip, limit - skip)
  {
  }

  /** A slice that starts at 0 and ends at or past the end is the whole list. */
  lemma PySliceWhole<T>(s: seq<T>, limit: int)
    requires |s| <= limit
    ensures PySlice(s, 0, limit) == s
  {
    assert s[0..|s|] == s;
  }

  lemma OffsetLimitWhole<T>(s: seq<T>, limit: nat)
    requires |s| <= limit
    ensures OffsetLimit(s, 0, limit) == s
  {
    assert s[0..|s|] == s;
  }

  /** A list without repeats has as many elements as its set. */
  lemma {:induction false} NoDupCard<T>(s: seq<T>)
    requires NoDup(s)
    ensures |set x | x in s| == |s|
  {
    if s != [] {
      var t := s[1..];
      assert s == [s[0]] + t;
      assert multiset(s) == multiset{s[0]} + multiset(t);
      NoDupSub(t, s);
      NoDupCard(t);
      assert multiset(s)[s[0]] == 1 + multiset(t)[s[0]];
      assert (set x | x in s) == {s[0]} + (set x | x in t);
    }
  }
}
