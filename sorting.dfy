/** `posts.sort(key=lambda x: x.created_on, reverse=True)` and the query clause
    `ORDER BY created_on DESC`: newest first, equal creation times kept in list order. */
module Sorting {
  import opened Schemas
  import opened Lists

  function CreatedKey(p: Post): int
  {
    Ticks(p.createdOn)
  }

  predicate SortedDesc(s: seq<Post>)
  {
    forall i, j :: 0 <= i < j < |s| ==> CreatedKey(s[i]) >= CreatedKey(s[j])
  }

  /** Puts `x` at the first position of `r` whose element is strictly older than `x`. */
  function Insert(r: seq<Post>, x: Post): seq<Post>
  {
    if r == [] then [x]
    else if CreatedKey(r[0]) >= CreatedKey(x) then [r[0]] + Insert(r[1..], x)
    else [x] + r
  }

  /** Inserting adds exactly `x`. */
  lemma {:induction false} InsertAddsOne(r: seq<Post>, x: Post)
    ensures multiset(Insert(r, x)) == multiset(r) + multiset{x}
  {
    if r != [] && CreatedKey(r[0]) >= CreatedKey(x) {
      InsertAddsOne(r[1..], x);
      assert r == [r[0]] + r[1..];
    }
  }

  /** Inserting into a newest-first list keeps it newest-first. */
  lemma {:induction false} InsertKeepsOrder(r: seq<Post>, x: Post)
    requires SortedDesc(r)
    ensures SortedDesc(Insert(r, x))
    ensures Insert(r, x)[0] == (if r != [] && CreatedKey(r[0]) >= CreatedKey(x) then r[0] else x)
  {
    if r != [] && CreatedKey(r[0]) >= CreatedKey(x) {
      var rest := Insert(r[1..], x);
      InsertKeepsOrder(r[1..], x);
      assert CreatedKey(r[0]) >= CreatedKey(rest[0]);
      var t := [r[0]] + rest;
      forall i, j | 0 <= i < j < |t| ensures CreatedKey(t[i]) >= CreatedKey(t[j]) {
        if i > 0 {
          assert t[i] == rest[i - 1] && t[j] == rest[j - 1];
        } else {
          assert t[j] == rest[j - 1];
          assert CreatedKey(rest[0]) >= CreatedKey(rest[j - 1]);
        }
      }
    }
  }

  /** The posts of `s` created at `k`, in list order. */
  function WithKey(s: seq<Post>, k: int): seq<Post>
  {
    if s == [] then []
    else if CreatedKey(s[0]) == k then [s[0]] + WithKey(s[1..], k)
    else WithKey(s[1..], k)
  }

  lemma {:induction false} WithKeyConcat(a: seq<Post>, b: seq<Post>, k: int)
    ensures WithKey(a + b, k) == WithKey(a, k) + WithKey(b, k)
  {
    if a == [] {
      assert a + b == b;
    } else {
      assert (a + b)[0] == a[0] && (a + b)[1..] == a[1..] + b;
      WithKeyConcat(a[1..], b, k);
    }
  }

  lemma {:induction false} WithKeyNone(s: seq<Post>, k: int)
    requires forall i :: 0 <= i < |s| ==> CreatedKey(s[i]) < k
    ensures WithKey(s, k) == []
  {
    if s != [] {
      WithKeyNone(s[1..], k);
    }
  }

  /** Inserting into a newest-first list puts `x` after every post created at the same time. */
  lemma {:induction false} InsertStable(r: seq<Post>, x: Post)
    requires SortedDesc(r)
    ensures forall k :: WithKey(Insert(r, x), k) == WithKey(r, k) + WithKey([x], k)
  {
    forall k ensures WithKey(Insert(r, x), k) == WithKey(r, k) + WithKey([x], k) {
      if r == [] {
      } else if CreatedKey(r[0]) >= CreatedKey(x) {
        InsertStable(r[1..], x);
        WithKeyConcat([r[0]], Insert(r[1..], x), k);
        WithKeyConcat([r[0]], r[1..], k);
        assert [r[0]] + r[1..] == r;
      } else {
        WithKeyConcat([x], r, k);
        if CreatedKey(x) == k {
          WithKeyNone(r, k);
        }
      }
    }
  }

  /** The stable descending sort, one element at a time in list order: a newest-first
      permutation that keeps posts created at the same time in their list order. */
  function SortLatest(s: seq<Post>): (r: seq<Post>)
    ensures multiset(r) == multiset(s) && |r| == |s|
    ensures SortedDesc(r)
    ensures forall k :: WithKey(r, k) == WithKey(s, k)
  {
    if s == [] then []
    else
      assert s == s[..|s| - 1] + [s[|s| - 1]];
      InsertAddsOne(SortLatest(s[..|s| - 1]), s[|s| - 1]);
      InsertKeepsOrder(SortLatest(s[..|s| - 1]), s[|s| - 1]);
      InsertStable(SortLatest(s[..|s| - 1]), s[|s| - 1]);
      SplitLastWithKey(s);
      Insert(SortLatest(s[..|s| - 1]), s[|s| - 1])
  }

  lemma SplitLastWithKey(s: seq<Post>)
    requires s != []
    ensures forall k :: WithKey(s, k) == WithKey(s[..|s| - 1], k) + WithKey([s[|s| - 1]], k)
  {
    forall k ensures WithKey(s, k) == WithKey(s[..|s| - 1], k) + WithKey([s[|s| - 1]], k) {
      assert s == s[..|s| - 1] + [s[|s| - 1]];
      WithKeyConcat(s[..|s| - 1], [s[|s| - 1]], k);
    }
  }

  /** A newest-first list starts with its newest posts: whatever a leading part of it
      leaves out is no newer than anything that part holds. */
  lemma SortedHeadNewest(g: seq<Post>, r: seq<Post>)
    requires SortedDesc(g) && |r| <= |g|
    requires forall i :: 0 <= i < |r| ==> r[i] == g[i]
    ensures forall p <- r, q <- g :: q !in r ==> CreatedKey(q) <= CreatedKey(p)
  {
    forall p <- r, q <- g | q !in r ensures CreatedKey(q) <= CreatedKey(p) {
      var i :| 0 <= i < |r| && r[i] == p;
      var j :| 0 <= j < |g| && g[j] == q;
      assert j >= |r|;
    }
  }

  /** The list as the services leave it before slicing: sorted only when `latest`. */
  function SortIf(latest: bool, s: seq<Post>): (r: seq<Post>)
    ensures multiset(r) == multiset(s)
    ensures latest ==> SortedDesc(r)
    ensures !latest ==> r == s
  {
    if latest then SortLatest(s) else s
  }

  lemma SortedDescPySlice(s: seq<Post>, start: int, stop: int)
    requires SortedDesc(s)
    ensures SortedDesc(PySlice(s, start, stop))
  {
  }

  lemma SortedDescOffsetLimit(s: seq<Post>, skip: nat, limit: nat)
    requires SortedDesc(s)
    ensures SortedDesc(OffsetLimit(s, skip, limit))
  {
  }

  /** Where `Insert` puts `x`: after the first `j` elements, which are all at least as new. */
  lemma {:induction false} InsertAt(r: seq<Post>, x: Post, j: nat)
    requires j <= |r|
    requires forall k :: 0 <= k < j ==> CreatedKey(r[k]) >= CreatedKey(x)
    requires j < |r| ==> CreatedKey(r[j]) < CreatedKey(x)
    ensures Insert(r, x) == r[..j] + [x] + r[j..]
  {
    if j == 0 {
      assert r[..0] == [] && r[0..] == r;
    } else {
      assert CreatedKey(r[0]) >= CreatedKey(x);
      InsertAt(r[1..], x, j - 1);
      var tail := r[1..][..j - 1] + [x] + r[1..][j - 1..];
      assert Insert(r, x) == [r[0]] + tail;
      assert r[1..][..j - 1] == r[1..j];
      assert r[1..][j - 1..] == r[j..];
      assert [r[0]] + r[1..j] == r[..j];
    }
  }

  lemma SortLatestSnoc(s: seq<Post>, x: Post)
    ensures SortLatest(s + [x]) == Insert(SortLatest(s), x)
  {
    assert (s + [x])[..|s|] == s;
  }

  lemma SortLatestPrefix(s: seq<Post>, i: nat)
    requires i < |s|
    ensures SortLatest(s[..i + 1]) == Insert(SortLatest(s[..i]), s[i])
  {
    assert s[..i + 1] == s[..i] + [s[i]];
    SortLatestSnoc(s[..i], s[i]);
  }

  /** Index of the first element of `sorted` strictly older than `x` (or its length). */
  method InsertPosition(sorted: seq<Post>, x: Post) returns (j: nat)
    ensures j <= |sorted|
    ensures forall k :: 0 <= k < j ==> CreatedKey(sorted[k]) >= CreatedKey(x)
    ensures j < |sorted| ==> CreatedKey(sorted[j]) < CreatedKey(x)
  {
    j := 0;
    while j < |sorted| && CreatedKey(sorted[j]) >= CreatedKey(x)
      invariant j <= |sorted|
      invariant forall k :: 0 <= k < j ==> CreatedKey(sorted[k]) >= CreatedKey(x)
    {
      j := j + 1;
    }
  }

  /** The in-place list sort, as an insertion sort over a local list. */
  method SortByCreatedOnDesc(posts: seq<Post>) returns (sorted: seq<Post>)
    ensures sorted == SortLatest(posts)
  {
    sorted := [];
    var i := 0;
    while i < |posts|
      invariant 0 <= i <= |posts|
      invariant sorted == SortLatest(posts[..i])
    {
      var x := posts[i];
      var j := InsertPosition(sorted, x);
      InsertAt(sorted, x, j);
      SortLatestPrefix(posts, i);
      sorted := sorted[..j] + [x] + sorted[j..];
      i := i + 1;
    }
    assert posts[..i] == posts;
  }
}
