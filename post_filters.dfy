/** What the post filters of the post service compute, as functions of the posts table
    (`rows`, in table order) and the tags table, and what can be proved about it. */
module PostFilters {
  import opened Wrappers
  import opened Schemas
  import opened Lists
  import opened Sorting
  import opened Database
  import opened TagService

  /** One pass of the tag loop: an unknown slug is skipped; a known one keeps the posts of
      its tag that are already in the running list, or, when that list is empty, seeds it
      with all the posts of the tag. */
  function TagStep(rows: seq<Post>, table: map<string, Tag>, posts: seq<Post>, slug: string): seq<Post>
  {
    match LookupTag(table, slug)
    case None => posts
    case Some(tag) =>
      var postsTemp := PostsWithTag(rows, tag.slug);
      if posts != [] then KeepIn(postsTemp, posts) else postsTemp
  }

  /** The running list after the tag loop has seen every slug of `slugs`. */
  function TagRunning(rows: seq<Post>, table: map<string, Tag>, slugs: seq<string>): seq<Post>
    decreases |slugs|
  {
    if slugs == [] then []
    else TagStep(rows, table, TagRunning(rows, table, slugs[..|slugs| - 1]), slugs[|slugs| - 1])
  }

  /** `get_posts_by_tags`: the running list, sorted when `latest`, cut by `[skip:limit]`. */
  function TagFilter(rows: seq<Post>, table: map<string, Tag>, slugs: seq<string>,
                     skip: nat, limit: nat, latest: bool): seq<Post>
  {
    PySlice(SortIf(latest, TagRunning(rows, table, slugs)), skip, limit)
  }

  /** `Post.owner_id == owner_id` over the table. */
  function OwnedBy(rows: seq<Post>, ownerId: int): (r: seq<Post>)
    ensures forall p <- r :: p in rows && p.ownerId == ownerId
    ensures forall p <- rows :: p.ownerId == ownerId ==> p in r
    ensures multiset(r) <= multiset(rows)
  {
    Filter(rows, (p: Post) => p.ownerId == ownerId)
  }

  /** Some slug names a tag. */
  predicate AnyResolves(table: map<string, Tag>, slugs: seq<string>)
  {
    exists i :: 0 <= i < |slugs| && LookupTag(table, slugs[i]).Some?
  }

  /** `p` carries the tag of every slug that names one. */
  predicate CarriesAll(table: map<string, Tag>, p: Post, slugs: seq<string>)
  {
    forall i :: 0 <= i < |slugs| && LookupTag(table, slugs[i]).Some? ==>
      LookupTag(table, slugs[i]).value.slug in p.tags
  }

  /** The loop never re-seeds: whenever a known slug comes after an earlier known slug,
      the running list it meets is not empty. */
  predicate NoReseed(rows: seq<Post>, table: map<string, Tag>, slugs: seq<string>)
  {
    forall j :: 0 <= j < |slugs| && LookupTag(table, slugs[j]).Some? && AnyResolves(table, slugs[..j]) ==>
      TagRunning(rows, table, slugs[..j]) != []
  }

  /** Every post the tag loop keeps is a row of the table, and none is kept twice. */
  lemma {:induction false} TagRunningInTable(rows: seq<Post>, table: map<string, Tag>, slugs: seq<string>)
    requires NoDup(rows)
    ensures multiset(TagRunning(rows, table, slugs)) <= multiset(rows)
    ensures forall p <- TagRunning(rows, table, slugs) :: p in rows
    ensures NoDup(TagRunning(rows, table, slugs))
  {
    var r := TagRunning(rows, table, slugs);
    if slugs != [] {
      TagRunningInTable(rows, table, slugs[..|slugs| - 1]);
    }
    forall p <- r ensures p in rows {
      assert p in multiset(r);
    }
    NoDupSub(r, rows);
  }

  /** Slugs that name no tag contribute nothing: if none names one, the result is empty. */
  lemma {:induction false} TagRunningNoneResolve(rows: seq<Post>, table: map<string, Tag>, slugs: seq<string>)
    requires !AnyResolves(table, slugs)
    ensures TagRunning(rows, table, slugs) == []
  {
    if slugs != [] {
      var prefix := slugs[..|slugs| - 1];
      assert !AnyResolves(table, prefix) by {
        forall i | 0 <= i < |prefix| ensures LookupTag(table, prefix[i]).None? {
          assert prefix[i] == slugs[i];
        }
      }
      TagRunningNoneResolve(rows, table, prefix);
      assert LookupTag(table, slugs[|slugs| - 1]).None?;
    }
  }

  /** Every post of the result carries the tag of the last slug that names one. */
  lemma {:induction false} TagRunningCarriesLast(rows: seq<Post>, table: map<string, Tag>,
                                                 slugs: seq<string>, k: nat)
    requires k < |slugs| && LookupTag(table, slugs[k]).Some?
    requires forall j :: k < j < |slugs| ==> LookupTag(table, slugs[j]).None?
    ensures forall p <- TagRunning(rows, table, slugs) :: LookupTag(table, slugs[k]).value.slug in p.tags
    decreases |slugs|
  {
    var prefix := slugs[..|slugs| - 1];
    if k < |slugs| - 1 {
      assert prefix[k] == slugs[k];
      forall j | k < j < |prefix| ensures LookupTag(table, prefix[j]).None? {
        assert prefix[j] == slugs[j];
      }
      TagRunningCarriesLast(rows, table, prefix, k);
    }
  }

  /** Completeness: a row carrying the tag of every known slug is kept, provided some
      slug is known. Re-seeding cannot lose such a row. */
  lemma {:induction false} TagRunningComplete(rows: seq<Post>, table: map<string, Tag>,
                                              slugs: seq<string>, p: Post)
    requires p in rows && AnyResolves(table, slugs) && CarriesAll(table, p, slugs)
    ensures p in TagRunning(rows, table, slugs)
  {
    var n := |slugs|;
    var prefix := slugs[..n - 1];
    var last := slugs[n - 1];
    assert CarriesAll(table, p, prefix) by {
      forall i | 0 <= i < |prefix| && LookupTag(table, prefix[i]).Some?
        ensures LookupTag(table, prefix[i]).value.slug in p.tags
      {
        assert prefix[i] == slugs[i];
      }
    }
    var prefixResolves := AnyResolves(table, prefix);
    if prefixResolves {
      TagRunningComplete(rows, table, prefix, p);
    } else {
      TagRunningNoneResolve(rows, table, prefix);
    }
    match LookupTag(table, last)
    case None =>
    case Some(tag) =>
      assert tag.slug in p.tags;
  }

  /** Soundness without re-seeding: every post kept carries the tag of every known slug. */
  lemma {:induction false} TagRunningSound(rows: seq<Post>, table: map<string, Tag>, slugs: seq<string>)
    requires NoReseed(rows, table, slugs)
    ensures forall p <- TagRunning(rows, table, slugs) :: CarriesAll(table, p, slugs)
  {
    if slugs != [] {
      var n := |slugs|;
      var prefix := slugs[..n - 1];
      var last := slugs[n - 1];
      assert NoReseed(rows, table, prefix) by {
        forall j | 0 <= j < |prefix| && LookupTag(table, prefix[j]).Some? && AnyResolves(table, prefix[..j])
          ensures TagRunning(rows, table, prefix[..j]) != []
        {
          assert prefix[..j] == slugs[..j];
        }
      }
      TagRunningSound(rows, table, prefix);
      var running := TagRunning(rows, table, prefix);
      forall p <- TagRunning(rows, table, slugs) ensures CarriesAll(table, p, slugs) {
        match LookupTag(table, last)
        case None =>
          assert p in running;
          assert CarriesAll(table, p, prefix);
          forall i | 0 <= i < n && LookupTag(table, slugs[i]).Some?
            ensures LookupTag(table, slugs[i]).value.slug in p.tags
          {
            assert prefix[i] == slugs[i];
          }
        case Some(tag) =>
          assert tag.slug in p.tags;
          if running == [] {
            assert slugs[..n - 1] == prefix;
            assert !AnyResolves(table, prefix);
          } else {
            assert p in running;
          }
          forall i | 0 <= i < n && LookupTag(table, slugs[i]).Some?
            ensures LookupTag(table, slugs[i]).value.slug in p.tags
          {
            if i < n - 1 {
              assert prefix[i] == slugs[i];
              assert AnyResolves(table, prefix);
              assert CarriesAll(table, p, prefix);
            }
          }
      }
    }
  }

  /** Without re-seeding, and when some slug is known, the tag loop computes exactly the
      intersection of the posts of the known tags. */
  lemma TagRunningExact(rows: seq<Post>, table: map<string, Tag>, slugs: seq<string>, p: Post)
    requires NoDup(rows) && NoReseed(rows, table, slugs) && AnyResolves(table, slugs)
    ensures p in TagRunning(rows, table, slugs) <==> p in rows && CarriesAll(table, p, slugs)
  {
    TagRunningInTable(rows, table, slugs);
    TagRunningSound(rows, table, slugs);
    if p in rows && CarriesAll(table, p, slugs) {
      TagRunningComplete(rows, table, slugs, p);
    }
  }

  /** Three tags whose slugs are their names. */
  function ExampleTable(): map<string, Tag>
  {
    map["aaa" := Tag(0, "aaa", "aaa", DEFAULT_DATETIME),
        "bbb" := Tag(1, "bbb", "bbb", DEFAULT_DATETIME),
        "ccc" := Tag(2, "ccc", "ccc", DEFAULT_DATETIME)]
  }

  lemma ExampleLookups()
    ensures LookupTag(ExampleTable(), "aaa") == Some(ExampleTable()["aaa"])
    ensures LookupTag(ExampleTable(), "bbb") == Some(ExampleTable()["bbb"])
    ensures LookupTag(ExampleTable(), "ccc") == Some(ExampleTable()["ccc"])
  {
    assert Text.Lower("aaa") == "aaa";
    assert Text.Lower("bbb") == "bbb";
    assert Text.Lower("ccc") == "ccc";
  }

  /** Re-seeding in action: with tags "aaa", "bbb", "ccc", one post tagged "aaa" and one
      tagged "ccc", the filter `["aaa", "bbb", "ccc"]` returns the post tagged only "ccc":
      "bbb" empties the running list and "ccc" seeds it again. */
  lemma ReseedExample(p1: Post, p2: Post)
    requires p1.tags == ["aaa"] && p2.tags == ["ccc"]
    ensures TagRunning([p1, p2], ExampleTable(), ["aaa", "bbb", "ccc"]) == [p2]
    ensures !CarriesAll(ExampleTable(), p2, ["aaa", "bbb", "ccc"])
  {
    var table := ExampleTable();
    var rows := [p1, p2];
    var slugs := ["aaa", "bbb", "ccc"];
    ExampleLookups();
    ExamplePostsWithTag(p1, p2);
    assert TagStep(rows, table, [], "aaa") == [p1];
    assert TagStep(rows, table, [p1], "bbb") == [];
    assert TagStep(rows, table, [], "ccc") == [p2];
    assert TagRunning(rows, table, []) == [];
    assert TagRunning(rows, table, slugs[..1]) == [p1] by {
      assert slugs[..1][..0] == [];
    }
    assert TagRunning(rows, table, slugs[..2]) == [] by {
      assert slugs[..2][..1] == slugs[..1];
    }
    assert slugs[..3] == slugs;
  }

  /** The posts of each example tag among the two example posts. */
  lemma ExamplePostsWithTag(p1: Post, p2: Post)
    requires p1.tags == ["aaa"] && p2.tags == ["ccc"]
    ensures PostsWithTag([p1, p2], "aaa") == [p1]
    ensures PostsWithTag([p1, p2], "bbb") == []
    ensures PostsWithTag([p1, p2], "ccc") == [p2]
  {
    var rows := [p1, p2];
    assert rows[1..] == [p2];
    assert "aaa" !in p2.tags && "bbb" !in p1.tags && "bbb" !in p2.tags && "ccc" !in p1.tags;
  }

  /** What the tag filter returns is a page of distinct table rows, newest first when
      `latest`, no longer than the `[skip:limit]` cut allows. */
  lemma TagFilterInTable(rows: seq<Post>, table: map<string, Tag>, slugs: seq<string>,
                         skip: nat, limit: nat, latest: bool)
    requires NoDup(rows)
    ensures forall p <- TagFilter(rows, table, slugs, skip, limit, latest) :: p in rows
    ensures NoDup(TagFilter(rows, table, slugs, skip, limit, latest))
    ensures latest ==> SortedDesc(TagFilter(rows, table, slugs, skip, limit, latest))
    ensures |TagFilter(rows, table, slugs, skip, limit, latest)| <= Max(0, limit - skip)
  {
    var running := TagRunning(rows, table, slugs);
    var sorted := SortIf(latest, running);
    var r := PySlice(sorted, skip, limit);
    TagRunningInTable(rows, table, slugs);
    forall p <- r ensures p in rows {
      assert p in multiset(sorted);
      assert p in running;
    }
    NoDupSub(sorted, running);
    NoDupSub(r, sorted);
    if latest {
      SortedDescPySlice(sorted, skip, limit);
    }
  }

  /** If no slug names a tag, the tag filter returns nothing. */
  lemma TagFilterNoneResolve(rows: seq<Post>, table: map<string, Tag>, slugs: seq<string>,
                             skip: nat, limit: nat, latest: bool)
    requires !AnyResolves(table, slugs)
    ensures TagFilter(rows, table, slugs, skip, limit, latest) == []
  {
    TagRunningNoneResolve(rows, table, slugs);
  }

  /** Every post the tag filter returns carries the tag of the last slug that names one. */
  lemma TagFilterCarriesLast(rows: seq<Post>, table: map<string, Tag>, slugs: seq<string>,
                             skip: nat, limit: nat, latest: bool, k: nat)
    requires k < |slugs| && LookupTag(table, slugs[k]).Some?
    requires forall j :: k < j < |slugs| ==> LookupTag(table, slugs[j]).None?
    ensures forall p <- TagFilter(rows, table, slugs, skip, limit, latest) ::
              LookupTag(table, slugs[k]).value.slug in p.tags
  {
    var running := TagRunning(rows, table, slugs);
    TagRunningCarriesLast(rows, table, slugs, k);
    forall p <- TagFilter(rows, table, slugs, skip, limit, latest)
      ensures LookupTag(table, slugs[k]).value.slug in p.tags
    {
      assert p in multiset(SortIf(latest, running));
      assert p in running;
    }
  }

  /** On a first page that holds the whole match, and without re-seeding, the tag filter
      returns exactly the rows carrying the tag of every known slug. */
  lemma TagFilterExact(rows: seq<Post>, table: map<string, Tag>, slugs: seq<string>,
                       limit: nat, latest: bool, p: Post)
    requires NoDup(rows) && NoReseed(rows, table, slugs) && AnyResolves(table, slugs)
    requires |TagRunning(rows, table, slugs)| <= limit
    ensures p in TagFilter(rows, table, slugs, 0, limit, latest) <==> p in rows && CarriesAll(table, p, slugs)
  {
    var running := TagRunning(rows, table, slugs);
    var sorted := SortIf(latest, running);
    PySliceWhole(sorted, limit);
    assert p in sorted <==> p in multiset(sorted);
    TagRunningExact(rows, table, slugs, p);
  }

  /** A first newest-first page holds the newest rows. */
  lemma FirstPageNewest(s: seq<Post>, limit: nat)
    ensures forall p <- OffsetLimit(SortLatest(s), 0, limit), q <- s ::
              q !in OffsetLimit(SortLatest(s), 0, limit) ==> CreatedKey(q) <= CreatedKey(p)
  {
    var sorted := SortLatest(s);
    SortedHeadNewest(sorted, OffsetLimit(sorted, 0, limit));
    forall q <- s ensures q in sorted {
      assert q in multiset(s);
    }
  }

  /** A page of distinct rows, sorted when `latest`, keeps them distinct and sorted, and on a
      first page large enough keeps them all. */
  lemma PageFacts(s: seq<Post>, skip: nat, limit: nat, latest: bool)
    requires NoDup(s)
    ensures forall p <- OffsetLimit(SortIf(latest, s), skip, limit) :: p in s
    ensures |OffsetLimit(SortIf(latest, s), skip, limit)| == Max(0, Min(skip + limit, |s|) - skip)
    ensures NoDup(OffsetLimit(SortIf(latest, s), skip, limit))
    ensures latest ==> SortedDesc(OffsetLimit(SortIf(latest, s), skip, limit))
    ensures skip == 0 && |s| <= limit ==> forall p <- s :: p in OffsetLimit(SortIf(latest, s), skip, limit)
    ensures latest && skip == 0 ==> forall p <- OffsetLimit(SortIf(latest, s), skip, limit), q <- s ::
              q !in OffsetLimit(SortIf(latest, s), skip, limit) ==> CreatedKey(q) <= CreatedKey(p)
  {
    var sorted := SortIf(latest, s);
    var r := OffsetLimit(sorted, skip, limit);
    assert |sorted| == |multiset(sorted)| == |multiset(s)| == |s|;
    if latest && skip == 0 {
      FirstPageNewest(s, limit);
    }
    forall p <- r ensures p in s {
      assert p in multiset(sorted);
    }
    NoDupSub(sorted, s);
    NoDupSub(r, sorted);
    if latest {
      SortedDescOffsetLimit(sorted, skip, limit);
    }
    if skip == 0 && |s| <= limit {
      OffsetLimitWhole(sorted, limit);
      forall p <- s ensures p in r {
        assert p in multiset(sorted);
      }
    }
  }

  /** `get_posts_by_owner`: the owner's rows, newest first when `latest`, then
      `OFFSET skip LIMIT limit`. */
  function OwnerPage(rows: seq<Post>, ownerId: int, skip: nat, limit: nat, latest: bool): (r: seq<Post>)
    requires NoDup(rows)
    ensures forall p <- r :: p in rows && p.ownerId == ownerId
    ensures NoDup(r)
    ensures |r| == Max(0, Min(skip + limit, |OwnedBy(rows, ownerId)|) - skip) && |r| <= limit
    ensures !latest ==> forall i :: 0 <= i < |r| ==> r[i] == OwnedBy(rows, ownerId)[skip + i]
    ensures latest ==> forall i :: 0 <= i < |r| ==> r[i] == SortLatest(OwnedBy(rows, ownerId))[skip + i]
    ensures latest ==> SortedDesc(r)
    ensures latest && skip == 0 ==> forall p <- r, q <- OwnedBy(rows, ownerId) ::
              q !in r ==> CreatedKey(q) <= CreatedKey(p)
    ensures skip == 0 && |OwnedBy(rows, ownerId)| <= limit ==>
              forall p <- rows :: p.ownerId == ownerId ==> p in r
  {
    var owned := OwnedBy(rows, ownerId);
    NoDupSub(owned, rows);
    PageFacts(owned, skip, limit, latest);
    OffsetLimit(SortIf(latest, owned), skip, limit)
  }

  /** The rows the owner loop gathers: those each requested owner's page holds. */
  function OwnersPosts(rows: seq<Post>, owners: set<int>, skip: nat, limit: nat, latest: bool): set<Post>
    requires NoDup(rows)
  {
    set p | p in rows && p.ownerId in owners && p in OwnerPage(rows, p.ownerId, skip, limit, latest)
  }

  /** `set(owners_ids)`. */
  function IdSet(ids: seq<int>): (r: set<int>)
    ensures forall o :: o in r <==> o in ids
  {
    set o | o in ids
  }

  /** `r` is the `[skip:limit]` cut of some list holding each row of `all` once, newest
      first when `latest`: distinct rows of `all`, as many as the cut leaves, all of them
      when the first page holds them all, and on a first page of a newest-first list the
      newest ones. */
  ghost predicate PageOf(all: set<Post>, skip: nat, limit: nat, latest: bool, r: seq<Post>)
  {
    && (exists g :: (forall p :: p in g <==> p in all) && NoDup(g) && (latest ==> SortedDesc(g))
                    && r == PySlice(g, skip, limit))
    && (forall p <- r :: p in all)
    && |r| == Max(0, Min(limit, |all|) - skip)
    && (skip == 0 && |all| <= limit ==> forall p <- all :: p in r)
    && NoDup(r)
    && (latest ==> SortedDesc(r))
    && (latest && skip == 0 ==> forall p <- r, q <- all :: q !in r ==> CreatedKey(q) <= CreatedKey(p))
  }

  /** Adding one owner to those already gathered adds exactly that owner's page, none of
      whose rows was gathered before. */
  lemma OwnersPostsStep(rows: seq<Post>, done: set<int>, ownerId: int, skip: nat, limit: nat, latest: bool)
    requires NoDup(rows) && ownerId !in done
    ensures forall p :: p in OwnersPosts(rows, done + {ownerId}, skip, limit, latest) <==>
              p in OwnersPosts(rows, done, skip, limit, latest) || p in OwnerPage(rows, ownerId, skip, limit, latest)
    ensures forall p <- OwnerPage(rows, ownerId, skip, limit, latest) :: p !in OwnersPosts(rows, done, skip, limit, latest)
  {
  }

  /** Cutting a list that holds each row of `all` once, newest first when `latest`,
      yields a page of `all`. */
  lemma PageOfList(g: seq<Post>, all: set<Post>, skip: nat, limit: nat, latest: bool)
    requires NoDup(g) && (latest ==> SortedDesc(g))
    requires forall p :: p in g <==> p in all
    ensures PageOf(all, skip, limit, latest, PySlice(g, skip, limit))
  {
    var r := PySlice(g, skip, limit);
    ListOfSetLength(g, all);
    assert forall p <- r :: p in all by {
      NoDupSub(r, g);
    }
    assert |r| == Max(0, Min(limit, |all|) - skip);
    assert NoDup(r) by {
      NoDupSub(r, g);
    }
    assert latest ==> SortedDesc(r) by {
      if latest {
        SortedDescPySlice(g, skip, limit);
      }
    }
    assert skip == 0 && |all| <= limit ==> forall p <- all :: p in r by {
      if skip == 0 && |all| <= limit {
        PySliceWhole(g, limit);
      }
    }
    assert latest && skip == 0 ==> forall p <- r, q <- all :: q !in r ==> CreatedKey(q) <= CreatedKey(p) by {
      if latest && skip == 0 {
        SortedHeadNewest(g, r);
      }
    }
  }

  /** A list holding each element of a set once is as long as the set is large. */
  lemma ListOfSetLength(g: seq<Post>, all: set<Post>)
    requires NoDup(g)
    requires forall p :: p in g <==> p in all
    ensures |g| == |all|
  {
    assert (set p | p in g) == all;
    NoDupCard(g);
  }

  /** Sorting and cutting a list of distinct rows that holds exactly the set `all`. */
  lemma PageOfGathered(gathered: seq<Post>, all: set<Post>, skip: nat, limit: nat, latest: bool)
    requires NoDup(gathered)
    requires forall p :: p in gathered <==> p in all
    ensures PageOf(all, skip, limit, latest, PySlice(SortIf(latest, gathered), skip, limit))
  {
    var sorted := SortIf(latest, gathered);
    NoDupSub(sorted, gathered);
    forall p ensures p in sorted <==> p in all {
      assert p in sorted <==> p in multiset(sorted);
      assert p in gathered <==> p in multiset(gathered);
    }
    PageOfList(sorted, all, skip, limit, latest);
  }

  /** When no owner has more rows than one page holds, the owner loop gathers exactly the
      rows of the requested owners. */
  lemma OwnersPostsWhole(rows: seq<Post>, owners: set<int>, limit: nat, latest: bool, p: Post)
    requires NoDup(rows)
    requires forall o <- owners :: |OwnedBy(rows, o)| <= limit
    ensures p in OwnersPosts(rows, owners, 0, limit, latest) <==> p in rows && p.ownerId in owners
  {
  }

  /** The intersection at the heart of `get_posts_by_owners_and_tags`: the strictly shorter
      list is filtered by the other, and on a tie the owners list is. */
  function Combine(byTags: seq<Post>, byOwners: seq<Post>): (r: seq<Post>)
    ensures forall p :: p in r <==> p in byTags && p in byOwners
    ensures |byTags| < |byOwners| ==> IsSubsequence(r, byTags)
    ensures |byTags| >= |byOwners| ==> IsSubsequence(r, byOwners)
    ensures multiset(r) <= multiset(if |byTags| < |byOwners| then byTags else byOwners)
    ensures |r| <= Min(|byTags|, |byOwners|)
  {
    if |byTags| < |byOwners| then
      FilterIsSubsequence(byTags, p => p in byOwners);
      KeepIn(byTags, byOwners)
    else
      FilterIsSubsequence(byOwners, p => p in byTags);
      KeepIn(byOwners, byTags)
  }

  /** `get_posts` with neither filter: the table, newest first when `latest`, then
      `OFFSET skip LIMIT limit`. */
  function AllPostsPage(rows: seq<Post>, skip: nat, limit: nat, latest: bool): (r: seq<Post>)
    requires NoDup(rows)
    ensures forall p <- r :: p in rows
    ensures NoDup(r)
    ensures |r| == Max(0, Min(skip + limit, |rows|) - skip)
    ensures latest ==> SortedDesc(r)
    ensures !latest ==> forall i :: 0 <= i < |r| ==> r[i] == rows[skip + i]
    ensures latest ==> forall i :: 0 <= i < |r| ==> r[i] == SortLatest(rows)[skip + i]
    ensures latest && skip == 0 ==> forall p <- r, q <- rows :: q !in r ==> CreatedKey(q) <= CreatedKey(p)
  {
    PageFacts(rows, skip, limit, latest);
    OffsetLimit(SortIf(latest, rows), skip, limit)
  }

  /** Cutting the intersection of two lists of distinct rows keeps rows of both, distinct,
      newest first when `latest`. */
  lemma CombinedPage(byTags: seq<Post>, byOwners: seq<Post>, skip: nat, limit: nat, latest: bool)
    requires NoDup(byTags) && NoDup(byOwners)
    ensures forall p <- PySlice(SortIf(latest, Combine(byTags, byOwners)), skip, limit) :: p in byTags && p in byOwners
    ensures NoDup(PySlice(SortIf(latest, Combine(byTags, byOwners)), skip, limit))
    ensures latest ==> SortedDesc(PySlice(SortIf(latest, Combine(byTags, byOwners)), skip, limit))
    ensures |PySlice(SortIf(latest, Combine(byTags, byOwners)), skip, limit)| <= Max(0, limit - skip)
  {
    var combined := Combine(byTags, byOwners);
    var sorted := SortIf(latest, combined);
    var r := PySlice(sorted, skip, limit);
    NoDupSub(combined, if |byTags| < |byOwners| then byTags else byOwners);
    NoDupSub(sorted, combined);
    NoDupSub(r, sorted);
    forall p <- r ensures p in byTags && p in byOwners {
      assert p in multiset(sorted);
      assert p in combined;
    }
    if latest {
      SortedDescPySlice(sorted, skip, limit);
    }
  }

  /** What `get_posts_by_owners_and_tags` returns: for the page `byOwners` that the owner
      filter returns, the intersection of the tag filter's page with it, sorted when
      `latest`, cut again by `[skip:limit]`. */
  ghost predicate CombinedQuery(rows: seq<Post>, table: map<string, Tag>, owners: set<int>, slugs: seq<string>,
                                skip: nat, limit: nat, latest: bool, r: seq<Post>)
    requires NoDup(rows)
  {
    exists byOwners ::
      && PageOf(OwnersPosts(rows, owners, skip, limit, latest), skip, limit, latest, byOwners)
      && r == PySlice(SortIf(latest, Combine(TagFilter(rows, table, slugs, skip, limit, latest), byOwners)), skip, limit)
  }

  /** A first page of the combined filter is large enough to hold the whole match: the tag
      loop does not re-seed and some slug is known, and neither the tag match, nor any one
      owner's rows, nor the rows the owner loop gathers exceed `limit`. */
  ghost predicate CombinedFits(rows: seq<Post>, table: map<string, Tag>, owners: set<int>, slugs: seq<string>,
                               limit: nat, latest: bool)
    requires NoDup(rows)
  {
    && NoReseed(rows, table, slugs)
    && AnyResolves(table, slugs)
    && |TagRunning(rows, table, slugs)| <= limit
    && (forall o <- owners :: |OwnedBy(rows, o)| <= limit)
    && |OwnersPosts(rows, owners, 0, limit, latest)| <= limit
  }

  /** On a first page that holds the whole match, the combined filter returns exactly the
      rows of the requested owners that carry the tag of every known slug. */
  lemma CombinedExact(rows: seq<Post>, table: map<string, Tag>, owners: set<int>, slugs: seq<string>,
                      limit: nat, latest: bool, r: seq<Post>, p: Post)
    requires NoDup(rows) && CombinedQuery(rows, table, owners, slugs, 0, limit, latest, r)
    requires CombinedFits(rows, table, owners, slugs, limit, latest)
    ensures p in r <==> p in rows && p.ownerId in owners && CarriesAll(table, p, slugs)
  {
    var all := OwnersPosts(rows, owners, 0, limit, latest);
    var byTags := TagFilter(rows, table, slugs, 0, limit, latest);
    var byOwners :| PageOf(all, 0, limit, latest, byOwners)
                    && r == PySlice(SortIf(latest, Combine(byTags, byOwners)), 0, limit);
    TagFilterExact(rows, table, slugs, limit, latest, p);
    TagFilterInTable(rows, table, slugs, 0, limit, latest);
    OwnersPostsWhole(rows, owners, limit, latest, p);
    assert p in byOwners <==> p in all;
    CombinedFirstPage(byTags, byOwners, limit, latest, p);
  }

  /** A first page no shorter than the tag list keeps the whole intersection. */
  lemma CombinedFirstPage(byTags: seq<Post>, byOwners: seq<Post>, limit: nat, latest: bool, p: Post)
    requires |byTags| <= limit
    ensures p in PySlice(SortIf(latest, Combine(byTags, byOwners)), 0, limit) <==> p in byTags && p in byOwners
  {
    var c := Combine(byTags, byOwners);
    var sorted := SortIf(latest, c);
    assert |sorted| == |multiset(sorted)| == |multiset(c)| == |c| <= limit;
    PySliceWhole(sorted, limit);
    assert p in sorted <==> p in multiset(sorted);
    assert p in c <==> p in multiset(c);
  }

  /** What `get_posts` promises of its result `r` for each combination of filters. */
  ghost predicate PostsQuery(rows: seq<Post>, table: map<string, Tag>, ownersIds: Option<seq<int>>,
                       tagsSlug: Option<seq<string>>, skip: nat, limit: nat, latest: bool, r: seq<Post>)
    requires NoDup(rows)
  {
    && NoDup(r)
    && (latest ==> SortedDesc(r))
    && match (ownersIds, tagsSlug)
       case (Some(owners), Some(slugs)) =>
         && CombinedQuery(rows, table, IdSet(owners), slugs, skip, limit, latest, r)
         && (skip == 0 && CombinedFits(rows, table, IdSet(owners), slugs, limit, latest) ==>
               forall p :: p in r <==> p in rows && p.ownerId in IdSet(owners) && CarriesAll(table, p, slugs))
         && (forall p <- r :: p in TagFilter(rows, table, slugs, skip, limit, latest))
         && (forall p <- r :: p in OwnersPosts(rows, IdSet(owners), skip, limit, latest))
         && |r| <= Max(0, limit - skip)
       case (Some(owners), None) => PageOf(OwnersPosts(rows, IdSet(owners), skip, limit, latest), skip, limit, latest, r)
       case (None, Some(slugs)) => r == TagFilter(rows, table, slugs, skip, limit, latest)
       case (None, None) => r == AllPostsPage(rows, skip, limit, latest)
  }
}
