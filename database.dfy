/** The two tables the services read and write, held in memory in place of the database
    session: posts by id and tags by slug, each with its rows' insertion order. */
module Database {
  import opened Schemas
  import opened Text
  import opened Lists

  /** The values of `m` at `keys`, in the order of `keys`. */
  function Rows<K, V>(keys: seq<K>, m: map<K, V>): (r: seq<V>)
    requires forall k <- keys :: k in m
    ensures |r| == |keys|
    ensures forall i :: 0 <= i < |keys| ==> r[i] == m[keys[i]]
  {
    seq(|keys|, i requires 0 <= i < |keys| => m[keys[i]])
  }

  /** `tag.posts`: the posts carrying `slug`, in table order. */
  function PostsWithTag(rows: seq<Post>, slug: string): (r: seq<Post>)
    ensures forall p <- r :: p in rows && slug in p.tags
    ensures forall p <- rows :: slug in p.tags ==> p in r
    ensures multiset(r) <= multiset(rows)
  {
    Filter(rows, (p: Post) => slug in p.tags)
  }

  /** Every post's slugs with `slug` removed, as deleting a tag drops its association rows. */
  function WithoutTag(posts: map<PostId, Post>, slug: string): (r: map<PostId, Post>)
    ensures r.Keys == posts.Keys
    ensures forall id <- posts :: r[id] == posts[id].(tags := r[id].tags)
    ensures forall id <- posts :: slug !in r[id].tags
    ensures forall id <- posts :: forall s <- posts[id].tags :: s != slug ==> s in r[id].tags
    ensures forall id <- posts :: forall s <- r[id].tags :: s in posts[id].tags
  {
    map id | id in posts :: posts[id].(tags := Filter(posts[id].tags, (s: string) => s != slug))
  }

  class Db {
    var posts: map<PostId, Post>
    var postOrder: seq<PostId>
    var tags: map<string, Tag>
    var tagOrder: seq<string>
    var nextTagId: nat

    /** The table invariants: every row listed once in table order, keyed by its own
        id or slug; slugs are lower-case names of valid length; a post's slugs name
        existing tags. */
    ghost predicate Valid()
      reads this
    {
      && Distinct(postOrder)
      && (forall id :: id in posts <==> id in postOrder)
      && (forall id :: id in posts ==> posts[id].id == id)
      && (forall id, s :: id in posts && s in posts[id].tags ==> s in tags)
      && Distinct(tagOrder)
      && (forall s :: s in tags <==> s in tagOrder)
      && (forall s :: s in tags ==>
            && tags[s].slug == s
            && Lower(tags[s].name) == s
            && ValidTagName(tags[s].name)
            && tags[s].id < nextTagId)
    }

    constructor ()
      ensures Valid()
      ensures posts == map[] && postOrder == [] && tags == map[] && tagOrder == []
    {
      posts, postOrder := map[], [];
      tags, tagOrder := map[], [];
      nextTagId := 0;
    }

    /** The posts table in insertion order. */
    function Table(): (r: seq<Post>)
      reads this
      requires Valid()
      ensures |r| == |postOrder|
      ensures forall i :: 0 <= i < |r| ==> r[i] == posts[postOrder[i]]
      ensures forall p <- r :: p.id in posts && posts[p.id] == p
      ensures forall id <- posts :: posts[id] in r
      ensures NoDup(r)
    {
      var r := Rows(postOrder, posts);
      assert forall id <- posts :: posts[id] in r by {
        forall id <- posts ensures posts[id] in r {
          var i :| 0 <= i < |postOrder| && postOrder[i] == id;
          assert r[i] == posts[id];
        }
      }
      assert forall i, j :: 0 <= i < j < |r| ==> r[i] != r[j] by {
        forall i, j | 0 <= i < j < |r| ensures r[i] != r[j] {
          assert r[i].id == postOrder[i] && r[j].id == postOrder[j];
        }
      }
      DistinctNoDup(r);
      r
    }

    /** Tag names are unique, even ignoring case, because each is stored under its
        lower-cased form as its slug. */
    lemma TagNamesUnique()
      requires Valid()
      ensures forall s, t :: s in tags && t in tags && s != t ==>
                tags[s].name != tags[t].name && Lower(tags[s].name) != Lower(tags[t].name)
    {
    }

    /** A stored slug holds no upper-case letter: it is the lower-cased name. */
    lemma SlugsAreLowerCase()
      requires Valid()
      ensures forall s <- tags :: forall i :: 0 <= i < |s| ==> IsLowerChar(s[i])
    {
      forall s <- tags {
        LowerIsLower(tags[s].name);
      }
    }

    /** Every stored slug, like the name it comes from, has at least `TAG_MIN_LENGTH`
        characters. */
    lemma SlugsMeetMinLength()
      requires Valid()
      ensures forall s <- tags :: |s| >= TAG_MIN_LENGTH && |tags[s].name| >= TAG_MIN_LENGTH
    {
    }

    /** The tags table in insertion order. */
    function TagTable(): (r: seq<Tag>)
      reads this
      requires Valid()
      ensures |r| == |tagOrder|
      ensures forall i :: 0 <= i < |r| ==> r[i] == tags[tagOrder[i]]
    {
      Rows(tagOrder, tags)
    }
  }
}
