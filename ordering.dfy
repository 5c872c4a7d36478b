/** The orderings a post listing can be sorted by, and the sort the store
    applies. Posts whose sort keys are equal keep the store's natural order. */
module Ordering {
  import opened Records

  /** `{ createdAt: -1 }`, `{ createdAt: 1 }`, `{ visit: -1 }` and
      `{ visit: -1, createdAt: -1 }`. */
  datatype SortKey = Newest | Oldest | Popular | Trending

  /** The `sort` query parameter selects an ordering; an absent ("") or
      unrecognised value falls back to newest first. */
  function SelectSort(sort: string): (k: SortKey)
    ensures k == Oldest <==> sort == "oldest"
    ensures k == Popular <==> sort == "popular"
    ensures k == Trending <==> sort == "trending"
    ensures k == Newest <==> sort !in {"oldest", "popular", "trending"}
  {
    if sort == "" then Newest
    else if sort == "oldest" then Oldest
    else if sort == "popular" then Popular
    else if sort == "trending" then Trending
    else Newest
  }

  /** `a` may come before `b` in a listing sorted by `key`. */
  predicate Before(a: Post, b: Post, key: SortKey)
  {
    match key
    case Newest => a.createdAt >= b.createdAt
    case Oldest => a.createdAt <= b.createdAt
    case Popular => a.visit >= b.visit
    case Trending => a.visit > b.visit || (a.visit == b.visit && a.createdAt >= b.createdAt)
  }

  /** Any two posts can be put in order, and the order composes. */
  lemma BeforeTotalPreorder(a: Post, b: Post, c: Post, key: SortKey)
    ensures Before(a, b, key) || Before(b, a, key)
    ensures Before(a, b, key) && Before(b, c, key) ==> Before(a, c, key)
  {
  }

  ghost predicate Sorted(s: seq<Post>, key: SortKey)
  {
    forall i, j :: 0 <= i < j < |s| ==> Before(s[i], s[j], key)
  }

  /** A post that may precede every element of a sorted sequence can head it. */
  lemma ConsSorted(a: Post, t: seq<Post>, key: SortKey)
    requires Sorted(t, key)
    requires forall y :: y in multiset(t) ==> Before(a, y, key)
    ensures Sorted([a] + t, key)
  {
    var r := [a] + t;
    forall i, j | 0 <= i < j < |r| ensures Before(r[i], r[j], key) {
      if i == 0 {
        assert r[j] == t[j - 1];
        assert r[j] in multiset(t);
      } else {
        assert r[i] == t[i - 1] && r[j] == t[j - 1];
      }
    }
  }

  /** A post that may precede the head of a sorted sequence may precede all of it. */
  lemma BeforeHead(x: Post, s: seq<Post>, key: SortKey)
    requires Sorted(s, key) && s != [] && Before(x, s[0], key)
    ensures forall y :: y in multiset(s) ==> Before(x, y, key)
  {
    forall y | y in multiset(s) ensures Before(x, y, key) {
      var j :| 0 <= j < |s| && s[j] == y;
      BeforeTotalPreorder(x, s[0], y, key);
    }
  }

  /** Places `x` in the sorted `s` ahead of the first post it may precede. */
  function Insert(x: Post, s: seq<Post>, key: SortKey): (r: seq<Post>)
    requires Sorted(s, key)
    ensures Sorted(r, key)
    ensures multiset(r) == multiset(s) + multiset{x}
  {
    if s == [] then
      [x]
    else if Before(x, s[0], key) then
      BeforeHead(x, s, key);
      ConsSorted(x, s, key);
      [x] + s
    else
      assert s == [s[0]] + s[1..];
      assert Sorted(s[1..], key);
      var t := Insert(x, s[1..], key);
      assert Before(s[0], x, key) by { BeforeTotalPreorder(s[0], x, x, key); }
      assert forall y :: y in multiset(s[1..]) ==> Before(s[0], y, key) by {
        forall y | y in multiset(s[1..]) ensures Before(s[0], y, key) {
          var j :| 0 <= j < |s[1..]| && s[1..][j] == y;
          assert s[j + 1] == y;
        }
      }
      ConsSorted(s[0], t, key);
      [s[0]] + t
  }

  /** The posts of `s` arranged in `key` order. */
  function SortBy(s: seq<Post>, key: SortKey): (r: seq<Post>)
    ensures Sorted(r, key)
    ensures multiset(r) == multiset(s)
  {
    if s == [] then []
    else
      assert s == [s[0]] + s[1..];
      Insert(s[0], SortBy(s[1..], key), key)
  }

  /** The trending order is the popular order with ties broken newest first. */
  lemma TrendingRefinesPopular(s: seq<Post>)
    requires Sorted(s, Trending)
    ensures Sorted(s, Popular)
    ensures forall i, j :: 0 <= i < j < |s| && s[i].visit == s[j].visit ==> s[i].createdAt >= s[j].createdAt
  {
  }
}
