/** The post listing of `getPosts`: query parameters become a store filter and
    a sort order; the reply carries one page of the sorted matches, the number
    of matches and whether further pages exist. */
module Listing {
  import opened Outcomes
  import opened Text
  import opened Records
  import opened Ordering

  /** The raw query parameters; "" stands for an absent parameter. */
  datatype ListQuery = ListQuery(
    page: string,
    limit: string,
    cat: string,
    author: string,
    search: string,
    sort: string,
    featured: string)

  /** The store query object built from the parameters. */
  datatype Filter = Filter(
    category: Option<string>,
    search: Option<string>,
    user: Option<UserId>,
    featuredOnly: bool)

  /** The body of a successful reply. */
  datatype PostPage = PostPage(posts: seq<Post>, hasMore: bool, totalPosts: nat)

  /** `parseInt(req.query.page) || 1`. */
  function PageOf(q: ListQuery): int { ParamOr(q.page, 1) }

  /** `parseInt(req.query.limit) || 10`. */
  function LimitOf(q: ListQuery): int { ParamOr(q.limit, 10) }

  /** Builds the query object field by field; an `author` naming no user ends
      the request with NotFound before any post is counted or fetched. */
  function BuildFilter(q: ListQuery, users: seq<User>): (r: Reply<Filter>)
    ensures r.Ok? || r.NotFound?
    ensures r.NotFound? <==> q.author != "" && UserByName(users, q.author).None?
    ensures r.Ok? ==> (r.value.category.Some? <==> q.cat != "")
    ensures r.Ok? ==> (r.value.search.Some? <==> q.search != "")
    ensures r.Ok? ==> (r.value.user.Some? <==> q.author != "")
    ensures r.Ok? ==> (r.value.featuredOnly <==> q.featured != "")
  {
    var category := if q.cat != "" then Some(q.cat) else None;
    var search := if q.search != "" then Some(q.search) else None;
    var featuredOnly := q.featured != "";
    if q.author != "" then
      match UserByName(users, q.author)
      case None => NotFound
      case Some(u) => Ok(Filter(category, search, Some(u.id), featuredOnly))
    else
      Ok(Filter(category, search, None, featuredOnly))
  }

  /** A post satisfies the query object: every present condition holds, and
      the search condition is the `$or` over title, description and content. */
  predicate Matches(p: Post, f: Filter)
  {
    && (f.category.Some? ==> p.category == f.category.value)
    && (f.search.Some? ==>
          ContainsIgnoreCase(p.title, f.search.value)
          || ContainsIgnoreCase(p.desc, f.search.value)
          || ContainsIgnoreCase(p.content, f.search.value))
    && (f.user.Some? ==> p.user == f.user.value)
    && (f.featuredOnly ==> p.isFeatured)
  }

  /** What the listing promises, read off the parameters directly: category
      equality, a case-insensitive search over title or description or
      content, authorship by the named user, and the featured flag whenever
      `featured` is any non-empty string. */
  predicate Admits(q: ListQuery, users: seq<User>, p: Post)
  {
    && (q.cat != "" ==> p.category == q.cat)
    && (q.search != "" ==>
          ContainsIgnoreCase(p.title, q.search)
          || ContainsIgnoreCase(p.desc, q.search)
          || ContainsIgnoreCase(p.content, q.search))
    && (q.author != "" ==> UserByName(users, q.author).Some? && p.user == UserByName(users, q.author).value.id)
    && (q.featured != "" ==> p.isFeatured)
  }

  /** The posts the parameters admit, in store order. */
  function Admitted(posts: seq<Post>, users: seq<User>, q: ListQuery): seq<Post>
  {
    Select(posts, (p: Post) => Admits(q, users, p))
  }

  /** The query object selects exactly the posts the parameters admit. */
  lemma FilterMeaning(q: ListQuery, users: seq<User>, p: Post)
    requires BuildFilter(q, users).Ok?
    ensures Matches(p, BuildFilter(q, users).value) <==> Admits(q, users, p)
  {
  }

  /** `.skip(skip).limit(take)` on a sorted result. */
  function Window(s: seq<Post>, skip: nat, take: nat): (r: seq<Post>)
    ensures |r| <= take
    ensures skip >= |s| ==> r == []
    ensures forall i :: 0 <= i < |r| ==> skip + i < |s| && r[i] == s[skip + i]
    ensures skip < |s| ==> |r| == if skip + take <= |s| then take else |s| - skip
  {
    if skip >= |s| then []
    else if skip + take <= |s| then s[skip..skip + take]
    else s[skip..]
  }

  /** `getPosts` after the numeric parameters are parsed. The count ignores
      pagination; the page starts at `(page - 1) * limit` in the sorted
      matches; `hasMore` compares `page * limit` with the count. A negative
      skip is rejected by the store, and a negative limit fetches at most its
      absolute value. A zero limit never arrives here: `|| 10` replaces a
      parsed 0 with the default (and the store would read 0 as "no limit"). */
  function ListPosts(posts: seq<Post>, users: seq<User>, q: ListQuery, page: int, limit: int): (r: Reply<PostPage>)
    requires limit != 0
    ensures r.NotFound? <==> q.author != "" && UserByName(users, q.author).None?
    ensures r.StoreFailure? <==> !r.NotFound? && (page - 1) * limit < 0
    ensures r.Ok? || r.NotFound? || r.StoreFailure?
  {
    match BuildFilter(q, users)
    case Ok(f) =>
      var matching := Select(posts, (p: Post) => Matches(p, f));
      var totalPosts := |matching|;
      var skip := (page - 1) * limit;
      if skip < 0 then
        StoreFailure
      else
        var take := if limit < 0 then -limit else limit;
        Ok(PostPage(Window(SortBy(matching, SelectSort(q.sort)), skip, take), page * limit < totalPosts, totalPosts))
    case _ => NotFound
  }

  /** `getPosts`: `page` and `limit` are parsed with their defaults, then the
      listing is computed. */
  function GetPosts(posts: seq<Post>, users: seq<User>, q: ListQuery): (r: Reply<PostPage>)
    ensures r.NotFound? <==> q.author != "" && UserByName(users, q.author).None?
    ensures r.StoreFailure? <==> !r.NotFound? && (PageOf(q) - 1) * LimitOf(q) < 0
  {
    ListPosts(posts, users, q, PageOf(q), LimitOf(q))
  }

  /** The query object's selection is the admitted posts. */
  lemma MatchingIsAdmitted(posts: seq<Post>, users: seq<User>, q: ListQuery)
    requires BuildFilter(q, users).Ok?
    ensures Select(posts, (p: Post) => Matches(p, BuildFilter(q, users).value)) == Admitted(posts, users, q)
  {
    var f := BuildFilter(q, users).value;
    forall i | 0 <= i < |posts| ensures Matches(posts[i], f) == Admits(q, users, posts[i]) {
      FilterMeaning(q, users, posts[i]);
    }
    SelectAgrees(posts, (p: Post) => Matches(p, f), (p: Post) => Admits(q, users, p));
  }

  /** A window of a sorted sequence is sorted and holds only its elements. */
  lemma WindowOfSorted(s: seq<Post>, skip: nat, take: nat, key: SortKey)
    requires Sorted(s, key)
    ensures Sorted(Window(s, skip, take), key)
    ensures forall p :: p in Window(s, skip, take) ==> p in s
  {
    var w := Window(s, skip, take);
    forall p | p in w ensures p in s {
      var i :| 0 <= i < |w| && w[i] == p;
      assert s[skip + i] == p;
    }
  }

  /** What a successful listing is: the count of admitted posts, a window of
      at most `|limit|` of them starting at `(page - 1) * limit` in the
      requested order, sorted, each admitted by the parameters, and `hasMore`
      exactly when `page * limit` is below the count. */
  lemma ListPostsOk(posts: seq<Post>, users: seq<User>, q: ListQuery, page: int, limit: int)
    requires limit != 0
    requires ListPosts(posts, users, q, page, limit).Ok?
    ensures var r := ListPosts(posts, users, q, page, limit).value;
      var take := if limit < 0 then -limit else limit;
      && r.totalPosts == |Admitted(posts, users, q)|
      && r.hasMore == (page * limit < r.totalPosts)
      && (page - 1) * limit >= 0
      && r.posts == Window(SortBy(Admitted(posts, users, q), SelectSort(q.sort)), (page - 1) * limit, take)
      && |r.posts| <= take
      && Sorted(r.posts, SelectSort(q.sort))
      && (forall p :: p in r.posts ==> p in posts && Admits(q, users, p))
  {
    MatchingIsAdmitted(posts, users, q);
    var admitted := Admitted(posts, users, q);
    var sorted := SortBy(admitted, SelectSort(q.sort));
    var take := if limit < 0 then -limit else limit;
    WindowOfSorted(sorted, (page - 1) * limit, take, SelectSort(q.sort));
    var r := ListPosts(posts, users, q, page, limit).value;
    assert r.posts == Window(sorted, (page - 1) * limit, take);
    forall p | p in r.posts ensures p in posts && Admits(q, users, p) {
      assert p in multiset(sorted);
      assert p in admitted;
    }
  }

  /** Pagination never changes the reported total: the same filter reports
      the same `totalPosts` whatever `page` and `limit` are. */
  lemma TotalIgnoresPagination(posts: seq<Post>, users: seq<User>, q: ListQuery, page: int, limit: int, page': int, limit': int)
    requires limit != 0 && limit' != 0
    requires ListPosts(posts, users, q, page, limit).Ok?
    requires ListPosts(posts, users, q, page', limit').Ok?
    ensures ListPosts(posts, users, q, page, limit).value.totalPosts
         == ListPosts(posts, users, q, page', limit').value.totalPosts
  {
    ListPostsOk(posts, users, q, page, limit);
    ListPostsOk(posts, users, q, page', limit');
  }

  /** Without `page` and `limit` parameters the first page of ten is listed. */
  lemma DefaultPaging(q: ListQuery)
    requires q.page == "" && q.limit == ""
    ensures PageOf(q) == 1 && LimitOf(q) == 10
  {
    ParamOrAbsent(1);
    ParamOrAbsent(10);
  }

  /** Without filter parameters every post is admitted. */
  lemma AdmitsEverything(posts: seq<Post>, users: seq<User>, q: ListQuery)
    requires q.cat == "" && q.author == "" && q.search == "" && q.featured == ""
    ensures Admitted(posts, users, q) == posts
  {
    SelectAgrees(posts, (p: Post) => Admits(q, users, p), (p: Post) => true);
    SelectAll(posts);
  }

  /** A request without parameters lists the first ten posts of the store,
      newest first, and counts them all. */
  lemma DefaultListing(posts: seq<Post>, users: seq<User>, q: ListQuery)
    requires q == ListQuery("", "", "", "", "", "", "")
    ensures GetPosts(posts, users, q).Ok?
    ensures GetPosts(posts, users, q).value.posts == Window(SortBy(posts, Newest), 0, 10)
    ensures GetPosts(posts, users, q).value.totalPosts == |posts|
  {
    DefaultPaging(q);
    AdmitsEverything(posts, users, q);
    var r := ListPosts(posts, users, q, 1, 10);
    assert r.Ok?;
    ListPostsOk(posts, users, q, 1, 10);
    assert GetPosts(posts, users, q) == r;
  }

  lemma {:induction false} SelectAll(posts: seq<Post>)
    ensures Select(posts, (p: Post) => true) == posts
  {
    if posts != [] {
      SelectAll(posts[1..]);
      assert posts == [posts[0]] + posts[1..];
    }
  }
}
