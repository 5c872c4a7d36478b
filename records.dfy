/** The records of the document store and the lookups the controllers make on
    them. A `findOne` on a collection returns the first record, in the store's
    natural order, that satisfies its filter. */
module Records {
  import opened Outcomes

  type PostId = nat
  type UserId = nat

  /** A post document. `img` is "" when the post has no cover image. */
  datatype Post = Post(
    id: PostId,
    user: UserId,
    title: string,
    slug: string,
    desc: string,
    category: string,
    content: string,
    img: string,
    visit: nat,
    isFeatured: bool,
    createdAt: int)

  /** A user document, linked to the identity provider by `clerkUserId`. */
  datatype User = User(id: UserId, clerkUserId: string, username: string, savedPosts: seq<PostId>)

  /** The content fields a request body supplies when creating or editing a post. */
  datatype PostBody = PostBody(title: string, desc: string, category: string, content: string, img: string)

  /** The index of the first element of `s` satisfying `matches`. */
  function FirstIndex<T>(s: seq<T>, matches: T -> bool): (r: Option<nat>)
    ensures r.Some? ==> r.value < |s| && matches(s[r.value])
    ensures r.Some? ==> forall j :: 0 <= j < r.value ==> !matches(s[j])
    ensures r.None? <==> forall j :: 0 <= j < |s| ==> !matches(s[j])
  {
    if s == [] then None
    else if matches(s[0]) then Some(0)
    else
      match FirstIndex(s[1..], matches)
      case None => None
      case Some(k) => Some(k + 1)
  }

  /** The elements of `s` that satisfy `keep`, in their original order, as a
      store query returns the documents matching its filter. */
  function Select<T(!new)>(s: seq<T>, keep: T -> bool): (r: seq<T>)
    ensures |r| <= |s|
    ensures forall i :: 0 <= i < |r| ==> r[i] in s && keep(r[i])
    ensures forall i :: 0 <= i < |s| && keep(s[i]) ==> s[i] in r
    ensures multiset(r) <= multiset(s)
  {
    if s == [] then []
    else
      assert s == [s[0]] + s[1..];
      if keep(s[0]) then [s[0]] + Select(s[1..], keep) else Select(s[1..], keep)
  }

  /** The selection keeps every kept element as often as `s` holds it and
      drops every other element entirely. */
  lemma {:induction false} SelectCount<T(!new)>(s: seq<T>, keep: T -> bool, x: T)
    ensures multiset(Select(s, keep))[x] == if keep(x) then multiset(s)[x] else 0
  {
    if s != [] {
      assert s == [s[0]] + s[1..];
      SelectCount(s[1..], keep, x);
      if keep(s[0]) {
        assert Select(s, keep) == [s[0]] + Select(s[1..], keep);
      }
    }
  }

  /** Two filters that agree on every element of `s` select the same elements. */
  lemma {:induction false} SelectAgrees<T(!new)>(s: seq<T>, keep: T -> bool, keep': T -> bool)
    requires forall i :: 0 <= i < |s| ==> keep(s[i]) == keep'(s[i])
    ensures Select(s, keep) == Select(s, keep')
  {
    if s != [] {
      SelectAgrees(s[1..], keep, keep');
    }
  }

  /** `Post.findById(id)`, as an index into the post collection. */
  function PostIndexById(posts: seq<Post>, id: PostId): (r: Option<nat>)
    ensures r.Some? ==> r.value < |posts| && posts[r.value].id == id
    ensures r.Some? ==> forall j :: 0 <= j < r.value ==> posts[j].id != id
    ensures r.None? <==> forall j :: 0 <= j < |posts| ==> posts[j].id != id
  {
    FirstIndex(posts, (p: Post) => p.id == id)
  }

  /** `Post.findOne({ slug })`. */
  function PostBySlug(posts: seq<Post>, slug: string): (r: Option<Post>)
    ensures r.Some? ==> r.value in posts && r.value.slug == slug
    ensures r.Some? ==>
      exists i :: 0 <= i < |posts| && posts[i] == r.value && forall j :: 0 <= j < i ==> posts[j].slug != slug
    ensures r.None? <==> forall p :: p in posts ==> p.slug != slug
  {
    match FirstIndex(posts, (p: Post) => p.slug == slug)
    case None => None
    case Some(i) => Some(posts[i])
  }

  /** `User.findOne({ clerkUserId })`, as an index into the user collection. */
  function UserIndexByClerk(users: seq<User>, clerkUserId: string): (r: Option<nat>)
    ensures r.Some? ==> r.value < |users| && users[r.value].clerkUserId == clerkUserId
    ensures r.Some? ==> forall j :: 0 <= j < r.value ==> users[j].clerkUserId != clerkUserId
    ensures r.None? <==> forall j :: 0 <= j < |users| ==> users[j].clerkUserId != clerkUserId
  {
    FirstIndex(users, (u: User) => u.clerkUserId == clerkUserId)
  }

  /** `User.findOne({ username })`. */
  function UserByName(users: seq<User>, username: string): (r: Option<User>)
    ensures r.Some? ==> r.value in users && r.value.username == username
    ensures r.Some? ==>
      exists i :: 0 <= i < |users| && users[i] == r.value && forall j :: 0 <= j < i ==> users[j].username != username
    ensures r.None? <==> forall u :: u in users ==> u.username != username
  {
    match FirstIndex(users, (u: User) => u.username == username)
    case None => None
    case Some(i) => Some(users[i])
  }

  /** The user record the identity provider's id resolves to, if any. */
  predicate KnownClerkUser(users: seq<User>, clerkUserId: string)
  {
    UserIndexByClerk(users, clerkUserId).Some?
  }

  /** `sessionClaims?.metadata?.role || "user"` compared with "admin"; an
      absent claim is "". */
  predicate IsAdmin(roleClaim: string): (r: bool)
    ensures r <==> roleClaim == "admin"
  {
    (if roleClaim == "" then "user" else roleClaim) == "admin"
  }

  ghost predicate PostIdsDistinct(posts: seq<Post>)
  {
    forall i, j :: 0 <= i < j < |posts| ==> posts[i].id != posts[j].id
  }

  ghost predicate SlugsUnique(posts: seq<Post>)
  {
    forall i, j :: 0 <= i < j < |posts| ==> posts[i].slug != posts[j].slug
  }

  ghost predicate UserIdsDistinct(users: seq<User>)
  {
    forall i, j :: 0 <= i < j < |users| ==> users[i].id != users[j].id
  }

  /** With unique slugs, the post `findOne({ slug })` returns is the only one
      holding that slug. */
  lemma SlugLookupUnique(posts: seq<Post>, slug: string, i: nat)
    requires SlugsUnique(posts)
    requires i < |posts| && posts[i].slug == slug
    ensures PostBySlug(posts, slug) == Some(posts[i])
  {
    var k := FirstIndex(posts, (p: Post) => p.slug == slug);
    assert k.Some?;
  }
}
