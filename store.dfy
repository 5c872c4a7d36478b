/** The request handlers that change the document store: `createPost`,
    `updatePost`, `deletePost`, `featurePost` and `savePost`. The store is an
    object holding the post and user collections; each handler runs as one
    atomic step on it. */
module Backend {
  import opened Outcomes
  import opened Text
  import opened Records
  import opened Slugs
  import opened Saved

  /** Some post in `posts` holds `slug`. */
  predicate SlugTaken(posts: seq<Post>, slug: string)
  {
    PostBySlug(posts, slug).Some?
  }

  /** The longest slug in the store. */
  function MaxSlugLength(posts: seq<Post>): (n: nat)
    ensures forall i :: 0 <= i < |posts| ==> |posts[i].slug| <= n
  {
    if posts == [] then 0
    else
      var rest := MaxSlugLength(posts[1..]);
      if |posts[0].slug| > rest then |posts[0].slug| else rest
  }

  /** The first `n` candidates are all held by some post. */
  ghost predicate CandidatesTaken(posts: seq<Post>, stem: string, n: nat)
  {
    forall j :: 0 <= j < n ==> SlugTaken(posts, Candidate(stem, j))
  }

  lemma CandidatesTakenStep(posts: seq<Post>, stem: string, n: nat)
    requires CandidatesTaken(posts, stem, n) && SlugTaken(posts, Candidate(stem, n))
    ensures CandidatesTaken(posts, stem, n + 1)
  {
  }

  /** `updatePost`'s edit: the five content fields come from the body; owner,
      slug, visit count, featured flag and creation time stay. */
  function EditContent(p: Post, body: PostBody): (r: Post)
    ensures r.title == body.title && r.desc == body.desc && r.img == body.img
    ensures r.category == body.category && r.content == body.content
    ensures r.id == p.id && r.user == p.user && r.slug == p.slug
    ensures r.visit == p.visit && r.isFeatured == p.isFeatured && r.createdAt == p.createdAt
  {
    p.(title := body.title, desc := body.desc, img := body.img, category := body.category, content := body.content)
  }

  /** `featurePost`'s edit: the featured flag is negated, nothing else changes. */
  function ToggleFeatured(p: Post): (r: Post)
    ensures r.isFeatured == !p.isFeatured
    ensures r.(isFeatured := p.isFeatured) == p
  {
    p.(isFeatured := !p.isFeatured)
  }

  /** Featuring twice restores the post. */
  lemma ToggleFeaturedTwice(p: Post)
    ensures ToggleFeatured(ToggleFeatured(p)) == p
  {
  }

  /** The collection without its `i`-th document. */
  function RemoveAt(posts: seq<Post>, i: nat): (r: seq<Post>)
    requires i < |posts|
    ensures |r| == |posts| - 1
    ensures forall j :: 0 <= j < i ==> r[j] == posts[j]
    ensures forall j :: i <= j < |r| ==> r[j] == posts[j + 1]
  {
    posts[..i] + posts[i + 1..]
  }

  /** With distinct ids, removing the `i`-th post removes exactly the post with
      its id and keeps every other post. */
  lemma RemoveAtMeaning(posts: seq<Post>, i: nat)
    requires PostIdsDistinct(posts) && i < |posts|
    ensures forall p :: p in RemoveAt(posts, i) <==> p in posts && p.id != posts[i].id
  {
    var r := RemoveAt(posts, i);
    forall p ensures p in r <==> p in posts && p.id != posts[i].id {
      if p in r {
        var j :| 0 <= j < |r| && r[j] == p;
        if j < i { assert p == posts[j]; } else { assert p == posts[j + 1]; }
      }
      if p in posts && p.id != posts[i].id {
        var j :| 0 <= j < |posts| && posts[j] == p;
        if j < i { assert r[j] == p; } else { assert j > i && r[j - 1] == p; }
      }
    }
  }

  class Store {
    var posts: seq<Post>
    var users: seq<User>
    /** The id the store gives the next post it inserts. */
    var nextId: PostId

    /** Post ids are distinct and below `nextId`, slugs are unique, user ids
        are distinct. */
    ghost predicate Valid()
      reads this
    {
      && PostIdsDistinct(posts)
      && SlugsUnique(posts)
      && UserIdsDistinct(users)
      && (forall i :: 0 <= i < |posts| ==> posts[i].id < nextId)
    }

    constructor (users: seq<User>)
      requires UserIdsDistinct(users)
      ensures Valid()
      ensures this.posts == [] && this.users == users && this.nextId == 0
    {
      this.posts := [];
      this.users := users;
      this.nextId := 0;
    }

    /** The slug loop of `createPost`: probes the store for `stem`, then
        appends "-2", "-3", ... to the current candidate until no post holds
        it. The result is the first free candidate. */
    method AllocateSlug(stem: string) returns (slug: string, ghost retries: nat)
      ensures !SlugTaken(posts, slug)
      ensures slug == Candidate(stem, retries)
      ensures CandidatesTaken(posts, stem, retries)
    {
      slug := stem;
      var existingPost := PostBySlug(posts, slug);
      var counter: nat := 2;
      while existingPost.Some?
        invariant counter >= 2
        invariant slug == Candidate(stem, counter - 2)
        invariant existingPost == PostBySlug(posts, slug)
        invariant CandidatesTaken(posts, stem, counter - 2)
        decreases MaxSlugLength(posts) - |slug|
      {
        assert |slug| <= MaxSlugLength(posts) by {
          var i :| 0 <= i < |posts| && posts[i] == existingPost.value;
        }
        CandidatesTakenStep(posts, stem, counter - 2);
        CandidateNext(stem, counter - 2);
        slug := slug + "-" + NatToDecimal(counter);
        existingPost := PostBySlug(posts, slug);
        counter := counter + 1;
      }
      retries := counter - 2;
    }

    /** `createPost`. The caller must be identified and known; the slug is
        the first candidate, stem, stem-2, stem-2-3, ..., that no post holds;
        the new post belongs to the caller and is appended to the store. */
    method CreatePost(clerkUserId: string, body: PostBody, now: int) returns (r: Reply<Post>)
      requires Valid()
      modifies this
      ensures Valid()
      ensures users == old(users)
      ensures clerkUserId == "" ==> r == Unauthenticated
      ensures clerkUserId != "" && !KnownClerkUser(users, clerkUserId) ==> r == NotFound
      ensures clerkUserId != "" && KnownClerkUser(old(users), clerkUserId) ==> r.Ok?
      ensures r.Ok? || r.Unauthenticated? || r.NotFound?
      ensures !r.Ok? ==> posts == old(posts) && nextId == old(nextId)
      ensures r.Ok? ==>
        && clerkUserId != "" && KnownClerkUser(users, clerkUserId)
        && posts == old(posts) + [r.value]
        && nextId == old(nextId) + 1
        && r.value.id == old(nextId)
        && r.value.user == users[UserIndexByClerk(users, clerkUserId).value].id
        && r.value.title == body.title && r.value.desc == body.desc && r.value.category == body.category
        && r.value.content == body.content && r.value.img == body.img
        && r.value.visit == 0 && !r.value.isFeatured && r.value.createdAt == now
        && !SlugTaken(old(posts), r.value.slug)
        && exists k: nat :: r.value.slug == Candidate(Slugify(body.title), k)
             && CandidatesTaken(old(posts), Slugify(body.title), k)
    {
      if clerkUserId == "" {
        return Unauthenticated;
      }
      var found := UserIndexByClerk(users, clerkUserId);
      if found.None? {
        return NotFound;
      }
      var user := users[found.value];
      var slug, retries := AllocateSlug(Slugify(body.title));
      var post := Post(nextId, user.id, body.title, slug, body.desc, body.category,
                       body.content, body.img, 0, false, now);
      assert forall i :: 0 <= i < |posts| ==> posts[i].slug != slug;
      posts := posts + [post];
      nextId := nextId + 1;
      r := Ok(post);
    }

    /** `updatePost`. Checked in order: the caller is identified, the post
        exists, the caller owns it or is an admin. Only the content fields
        change; a rejected call changes nothing. */
    method UpdatePost(clerkUserId: string, roleClaim: string, id: PostId, body: PostBody) returns (r: Reply<Post>)
      requires Valid()
      requires clerkUserId != "" && PostIndexById(posts, id).Some? ==> KnownClerkUser(users, clerkUserId)
      modifies this
      ensures Valid()
      ensures users == old(users) && nextId == old(nextId)
      ensures clerkUserId == "" ==> r == Unauthenticated
      ensures clerkUserId != "" && PostIndexById(old(posts), id).None? ==> r == NotFound
      ensures clerkUserId != "" && PostIndexById(old(posts), id).Some? ==>
        var i := PostIndexById(old(posts), id).value;
        var owner := old(posts)[i].user == users[UserIndexByClerk(users, clerkUserId).value].id;
        && (!owner && !IsAdmin(roleClaim) ==> r == Forbidden)
        && (owner || IsAdmin(roleClaim) ==>
              r == Ok(EditContent(old(posts)[i], body)) && posts == old(posts)[i := r.value])
      ensures !r.Ok? ==> posts == old(posts)
    {
      if clerkUserId == "" {
        return Unauthenticated;
      }
      var found := PostIndexById(posts, id);
      if found.None? {
        return NotFound;
      }
      var i := found.value;
      var user := users[UserIndexByClerk(users, clerkUserId).value];
      if posts[i].user != user.id && !IsAdmin(roleClaim) {
        return Forbidden;
      }
      var updated := EditContent(posts[i], body);
      posts := posts[i := updated];
      r := Ok(updated);
    }

    /** `deletePost`. An admin deletes the post with the id, if there is one,
        and is answered Ok either way; anyone else deletes it only when they
        own it and is otherwise Forbidden, a missing post included. */
    method DeletePost(clerkUserId: string, roleClaim: string, id: PostId) returns (r: Reply<()>)
      requires Valid()
      requires clerkUserId != "" && !IsAdmin(roleClaim) ==> KnownClerkUser(users, clerkUserId)
      modifies this
      ensures Valid()
      ensures users == old(users) && nextId == old(nextId)
      ensures clerkUserId == "" ==> r == Unauthenticated
      ensures clerkUserId != "" && IsAdmin(roleClaim) ==>
        && r == Ok(())
        && (PostIndexById(old(posts), id).None? ==> posts == old(posts))
        && (PostIndexById(old(posts), id).Some? ==> posts == RemoveAt(old(posts), PostIndexById(old(posts), id).value))
      ensures clerkUserId != "" && !IsAdmin(roleClaim) ==>
        var uid := users[UserIndexByClerk(users, clerkUserId).value].id;
        var owned := FirstIndex(old(posts), (p: Post) => p.id == id && p.user == uid);
        && (owned.None? ==> r == Forbidden)
        && (owned.Some? ==> r == Ok(()) && posts == RemoveAt(old(posts), owned.value))
      ensures !r.Ok? ==> posts == old(posts)
    {
      if clerkUserId == "" {
        return Unauthenticated;
      }
      if IsAdmin(roleClaim) {
        var found := PostIndexById(posts, id);
        if found.Some? {
          posts := RemoveAt(posts, found.value);
        }
        return Ok(());
      }
      var user := users[UserIndexByClerk(users, clerkUserId).value];
      var deleted := FirstIndex(posts, (p: Post) => p.id == id && p.user == user.id);
      if deleted.None? {
        return Forbidden;
      }
      posts := RemoveAt(posts, deleted.value);
      r := Ok(());
    }

    /** `featurePost`. Checked in order: the caller is identified, is an
        admin, the post exists; then its featured flag is negated. */
    method FeaturePost(clerkUserId: string, roleClaim: string, id: PostId) returns (r: Reply<Post>)
      requires Valid()
      modifies this
      ensures Valid()
      ensures users == old(users) && nextId == old(nextId)
      ensures clerkUserId == "" ==> r == Unauthenticated
      ensures clerkUserId != "" && !IsAdmin(roleClaim) ==> r == Forbidden
      ensures clerkUserId != "" && IsAdmin(roleClaim) && PostIndexById(old(posts), id).None? ==> r == NotFound
      ensures clerkUserId != "" && IsAdmin(roleClaim) && PostIndexById(old(posts), id).Some? ==>
        var i := PostIndexById(old(posts), id).value;
        r == Ok(ToggleFeatured(old(posts)[i])) && posts == old(posts)[i := r.value]
      ensures !r.Ok? ==> posts == old(posts)
    {
      if clerkUserId == "" {
        return Unauthenticated;
      }
      if !IsAdmin(roleClaim) {
        return Forbidden;
      }
      var found := PostIndexById(posts, id);
      if found.None? {
        return NotFound;
      }
      var updated := ToggleFeatured(posts[found.value]);
      posts := posts[found.value := updated];
      r := Ok(updated);
    }

    /** `savePost`. Toggles `postId` in the caller's saved list, whether or
        not a post has that id, and answers "Post saved" when the id was
        absent and "Post unsaved" when it was present. Posts and other users
        are untouched. */
    method SavePost(clerkUserId: string, postId: PostId) returns (r: Reply<string>)
      requires Valid()
      requires clerkUserId != "" ==> KnownClerkUser(users, clerkUserId)
      modifies this
      ensures Valid()
      ensures posts == old(posts) && nextId == old(nextId)
      ensures clerkUserId == "" ==> r == Unauthenticated && users == old(users)
      ensures clerkUserId != "" ==>
        var i := UserIndexByClerk(old(users), clerkUserId).value;
        var saved := old(users)[i].savedPosts;
        && r == Ok(if postId in saved then "Post unsaved" else "Post saved")
        && users == old(users)[i := old(users)[i].(savedPosts := Toggle(saved, postId))]
    {
      if clerkUserId == "" {
        return Unauthenticated;
      }
      var i := UserIndexByClerk(users, clerkUserId).value;
      var isSaved := postId in users[i].savedPosts;
      users := users[i := users[i].(savedPosts := Toggle(users[i].savedPosts, postId))];
      r := Ok(if isSaved then "Post unsaved" else "Post saved");
    }
  }

  /** Featuring a post twice leaves the store as it was. */
  method FeatureTwice(store: Store, clerkUserId: string, id: PostId)
    requires store.Valid()
    requires clerkUserId != "" && PostIndexById(store.posts, id).Some?
    modifies store
    ensures store.Valid()
    ensures store.posts == old(store.posts)
    ensures store.users == old(store.users) && store.nextId == old(store.nextId)
  {
    var first := store.FeaturePost(clerkUserId, "admin", id);
    assert PostIndexById(store.posts, id) == PostIndexById(old(store.posts), id) by {
      var i := PostIndexById(old(store.posts), id).value;
      assert forall j :: 0 <= j < |store.posts| ==> store.posts[j].id == old(store.posts)[j].id;
    }
    var second := store.FeaturePost(clerkUserId, "admin", id);
    ToggleFeaturedTwice(old(store.posts)[PostIndexById(old(store.posts), id).value]);
  }

  /** Saving a post twice restores which ids the caller has saved, and
      restores the user collection when the post was not saved before. */
  method SaveThenUnsave(store: Store, clerkUserId: string, postId: PostId)
    requires store.Valid()
    requires clerkUserId != "" && KnownClerkUser(store.users, clerkUserId)
    modifies store
    ensures store.Valid()
    ensures store.posts == old(store.posts) && store.nextId == old(store.nextId)
    ensures var i := UserIndexByClerk(old(store.users), clerkUserId).value;
      && |store.users| == |old(store.users)|
      && (forall y :: y in store.users[i].savedPosts <==> y in old(store.users)[i].savedPosts)
      && (postId !in old(store.users)[i].savedPosts ==> store.users == old(store.users))
  {
    var first := store.SavePost(clerkUserId, postId);
    assert UserIndexByClerk(store.users, clerkUserId) == UserIndexByClerk(old(store.users), clerkUserId) by {
      assert forall j :: 0 <= j < |store.users| ==> store.users[j].clerkUserId == old(store.users)[j].clerkUserId;
    }
    var second := store.SavePost(clerkUserId, postId);
    var i := UserIndexByClerk(old(store.users), clerkUserId).value;
    ToggleTwice(old(store.users)[i].savedPosts, postId);
    if postId !in old(store.users)[i].savedPosts {
      assert store.users[i] == old(store.users)[i];
    }
  }
}
