/** The saved-post list of a user: the toggle `savePost` applies with `$push`
    and `$pull`, and the two reads of the list. */
module Saved {
  import opened Outcomes
  import opened Records
  import opened Ordering

  predicate NoDuplicates(s: seq<PostId>)
  {
    forall i, j :: 0 <= i < j < |s| ==> s[i] != s[j]
  }

  /** `$pull`: every occurrence of `x` is removed, the rest keeps its order. */
  function RemoveAll(s: seq<PostId>, x: PostId): (r: seq<PostId>)
    ensures x !in r
    ensures forall y :: y != x ==> (y in r <==> y in s)
    ensures x !in s ==> r == s
    ensures |r| <= |s|
    ensures multiset(r) == multiset(s)[x := 0]
  {
    if s == [] then []
    else
      assert s == [s[0]] + s[1..];
      if s[0] == x then RemoveAll(s[1..], x)
      else [s[0]] + RemoveAll(s[1..], x)
  }

  /** Pulling works piecewise, so the remaining ids keep their relative order:
      pulling from a concatenation concatenates the pulled parts. */
  lemma {:induction false} RemoveAllConcat(a: seq<PostId>, b: seq<PostId>, x: PostId)
    ensures RemoveAll(a + b, x) == RemoveAll(a, x) + RemoveAll(b, x)
  {
    if a != [] {
      assert (a + b)[1..] == a[1..] + b;
      assert (a + b)[0] == a[0];
      RemoveAllConcat(a[1..], b, x);
    } else {
      assert a + b == b;
    }
  }

  /** Removing elements keeps a list free of duplicates. */
  lemma {:induction false} RemoveAllNoDuplicates(s: seq<PostId>, x: PostId)
    requires NoDuplicates(s)
    ensures NoDuplicates(RemoveAll(s, x))
  {
    if s != [] {
      assert NoDuplicates(s[1..]);
      RemoveAllNoDuplicates(s[1..], x);
      if s[0] != x {
        assert s[0] !in s[1..];
        assert s[0] !in RemoveAll(s[1..], x);
      }
    }
  }

  /** What `savePost` does to the list: an id that is absent is appended at
      the end; an id that is present is removed everywhere. */
  function Toggle(saved: seq<PostId>, postId: PostId): (r: seq<PostId>)
    ensures postId in r <==> postId !in saved
    ensures forall y :: y != postId ==> (y in r <==> y in saved)
    ensures postId !in saved ==> r == saved + [postId]
    ensures postId in saved ==> r == RemoveAll(saved, postId)
    ensures postId in saved ==> multiset(r) == multiset(saved)[postId := 0]
  {
    if postId in saved then RemoveAll(saved, postId) else saved + [postId]
  }

  /** A duplicate-free list stays duplicate-free. */
  lemma ToggleNoDuplicates(saved: seq<PostId>, postId: PostId)
    requires NoDuplicates(saved)
    ensures NoDuplicates(Toggle(saved, postId))
  {
    if postId in saved {
      RemoveAllNoDuplicates(saved, postId);
    }
  }

  /** Toggling the same id twice restores the membership of every id, and
      restores the list itself when the id was not saved before. */
  lemma ToggleTwice(saved: seq<PostId>, postId: PostId)
    ensures forall y :: y in Toggle(Toggle(saved, postId), postId) <==> y in saved
    ensures postId !in saved ==> Toggle(Toggle(saved, postId), postId) == saved
  {
    if postId !in saved {
      var once := saved + [postId];
      assert once[..|saved|] == saved;
      RemoveAppended(saved, postId);
    }
  }

  lemma {:induction false} RemoveAppended(s: seq<PostId>, x: PostId)
    requires x !in s
    ensures RemoveAll(s + [x], x) == s
  {
    if s == [] {
      assert [x][1..] == [];
    } else {
      assert (s + [x])[1..] == s[1..] + [x];
      RemoveAppended(s[1..], x);
      assert s == [s[0]] + s[1..];
    }
  }

  /** `getUserSavedPosts`: the caller's list as stored. */
  function SavedPostIds(users: seq<User>, clerkUserId: string): (r: Reply<seq<PostId>>)
    requires clerkUserId != "" ==> KnownClerkUser(users, clerkUserId)
    ensures r.Unauthenticated? <==> clerkUserId == ""
    ensures r.Ok? ==> r.value == users[UserIndexByClerk(users, clerkUserId).value].savedPosts
    ensures r.Ok? || r.Unauthenticated?
  {
    if clerkUserId == "" then Unauthenticated
    else Ok(users[UserIndexByClerk(users, clerkUserId).value].savedPosts)
  }

  /** `getUserSavedPostsDetails`: the posts whose id is saved, ids without a
      post left out, newest first; an empty list answers `[]` at once. */
  function SavedPostDetails(posts: seq<Post>, users: seq<User>, clerkUserId: string): (r: Reply<seq<Post>>)
    requires clerkUserId != "" ==> KnownClerkUser(users, clerkUserId)
    ensures r.Unauthenticated? <==> clerkUserId == ""
    ensures r.Ok? || r.Unauthenticated?
    ensures r.Ok? ==>
      var saved := users[UserIndexByClerk(users, clerkUserId).value].savedPosts;
      && (forall p :: p in r.value <==> p in posts && p.id in saved)
      && (forall p :: multiset(r.value)[p] == if p.id in saved then multiset(posts)[p] else 0)
      && Sorted(r.value, Newest)
      && (saved == [] ==> r.value == [])
  {
    if clerkUserId == "" then Unauthenticated
    else
      var saved := users[UserIndexByClerk(users, clerkUserId).value].savedPosts;
      if saved == [] then Ok([])
      else
        var keep := (p: Post) => p.id in saved;
        var found := Select(posts, keep);
        var r := SortBy(found, Newest);
        forall p ensures p in r <==> p in posts && p.id in saved {
          assert p in r <==> p in multiset(found);
        }
        forall p ensures multiset(r)[p] == if p.id in saved then multiset(posts)[p] else 0 {
          SelectCount(posts, keep, p);
        }
        Ok(r)
  }

  /** The early answer for an empty list is the one the query would give. */
  lemma EmptyListShortcut(posts: seq<Post>)
    ensures SortBy(Select(posts, (p: Post) => p.id in []), Newest) == []
  {
    var found := Select(posts, (p: Post) => p.id in []);
    assert forall i :: 0 <= i < |found| ==> found[i].id in [];
  }
}
