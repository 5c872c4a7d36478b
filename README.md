# Blog backend request logic, modelled in Dafny

This project models the request handlers of a blogging platform's REST API:
the post controller (`getPosts`, `getPost`, `createPost`, `updatePost`,
`deletePost`, `featurePost`) and the user controller (`getUserSavedPosts`,
`getUserSavedPostsDetails`, `savePost`). The document store is an in-memory
stand-in: a `Backend.Store` object holding the post and user collections as
sequences, in the store's natural order. Identity comes from the identity
provider as a clerk user id and an optional role claim; both are parameters,
and "" stands for an absent value, as JavaScript treats both as falsy. The
same holds for query parameters. Replies are the `Outcomes.Reply` datatype:
`Ok`, `Unauthenticated` (401), `NotFound` (404), `Forbidden` (403) and
`StoreFailure` (a query the store rejects; the status the client then sees
is outside this model).

Files:

- `outcomes.dfy`: `Option` and `Reply`.
- `text.dfy`: ASCII lower-casing, space replacement, case-insensitive
  substring search, decimal printing, and JavaScript's `parseInt` with the
  `|| default` idiom.
- `records.dfy`: the `Post` and `User` documents, first-match lookups
  (`findOne`, `findById`) and the selection of matching documents.
- `ordering.dfy`: the four sort orders and a stable insertion sort.
- `listing.dfy`: `getPosts` as a pure function over the collections, with
  its filter, count, page window and `hasMore`.
- `slugs.dfy`: the slug candidates `createPost` probes.
- `saved.dfy`: the saved-post toggle and the two saved-post reads.
- `store.dfy`: the `Store` class with the handlers that change the store.

The pure reads (`getPosts`, `getPost`, the saved-post reads) are functions of
the collections. The handlers that change documents are methods of the
`Store` class. Each method checks its errors in the source's order, says what
the new collections are, and leaves them untouched when it rejects the call.
`Store.Valid()` is preserved by every handler. It holds when post ids are
distinct, slugs are unique, user ids are distinct and every post id is below
the counter `nextId` that the next new post takes.

The slug loop is modelled as written. Each retry appends `-counter` to the
current candidate, so the candidates are `t`, `t-2`, `t-2-3`, `t-2-3-4`, and
so on. A third post titled "Hello World" gets `hello-world-2-3`, never
`hello-world-3` (`Slugs.FirstRetries`, `Slugs.NeverStemDashThree`).

## Model

| member | source | states |
|---|---|---|
| `Text.ParseInt` | backend/controllers/post.controller.js:6-7 | `parseInt` gives NaN when, after leading white space, the text is empty or does not start with a digit or a sign |
| `Text.ParamOr` | backend/controllers/post.controller.js:6-7 | `parseInt(raw) \|\| d`: NaN and 0 give the default; every other parsed value, negatives included, passes through; the result is never 0 when the default is not |
| `Text.ParseIntOfDecimal` | backend/controllers/post.controller.js:6-7 | `parseInt` reads back every decimal number printed without a sign |
| `Text.ParseIntOfNegatedDecimal` | backend/controllers/post.controller.js:6-7 | `parseInt` reads back every decimal number printed with a minus sign, as its negation |
| `Text.ParamOrAbsent` | backend/controllers/post.controller.js:6-7 | an absent parameter gives the default |
| `Text.ParamOrDecimal` | backend/controllers/post.controller.js:6-7 | a positive or negative decimal passes through; "0" gives the default |
| `Text.IsSubstring` | backend/controllers/post.controller.js:21-27 | the scan answers true exactly when the needle occurs at some position of the field |
| `Text.Lower` | backend/controllers/post.controller.js:104 | `toLowerCase` keeps the length and maps every character through `LowerChar`, so no capital remains and nothing else changes |
| `Text.FoldedMatchAtOccurs` | backend/controllers/post.controller.js:21-27 | the needle matches the field at an index up to ASCII case exactly when the lower-cased needle occurs there in the lower-cased field |
| `Text.ContainsIgnoreCaseMeaning` | backend/controllers/post.controller.js:21-27 | a search with option "i" matches exactly when, at some index, every character of the search text equals the field's up to ASCII case |
| `Text.SearchExample` | backend/controllers/post.controller.js:21-27 | a field holding "ABC" matches the search "abc" |
| `Text.SearchIgnoresNeedleCase` | backend/controllers/post.controller.js:21-27 | lower-casing the search text does not change which fields match |
| `Text.SearchIgnoresFieldCase` | backend/controllers/post.controller.js:21-27 | lower-casing the field does not change whether it matches |
| `Text.NatToDecimal` | backend/controllers/post.controller.js:111 | `${counter}` prints digits only, with no leading zero, one digit exactly below 10, and reads back as the counter |
| `Text.Slugify` | backend/controllers/post.controller.js:104 | each character of the title maps to one of the stem: a space becomes `-`, an upper-case ASCII letter its lower-case letter, anything else stays |
| `Text.SlugifyExample` | backend/controllers/post.controller.js:104 | "Hello World" gives the stem "hello-world" |
| `Text.LowerChar` | backend/controllers/post.controller.js:104 | an upper-case ASCII letter becomes the letter 32 code points above it |
| `Text.ReplaceSpaces` | backend/controllers/post.controller.js:104 | every space becomes `-` and every other character stays in place |
| `Records.PostBySlug` | backend/controllers/post.controller.js:81-87 | `getPost`: the answer is the first post of the store holding the slug, and there is none exactly when no post holds it |
| `Records.SlugLookupUnique` | backend/controllers/post.controller.js:81-87 | with unique slugs, the post found is the only one holding the slug |
| `Records.PostIndexById` | backend/controllers/post.controller.js:131 | `findById`: the index found holds a post with the id and no earlier one does; none exactly when no post has the id |
| `Records.UserIndexByClerk` | backend/controllers/post.controller.js:98 | `findOne({ clerkUserId })`: the index found holds a user with the clerk id and no earlier one does; none exactly when no user has it |
| `Records.IsAdmin` | backend/controllers/post.controller.js:166-168 | the role is `admin` exactly when the claim is `admin`; an absent claim counts as `user` |
| `Records.UserByName` | backend/controllers/post.controller.js:30-34 | the author lookup finds the first user with that username, or none exists |
| `Ordering.SelectSort` | backend/controllers/post.controller.js:43-59 | "oldest", "popular" and "trending" select their orders; absent or any other value selects newest first |
| `Ordering.BeforeTotalPreorder` | backend/controllers/post.controller.js:43-59 | each sort order relates any two posts and is transitive |
| `Ordering.SortBy` | backend/controllers/post.controller.js:65-67 | the result is sorted by the key and is a permutation of the input |
| `Ordering.TrendingRefinesPopular` | backend/controllers/post.controller.js:53-55 | a trending listing is in descending visit order, with ties newest first |
| `Listing.BuildFilter` | backend/controllers/post.controller.js:9-41 | each query condition is present exactly when its parameter is non-empty; an author naming no user gives NotFound |
| `Listing.FilterMeaning` | backend/controllers/post.controller.js:17-41 | the query object admits a post exactly when category, search over title/desc/content, author and featured conditions all hold, AND-combined |
| `Listing.MatchingIsAdmitted` | backend/controllers/post.controller.js:62-65 | the documents the query object selects are the posts the parameters admit, in store order |
| `Listing.Window` | backend/controllers/post.controller.js:68-69 | the window has at most `take` posts, is the run starting at `skip`, and is empty past the end |
| `Listing.ListPosts` | backend/controllers/post.controller.js:29-78 | for a non-zero limit (the only kind `\|\| 10` produces): NotFound exactly for an unknown author; StoreFailure exactly for a negative skip; Ok otherwise |
| `Listing.GetPosts` | backend/controllers/post.controller.js:5-78 | the same outcomes with `page` and `limit` parsed from the raw parameters |
| `Listing.ListPostsOk` | backend/controllers/post.controller.js:61-78 | `totalPosts` counts the admitted posts; the page is the window at `(page-1)*limit` of at most `\|limit\|` sorted admitted posts; every returned post is admitted; `hasMore == (page*limit < totalPosts)` |
| `Listing.TotalIgnoresPagination` | backend/controllers/post.controller.js:61-62 | the reported total does not depend on `page` or `limit` |
| `Listing.DefaultPaging` | backend/controllers/post.controller.js:6-7 | without `page` and `limit`, the page is 1 and the limit 10 |
| `Listing.AdmitsEverything` | backend/controllers/post.controller.js:17-41 | without filter parameters every post is admitted |
| `Listing.DefaultListing` | backend/controllers/post.controller.js:5-78 | a request without parameters lists the ten newest posts and counts all posts |
| `Slugs.Candidate` | backend/controllers/post.controller.js:108-114 | each candidate starts with the stem and is at least two characters longer per retry |
| `Slugs.CandidatesGrow` | backend/controllers/post.controller.js:110-114 | later candidates are strictly longer, so no candidate repeats |
| `Slugs.FirstRetries` | backend/controllers/post.controller.js:111 | the first two retries are stem-2 and stem-2-3 |
| `Slugs.NeverStemDashThree` | backend/controllers/post.controller.js:111 | stem-3 is never a candidate |
| `Backend.Store.AllocateSlug` | backend/controllers/post.controller.js:104-114 | the loop ends with a slug no post holds, the first candidate in probe order that is free |
| `Backend.Store.CreatePost` | backend/controllers/post.controller.js:89-120 | Unauthenticated, then NotFound for an unknown user, and no change; a known caller always gets Ok, and a new post owned by the caller with the body's content, a free slug, visit 0, not featured, is appended and the id counter advances by one |
| `Backend.EditContent` | backend/controllers/post.controller.js:144-154 | an edit replaces title, desc, img, category and content and keeps id, owner, slug, visit, featured flag and creation time |
| `Backend.Store.UpdatePost` | backend/controllers/post.controller.js:122-157 | Unauthenticated, then NotFound, then Forbidden for a non-owner non-admin; on success only the post's content fields change; on error nothing changes |
| `Backend.RemoveAt` | backend/controllers/post.controller.js:169 | removing the post at an index keeps the posts before it and shifts the posts after it down by one |
| `Backend.RemoveAtMeaning` | backend/controllers/post.controller.js:168-178 | deleting the found post removes exactly the post with its id and keeps every other post |
| `Backend.Store.DeletePost` | backend/controllers/post.controller.js:159-185 | an admin deletes the post if it exists and gets Ok either way; anyone else deletes only a post they own and otherwise gets Forbidden with the store unchanged |
| `Backend.ToggleFeatured` | backend/controllers/post.controller.js:207-215 | featuring negates the flag and changes nothing else |
| `Backend.ToggleFeaturedTwice` | backend/controllers/post.controller.js:207-215 | featuring twice restores the post |
| `Backend.Store.FeaturePost` | backend/controllers/post.controller.js:187-218 | Unauthenticated, then Forbidden for a non-admin, then NotFound; otherwise only the post's flag is negated |
| `Backend.FeatureTwice` | backend/controllers/post.controller.js:195-215 | two admin feature requests on an existing post leave the posts, the users and the id counter as they were, and the store valid |
| `Saved.RemoveAll` | backend/controllers/user.controller.js:55-57 | `$pull` removes every occurrence of the id and keeps every other id as often as it occurred |
| `Saved.RemoveAllConcat` | backend/controllers/user.controller.js:55-57 | pulling works piecewise over a concatenation, so the ids left keep their relative order |
| `Saved.RemoveAllNoDuplicates` | backend/controllers/user.controller.js:55-57 | pulling keeps a duplicate-free list duplicate-free |
| `Saved.Toggle` | backend/controllers/user.controller.js:48-58 | the id's membership flips; an absent id is appended at the end; a present id is pulled, every other id keeping its count and order |
| `Saved.ToggleNoDuplicates` | backend/controllers/user.controller.js:48-58 | a duplicate-free list stays duplicate-free |
| `Saved.ToggleTwice` | backend/controllers/user.controller.js:48-58 | two toggles restore every id's membership, and the list itself when the id was absent |
| `Backend.Store.SavePost` | backend/controllers/user.controller.js:38-61 | Unauthenticated changes nothing; otherwise only the caller's list is toggled, for any id, and the reply is "Post saved" exactly when the id was absent |
| `Backend.SaveThenUnsave` | backend/controllers/user.controller.js:48-58 | two save requests for the same id restore which ids the caller has saved, and the whole user collection when the id was not saved before; posts and the id counter are untouched and the store stays valid |
| `Saved.SavedPostIds` | backend/controllers/user.controller.js:4-14 | Unauthenticated without identity; otherwise the stored list of the first user holding the caller's clerk id |
| `Records.SelectCount` | backend/controllers/user.controller.js:31 | `find` returns every matching document as often as the collection holds it and no other document |
| `Saved.SavedPostDetails` | backend/controllers/user.controller.js:17-36 | Unauthenticated without identity; otherwise exactly the posts whose id is saved, each as often as it is stored, ids without a post omitted, newest first, and `[]` for an empty list |
| `Saved.EmptyListShortcut` | backend/controllers/user.controller.js:26-33 | the early `[]` for an empty list is what the query would return |

## Left out

- Image upload signing (`uploadAuth`): a call into the media provider's library.
- Routing, CORS, JSON encoding, logging of request headers and the error middleware. Status codes are the `Reply` constructors.
- `populate` and `select`. The owner's username attached to listed posts is not modelled; posts are returned as stored.
- `$regex` semantics. The search text is matched as a literal substring, case-insensitively over ASCII letters only; the store's option "i" also folds non-ASCII letters, which the model does not. Regular-expression metacharacters in the search text are not interpreted.
- `toLowerCase` beyond ASCII: Unicode case mapping is not modelled.
- `Text.ParseInt`: only the listed white-space characters are skipped, not every Unicode space separator. Numbers beyond double precision are read exactly. Query parameters given more than once (arrays) are not modelled.
- Tie order of equal sort keys. The store's natural order is unspecified; the model breaks ties by the collection's order (a stable sort).
- Negative pagination values. `Listing.ListPosts` returns StoreFailure for a negative skip, because the store rejects one. A negative limit fetches at most its absolute value, as the store driver does. Both are the store's behaviour; no source line states them.
- Store failures other than a negative skip, and ids that are not valid store ids, are not modelled. Ids are natural numbers, and new post ids come from the counter `Store.nextId`.
- Clock: the creation time of a new post is the parameter `now`.
- Schema defaults: a new post has visit count 0 and is not featured. The schema file is not part of this model.
- `Backend.Store.CreatePost`: the body carries only the five content fields. The source spreads the whole request body after `user` and `slug`, so a body carrying `user`, `slug` or other keys would override them; that override is not modelled.
- `Backend.Store.UpdatePost`: the body always carries all five content fields. An absent field in the source leaves the stored value.
- `Backend.Store.UpdatePost`, `Backend.Store.DeletePost`, `Backend.Store.SavePost`, `Saved.SavedPostIds`, `Saved.SavedPostDetails`: an identified caller whose user record does not exist crashes the source (dereference of a null user). This is a precondition, stated only where the source reaches the dereference.
- Concurrency. Each request is one atomic step. The probe-then-insert race in the slug loop and the read-then-push/pull race in `savePost` are not modelled.
- Visit counting: the middleware that increments `visit` is not part of this model.
- Provisioning of user records (the identity-provider webhook) is not part of this model; the user collection is given to the `Store` constructor.
- `getPosts` with an unknown author: the model shows that the reply is NotFound. It cannot show that no count or fetch is issued, because reads are not observable in this model.
- `Text.ParamOr`: `parseInt(..) || d` defaults on 0 as well as on NaN, so `page=0` gives page 1 and `limit=0` gives limit 10.
- `Backend.Store.DeletePost`: deleting a post that does not exist answers Forbidden to a non-admin and Ok to an admin; there is no "not found" reply.
- `Listing.ListPosts`: requires a non-zero limit. The handler never passes 0, because `|| 10` replaces it; the store would read a limit of 0 as "no limit", which is not modelled.
- The HTTP reply to a rejected store query depends on how the web framework handles a rejected promise, which is not part of this model; `StoreFailure` only marks that the query is rejected.
- `Backend.Store.CreatePost`: a request body without `title` makes `req.body.title.replace` throw (post.controller.js:104). `PostBody` always has a title, so that crash is not modelled.
