# UNSWtalk core, modelled in Dafny

UNSWtalk is a small Flask social network for UNSW students. Users post
messages. Other users comment on posts and reply to comments. Users befriend
each other and list the courses they take. A home feed merges the user's own
posts, friends' posts and posts, comments and replies that mention the user.
This project models the deterministic core of the application and proves
properties of it:

- `Pagination` (`pagination.dfy`): the page windows of `home` and
  `recommendations` (one list) and of `search` (two lists, one page number).
  `ITEMS_PER_PAGE` is 16. `page` is a `nat`, because Flask's `<int:page>`
  converter accepts only non-negative integers. Python slicing is `Slice`.
- `Media` (`media.dfy`): `determineMediaType`. The extension is the text after
  the last dot. `rsplit('.', 1)[1]` raises `IndexError` on a name without a
  dot; the model returns `Err(IndexOutOfRange)` there.
- `SqlText` (`sqltext.dfy`): the text the `insert`, `delete` and `update`
  helpers build. Small parsers read a statement back, so round trips can be
  stated.
- `Store` (`store.dfy`): the tables as a `ContentStore` class, with one field
  per table. Each operation is a method, proved against a function of the old
  state. Specifically:
  - `DELETE` is an order-preserving `Filter` of a table;
  - `INSERT` is an append;
  - `UPDATE` rewrites each matching row;
  - `SELECT ... WHERE` is the filtered rows in table order.

  The operations are the deletion cascade (`deletePost` → `deleteComments` →
  `deleteReply`), the friendship actions (request, accept, remove,
  `getFriends`) and `add_course`.
- `Feed` (`feed.dfy`): the in-place tagging loops `setObjectType` and
  `setObjectSource`, over arrays, and the assembly of the home feed. The
  assembly concatenates `friends_content + users_posts + mentions` and then
  sorts newest first. The sort is modelled as a stable insertion sort:
  Python's `sorted` is stable, and `reverse=True` keeps equal keys in their
  original order. `created_at` is an integer key. With the
  `'%Y-%m-%d %H:%M:%S'` format, the order of those keys is the order of the
  parsed times.
- `Common` (`common.dfy`): `Option`, `Result`, and `Filter` with its algebra
  (concatenation, composition, congruence).

The deletion cascade is stated in two ways:
- as written: the rows selected, then deleted by id (`DeletePostSpec`,
  `DeletePostRemovesCascade`), a claim that holds for any ids;
- together with an exact characterisation (`DeletePostMatchesReference`):
  when ids identify rows, the cascade removes exactly the post, its comments
  and those comments' replies.

## Model

| member | source | states |
|---|---|---|
| Pagination.Slice | UNSWtalk.py:330 | `s[i:j]` for non-negative bounds: length `min(j,len)-i` or 0, and element `k` is `s[i+k]` |
| Pagination.ListWindow | UNSWtalk.py:322-329 | definition of the start, end, previous and next page of `home`; properties in the rows `ListWindowBounds` to `ListPrevPageLinksBack` |
| Pagination.ListPage | UNSWtalk.py:322-330 | definition of `feed[start:end]` with its neighbour pages, and the same for `recommendations` (UNSWtalk.py:728-736); properties in `ListPageShape` and `ListPagesTile` |
| Pagination.ListWindowBounds | UNSWtalk.py:322-329 | page ≤ 1 starts at 0 with no previous page; later pages start at `(page-1)*16` with previous `page-1`; end is `min(page*16, len)`; no next page exactly when `page*16 >= len`, otherwise `page+1` |
| Pagination.ListPageShape | UNSWtalk.py:322-330 | a page shows at most 16 items, exactly the run `[(page-1)*16, page*16)` clamped to the list; page 0 and pages past the end are empty |
| Pagination.ListPagesTile | UNSWtalk.py:728-736 | pages 1..k side by side are exactly the first `k*16` items: no gap and no overlap |
| Pagination.ListNextPageIffMore | UNSWtalk.py:326-329 | on a page ≥ 1, a next page is offered if and only if that page shows something |
| Pagination.ListPrevPageLinksBack | UNSWtalk.py:325-328 | the previous page of a non-empty page is a real page (≥ 1) whose next page is this one |
| Pagination.SearchWindowAt | UNSWtalk.py:210-229 | definition of the two windows and neighbour pages of `search`, as written; properties in the rows `SearchWindowClamped` to `SearchFirstPageOffersPageZero` |
| Pagination.Search | UNSWtalk.py:210-232 | definition of the two slices `search` renders; properties in `SearchListsPageLikeHome` and `SearchNextPageIffMore` |
| Pagination.SearchWindowClamped | UNSWtalk.py:210-223 | each end lies in `[0, len]`, since it is `page*16` lowered to the list length; each start is `(page-1)*16` raised to 0 and never lowered, so on pages beyond a list it passes that list's end and the slice is empty |
| Pagination.SearchNextPage | UNSWtalk.py:226-227 | `next_page` is None if and only if both windows reached their list ends, that is, when `page*16` reaches the longer list |
| Pagination.SearchPrevPage | UNSWtalk.py:228-229 | as written, `prev_page` is None if and only if page is 0, or page is 1 and no post, comment or reply matched |
| Pagination.SearchListsPageLikeHome | UNSWtalk.py:210-232 | each of the two search lists is paged exactly as `home` pages one list |
| Pagination.SearchNextPageIffMore | UNSWtalk.py:226-227 | on a page ≥ 1, a next search page is offered if and only if it shows a user or a post, comment or reply |
| Pagination.SearchFirstPageOffersPageZero | UNSWtalk.py:228-229 | as written, page 1 with a matched post, comment or reply offers `prev_page` 0, a page that shows nothing |
| Pagination.IntendedSearchWindowAt | UNSWtalk.py:228-229 | definition of the corrected window; properties in `IntendedSearchPrevPage` |
| Pagination.IntendedSearchPrevPage | UNSWtalk.py:228-229 | testing both starts gives no previous page exactly on pages ≤ 1, and any previous page is ≥ 1; windows and next page are unchanged |
| Media.DetermineMediaType | UNSWtalk.py:438-442 | definition of the classification; properties in the rows `MediaTypeOfDotted` to `MediaTypeCaseSensitive` |
| Media.LastDot | UNSWtalk.py:439 | finds the last `.`: None if and only if there is no dot; otherwise the position of a dot with none after it |
| Media.Extension | UNSWtalk.py:439 | `rsplit('.', 1)[1]` fails if and only if there is no dot; otherwise the text after the last dot, which holds no dot and completes the name |
| Media.ExtensionOfDotted | UNSWtalk.py:439 | the extension of `base + "." + ext` is `ext`, whatever dots `base` holds |
| Media.MediaTypeOfDotted | UNSWtalk.py:438-442 | a dotted name is "image" for jpeg/jpg/png/gif/svg, "video" for avi/mov/mp4/flv/webm, otherwise None |
| Media.MediaTypeWithoutDot | UNSWtalk.py:438-439 | a name without a dot raises (index out of range) |
| Media.MediaTypeLastDotOnly | UNSWtalk.py:439-442 | `x.mp4.txt` is not a video: only the last extension counts |
| Media.MediaTypeVideoAfterDots | UNSWtalk.py:441 | `x.txt.webm` is a video |
| Media.MediaTypeImage | UNSWtalk.py:440 | `x.png` is an image |
| Media.MediaTypeCaseSensitive | UNSWtalk.py:440-442 | `x.PNG` is neither: the comparison is case-sensitive |
| SqlText.Join | UNSWtalk.py:60-61 | definition of `sep.join(parts)`, used for every list the builders join; properties in the round-trip rows |
| SqlText.ValuesListAsWritten | UNSWtalk.py:57-68 | definition of the VALUES list as written; properties in `PlaceholderCount`, `InsertAsWrittenAgrees` and `InsertAsWrittenShortDate` |
| SqlText.InsertQueryAsWritten | UNSWtalk.py:52-68 | definition of the `insert` statement text as written; properties in `InsertTableRoundTrip` |
| SqlText.ValuesList | UNSWtalk.py:57-62 | definition of the intended VALUES list; properties in `ValuesListPlaceholders` |
| SqlText.InsertQuery | UNSWtalk.py:52-68 | definition of the intended statement text; properties in `InsertBindsEveryValue` and `IntendedInsertRoundTrip` |
| SqlText.Repeat | UNSWtalk.py:61 | `['?'] * n` is n copies |
| SqlText.PlaceholderCount | UNSWtalk.py:64-68 | with `date=False` the VALUES list holds exactly `len(values)` placeholders |
| SqlText.InsertAsWrittenAgrees | UNSWtalk.py:57-68 | with `date=True` and at least two values, the list as written is `len(values)-1` `?` then `DATETIME(?)`, the intended list |
| SqlText.InsertAsWrittenShortDate | UNSWtalk.py:57-62 | as written, `date=True` with one value gives `", DATETIME(?)"`, and with no value one placeholder |
| SqlText.ValuesListPlaceholders | UNSWtalk.py:57-68 | the intended VALUES list holds one placeholder per value, in both modes |
| SqlText.InsertBindsEveryValue | UNSWtalk.py:52-69 | when table and columns hold no `?`, the statement binds exactly `len(values)` parameters |
| SqlText.InsertTableRoundTrip | UNSWtalk.py:57-62 | as written: the table name is read back verbatim, followed by the columns joined by `", "` and the VALUES list |
| SqlText.IntendedInsertRoundTrip | UNSWtalk.py:57-62 | the same round trip with the intended VALUES list |
| SqlText.DeleteQuery | UNSWtalk.py:76-82 | definition of the `delete` statement text; properties in `DeleteRoundTrip` |
| SqlText.UpdateQuery | UNSWtalk.py:89-96 | definition of the `update` statement text; properties in `UpdateRoundTrip` |
| SqlText.DeleteRoundTrip | UNSWtalk.py:76-82 | the table is read back verbatim, and the text after `WHERE` is the conditions joined by `" and "` |
| SqlText.UpdateRoundTrip | UNSWtalk.py:89-96 | the table is read back verbatim, and after `SET` come the assignments joined by `", "`, then `where` and the conditions joined by `" and "` |
| Store.DeleteReplySpec | UNSWtalk.py:503-504 | definition of the store after `deleteReply`; the method is `ContentStore.DeleteReply` |
| Store.DeleteCommentSpec | UNSWtalk.py:456-462 | definition of the store after `deleteComments`; properties in `DeleteCommentRemovesReplies` |
| Store.DeletePostSpec | UNSWtalk.py:402-408 | definition of the store after `deletePost`; properties in `DeletePostRemovesCascade` and `DeletePostMatchesReference` |
| Store.CascadeStep | UNSWtalk.py:405-406 | deleting one more comment's replies, re-selected from what is left, deletes the replies of the enlarged set of comments |
| Store.DeletePostRemovesCascade | UNSWtalk.py:402-408 | after `deletePost(p)`: no post `p`, no comment on `p`, no reply under those comments; unselected rows stay; other tables unchanged |
| Store.DeletePostMatchesReference | UNSWtalk.py:402-408 | when ids identify rows, `deletePost` removes exactly the post, its comments and their replies; a reply with `post=p` under another comment survives |
| Store.DeleteCommentRemovesReplies | UNSWtalk.py:456-462 | after `deleteComments(c)` no comment `c` and no reply of `c` remain; other comments remain; when ids identify rows, other replies remain |
| Store.ContentStore.DeleteReply | UNSWtalk.py:503-504 | the store afterwards is the old one with every reply of that id deleted |
| Store.ContentStore.DeleteComments | UNSWtalk.py:456-462 | the loop of deletes leaves the store described by `DeleteCommentSpec` |
| Store.ContentStore.DeletePost | UNSWtalk.py:402-408 | the nested loops leave the store described by `DeletePostSpec` |
| Store.FriendRequestSpec | UNSWtalk.py:561-567 | definition of the store after `friend_request`; properties in `RequestAddsPending` and `RequestThenAccept` |
| Store.AcceptSpec | UNSWtalk.py:575-577 | definition of the store after `addfriend`; properties in `AcceptIsBidirectional` and `AcceptWithoutRequestIsOneWay` |
| Store.RemoveSpec | UNSWtalk.py:550-551 | definition of the store after `removefriend`; properties in `RemoveDeletesBothDirections` |
| Store.MarkAccepted | UNSWtalk.py:575 | the update sets `accepted=1` on exactly the rows `reference=r and friend=f`, in place, keeping the others |
| Store.RequestAddsPending | UNSWtalk.py:561-567 | a request to a user appends `(me, f, 0)`; one to a non-user changes nothing, since the email lookup raises first |
| Store.ContentStore.FriendRequest | UNSWtalk.py:556-567 | `ok` tells whether `f` is a user, and the store is as `FriendRequestSpec` says |
| Store.AcceptIsBidirectional | UNSWtalk.py:575-577 | after accepting an existing request both directions are accepted, and every other row keeps its state |
| Store.AcceptWithoutRequestIsOneWay | UNSWtalk.py:572-577 | accepting without a request inserts only `friend -> reference` |
| Store.RequestThenAccept | UNSWtalk.py:561-577 | request then accept makes each user a friend of the other, as `getFriends` sees it |
| Store.ContentStore.AddFriend | UNSWtalk.py:573-577 | the store is as `AcceptSpec` says |
| Store.RemoveDeletesBothDirections | UNSWtalk.py:550-551 | no row in either direction remains, every other row stays, neither user is the other's friend, only `friends` changes |
| Store.ContentStore.RemoveFriend | UNSWtalk.py:548-551 | the two deletes together are `RemoveSpec` |
| Store.FriendIds | UNSWtalk.py:261 | an id is selected if and only if an accepted row from `z` to it exists |
| Store.ContentStore.GetFriends | UNSWtalk.py:258-267 | one lookup per selected row, in order; a user appears if and only if it is a user with an accepted row from `z` |
| Store.AddCourseSpec | UNSWtalk.py:759-763 | definition of the store after `add_course`; properties in `AddCourseIdempotent` and `AddCourseEnrols` |
| Store.Upper | UNSWtalk.py:759 | `code.upper()`: each lower-case ASCII letter becomes the upper-case letter at the same place in the alphabet; every other character is kept; the length is kept |
| Store.UpperIdempotent | UNSWtalk.py:759 | upper-casing twice is once, and leaves no lower-case ASCII letter |
| Store.AddCourseIdempotent | UNSWtalk.py:759-763 | adding the same enrolment again, with the code in any letter case, changes nothing |
| Store.AddCourseEnrols | UNSWtalk.py:759-763 | afterwards the upper-cased enrolment is present, earlier rows are kept, at most one row is added, only `courses` changes, and no duplicate is introduced |
| Store.ContentStore.AddCourse | UNSWtalk.py:757-763 | the store is as `AddCourseSpec` says |
| Feed.Tagged | UNSWtalk.py:352-361 | definition of a list after tagging; properties in `TaggedSetsOnlyKey` |
| Feed.TaggedFeed | UNSWtalk.py:309-316 | definition of the tagged concatenation `friends_content + users_posts + mentions`; properties in `HomeFeedSources` |
| Feed.SortNewestFirst | UNSWtalk.py:318 | definition of the stable newest-first sort; properties in `SortIsOrderedPermutation` and `SortIsStable` |
| Feed.HomeFeed | UNSWtalk.py:316-318 | definition of the feed before pagination; properties in `HomeFeedIsSortedMerge`, `HomeFeedSources` and `HomePageIsNewestFirst` |
| Feed.TaggedSetsOnlyKey | UNSWtalk.py:352-361 | tagging sets the key to the value on every item and changes nothing else: length, order, other keys, timestamps |
| Feed.SetKey | UNSWtalk.py:352-361 | the loop leaves the array equal to the tagged old contents |
| Feed.SetObjectType | UNSWtalk.py:352-355 | sets `type` on every element in place |
| Feed.SetObjectSource | UNSWtalk.py:358-361 | sets `source` on every element in place |
| Feed.SortIsOrderedPermutation | UNSWtalk.py:318 | the sort is newest first and a permutation of its input |
| Feed.SortIsStable | UNSWtalk.py:318 | items with equal timestamps keep their relative order |
| Feed.HomeFeedIsSortedMerge | UNSWtalk.py:316-318 | the feed is newest first, a permutation of the tagged concatenation, of the summed length, and stable |
| Feed.HomeFeedSources | UNSWtalk.py:309-316 | every feed item has source friend, self or mention; friends' and own items have type post |
| Feed.HomePageIsNewestFirst | UNSWtalk.py:318-330 | every page of the home feed is newest first |
| Feed.AssembleHomeFeed | UNSWtalk.py:309-318 | the three lists are tagged in place, and the result is `HomeFeed` of the untagged inputs |

## Left out

- Flask routing, `session`, login checks, `flash`, `redirect` and `render_template` are left out because they are web-framework plumbing. Each request's inputs are parameters.
- SQLite is not modelled: the connection, cursors and commits, and executing the built statements. The tables are sequences of rows in table order, and the order a `SELECT` returns is taken to be table order.
- The `id` each builder returns is not modelled: `insert` returns the cursor's `lastrowid`, and `delete` and `update` return Python's built-in `id`.
- The recommendation ranking query, and the list of user rows built from its result, are left out because they are SQL join and grouping semantics. Only the pagination of that list is modelled.
- `getFriendsPosts`, `getPCRThatMention` and the other queries behind the feed are left out because they are SQL. Their results are the arrays passed to `AssembleHomeFeed`.
- `sendmail` and the email text builders are left out because they are SMTP I/O and use `url_for`.
- File saving, `secure_filename`, `uuid4` and the clock are left out because they are filesystem access, randomness and time.
- `sanitizeTime`, `replaceTagsWithLinks` and `sanitizeNewLines` are left out. They run after the sort and rewrite each item's `created_at` (UNSWtalk.py:285) and `message` (UNSWtalk.py:277, 295-296). They do not change the order or which items are shown. `replaceTagsWithLinks` raises `TypeError` when a message tags a z-id that has no user (UNSWtalk.py:294-295), which aborts `home` and `search`. That raise is not modelled.
- `remove_course`, `newpost`, `newcomment`, `newreply` and the profile pages are not part of this model. `newreply` reads the reply's comment id from the `post_id` form field (UNSWtalk.py:474). Nothing here establishes that stored replies name their comment correctly.
- Store.ContentStore.GetFriends: a user row is reduced to its id. A missing user is `None`, as `query_db(..., one=True)` gives it. The other profile columns are not modelled.
- Store.ContentStore.FriendRequest: the exception raised for an unknown friend is modelled as `ok == false` with nothing inserted. The HTTP error response is not modelled. The insert (UNSWtalk.py:567) runs only after `sendmail` (UNSWtalk.py:565) returns, so a failed send raises and inserts nothing. The model assumes the send succeeds.
- Store.Upper: only ASCII letters are upper-cased. Python's `str.upper` also maps other letters and can change a string's length (`'ß'` becomes `"SS"`).
- Feed.SortIsOrderedPermutation: `created_at` is an integer key. A timestamp that `strptime` rejects, which would raise, is not modelled.

## Findings

| source | as written | input that shows it | evidently intended | confidence | as-written member | corrected member |
|---|---|---|---|---|---|---|
| UNSWtalk.py:57-62 | with `date=True` the VALUES list is `len(values)-1` plain placeholders followed by `", DATETIME(?)"` | `date=True` with one value gives `VALUES (, DATETIME(?))`; with no value it gives one placeholder for zero bound values | one entry per value, the last wrapped in `DATETIME(...)`, joined by `", "` | not executed; every call in the application passes `date=True` with several values, where both agree (`InsertAsWrittenAgrees`) | SqlText.InsertAsWrittenShortDate | SqlText.InsertBindsEveryValue |
| UNSWtalk.py:228-229 | `prev_page` is cleared only when `users_start <= 0 and pcrs_end <= 0` | `search` page 1 with at least one matched post, comment or reply gives `prev_page = 0`, and page 0 shows nothing | test `pcrs_start` as `users_start` is tested, so that page 1 has no previous page | not executed; whether page 0 is then linked depends on the template's test of `prev_page`, which is not part of this model | Pagination.SearchFirstPageOffersPageZero | Pagination.IntendedSearchWindowAt |
