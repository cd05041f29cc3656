# Blog post platform: reactions, authorisation, paging and page logic in Dafny

This project models the core of a small blog platform with an Express/MongoDB backend and a
React frontend. Readers like or dislike posts. Authors and admins edit or delete them. Pages
list, search and filter posts, and the editors turn text lines into `<p>` paragraphs and back.

**Backend.** The post controller is modelled in `post_controller.dfy`, with the reaction
ledger as a value in `ledger.dfy`.
- Each stored post is a `Post` object whose `likes`, `dislikes`, `likedBy` and `dislikedBy`
  fields the `Like`/`Dislike` methods update in place.
- A `PostStore` maps ids to posts and holds the comment collection. It answers 404 for unknown
  ids and 401 for actors who are neither the author nor an admin. It merges updates with
  "keep unless truthy" and cascades a delete to the post's comments.
- The paging arithmetic of the post listing is modelled as pure functions.

**Frontend.** Each modelled page or component has its own module. Its logic is modelled, not
its rendering:
- the paragraph format and strip (`paragraphs.dfy`), shared by the editor pages;
- the edit and new-post forms;
- the registration checks;
- the card and featured excerpts;
- the search filter;
- the two dashboards;
- the comment section;
- the post page.

Handlers that update component state are classes with `modifies` clauses. The outside world
enters as method parameters:
- the result of each API call;
- `window.confirm`;
- the image upload;
- whether the visitor is authenticated, since `isAuthenticated` comes from the token and not
  from `user`.

Ids are strings compared by equality, as the controller compares `toString()` values. Strings
are sequences of characters, with ASCII case mapping and the ASCII whitespace characters
(space, tab, line feed, carriage return, vertical tab, form feed) for `trim`.

In the controller, 401 is only the authorisation answer: a missing `req.user` makes the
handler throw, which gives a 500.

Every list filter of the pages is specified by three facts: the result is a subsequence of
the list, it holds passing elements only, and it holds each passing element as often as the
list does. `Lists.FilterDetermined` proves that these facts single out the filtered list, so
the contracts are exact also for lists with repeated entries.

## Model

| member | source | states |
|---|---|---|
| Ledger.LikeStep | backend/controllers/post.controller.js:264-282 | definition: the body of `likePost` on the found document, as a ledger step (retract a dislike, then toggle the like) |
| Ledger.DislikeStep | backend/controllers/post.controller.js:315-333 | definition: the body of `dislikePost` on the found document (retract a like, then toggle the dislike) |
| Ledger.LikeToggles | backend/controllers/post.controller.js:257-282 | after a like the actor is not in `dislikedBy`, and is in `likedBy` exactly when it was not before |
| Ledger.DislikeToggles | backend/controllers/post.controller.js:309-333 | the mirror image: after a dislike the actor is not in `likedBy`, and is in `dislikedBy` exactly when it was not before |
| Ledger.DislikeIsMirroredLike | backend/controllers/post.controller.js:300-346 | `dislikePost` is `likePost` with the two lists and counters exchanged |
| Ledger.LikePreservesConsistency | backend/controllers/post.controller.js:264-282 | counters equal to list lengths, duplicate-free lists and disjoint lists are preserved by a like |
| Ledger.DislikePreservesConsistency | backend/controllers/post.controller.js:315-333 | the same invariant is preserved by a dislike |
| Ledger.ConsistentCountersNonNegative | backend/controllers/post.controller.js:265-274 | under that invariant neither counter is negative |
| Ledger.LikeTwiceRestores | backend/controllers/post.controller.js:272-282 | from no reaction, two likes restore exactly the original counters and lists (the push is undone by the filter) |
| Ledger.DislikeTwiceRestores | backend/controllers/post.controller.js:323-333 | from no reaction, two dislikes restore exactly the original counters and lists |
| Ledger.LikeKeepsOthers | backend/controllers/post.controller.js:266-281 | with the actor taken out, both lists are unchanged by a like: other users keep their order |
| Ledger.DislikeKeepsOthers | backend/controllers/post.controller.js:317-332 | with the actor taken out, both lists are unchanged by a dislike |
| Ledger.LikeTransition | backend/controllers/post.controller.js:257-282 | a like takes the actor from like to no reaction, and from none or dislike to like |
| Ledger.DislikeTransition | backend/controllers/post.controller.js:309-333 | with disjoint lists, a dislike takes the actor from dislike to none, and from none or like to dislike |
| Ledger.DislikeLikeLikeScenario | backend/controllers/post.controller.js:257-333 | the concrete run dislike, like, like goes through (0,1), (1,0), (0,0) with the matching lists |
| Ledger.DuplicateBreaksCounter | backend/controllers/post.controller.js:274-277 | with an id listed twice, one like removes both entries but decrements once, so the counter no longer matches |
| Ledger.Without | backend/controllers/post.controller.js:266-268 | the filtered list holds exactly the ids other than the actor |
| PostController.Post.constructor | backend/controllers/post.controller.js:117-126 | a new document has no reactions and satisfies the ledger invariant |
| PostController.Post.Like | backend/controllers/post.controller.js:256-290 | the new ledger is the like transition of the old one; the actor ends outside `dislikedBy` and is toggled in `likedBy`; the invariant is kept; the reply is the new counters |
| PostController.Post.Dislike | backend/controllers/post.controller.js:308-341 | the new ledger is the dislike transition of the old one; the mirror facts; the reply is the new counters |
| PostController.Post.ApplyUpdate | backend/controllers/post.controller.js:172-181 | title and content keep their old value unless the new one is truthy; the image is replaced only by a truthy URL |
| PostController.KeepUnlessTruthy | backend/controllers/post.controller.js:175-176 | incoming-or-current: the incoming value when it is a non-empty string, otherwise the current one |
| PostController.MayModify | backend/controllers/post.controller.js:165-170 | definition: the author-or-admin check of `updatePost`, repeated in `deletePost` at 221-226 |
| PostController.DeleteCommentsOf | backend/controllers/post.controller.js:228-229 | what remains is exactly the comments of other posts, in their original order, each as often as before |
| PostController.PostStore.constructor | backend/controllers/post.controller.js:1-3 | stands for the empty `Post` and `Comment` collections: an empty store is well-formed and consistent |
| PostController.PostStore.LikePost | backend/controllers/post.controller.js:244-295 | 404 and no change for an unknown id; otherwise the like transition on that post alone, the reply with its new counters, other fields and posts unchanged, consistency kept |
| PostController.PostStore.DislikePost | backend/controllers/post.controller.js:300-346 | the same for a dislike |
| PostController.PostStore.UpdatePost | backend/controllers/post.controller.js:156-207 | 404 for an unknown id, 401 unless author or admin, with no change in either case; otherwise the field merge on that post alone, reactions untouched |
| PostController.PostStore.DeletePost | backend/controllers/post.controller.js:212-239 | 404 and 401 as above with no change; otherwise the post and exactly its comments are removed |
| PostController.RequestedPage | backend/controllers/post.controller.js:46 | `Number(page)` or 1: NaN and 0 become 1, any other integer is kept |
| PostController.PageCount | backend/controllers/post.controller.js:72 | `ceil(count/10)`: the smallest number of pages of ten that holds every post |
| PostController.PageOf | backend/controllers/post.controller.js:50-54 | at most ten posts, those at positions `10*(page-1)` onwards of the newest-first list |
| PostController.GetPosts | backend/controllers/post.controller.js:43-78 | a page below 1 gives a server error (negative skip); otherwise that page, its number and `ceil(count/10)` |
| PostController.PageNonEmptyIff | backend/controllers/post.controller.js:45-72 | a page has posts exactly when its number is at most the page count |
| PostController.FirstPagesArePrefix | backend/controllers/post.controller.js:50-54 | pages 1 to n together are the first `10*n` posts |
| PostController.PagesCoverAllPosts | backend/controllers/post.controller.js:50-72 | walking pages 1 to `pages` lists every post exactly once, newest first |
| Views.RemovePost | frontend/src/pages/Dashboard.jsx:51 | exactly the posts with another id remain, in order and each as often as before; a list without the id is unchanged |
| Strings.Trim | frontend/src/pages/NewPost.jsx:49 | definition: `String.prototype.trim` over the ASCII whitespace characters |
| Strings.Lower | frontend/src/pages/SearchResults.jsx:35-39 | definition: `toLowerCase` over ASCII letters |
| Common.Truthy | backend/controllers/post.controller.js:175-176 | definition: JS truthiness of an optional string, present and non-empty; the logical-or that merges `title` with `post.title` tests it |
| Common.OrUndefined | frontend/src/pages/EditPost.jsx:92 | the empty string becomes `undefined`, any other string is kept, as the source's logical-or with `undefined` does |
| Paragraphs.Paragraph | frontend/src/pages/EditPost.jsx:86 | definition: a line with non-whitespace content wrapped in `<p>` tags, any other line dropped |
| Paragraphs.Format | frontend/src/pages/NewPost.jsx:77-80 | definition: split at newlines, each line through `Paragraph`, joined with nothing; the same code is at EditPost.jsx:84-87 |
| Paragraphs.ReplaceAll | frontend/src/pages/EditPost.jsx:38-39 | definition: `replace` with a global literal pattern, left to right without overlap |
| Paragraphs.Strip | frontend/src/pages/EditPost.jsx:37-40 | definition: drop `<p>`, turn `</p>` into a newline, trim |
| Paragraphs.Split | frontend/src/pages/EditPost.jsx:84-85 | at least one piece, none containing the separator |
| Paragraphs.JoinSplit | frontend/src/pages/EditPost.jsx:84-87 | joining the pieces with the separator gives the text back |
| Paragraphs.FormatLinesAppend | frontend/src/pages/EditPost.jsx:86-87 | each line contributes its own block, in input order |
| Paragraphs.FormatOneLine | frontend/src/pages/EditPost.jsx:86 | a non-blank line becomes `<p>` + the untrimmed line + `</p>`; a whitespace-only line becomes nothing |
| Paragraphs.FormatIgnoresBlankLine | frontend/src/pages/EditPost.jsx:84-87 | dropping a whitespace-only line does not change the formatted content |
| Paragraphs.FormatNonBlankIsNonEmpty | frontend/src/pages/NewPost.jsx:77-80 | content with a non-whitespace character formats to a non-empty string |
| Paragraphs.OpenTagRemoved | frontend/src/pages/EditPost.jsx:38 | removing `<p>` from a paragraph leaves the line and its `</p>` |
| Paragraphs.CloseTagReplaced | frontend/src/pages/EditPost.jsx:39 | replacing `</p>` turns the paragraph into the line and a newline |
| Paragraphs.StripFormatRoundTrip | frontend/src/pages/EditPost.jsx:37-40 | text of non-blank, tag-free lines without whitespace at its ends is given back by stripping its formatted form |
| EditPost.CanEdit | frontend/src/pages/EditPost.jsx:36 | definition: a signed-in user who is the author or an admin |
| EditPost.CanEditIsPostPageRule | frontend/src/pages/EditPost.jsx:36 | the edit page admits exactly the users the post page shows Edit/Delete controls to: a signed-in author or admin |
| EditPost.FormFrom | frontend/src/pages/EditPost.jsx:37-46 | the form holds the title, the stripped content and the image URL or `''` |
| EditPost.EditRestoresText | frontend/src/pages/EditPost.jsx:37-46 | content saved from plain lines comes back into the form as those lines |
| EditPost.EditPostPage.constructor | frontend/src/pages/EditPost.jsx:17-25 | no post, an empty form, no error |
| EditPost.EditPostPage.Load | frontend/src/pages/EditPost.jsx:27-64 | nothing without authentication or id; a request that threw sets the load error; a fetched post is stored, and the form is filled for an author or admin and the permission error set for anyone else |
| EditPost.EditPostPage.Change | frontend/src/pages/EditPost.jsx:66-69 | only the field named by the input's id changes (the Clear button is a change to `''`) |
| EditPost.EditPostPage.SubmitRequest | frontend/src/pages/EditPost.jsx:71-93 | an update is sent exactly when there is an id, a post, and a non-blank title and content; it carries the title, the formatted content and the image URL, omitted when empty |
| EditPost.SubmittedFormIsStored | frontend/src/pages/EditPost.jsx:84-93 | the server stores the form's title and formatted content, and its image URL unless cleared |
| NewPost.SentImageUrl | frontend/src/pages/NewPost.jsx:85 | an empty or missing uploaded URL is not sent |
| NewPost.RequestFor | frontend/src/pages/NewPost.jsx:77-86 | the create body has the title, the formatted content and the sent image URL |
| NewPost.SubmittedContentNonEmpty | frontend/src/pages/NewPost.jsx:49-80 | content that passed the blank guard is sent non-empty |
| NewPost.NewPostPage.constructor | frontend/src/pages/NewPost.jsx:14-20 | empty title and content, no image, no preview |
| NewPost.NewPostPage.RemoveImage | frontend/src/pages/NewPost.jsx:38-44 | the image and its preview are both cleared |
| NewPost.NewPostPage.Submit | frontend/src/pages/NewPost.jsx:46-105 | no request for a blank title or content or an upload that threw (an error reply without `secure_url` is an upload without URL); otherwise the formatted request; after a create request that resolved, all four fields are reset, otherwise none changes |
| Register.Message | frontend/src/pages/Register.jsx:31-44 | definition: the toast text of each refused form |
| Register.Validate | frontend/src/pages/Register.jsx:31-49 | each outcome holds exactly under its condition: any field empty; else passwords differ; else shorter than 8; else `register` is called |
| Register.MismatchReportedBeforeLength | frontend/src/pages/Register.jsx:36-44 | a short and mismatched password reports the mismatch |
| Register.ErrorMessage | frontend/src/pages/Register.jsx:56-59 | an `Error`'s own message, otherwise the fallback message |
| Register.ErrorAfterSubmit | frontend/src/pages/Register.jsx:29-61 | the error state stays empty for refused forms and calls that did not throw, and is the thrown error's message otherwise |
| PostCard.Excerpt | frontend/src/components/PostCard.jsx:89-90 | short content unchanged; long content cut to 150 characters plus `...`; at most 153 characters, starting with a prefix of the content |
| PostCard.LongContentCanLookUntouched | frontend/src/components/PostCard.jsx:89-90 | a 153-character content ending in `...` is its own excerpt, so an unchanged excerpt does not mean short content |
| PostCard.AvatarInitial | frontend/src/components/PostCard.jsx:60 | one character: the upper-cased first character of the name, or `A` for a missing or empty name |
| PostCard.InitialIsUpperCase | frontend/src/components/PostCard.jsx:60 | a name starting with a lower-case letter shows an upper-case initial |
| IndexPage.Featured | frontend/src/pages/Index.jsx:54 | the first post, missing exactly for an empty list |
| IndexPage.Regular | frontend/src/pages/Index.jsx:55 | the posts after the first; `max(0, n-1)` of them |
| IndexPage.SplitIsWhole | frontend/src/pages/Index.jsx:54-55 | featured followed by regular is the whole list |
| IndexPage.ShowsNoPostsMessage | frontend/src/pages/Index.jsx:131 | definition: the "No posts" branch of `regularPosts.length > 0 ? … : …` |
| IndexPage.NoPostsMessageIff | frontend/src/pages/Index.jsx:131-141 | the "No posts found" message shows exactly when there is at most one post, so also under a single featured post |
| IndexPage.FeaturedExcerpt | frontend/src/pages/Index.jsx:97-100 | the first 300 characters followed by `...`, always |
| IndexPage.ShortFeaturedExcerpt | frontend/src/pages/Index.jsx:97-100 | short content is shown whole with `...` added |
| SearchResults.Matches | frontend/src/pages/SearchResults.jsx:35-39 | definition: the title or the content, lower-cased, includes the lower-cased query |
| SearchResults.Results | frontend/src/pages/SearchResults.jsx:33-45 | empty for an empty query or no posts; otherwise exactly the posts whose lower-cased title or content contains the lower-cased query, as a subsequence, each as often as in the list |
| SearchResults.CaseDoesNotMatter | frontend/src/pages/SearchResults.jsx:35 | queries equal up to letter case give the same results |
| SearchResults.LowerCasedQuery | frontend/src/pages/SearchResults.jsx:35 | lower-casing the query beforehand gives the same results |
| SearchResults.ResultLabel | frontend/src/pages/SearchResults.jsx:67-68 | `result` exactly for a count of one, `results` otherwise |
| AdminDashboard.RemoveUser | frontend/src/pages/AdminDashboard.jsx:79 | exactly the users with another id remain, in order and each as often as before |
| AdminDashboard.PostsNotBy | frontend/src/pages/AdminDashboard.jsx:81 | exactly the posts not authored by the user remain, in order and each as often as before |
| AdminDashboard.UserPostCount | frontend/src/pages/AdminDashboard.jsx:310-315 | at most the number of posts, and zero exactly when the user authored none |
| AdminDashboard.DeletedUserHasNoPosts | frontend/src/pages/AdminDashboard.jsx:81 | after deleting a user, their count is zero |
| AdminDashboard.OtherCountsKept | frontend/src/pages/AdminDashboard.jsx:81 | deleting a user leaves every other user's count unchanged |
| AdminDashboard.DeleteRemovesCount | frontend/src/pages/AdminDashboard.jsx:81 | deleting a user removes exactly as many posts as their count |
| AdminDashboard.AdminDashboardPage.constructor | frontend/src/pages/AdminDashboard.jsx:19-51 | the loaded lists and the signed-in admin |
| AdminDashboard.AdminDashboardPage.DeletePost | frontend/src/pages/AdminDashboard.jsx:53-64 | after confirmation and a resolved request, exactly the posts with that id go; otherwise nothing changes |
| AdminDashboard.AdminDashboardPage.DeleteUser | frontend/src/pages/AdminDashboard.jsx:66-88 | one's own id is refused with no change; after confirmation and a resolved request the user and their posts go; otherwise nothing changes |
| Dashboard.VisibleTo | frontend/src/pages/Dashboard.jsx:27-29 | definition: the post's author id equals the user's id (both possibly missing), or the user is an admin |
| Dashboard.Visible | frontend/src/pages/Dashboard.jsx:27-29 | an admin sees every post; another user exactly their own; with no user, exactly the posts without author; always a subsequence holding each shown post as often as the list |
| Dashboard.DashboardPage.constructor | frontend/src/pages/Dashboard.jsx:14 | an empty list |
| Dashboard.DashboardPage.Load | frontend/src/pages/Dashboard.jsx:18-45 | for an authenticated visitor the list becomes the visible posts; otherwise, or when the request threw, it stays |
| Dashboard.DashboardPage.DeletePost | frontend/src/pages/Dashboard.jsx:47-58 | after confirmation and a resolved request, exactly the posts with that id go |
| CommentSection.RemoveComment | frontend/src/components/CommentSection.jsx:64 | exactly the comments with another id remain, in order and each as often as before |
| CommentSection.DeleteUndoesAdd | frontend/src/components/CommentSection.jsx:50-64 | deleting a just-added comment with a fresh id gives the earlier list back |
| CommentSection.CanDeleteComment | frontend/src/components/CommentSection.jsx:139-140 | definition: the user is an admin or the comment's author |
| CommentSection.DeleteControlIff | frontend/src/components/CommentSection.jsx:139-140 | the delete control shows for admins and for a signed-in user's own comments only |
| CommentSection.CommentSectionState.constructor | frontend/src/components/CommentSection.jsx:16-37 | the loaded comments and an empty input box |
| CommentSection.CommentSectionState.SubmitComment | frontend/src/components/CommentSection.jsx:39-59 | a request exactly for a non-blank comment; a created comment is prepended and the box cleared; otherwise nothing changes |
| CommentSection.CommentSectionState.DeleteComment | frontend/src/components/CommentSection.jsx:61-70 | after a resolved request exactly the comments with that id go |
| PostPage.IsAuthor | frontend/src/pages/PostPage.jsx:205 | definition: `user && post.author?._id === user?._id` |
| PostPage.CanEditDelete | frontend/src/pages/PostPage.jsx:206 | definition: the author, or a signed-in admin; the Delete button at 62-68 is rendered exactly under it |
| PostPage.ShowsEdit | frontend/src/pages/PostPage.jsx:53-61 | definition: the Edit link, rendered inside the `canEditDelete` block for the author only |
| PostPage.CanEditDeleteIff | frontend/src/pages/PostPage.jsx:205-206 | `canEditDelete` holds exactly for a signed-in author or admin |
| PostPage.ControlsShown | frontend/src/pages/PostPage.jsx:53-68 | Edit is shown exactly to the author and only with Delete; an admin who is not the author gets Delete only; a signed-out visitor gets neither |
| PostPage.AgreesWithServer | frontend/src/pages/PostPage.jsx:205-206 | for a post with a known author, the page's rule is the server's author-or-admin check |
| PostPage.WithCounts | frontend/src/pages/PostPage.jsx:134-138 | the counters become the server's; every other field stays |
| PostPage.PostPageState.constructor | frontend/src/pages/PostPage.jsx:97-124 | the loaded post |
| PostPage.PostPageState.HandleLike | frontend/src/pages/PostPage.jsx:126-144 | a request exactly when authenticated with a post loaded; on a reply only the counters change; otherwise the post stays |
| PostPage.PostPageState.HandleDislike | frontend/src/pages/PostPage.jsx:146-164 | the same for a dislike |
| PostPage.PostPageState.DeleteRequest | frontend/src/pages/PostPage.jsx:166-170 | no request exactly when no post is loaded; otherwise the loaded post's id |

## Left out

- File uploads (multer disk storage, the file-type filter and the 10 MB limit, which its comment calls 5MB): filesystem and clock plumbing inside a library callback.
- MongoDB behaviour: `populate`, sorting by date (the model takes the newest-first list as given), `countDocuments`, and the `$regex` search of `searchPosts`. The regex is run by the database engine and is not a literal substring match.
- `getPostById`, `createPost`, `getPostsByUser` and `searchPosts` are not modelled beyond the document defaults that `Post.constructor` assumes: zero counters and empty lists. The post schema is not part of this model.
- Authentication middleware: a missing `req.user` makes the handlers throw, and the answer is a 500, not an "unauthenticated" reply. The model always has an actor.
- Concurrency: the handlers' find-then-save is an unguarded read-modify-write. The model runs one call at a time.
- Errors thrown by the database in general (the 500 answers). The only one modelled is the negative skip of `getPosts`.
- PostController.RequestedPage: non-integer page numbers (`Number('1.5')`) are not modelled; the parsed number is NaN or an integer.
- Ids are compared as strings; ObjectId conversion is not modelled. A malformed id makes `findById` throw a CastError, which the handlers answer with a 500 (post.controller.js:158, 214, 248 and 302 and their catch blocks). `PostController.PostStore.LikePost`, `DislikePost`, `UpdatePost` and `DeletePost` answer `NotFound` for such an id instead.
- The API client, the auth and comment contexts, the comment counter, and the Profile, Login, VerifyEmail, ForgotPassword and ResetPassword pages. These are fetch and storage wrappers.
- The image upload service and `handleImageChange` (FileReader preview): the upload result is a parameter of `NewPost.NewPostPage.Submit`.
- Navbar, App, main and Footer: navigation, routing, providers and the current date.
- All rendering, relative dates, toasts, redirects, loading flags and `window.confirm`. Confirmation and the outcomes of API calls are parameters.
- HTTP status codes of API replies: the API client never checks `response.ok`, so an outcome parameter only says whether the request resolved without throwing. A 401, 404 or 500 reply counts as resolved. `AdminDashboard.AdminDashboardPage.DeletePost`, `AdminDashboard.AdminDashboardPage.DeleteUser`, `Dashboard.DashboardPage.DeletePost` and `CommentSection.CommentSectionState.DeleteComment` then remove the rows anyway. `CommentSection.CommentSectionState.SubmitComment` prepends a `createComment` error body as a comment and clears the box. `NewPost.NewPostPage.Submit` resets its form. For `EditPost.EditPostPage.Load`, an error body is stored as the fetched post: a non-admin then gets the permission error, and for an admin the page's `data.content.replace` throws, leaving only the load error. An error body in `PostPage.PostPageState.HandleLike` or `HandleDislike` sets both counters to `undefined`. The model does not produce these error bodies: `fetched`, `response` and `created` hold well-formed replies or nothing.
- The search page's fetch, which stores the whole response object instead of its `posts`. The filter is modelled over a list of posts.
- Posts without an author: `getPosts` always sends an `author` object (`post.author?._id`), so the admin dashboard's `post.author._id` does not throw. The model keeps the author id as an optional value, missing when the author was not populated.
- The load effects of the index, search, post and comment components that only store a fetched value. The post page and the comment section take the fetched value as a constructor argument. The index and search pages take their post list as a function argument.
- Commented-out code in the edit page and the API client.
- Unicode: case mapping is ASCII only, `trim` removes ASCII whitespace, and lengths count characters rather than UTF-16 code units.
