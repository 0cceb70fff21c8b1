# small-social-network: the comment subsystem, in Dafny

This project models the core of small-social-network, a blogging back end
in which users write posts and comment on them. It covers the comment
subsystem and the post and user bookkeeping it depends on:

- comments, with replies, likes, moderation, blocking by the post's owner,
  automatic replies from a text generator and daily analytics;
- posts, with their title limit, moderation, listing, ownership checks
  and cascading deletion;
- users, with a unique email, signup, profile update and the password
  validators of the request bodies.

## How the system is represented

- **Tables.** The database is a value `Store.Tables` holding four maps
  from id to row: users, posts, comments and likes.
  - `Store.Consistent` is the invariant every service method keeps. Part
    of it is what the schema enforces (`Store.WellFormed`):
    - foreign keys point at stored rows: a post's author, a comment's
      owner, post and parent, a like's owner and comment;
    - every row is filed under its own id, and every id is below the next
      free id;
    - emails are unique, and titles fit their column.

    The rest no constraint enforces; `like_comment` keeps it:
    - each comment's like counter equals its number of likes;
    - a user likes a comment at most once.
  - Cascading deletes are functions on `Tables`. Deleting a comment takes
    its whole reply subtree and the likes on it. Deleting a post takes
    every comment on the post.
- **Session.** `Sessions.Session` is a class holding:
  - the pending tables and the committed (`durable`) tables;
  - the next id the database will hand out;
  - the log of commit, rollback and close calls.

  A commit makes the pending tables durable. A rollback or a close
  discards them.
- **Repositories.** The four repositories are classes sharing that
  session. Their methods read and write the pending tables. The generic
  base repository operations are stated once, in `BaseRepository`:
  - lookup by id;
  - the filter validation of `list`;
  - the conjunctive `where`.
- **Unit of work.** `Transactions.UnitOfWork` is the `async with` scope.
  Entering gives the unit of work itself. Leaving closes the session,
  after a rollback when the scope raised. Every service method starts and
  ends in `UnitOfWork.Ready()`: the repositories share one session,
  nothing is pending, and the committed tables are consistent.
- **Services.** The services (`CommentServices`, `PostServices`,
  `UserServices`) are classes whose methods follow the Python control
  flow branch by branch. An `HTTPException` becomes an error value of
  `Wrappers.Result` carrying the same status class and detail text.
- **Outside collaborators become parameters:**
  - the moderation API's reply is an `ApiReply`;
  - the text generator's answer is a string;
  - the current time is an integer `now` in seconds;
  - the bcrypt hash of a signup password is a string;
  - the Celery queue is a `Scheduler` object whose task list grows.

Where the design description and the code differ, the model follows the
code:

- **Moderation fails open on a bad status.** A moderation reply with a
  non-success status counts as safe. Only a request that raises counts as
  unsafe.
- **Four repositories in the unit of work.** The unit of work's
  constructor declares two repositories, but its callers construct it with
  all four, and the services use all four. The model gives it all four.
- **Auto-reply trusts its comment.** `auto_reply_comment` does not check
  that the comment exists, so the model requires it.
- **Replies may cross posts.** Creating a reply checks only that the
  parent comment exists. It does not check that the parent is on the same
  post.
- **Auto-reply without a delay.** A post with auto-reply on but no
  `reply_after` makes scheduling raise after the commit. The new comment
  stays committed and the request ends in a server error.
- **Short first password.** A too-short `password1` with a long enough
  `password2` raises a `KeyError` in the match validator. It is not
  reported as a validation error.
- **Password change.** `change_password` does nothing.

## Model

| member | source | states |
|---|---|---|
| Records.NewComment | src/models/comment.py:14-44 | a new comment has no likes, is not blocked and has no block time; content, post, owner and parent are the ones given |
| Records.NewPost | src/models/post.py:14-39 | a new post is not a draft, has auto-reply off and no reply delay |
| Records.BlockComment | src/models/comment.py:64-66 | blocking sets the flag and records the time, and changes no other field |
| Records.BlockAgain | src/models/comment.py:64-66 | blocking a blocked comment again only moves its block time |
| Builders.CommentFromSchema | src/utils/comment/comment_model.py:6-12 | the comment is owned by the requesting user and carries the request's content, post and parent, with no likes and not blocked |
| Builders.PostFromSchema | src/utils/post/post_model.py:7-15 | the post is authored by the requesting user and carries the request's fields |
| Builders.UpdatePostFromSchema | src/utils/post/post_model.py:17-22 | an update replaces the editable fields and keeps id and author |
| Builders.UpdatePostIdempotent | src/utils/post/post_model.py:17-22 | applying the same update twice equals applying it once, whatever post it is applied to |
| Builders.UserFromSignupData | src/utils/user/user_model.py:5-17 | the new user stores the hash it is given as password, and the request's profile fields |
| Builders.ApplyUpdatesToUser | src/utils/user/user_model.py:19-30 | profile fields are replaced; id and password are kept |
| Builders.ApplyUpdatesIdempotent | src/utils/user/user_model.py:19-30 | applying the same profile update twice equals applying it once |
| Ownership.IsUserOwnerOfComment | src/utils/comment/ownership.py:5-6 | a user owns a comment exactly when the comment's owner id is the user's id; its partner Ownership.ExactlyOneOwnerOfComment shows that in a well-formed database exactly one stored user owns each stored comment |
| Ownership.IsUserOwnerOfPost | src/utils/post/ownership.py:5-6 | a user owns a post exactly when the post's author id is the user's id; its partner Ownership.ExactlyOneAuthorOfPost shows that exactly one stored user owns each stored post |
| Ownership.ExactlyOneOwnerOfComment | src/models/comment.py:24-26 | in a well-formed database every stored comment is owned by one stored user and by no other |
| Ownership.ExactlyOneAuthorOfPost | src/models/post.py:22-24 | in a well-formed database every stored post is owned by one stored user, its author, and by no other |
| StrUtils.ToCamelCase | src/utils/str_utils.py:4-11 | to_camel_case; its partners StrUtils.ToCamelCaseIsCamelWords (equal to the reference definition on every string) and StrUtils.ToCamelCaseShape (absent exactly for strings of separators and spaces) state what it computes |
| StrUtils.ChainIsStrippedTitle | src/utils/str_utils.py:10 | the replace/title/replace chain equals title-casing the string with separators dropped |
| StrUtils.StripTitleDropsLeadingSeparators | src/utils/str_utils.py:10 | leading separators and spaces vanish from the chain's output |
| StrUtils.ToCamelCaseIsCamelWords | src/utils/str_utils.py:4-11 | to_camel_case equals the reference definition: words joined, first letter lower-cased, casing restarted after each non-letter |
| StrUtils.WordsFromShape | src/utils/str_utils.py:10 | the joined words contain no separator or space and are no longer than their input |
| StrUtils.ToCamelCaseShape | src/utils/str_utils.py:4-11 | the result is absent (IndexError) exactly when every character is a separator or space; otherwise it has no separator or space and is no longer than the input |
| StrUtils.CamelWordsExample | src/utils/str_utils.py:10-11 | a snake-case column name becomes camel case, and a name made only of separators and spaces has no camel form |
| ContentModeration.Decide | src/utils/content_moderator/implementation.py:32-40 | the decision loop answers safe exactly when the status is not success or no available category scores strictly above the threshold; a failed request is unsafe |
| ContentModeration.ThresholdIsStrict | src/utils/content_moderator/implementation.py:37 | a score equal to 0.60 is safe, a score of a category the reply does not mark available is ignored, and any score above 0.60 flags the text |
| ContentModeration.FailsOpenOnErrorStatus | src/utils/content_moderator/implementation.py:32-44 | a non-success status counts as safe whatever the scores, while a failed request counts as unsafe |
| ContentModeration.ContentModerator.ModerateText | src/utils/content_moderator/implementation.py:10-44 | the verdict is the decision on the API's reply, and the text is what was sent |
| Store.WellFormed | src/models/comment.py:14-44 | the schema's constraints: rows filed under their ids below the next id, the foreign keys of posts, comments and likes, unique emails and titles within their column; every Store edit lemma and both cascades keep it |
| Store.Consistent | src/services/comment/implementation.py:166-191 | WellFormed plus what like_comment keeps: each counter equals its comment's number of likes, and a user likes a comment at most once; the empty database meets it, and every service method starts and ends in it |
| Store.EmptyIsConsistent | src/models/comment.py:14-33 | the empty database satisfies every schema constraint |
| Store.LikesCountNonNegative | src/models/comment.py:17 | in a consistent database every like counter is at least zero |
| Store.OnlyLikeOfPair | src/repositories/like/implementation.py:15-23 | a comment has at most one like per user, so the lookup by comment and user finds that one |
| Store.AddCommentKeepsConsistent | src/models/comment.py:14-33 | a new comment by a stored user on a stored post, under a stored parent or none, keeps the database consistent |
| Store.EditCommentKeepsConsistent | src/models/comment.py:14-33 | changing a comment's content or block fields, keeping its owner, post and parent, keeps the database consistent |
| Store.AddPostKeepsConsistent | src/models/post.py:11-23 | a new post by a stored user keeps the database consistent |
| Store.EditPostKeepsConsistent | src/models/post.py:11-23 | editing a post's fields, with a stored author, keeps the database consistent |
| Store.AddUserKeepsConsistent | src/models/user.py:12 | a new user with an unused email keeps the database consistent |
| Store.EditUserKeepsConsistent | src/models/user.py:12 | editing a user without taking another user's email keeps the database consistent |
| Store.DeleteComment | src/models/comment.py:18-33 | deletion removes the comment, its whole reply subtree and their likes, and nothing else |
| Store.DeleteCommentKeepsConsistent | src/models/comment.py:18-33 | after the cascade no reply or like points at a removed comment, and the database stays consistent |
| Store.DeleteCommentTakesReplies | src/models/comment.py:30-33 | every direct reply of a deleted comment is deleted too |
| Store.DeletePost | src/models/post.py:58-61 | deleting a post removes it, every comment under it and their likes, and leaves users alone |
| Store.DeletePostKeepsConsistent | src/models/post.py:58-61 | after the cascade the database is consistent |
| Store.DeletePostKeepsLinks | src/models/post.py:58-61 | after the cascade every foreign key still points at a stored row |
| Store.DeletePostTakesComments | src/models/post.py:58-61 | no comment of the deleted post survives |
| Store.ToggleLike | src/services/comment/implementation.py:166-191 | liking adds one like and raises the counter by one when the user had not liked the comment; otherwise it removes the like and lowers the counter by one |
| Store.ToggleLikeKeepsConsistent | src/services/comment/implementation.py:177-184 | toggling a stored user's like keeps the database consistent, the counters equal to the like counts |
| Store.UnlikeKeepsConsistent | src/services/comment/implementation.py:188-191 | taking back a like keeps the counters equal to the like counts |
| Store.ToggleLikeTwiceRestores | src/services/comment/implementation.py:166-191 | liking then unliking a comment restores the comments and the likes of every other pair |
| Store.ToggleLikeTwiceRestoresCount | src/services/comment/implementation.py:166-191 | liking twice restores the comment's counter |
| BaseRepository.GetById | src/repositories/base/implementation.py:37-40 | the row filed under the id, or none when the id is absent |
| BaseRepository.ConstructListStmt | src/repositories/base/implementation.py:42-62 | a statement is built exactly when every filter names a column, with its clauses in filter order; otherwise the first bad column is reported |
| BaseRepository.Where | src/repositories/base/implementation.py:51-62 | the rows kept are exactly those matching every clause |
| BaseRepository.WhereNothingIsAll | src/repositories/base/implementation.py:42-62 | with no filter the listing is the whole table |
| BaseRepository.WhereConjunction | src/repositories/base/implementation.py:53-61 | the clauses combine by conjunction: filtering by a+b is filtering by a then by b |
| BaseRepository.Rows | src/repositories/base/implementation.py:64-67 | the list holds exactly the table's rows, one entry per row |
| Queries.ListByAuthor | src/services/post/implementation.py:47 | listing by author_id gives exactly the posts of that author |
| Queries.TopLevelComments | src/repositories/comment/implementation.py:19-32 | exactly the comments of the post that have no parent and are not blocked |
| Queries.BlockingHidesFromTopLevel | src/repositories/comment/implementation.py:19-32 | a blocked comment is never listed at top level |
| Queries.DirectReplies | src/repositories/comment/implementation.py:34-46 | exactly the comments whose parent is the given one |
| Queries.CommentDetailsAndReplies | src/repositories/comment/implementation.py:34-46 | the stored comment and its direct replies, or none for a missing or blocked comment |
| Queries.RepliesAreYounger | src/models/comment.py:29-33 | in a consistent database every reply has an id larger than its parent's |
| Queries.UnblockedReplies | src/services/comment/implementation.py:128-131 | the replies shown are exactly the unblocked ones, and no more than there were |
| Queries.UnblockedRepliesKeepOrder | src/services/comment/implementation.py:128-131 | the filter keeps the replies in their order: filtering a concatenation concatenates the filtered parts |
| Queries.CommentWithPost | src/repositories/comment/implementation.py:56-76 | the comment together with the post it belongs to, or none |
| Queries.CommentWithPostFindsEveryComment | src/repositories/comment/implementation.py:56-76 | in a consistent database every stored comment is found together with its post |
| Queries.PostsWithAuthors | src/repositories/post/implementation.py:16-28 | exactly the published (non-draft) posts whose author is stored, each paired with that author |
| Queries.PostsListedWithTheirAuthors | src/repositories/post/implementation.py:16-28 | in a consistent database a post is listed exactly when it is not a draft, and with its own author |
| Queries.PostByIdWithAuthor | src/repositories/post/implementation.py:30-46 | the post and its author, or none when the post or its author is missing |
| Queries.UsersWithEmail | src/repositories/user/implementation.py:14-17 | the users whose email equals the given one; its partner Queries.AtMostOneUserPerEmail shows that with unique emails there is at most one |
| Queries.AtMostOneUserPerEmail | src/models/user.py:12 | in a consistent database an email identifies at most one user |
| Analytics.DayRow | src/repositories/comment/implementation.py:80-92 | a day has a row exactly when some comment on the user's posts was created that day; the row holds that day's total and blocked counts, with 0 <= blocked <= total and total > 0 |
| Analytics.DailyCommentAnalytic | src/repositories/comment/implementation.py:78-110 | every row's day lies in the range, each with a positive total and 0 <= blocked <= total; an inverted range gives no rows |
| Analytics.DaysAscending | src/repositories/comment/implementation.py:93 | the rows are ordered by strictly ascending day |
| Analytics.RowForEachActiveDay | src/repositories/comment/implementation.py:80-92 | a day in the range appears exactly when some comment on the user's posts was created on it |
| Analytics.TotalsCountEveryComment | src/repositories/comment/implementation.py:81-85 | the totals add up to the number of comments on the user's posts in the range |
| Sessions.Session.Commit | src/repositories/unit_of_work/implementation.py:18-20 | the pending tables become durable |
| Sessions.Session.Rollback | src/repositories/unit_of_work/implementation.py:26-28 | the pending tables are discarded |
| Sessions.Session.Close | src/repositories/unit_of_work/implementation.py:22-24 | the pending tables are discarded |
| Repositories.CommentRepository.GetById | src/repositories/base/implementation.py:37-40 | the stored comment with that id, or none |
| Repositories.CommentRepository.Add | src/repositories/base/implementation.py:69-73 | the comment, whose owner, post and parent must be stored, is stored under the next id, with its creation time set, and nothing else changes |
| Repositories.CommentRepository.Update | src/repositories/base/implementation.py:75-79 | the comment replaces the stored one with its id |
| Repositories.CommentRepository.Delete | src/repositories/base/implementation.py:81-84 | a present comment is deleted with its cascade; none changes nothing |
| Repositories.CommentRepository.GetTopLevelComments | src/repositories/comment/implementation.py:19-32 | the rows are exactly the post's unblocked top-level comments |
| Repositories.CommentRepository.GetCommentDetailsAndReplies | src/repositories/comment/implementation.py:34-46 | none for a missing or blocked comment; otherwise the comment with exactly its direct replies |
| Repositories.CommentRepository.IncrementLikeCounter | src/repositories/comment/implementation.py:48-50 | the stored counter goes up by one and nothing else changes |
| Repositories.CommentRepository.DecrementLikeCounter | src/repositories/comment/implementation.py:52-54 | the stored counter goes down by one and nothing else changes |
| Repositories.CommentRepository.GetCommentWithPost | src/repositories/comment/implementation.py:56-76 | the comment joined with its post |
| Repositories.CommentRepository.DailyCommentAnalytic | src/repositories/comment/implementation.py:78-110 | the daily analytic of the user's posts over the range |
| Repositories.PostRepository.GetById | src/repositories/base/implementation.py:37-40 | the stored post with that id, or none |
| Repositories.PostRepository.List | src/repositories/base/implementation.py:42-67 | an error exactly when a filter names no post attribute; otherwise exactly the posts matching every filter |
| Repositories.PostRepository.Add | src/repositories/base/implementation.py:69-73 | the author must be stored; a title over 256 characters fails and changes nothing; otherwise the post is stored under the next id |
| Repositories.PostRepository.Update | src/repositories/base/implementation.py:75-79 | a title over 256 characters fails and changes nothing; otherwise the post replaces the stored one |
| Repositories.PostRepository.Delete | src/repositories/base/implementation.py:81-84 | a present post is deleted with its cascade; none changes nothing |
| Repositories.PostRepository.GetPostsWithAuthors | src/repositories/post/implementation.py:16-28 | the rows are exactly the published posts paired with their authors |
| Repositories.PostRepository.GetPostByIdWithRelatedObjects | src/repositories/post/implementation.py:30-46 | the post with its author, or none |
| Repositories.UserRepository.GetByEmail | src/repositories/user/implementation.py:14-17 | none exactly when no user has the email; otherwise a stored user with that email |
| Repositories.UserRepository.Add | src/repositories/base/implementation.py:69-73 | the user is stored under the next id |
| Repositories.UserRepository.Update | src/repositories/base/implementation.py:75-79 | the user replaces the stored one with its id |
| Repositories.LikeRepository.GetByCommentIdAndUserId | src/repositories/like/implementation.py:15-23 | none exactly when the user has not liked the comment; otherwise a stored like of that pair |
| Repositories.LikeRepository.Add | src/repositories/base/implementation.py:69-73 | the like, whose owner and comment must be stored, is stored under the next id |
| Repositories.LikeRepository.Delete | src/repositories/base/implementation.py:81-84 | a present like is removed; none changes nothing |
| Transactions.UnitOfWork.constructor | src/repositories/unit_of_work/implementation.py:11-15 | the repositories all work through the unit of work's session |
| Transactions.UnitOfWork.Commit | src/repositories/unit_of_work/implementation.py:18-20 | the session commits |
| Transactions.UnitOfWork.Close | src/repositories/unit_of_work/implementation.py:22-24 | the session closes, discarding pending changes |
| Transactions.UnitOfWork.Rollback | src/repositories/unit_of_work/implementation.py:26-28 | the session rolls back |
| Transactions.UnitOfWork.Enter | src/repositories/unit_of_work/implementation.py:30-32 | entering gives the unit of work itself |
| Transactions.UnitOfWork.Exit | src/repositories/unit_of_work/implementation.py:34-39 | leaving rolls back then closes after an exception, only closes otherwise; it never commits |
| AutoReply.ScheduleAutoReply | src/utils/comment/auto_reply.py:4-8 | a task for the comment is queued with a countdown of reply_after minutes in seconds; without reply_after nothing is queued and the call fails |
| AutoReply.ReplyGenerator.GenerateReply | src/services/comment/implementation.py:98 | the reply is the generator's answer to the prompt that was sent |
| CommentServices.AutoReplyPrompt | src/services/comment/implementation.py:92-96 | the prompt is the fixed instructions followed by the post-and-comment prompt |
| CommentServices.PromptReadsBack | src/services/comment/implementation.py:29-41 | the prompt holds the post title, the post text and the comment, each after its label |
| CommentServices.CommentService.CreateComment | src/services/comment/implementation.py:44-82 | not found for a missing post or parent, nothing stored; otherwise one comment stored, blocked exactly when moderation flags it, and an auto-reply queued exactly when it is unblocked and the post has auto-reply on |
| CommentServices.CommentService.InsertComment | src/services/comment/implementation.py:70-82 | the comment is committed before scheduling; a missing reply delay gives a server error with the comment kept |
| CommentServices.CommentService.AutoReplyComment | src/services/comment/implementation.py:84-108 | a reply owned by the post's author, with the generator's answer, is added under the comment and committed |
| CommentServices.CommentService.GetTopLevelComments | src/services/comment/implementation.py:110-116 | the post's unblocked top-level comments; nothing changes |
| CommentServices.CommentService.GetCommentDetails | src/services/comment/implementation.py:118-131 | not found for a missing or blocked comment; otherwise the comment with its unblocked direct replies |
| CommentServices.CommentService.UpdateComment | src/services/comment/implementation.py:133-164 | not found, then forbidden for a non-owner, with nothing changed; otherwise the content is replaced and the comment is blocked when moderation flags it |
| CommentServices.CommentService.LikeComment | src/services/comment/implementation.py:166-191 | not found for a missing comment; otherwise the like of this user is toggled and the counter follows |
| CommentServices.CommentService.AddLike | src/services/comment/implementation.py:177-184 | with no like of the user on the comment, a like is added and the counter raised: the tables become the toggled tables and stay consistent |
| CommentServices.CommentService.RemoveLike | src/services/comment/implementation.py:188-191 | with the user's like found, it is deleted and the counter lowered: the tables become the toggled tables and stay consistent |
| CommentServices.CommentService.BlockComment | src/services/comment/implementation.py:193-213 | not found, then forbidden unless the user owns the comment's post; otherwise the comment is blocked at `now` |
| CommentServices.CommentService.DeleteComment | src/services/comment/implementation.py:215-231 | not found, then forbidden for a non-owner; otherwise the comment and its replies are deleted |
| CommentServices.CommentService.DailyCommentAnalytic | src/services/comment/implementation.py:233-237 | the daily analytic of the user's posts; nothing changes |
| PostServices.AuthorOf | src/services/post/implementation.py:76-80 | the author carries the user's first and last name |
| PostServices.ModeratedTextHoldsBoth | src/services/post/implementation.py:23-26 | the moderated text is the title and the content on separate lines |
| PostServices.PostService.CreatePost | src/services/post/implementation.py:22-41 | bad request when moderation flags the title and content, with no session call; a server error with nothing stored when the title is too long; otherwise the post is stored under the next id |
| PostServices.PostService.GetUserPosts | src/services/post/implementation.py:43-68 | exactly the user's posts; nothing changes |
| PostServices.PostService.GetAllPostsWithAuthors | src/services/post/implementation.py:70-96 | every published post, each with its author's names; nothing changes |
| PostServices.ListedItemsArePublishedPosts | src/services/post/implementation.py:75-94 | the items built from the joined rows are stored, published posts with their own authors' names, and every published post is among them |
| PostServices.PostService.GetPostWithRelatedData | src/services/post/implementation.py:98-114 | not found exactly when the post is missing (its author is always stored); otherwise the post with its author |
| PostServices.PostService.UpdatePost | src/services/post/implementation.py:116-150 | bad request when moderation flags the text, then not found, then forbidden for a non-author, then a server error for a long title; otherwise the post's fields are replaced |
| PostServices.PostService.DeletePost | src/services/post/implementation.py:152-170 | not found, then forbidden for a non-author; otherwise the post and all its comments are deleted |
| UserServices.UserService.UserSignup | src/services/user/implementation.py:15-34 | bad request exactly when the email is taken, with nothing stored; otherwise one user is stored with the hash it is given as password |
| UserServices.UserService.UpdateUser | src/services/user/implementation.py:36-53 | bad request exactly when another user holds the email; keeping one's own email is allowed; otherwise the profile is replaced |
| UserServices.UserService.ChangePassword | src/services/user/implementation.py:56-57 | accepts every request and changes nothing |
| UserSchemes.PasswordLength | src/schemes/user.py:15-20 | an error exactly for a password under 8 characters |
| UserSchemes.ValidatePasswordPair | src/schemes/user.py:15-28 | valid exactly when the first password is long enough and the second equals it; a crash exactly when the first is short and the second long enough; the mismatch error exactly when both are long enough and differ |
| UserSchemes.ValidateUserCreate | src/schemes/user.py:15-28 | signup passwords are accepted exactly when password1 is long enough and password2 equals it |
| UserSchemes.ValidateChangePassword | src/schemes/user.py:50-63 | a password change is accepted exactly when new_password1 is long enough and new_password2 equals it; the old password is not checked |
| UserSchemes.ShortFirstPasswordCrashes | src/schemes/user.py:22-28 | a short password1 with a long enough password2 raises instead of reporting a validation error |

## Left out

- HTTP routing, authentication and token handling are not part of this model. Services receive the signed-in user as a value. Authentication loads that user from the users table and answers 404 when it is missing (src/services/auth/implementation.py:77-88), so the services that write rows for the user require it to be stored.
- Password hashing is not modelled. The hash of the signup password is a parameter.
- The network calls are not modelled. The moderation API's reply and the text generator's answer are parameters.
- The Celery worker that runs scheduled auto-replies is left out. Scheduling is modelled as a growing task list.
- Time is a parameter `now` in whole seconds, one value per operation. `updated_at` and the posts' `created_at` are not modelled.
- Days are computed in UTC. The time zone of the database's date cast is not modelled.
- Width limits are modelled only for the post title, which the 256-character `String(256)` column enforces. The email and name widths are left out.
- Validation of fields other than the passwords is left out: `EmailStr`, the positive `reply_after` and the date-of-birth checks.
- Foreign-key and unique-email violations are not modelled as database errors. The repositories' preconditions exclude them. The services look up the referenced post, comment or email before writing, and the signed-in user is stored.
- Concurrency is left out. Two requests liking the same comment at once are not modelled, and neither is a change between the two scopes of `update_user`.
- ORM objects are modified in place and flushed; the model replaces rows by value. Object identity and aliasing between loaded rows are not modelled.
- Result order is not modelled. Database lists are specified as sets or maps of rows, except the analytic, which is ordered by day.
- One id counter serves all four tables. The database's per-table sequences are not modelled.
- `list` filters are checked against the post's columns. The Python `hasattr` check also accepts relationship and method names, which is not modelled.
- Letter casing in `to_camel_case` is ASCII only. Python's Unicode title-casing is not modelled.
- Repositories.UserRepository.GetByEmail: promises a stored user with the email, not which row the database returns first. With unique emails there is only one.
- Repositories.LikeRepository.GetByCommentIdAndUserId: promises a stored like of the pair, not which row the database returns first. In a consistent database there is only one.
