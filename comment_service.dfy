/** The comment service: every operation runs in one unit-of-work scope,
    reports a missing row before a missing permission, and commits only on
    success. Every operation starts and ends with the unit of work ready:
    no pending writes and consistent committed tables. */
module CommentServices {
  import opened Wrappers
  import opened Records
  import opened Store
  import opened Sessions
  import opened Transactions
  import opened Builders
  import opened Ownership
  import opened ContentModeration
  import opened AutoReply
  import Q = Queries
  import A = Analytics

  const PostMissing := "Not able to create comment for non-existent post"
  const ParentMissing := "Not able to create comment for non-existent parent comment"
  const DetailsMissing := "Not able to get comment details for non-existent comment"
  const UpdateMissing := "Not able to apply updates for non-existent comment"
  const UpdateNotOwner := "Only owner can update the comment"
  const LikeMissing := "Cannot like non-existent comment"
  const BlockMissing := "Cannot block non-existent comment"
  const BlockNotPostOwner := "Only owner of the post can block comments under the post"
  const DeleteMissing := "Cannot delete non-existent comment"
  const DeleteNotOwner := "Only owner of the comment can delete the comment"
  /** What the countdown multiplication raises for a post without reply_after. */
  const NoReplyAfter := "unsupported operand type(s) for *: 'NoneType' and 'int'"

  // ---------------------------------------------------------------------
  // The auto-reply prompt

  const ReplyInstructions :=
    "Given a post title and post text.\nYou need to answer the comment. Answer should be compact.\nDON'T USE LISTS, TABLES, ETC. \n"
  const TitleLabel := "Post Title: "
  const TextLabel := "\nPost Text: "
  const CommentLabel := "\n\nComment: "

  /** _create_prompt_from_post_and_comment */
  function PostAndCommentPrompt(post: Post, comment: Comment): string
  {
    TitleLabel + post.title + TextLabel + post.content + CommentLabel + comment.content + "\n"
  }

  /** The prompt auto_reply_comment sends: the instructions, then the post and the comment. */
  function AutoReplyPrompt(post: Post, comment: Comment): (p: string)
    ensures |p| == |ReplyInstructions| + |PostAndCommentPrompt(post, comment)|
    ensures p[..|ReplyInstructions|] == ReplyInstructions
    ensures p[|ReplyInstructions|..] == PostAndCommentPrompt(post, comment)
  {
    ReplyInstructions + PostAndCommentPrompt(post, comment)
  }

  /** The title, the post text and the comment can be read back from the
      prompt at the positions the labels and their lengths give, and the
      prompt ends with a newline. */
  lemma PromptReadsBack(post: Post, comment: Comment)
    ensures var p := PostAndCommentPrompt(post, comment);
            var a := |TitleLabel|;
            var b := a + |post.title| + |TextLabel|;
            var d := b + |post.content| + |CommentLabel|;
            && |p| == d + |comment.content| + 1
            && p[..a] == TitleLabel
            && p[a..a + |post.title|] == post.title
            && p[b..b + |post.content|] == post.content
            && p[d..|p| - 1] == comment.content
            && p[|p| - 1] == '\n'
  {
    var p := PostAndCommentPrompt(post, comment);
    var a := |TitleLabel|;
    var b := a + |post.title| + |TextLabel|;
    var d := b + |post.content| + |CommentLabel|;
    var s1 := TitleLabel + post.title;
    var s2 := s1 + TextLabel + post.content;
    var s3 := s2 + CommentLabel + comment.content;
    assert p == s3 + "\n";
    assert p[..|s3|] == s3;
    assert s3[..|s2|] == s2;
    assert s2[..|s1|] == s1;
    assert p[..a] == s1[..a];
    assert p[a..a + |post.title|] == s1[a..];
    assert p[b..b + |post.content|] == s2[b..];
    assert p[d..|p| - 1] == s3[d..];
  }

  // ---------------------------------------------------------------------
  // What the operations store

  /** The post and, when given, the parent the new comment refers to exist. */
  predicate CanCreate(t: Tables, data: CreateCommentSchema)
  {
    data.postId in t.posts && (data.parentId.Some? ==> data.parentId.value in t.comments)
  }

  /** `c` is the comment create_comment stores for `data` with id `id` at
      time `now`: owned by the user, blocked at `now` exactly when the text
      is unsafe, no likes. */
  predicate CreatedFrom(c: Comment, id: int, user: User, data: CreateCommentSchema, safe: bool, now: int)
  {
    && c.id == id && c.content == data.content && c.postId == data.postId && c.parentId == data.parentId
    && c.ownerId == user.id && c.likesCount == 0 && c.createdAt == now
    && c.blocked == !safe && c.blockedAt == (if safe then None else Some(now))
  }

  /** `r` is the reply auto_reply_comment stores under `c` of `post`: the
      generated text, on the same post, owned by the post's author, not blocked. */
  predicate AutoReplyOf(r: Comment, id: int, c: Comment, post: Post, answer: string, now: int)
  {
    && r.id == id && r.content == answer && r.postId == c.postId && r.ownerId == post.authorId
    && r.parentId == Some(c.id) && r.likesCount == 0 && !r.blocked && r.blockedAt == None
    && r.createdAt == now
  }

  /** `r` is comment `c` after update_comment with `content`: new content,
      blocked at `now` when the text is unsafe, otherwise the block state it had. */
  predicate UpdatedFrom(r: Comment, c: Comment, content: string, safe: bool, now: int)
  {
    && r.content == content
    && r.blocked == (c.blocked || !safe)
    && r.blockedAt == (if safe then c.blockedAt else Some(now))
    && r.(content := c.content, blocked := c.blocked, blockedAt := c.blockedAt) == c
  }

  /** The transaction calls of a scope that raised before committing. */
  const Aborted := [SessionCall.Rollback, SessionCall.Close]
  /** ... of a scope that committed and ended normally. */
  const Committed := [SessionCall.Commit, SessionCall.Close]

  class CommentService {
    const uow: UnitOfWork
    const moderator: ContentModerator
    const generator: ReplyGenerator
    const scheduler: Scheduler

    constructor (uow: UnitOfWork, moderator: ContentModerator, generator: ReplyGenerator, scheduler: Scheduler)
      ensures this.uow == uow && this.moderator == moderator
      ensures this.generator == generator && this.scheduler == scheduler
    {
      this.uow := uow;
      this.moderator := moderator;
      this.generator := generator;
      this.scheduler := scheduler;
    }

    /** create_comment: the text is moderated first, even when the post or
        parent turns out to be missing; an unsafe comment is stored blocked,
        never refused. After the commit, a safe comment on a post with
        auto-reply on gets one reply task. */
    method CreateComment(user: User, data: CreateCommentSchema, reply: ApiReply, now: int) returns (r: Result<Comment>)
      requires uow.Ready() && user.id in uow.session.durable.users
      modifies uow.session, moderator, scheduler
      ensures uow.Ready()
      ensures moderator.asked == old(moderator.asked) + [data.content]
      ensures r.NotFound? <==> !CanCreate(old(uow.session.durable), data)
      ensures r.NotFound? ==> r.detail == if data.postId !in old(uow.session.durable.posts) then PostMissing else ParentMissing
      ensures r.NotFound? ==>
                uow.session.durable == old(uow.session.durable) && uow.session.nextId == old(uow.session.nextId) &&
                scheduler.tasks == old(scheduler.tasks) && uow.session.calls == old(uow.session.calls) + Aborted
      ensures !r.NotFound? ==>
                var id := old(uow.session.nextId);
                var post := old(uow.session.durable.posts[data.postId]);
                var wants := IsSafe(reply) && post.autoReply;
                && id in uow.session.durable.comments
                && uow.session.durable == old(uow.session.durable).(comments := old(uow.session.durable.comments)[id := uow.session.durable.comments[id]])
                && CreatedFrom(uow.session.durable.comments[id], id, user, data, IsSafe(reply), now)
                && uow.session.nextId == id + 1
                && (r.ServerError? <==> wants && post.replyAfter.None?)
                && (r.Ok? ==> r.value == uow.session.durable.comments[id])
                && scheduler.tasks == old(scheduler.tasks) +
                     (if r.Ok? && wants then [Task(id, post.replyAfter.value * SecondsPerMinute)] else [])
                && uow.session.calls == old(uow.session.calls) +
                     (if r.ServerError? then [SessionCall.Commit] + Aborted else Committed)
    {
      var safe := moderator.ModerateText(data.content, reply);
      var u := uow.Enter();
      ghost var t0 := u.session.durable;
      ghost var n0 := u.session.nextId;
      var post := u.postRepository.GetById(data.postId);
      if post.None? {
        u.Exit(true);
        return NotFound(PostMissing);
      }
      if data.parentId.Some? {
        var parent := u.commentRepository.GetById(data.parentId.value);
        if parent.None? {
          u.Exit(true);
          return NotFound(ParentMissing);
        }
      }
      r := InsertComment(user, data, safe, post.value, now);
    }

    /** The part of create_comment after the lookups: store the comment,
        commit, then schedule the auto-reply. */
    method InsertComment(user: User, data: CreateCommentSchema, safe: bool, post: Post, now: int) returns (r: Result<Comment>)
      requires uow.Ready() && user.id in uow.session.durable.users
      requires CanCreate(uow.session.durable, data) && post == uow.session.durable.posts[data.postId]
      modifies uow.session, scheduler
      ensures uow.Ready()
      ensures var id := old(uow.session.nextId);
              var wants := safe && post.autoReply;
              && id in uow.session.durable.comments
              && uow.session.durable == old(uow.session.durable).(comments := old(uow.session.durable.comments)[id := uow.session.durable.comments[id]])
              && CreatedFrom(uow.session.durable.comments[id], id, user, data, safe, now)
              && uow.session.nextId == id + 1
              && (r.Ok? || r.ServerError?)
              && (r.ServerError? <==> wants && post.replyAfter.None?)
              && (r.Ok? ==> r.value == uow.session.durable.comments[id])
              && scheduler.tasks == old(scheduler.tasks) +
                   (if r.Ok? && wants then [Task(id, post.replyAfter.value * SecondsPerMinute)] else [])
              && uow.session.calls == old(uow.session.calls) +
                   (if r.ServerError? then [SessionCall.Commit] + Aborted else Committed)
    {
      var u := uow;
      ghost var t0 := u.session.durable;
      ghost var n0 := u.session.nextId;
      var comment := CommentFromSchema(user, data);
      if !safe {
        comment := Records.BlockComment(comment, now);
      }
      var created := u.commentRepository.Add(comment, now);
      AddCommentKeepsConsistent(t0, n0, created);
      u.Commit();
      if safe && post.autoReply {
        var scheduled := ScheduleAutoReply(scheduler, post, created);
        if !scheduled {
          u.Exit(true);
          return ServerError(NoReplyAfter);
        }
      }
      u.Exit(false);
      return Ok(created);
    }

    /** auto_reply_comment: asks the generator about the comment and its
        post, and stores the answer as a reply to the comment owned by the
        post's author. The reply is not moderated. The comment must exist:
        the operation does not check. */
    method AutoReplyComment(commentId: int, answer: string, now: int)
      requires uow.Ready()
      requires commentId in uow.session.durable.comments
      modifies uow.session, generator
      ensures uow.Ready()
      ensures var c := old(uow.session.durable.comments[commentId]);
              var post := old(uow.session.durable.posts[c.postId]);
              var id := old(uow.session.nextId);
              && generator.prompts == old(generator.prompts) + [AutoReplyPrompt(post, c)]
              && id in uow.session.durable.comments
              && uow.session.durable == old(uow.session.durable).(comments := old(uow.session.durable.comments)[id := uow.session.durable.comments[id]])
              && AutoReplyOf(uow.session.durable.comments[id], id, c, post, answer, now)
      ensures uow.session.nextId == old(uow.session.nextId) + 1
      ensures uow.session.calls == old(uow.session.calls) + Committed
    {
      var u := uow.Enter();
      ghost var t0 := u.session.durable;
      ghost var n0 := u.session.nextId;
      var found := u.commentRepository.GetCommentWithPost(commentId);
      var (comment, post) := found.value;
      var prompt := ReplyInstructions + PostAndCommentPrompt(post, comment);
      var text := generator.GenerateReply(prompt, answer);
      var reply := NewComment(text, comment.postId, post.authorId, Some(comment.id));
      var created := u.commentRepository.Add(reply, now);
      AddCommentKeepsConsistent(t0, n0, created);
      u.Commit();
      u.Exit(false);
    }

    /** get_top_level_comments */
    method GetTopLevelComments(postId: int) returns (rows: seq<Comment>)
      requires uow.Ready()
      modifies uow.session
      ensures uow.Ready()
      ensures uow.session.durable == old(uow.session.durable) && uow.session.nextId == old(uow.session.nextId)
      ensures uow.session.calls == old(uow.session.calls) + [SessionCall.Close]
      ensures |rows| == |Q.TopLevelComments(uow.session.durable.comments, postId)|
      ensures forall c :: c in rows <==>
                c in uow.session.durable.comments.Values && c.postId == postId && c.parentId.None? && !c.blocked
    {
      var u := uow.Enter();
      rows := u.commentRepository.GetTopLevelComments(postId);
      u.Exit(false);
    }

    /** get_comment_details: a missing or blocked comment is not found;
        otherwise the comment and its unblocked direct replies. */
    method GetCommentDetails(id: int) returns (r: Result<(Comment, seq<Comment>)>)
      requires uow.Ready()
      modifies uow.session
      ensures uow.Ready()
      ensures uow.session.durable == old(uow.session.durable) && uow.session.nextId == old(uow.session.nextId)
      ensures r.NotFound? <==> id !in uow.session.durable.comments || uow.session.durable.comments[id].blocked
      ensures r.Ok? || r.NotFound?
      ensures r.NotFound? ==> r.detail == DetailsMissing
      ensures r.Ok? ==> r.value.0 == uow.session.durable.comments[id]
      ensures r.Ok? ==> forall c :: c in r.value.1 <==>
                c in uow.session.durable.comments.Values && c.parentId == Some(id) && !c.blocked
      ensures uow.session.calls == old(uow.session.calls) + if r.NotFound? then Aborted else [SessionCall.Close]
    {
      var u := uow.Enter();
      var found := u.commentRepository.GetCommentDetailsAndReplies(id);
      if found.None? {
        u.Exit(true);
        return NotFound(DetailsMissing);
      }
      var (comment, replies) := found.value;
      u.Exit(false);
      return Ok((comment, Q.UnblockedReplies(replies)));
    }

    /** update_comment: only the owner may change the content; an unsafe
        text blocks the comment, a safe one leaves the block state alone. */
    method UpdateComment(id: int, user: User, content: string, reply: ApiReply, now: int) returns (r: Result<Comment>)
      requires uow.Ready()
      modifies uow.session, moderator
      ensures uow.Ready()
      ensures moderator.asked == old(moderator.asked) + [content]
      ensures uow.session.nextId == old(uow.session.nextId)
      ensures r.Ok? || r.NotFound? || r.Forbidden?
      ensures r.NotFound? <==> id !in old(uow.session.durable.comments)
      ensures r.NotFound? ==> r.detail == UpdateMissing
      ensures r.Forbidden? <==>
                id in old(uow.session.durable.comments) && !IsUserOwnerOfComment(user, old(uow.session.durable.comments[id]))
      ensures r.Forbidden? ==> r.detail == UpdateNotOwner
      ensures !r.Ok? ==> uow.session.durable == old(uow.session.durable) &&
                         uow.session.calls == old(uow.session.calls) + Aborted
      ensures r.Ok? ==> UpdatedFrom(r.value, old(uow.session.durable.comments[id]), content, IsSafe(reply), now)
      ensures r.Ok? ==> uow.session.durable == old(uow.session.durable).(comments := old(uow.session.durable.comments)[id := r.value])
      ensures r.Ok? ==> uow.session.calls == old(uow.session.calls) + Committed
    {
      var safe := moderator.ModerateText(content, reply);
      var u := uow.Enter();
      ghost var t0 := u.session.durable;
      var comment := u.commentRepository.GetById(id);
      if comment.None? {
        u.Exit(true);
        return NotFound(UpdateMissing);
      }
      if !IsUserOwnerOfComment(user, comment.value) {
        u.Exit(true);
        return Forbidden(UpdateNotOwner);
      }
      var changed := comment.value.(content := content);
      if !safe {
        changed := Records.BlockComment(changed, now);
      }
      var updated := u.commentRepository.Update(changed);
      EditCommentKeepsConsistent(t0, u.session.nextId, updated);
      u.Commit();
      u.Exit(false);
      return Ok(updated);
    }

    /** like_comment: the like toggle. */
    method LikeComment(id: int, user: User) returns (r: Result<()>)
      requires uow.Ready() && user.id in uow.session.durable.users
      modifies uow.session
      ensures uow.Ready()
      ensures r.Ok? || r.NotFound?
      ensures r.NotFound? <==> id !in old(uow.session.durable.comments)
      ensures r.NotFound? ==> r.detail == LikeMissing && uow.session.durable == old(uow.session.durable) &&
                              uow.session.nextId == old(uow.session.nextId) &&
                              uow.session.calls == old(uow.session.calls) + Aborted
      ensures r.Ok? ==> uow.session.durable == ToggleLike(old(uow.session.durable), id, user.id, old(uow.session.nextId))
      ensures r.Ok? ==> uow.session.nextId == old(uow.session.nextId) +
                          (if LikesBy(old(uow.session.durable.likes), id, user.id) == {} then 1 else 0)
      ensures r.Ok? ==> uow.session.calls == old(uow.session.calls) + Committed
    {
      var u := uow.Enter();
      ghost var t0 := u.session.durable;
      ghost var n0 := u.session.nextId;
      var comment := u.commentRepository.GetById(id);
      if comment.None? {
        u.Exit(true);
        return NotFound(LikeMissing);
      }
      var like := u.likeRepository.GetByCommentIdAndUserId(id, user.id);
      if like.None? {
        AddLike(comment.value, user.id);
      } else {
        RemoveLike(comment.value, like.value);
      }
      u.Commit();
      u.Exit(false);
      return Ok(());
    }

    /** The first branch of like_comment: a new like and a raised counter. */
    method AddLike(comment: Comment, uid: int)
      requires uow.Ready() && uid in uow.session.tables.users
      requires comment.id in uow.session.tables.comments
      requires LikesBy(uow.session.tables.likes, comment.id, uid) == {}
      modifies uow.session
      ensures uow.Valid() && Consistent(uow.session.tables, uow.session.nextId)
      ensures uow.session.tables == ToggleLike(old(uow.session.tables), comment.id, uid, old(uow.session.nextId))
      ensures uow.session.nextId == old(uow.session.nextId) + 1
      ensures uow.session.durable == old(uow.session.durable) && uow.session.calls == old(uow.session.calls)
    {
      ghost var t0 := uow.session.tables;
      ghost var n0 := uow.session.nextId;
      var added := uow.likeRepository.Add(Like(0, comment.id, uid));
      var counted := uow.commentRepository.IncrementLikeCounter(comment);
      ToggleLikeKeepsConsistent(t0, n0, comment.id, uid);
    }

    /** The second branch of like_comment: the like found is deleted and
        the counter lowered. */
    method RemoveLike(comment: Comment, like: Like)
      requires uow.Ready()
      requires comment.id in uow.session.tables.comments
      requires like in uow.session.tables.likes.Values
      requires like.commentId == comment.id
      modifies uow.session
      ensures uow.Valid() && Consistent(uow.session.tables, uow.session.nextId)
      ensures uow.session.tables == ToggleLike(old(uow.session.tables), comment.id, like.ownerId, old(uow.session.nextId))
      ensures uow.session.nextId == old(uow.session.nextId)
      ensures uow.session.durable == old(uow.session.durable) && uow.session.calls == old(uow.session.calls)
    {
      ghost var t0 := uow.session.tables;
      ghost var n0 := uow.session.nextId;
      if forall k :: k in t0.likes ==> t0.likes[k] != like {
        assert false;
      }
      ghost var l :| l in t0.likes && t0.likes[l] == like;
      OnlyLikeOfPair(t0, n0, comment.id, like.ownerId, l);
      uow.likeRepository.Delete(Some(like));
      var counted := uow.commentRepository.DecrementLikeCounter(comment);
      UnlikeKeepsConsistent(t0, n0, comment.id, like.ownerId);
    }

    /** block_comment: only the author of the comment's post may block it. */
    method BlockComment(id: int, user: User, now: int) returns (r: Result<Comment>)
      requires uow.Ready()
      modifies uow.session
      ensures uow.Ready()
      ensures uow.session.nextId == old(uow.session.nextId)
      ensures r.Ok? || r.NotFound? || r.Forbidden?
      ensures r.NotFound? <==> id !in old(uow.session.durable.comments)
      ensures r.NotFound? ==> r.detail == BlockMissing
      ensures r.Forbidden? <==>
                id in old(uow.session.durable.comments) && !IsUserOwnerOfPost(user, old(uow.session.durable.posts[uow.session.durable.comments[id].postId]))
      ensures r.Forbidden? ==> r.detail == BlockNotPostOwner
      ensures !r.Ok? ==> uow.session.durable == old(uow.session.durable) &&
                         uow.session.calls == old(uow.session.calls) + Aborted
      ensures r.Ok? ==> r.value == Records.BlockComment(old(uow.session.durable.comments[id]), now)
      ensures r.Ok? ==> uow.session.durable == old(uow.session.durable).(comments := old(uow.session.durable.comments)[id := r.value])
      ensures r.Ok? ==> uow.session.calls == old(uow.session.calls) + Committed
    {
      var u := uow.Enter();
      ghost var t0 := u.session.durable;
      var found := u.commentRepository.GetCommentWithPost(id);
      if found.None? {
        u.Exit(true);
        return NotFound(BlockMissing);
      }
      var (comment, post) := found.value;
      if !IsUserOwnerOfPost(user, post) {
        u.Exit(true);
        return Forbidden(BlockNotPostOwner);
      }
      var blocked := Records.BlockComment(comment, now);
      var updated := u.commentRepository.Update(blocked);
      EditCommentKeepsConsistent(t0, u.session.nextId, updated);
      u.Commit();
      u.Exit(false);
      return Ok(updated);
    }

    /** delete_comment: only the owner may delete; the replies below the
        comment and all their likes go with it. */
    method DeleteComment(id: int, user: User) returns (r: Result<()>)
      requires uow.Ready()
      modifies uow.session
      ensures uow.Ready()
      ensures uow.session.nextId == old(uow.session.nextId)
      ensures r.Ok? || r.NotFound? || r.Forbidden?
      ensures r.NotFound? <==> id !in old(uow.session.durable.comments)
      ensures r.NotFound? ==> r.detail == DeleteMissing
      ensures r.Forbidden? <==>
                id in old(uow.session.durable.comments) && !IsUserOwnerOfComment(user, old(uow.session.durable.comments[id]))
      ensures r.Forbidden? ==> r.detail == DeleteNotOwner
      ensures !r.Ok? ==> uow.session.durable == old(uow.session.durable) &&
                         uow.session.calls == old(uow.session.calls) + Aborted
      ensures r.Ok? ==> uow.session.durable == Store.DeleteComment(old(uow.session.durable), id)
      ensures r.Ok? ==> uow.session.calls == old(uow.session.calls) + Committed
    {
      var u := uow.Enter();
      ghost var t0 := u.session.durable;
      var comment := u.commentRepository.GetById(id);
      if comment.None? {
        u.Exit(true);
        return NotFound(DeleteMissing);
      }
      if !IsUserOwnerOfComment(user, comment.value) {
        u.Exit(true);
        return Forbidden(DeleteNotOwner);
      }
      u.commentRepository.Delete(comment);
      DeleteCommentKeepsConsistent(t0, u.session.nextId, id);
      u.Commit();
      u.Exit(false);
      return Ok(());
    }

    /** daily_comment_analytic */
    method DailyCommentAnalytic(first: int, last: int, user: User) returns (rows: seq<A.DailyItem>)
      requires uow.Ready()
      modifies uow.session
      ensures uow.Ready()
      ensures uow.session.durable == old(uow.session.durable) && uow.session.nextId == old(uow.session.nextId)
      ensures uow.session.calls == old(uow.session.calls) + [SessionCall.Close]
      ensures rows == A.DailyCommentAnalytic(uow.session.durable, user.id, first, last)
    {
      var u := uow.Enter();
      rows := u.commentRepository.DailyCommentAnalytic(first, last, user);
      u.Exit(false);
    }
  }
}
