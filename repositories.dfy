/** The table repositories. Each one works through the shared session: reads
    see `session.tables`, writes change it, and only a commit makes them
    durable. A write the database would refuse with a foreign-key or unique
    violation is excluded by a precondition: callers look the referenced
    post, comment or clashing email up first, and the signed-in user a row
    is written for has been loaded from the users table; the
    one refusal callers do not check, a post title longer than its column,
    is an error result. */
module Repositories {
  import opened Wrappers
  import opened Records
  import opened Store
  import opened Sessions
  import BR = BaseRepository
  import Q = Queries
  import A = Analytics

  /** What list() returns: the rows, or the ValueError for an unknown column. */
  datatype Listing<T> = Listed(rows: seq<T>) | ListError(detail: string)

  class CommentRepository {
    const session: Session

    constructor (session: Session)
      ensures this.session == session
    {
      this.session := session;
    }

    method GetById(id: int) returns (r: Option<Comment>)
      ensures r.Some? <==> id in session.tables.comments
      ensures r.Some? ==> r.value == session.tables.comments[id]
    {
      r := BR.GetById(session.tables.comments, id);
    }

    /** add: the record gets the next id and the current time as created_at. */
    method Add(record: Comment, now: int) returns (r: Comment)
      modifies session
      requires record.ownerId in session.tables.users
      requires record.postId in session.tables.posts
      requires record.parentId.Some? ==> record.parentId.value in session.tables.comments
      ensures r == record.(id := old(session.nextId), createdAt := now)
      ensures session.tables == old(session.tables).(comments := old(session.tables.comments)[r.id := r])
      ensures session.nextId == old(session.nextId) + 1
      ensures session.durable == old(session.durable) && session.calls == old(session.calls)
    {
      r := record.(id := session.nextId, createdAt := now);
      session.tables := session.tables.(comments := session.tables.comments[r.id := r]);
      session.nextId := session.nextId + 1;
    }

    /** update: writes the record over the stored row with its id. */
    method Update(record: Comment) returns (r: Comment)
      modifies session
      requires record.id in session.tables.comments
      requires record.ownerId in session.tables.users
      requires record.postId in session.tables.posts
      requires record.parentId.Some? ==> record.parentId.value in session.tables.comments
      ensures r == record
      ensures session.tables == old(session.tables).(comments := old(session.tables.comments)[record.id := record])
      ensures session.nextId == old(session.nextId)
      ensures session.durable == old(session.durable) && session.calls == old(session.calls)
    {
      session.tables := session.tables.(comments := session.tables.comments[record.id := record]);
      r := record;
    }

    /** delete: removes the comment with its replies, recursively, and their likes; None is ignored. */
    method Delete(record: Option<Comment>)
      modifies session
      ensures session.tables == if record.None? then old(session.tables) else DeleteComment(old(session.tables), record.value.id)
      ensures session.nextId == old(session.nextId)
      ensures session.durable == old(session.durable) && session.calls == old(session.calls)
    {
      if record.Some? {
        session.tables := DeleteComment(session.tables, record.value.id);
      }
    }

    method GetTopLevelComments(postId: int) returns (rows: seq<Comment>)
      ensures |rows| == |Q.TopLevelComments(session.tables.comments, postId)|
      ensures forall c :: c in rows <==> c in Q.TopLevelComments(session.tables.comments, postId).Values
    {
      rows := BR.Rows(Q.TopLevelComments(session.tables.comments, postId));
    }

    method GetCommentDetailsAndReplies(id: int) returns (r: Option<(Comment, seq<Comment>)>)
      ensures r.None? <==> id !in session.tables.comments || session.tables.comments[id].blocked
      ensures r.Some? ==> r.value.0 == session.tables.comments[id]
      ensures r.Some? ==> |r.value.1| == |Q.DirectReplies(session.tables.comments, id)|
      ensures r.Some? ==> forall c :: c in r.value.1 <==> c in Q.DirectReplies(session.tables.comments, id).Values
    {
      var found := Q.CommentDetailsAndReplies(session.tables.comments, id);
      if found.None? {
        return None;
      }
      var replies := BR.Rows(found.value.1);
      return Some((found.value.0, replies));
    }

    /** increment_like_counter: likes_count of the stored row goes up by one, nothing else changes. */
    method IncrementLikeCounter(record: Comment) returns (r: Comment)
      modifies session
      requires record.id in session.tables.comments
      ensures r == old(session.tables.comments[record.id]).(likesCount := old(session.tables.comments[record.id].likesCount) + 1)
      ensures session.tables == old(session.tables).(comments := old(session.tables.comments)[record.id := r])
      ensures session.nextId == old(session.nextId)
      ensures session.durable == old(session.durable) && session.calls == old(session.calls)
    {
      var stored := session.tables.comments[record.id];
      r := stored.(likesCount := stored.likesCount + 1);
      session.tables := session.tables.(comments := session.tables.comments[record.id := r]);
    }

    /** decrement_like_counter: likes_count of the stored row goes down by one, nothing else changes. */
    method DecrementLikeCounter(record: Comment) returns (r: Comment)
      modifies session
      requires record.id in session.tables.comments
      ensures r == old(session.tables.comments[record.id]).(likesCount := old(session.tables.comments[record.id].likesCount) - 1)
      ensures session.tables == old(session.tables).(comments := old(session.tables.comments)[record.id := r])
      ensures session.nextId == old(session.nextId)
      ensures session.durable == old(session.durable) && session.calls == old(session.calls)
    {
      var stored := session.tables.comments[record.id];
      r := stored.(likesCount := stored.likesCount - 1);
      session.tables := session.tables.(comments := session.tables.comments[record.id := r]);
    }

    method GetCommentWithPost(id: int) returns (r: Option<(Comment, Post)>)
      ensures r.Some? <==> id in session.tables.comments && session.tables.comments[id].postId in session.tables.posts
      ensures r.Some? ==> r.value.0 == session.tables.comments[id] && r.value.1 == session.tables.posts[r.value.0.postId]
    {
      r := Q.CommentWithPost(session.tables, id);
    }

    method DailyCommentAnalytic(first: int, last: int, user: User) returns (rows: seq<A.DailyItem>)
      ensures rows == A.DailyCommentAnalytic(session.tables, user.id, first, last)
    {
      rows := A.DailyCommentAnalytic(session.tables, user.id, first, last);
    }
  }

  class PostRepository {
    const session: Session

    constructor (session: Session)
      ensures this.session == session
    {
      this.session := session;
    }

    method GetById(id: int) returns (r: Option<Post>)
      ensures r.Some? <==> id in session.tables.posts
      ensures r.Some? ==> r.value == session.tables.posts[id]
    {
      r := BR.GetById(session.tables.posts, id);
    }

    /** list(**filters): the posts equal to the given value on every filtered column. */
    method List(filters: seq<(string, BR.Value)>) returns (r: Listing<Post>)
      ensures r.ListError? <==> exists i :: 0 <= i < |filters| && filters[i].0 !in Q.PostColumns
      ensures r.Listed? ==> |r.rows| == |BR.Where(session.tables.posts, Q.PostValue, filters)|
      ensures r.Listed? ==> forall p :: p in r.rows <==> p in BR.Where(session.tables.posts, Q.PostValue, filters).Values
    {
      var stmt := BR.ConstructListStmt(Q.PostColumns, filters);
      if stmt.InvalidColumn? {
        return ListError("Invalid column name " + stmt.name);
      }
      var rows := BR.Rows(BR.Where(session.tables.posts, Q.PostValue, stmt.clauses));
      return Listed(rows);
    }

    /** add: the post gets the next id; its author must exist; a title longer than its column is refused and nothing is stored. */
    method Add(record: Post) returns (r: Option<Post>)
      modifies session
      requires record.authorId in session.tables.users
      ensures r.None? <==> |record.title| > TitleMaxLength
      ensures r.Some? ==> r.value == record.(id := old(session.nextId))
      ensures r.Some? ==> session.tables == old(session.tables).(posts := old(session.tables.posts)[r.value.id := r.value])
      ensures r.Some? ==> session.nextId == old(session.nextId) + 1
      ensures r.None? ==> session.tables == old(session.tables) && session.nextId == old(session.nextId)
      ensures session.durable == old(session.durable) && session.calls == old(session.calls)
    {
      if |record.title| > TitleMaxLength {
        return None;
      }
      var p := record.(id := session.nextId);
      session.tables := session.tables.(posts := session.tables.posts[p.id := p]);
      session.nextId := session.nextId + 1;
      return Some(p);
    }

    /** update: writes the record over the stored post; a title longer than its column is refused. */
    method Update(record: Post) returns (r: Option<Post>)
      modifies session
      requires record.id in session.tables.posts
      requires record.authorId in session.tables.users
      ensures r.None? <==> |record.title| > TitleMaxLength
      ensures r.Some? ==> r.value == record
      ensures r.Some? ==> session.tables == old(session.tables).(posts := old(session.tables.posts)[record.id := record])
      ensures r.None? ==> session.tables == old(session.tables)
      ensures session.nextId == old(session.nextId)
      ensures session.durable == old(session.durable) && session.calls == old(session.calls)
    {
      if |record.title| > TitleMaxLength {
        return None;
      }
      session.tables := session.tables.(posts := session.tables.posts[record.id := record]);
      return Some(record);
    }

    /** delete: removes the post with its comments, the replies below them and their likes; None is ignored. */
    method Delete(record: Option<Post>)
      modifies session
      ensures session.tables == if record.None? then old(session.tables) else DeletePost(old(session.tables), record.value.id)
      ensures session.nextId == old(session.nextId)
      ensures session.durable == old(session.durable) && session.calls == old(session.calls)
    {
      if record.Some? {
        session.tables := DeletePost(session.tables, record.value.id);
      }
    }

    method GetPostsWithAuthors() returns (rows: seq<(Post, User)>)
      ensures |rows| == |Q.PostsWithAuthors(session.tables)|
      ensures forall pu :: pu in rows <==> pu in Q.PostsWithAuthors(session.tables).Values
    {
      rows := BR.Rows(Q.PostsWithAuthors(session.tables));
    }

    method GetPostByIdWithRelatedObjects(id: int) returns (r: Option<(Post, User)>)
      ensures r.Some? <==> id in session.tables.posts && session.tables.posts[id].authorId in session.tables.users
      ensures r.Some? ==> r.value == (session.tables.posts[id], session.tables.users[session.tables.posts[id].authorId])
    {
      r := Q.PostByIdWithAuthor(session.tables, id);
    }
  }

  class UserRepository {
    const session: Session

    constructor (session: Session)
      ensures this.session == session
    {
      this.session := session;
    }

    /** get_by_email: a user whose email is exactly `email`, or None when there is none. */
    method GetByEmail(email: string) returns (r: Option<User>)
      ensures r.None? <==> Q.UsersWithEmail(session.tables.users, email) == {}
      ensures r.Some? ==> r.value.email == email && r.value in session.tables.users.Values
    {
      var matching := Q.UsersWithEmail(session.tables.users, email);
      if matching == {} {
        return None;
      }
      if forall id :: id !in matching {
        assert false;
      }
      var id :| id in matching;
      return Some(session.tables.users[id]);
    }

    /** add: the user gets the next id; the email must not be taken (unique column). */
    method Add(record: User) returns (r: User)
      modifies session
      requires forall id :: id in session.tables.users ==> session.tables.users[id].email != record.email
      ensures r == record.(id := old(session.nextId))
      ensures session.tables == old(session.tables).(users := old(session.tables.users)[r.id := r])
      ensures session.nextId == old(session.nextId) + 1
      ensures session.durable == old(session.durable) && session.calls == old(session.calls)
    {
      r := record.(id := session.nextId);
      session.tables := session.tables.(users := session.tables.users[r.id := r]);
      session.nextId := session.nextId + 1;
    }

    /** update: writes the record over the stored user; no other user may hold its email. */
    method Update(record: User) returns (r: User)
      modifies session
      requires record.id in session.tables.users
      requires forall id :: id in session.tables.users && id != record.id ==> session.tables.users[id].email != record.email
      ensures r == record
      ensures session.tables == old(session.tables).(users := old(session.tables.users)[record.id := record])
      ensures session.nextId == old(session.nextId)
      ensures session.durable == old(session.durable) && session.calls == old(session.calls)
    {
      session.tables := session.tables.(users := session.tables.users[record.id := record]);
      r := record;
    }
  }

  class LikeRepository {
    const session: Session

    constructor (session: Session)
      ensures this.session == session
    {
      this.session := session;
    }

    /** get_by_comment_id_and_user_id: a like of that user on that comment
        (the first one the query returns), or None when there is none. */
    method GetByCommentIdAndUserId(commentId: int, userId: int) returns (r: Option<Like>)
      ensures r.None? <==> LikesBy(session.tables.likes, commentId, userId) == {}
      ensures r.Some? ==> r.value in session.tables.likes.Values
      ensures r.Some? ==> r.value.commentId == commentId && r.value.ownerId == userId
    {
      var mine := LikesBy(session.tables.likes, commentId, userId);
      if mine == {} {
        return None;
      }
      if forall id :: id !in mine {
        assert false;
      }
      var id :| id in mine;
      return Some(session.tables.likes[id]);
    }

    /** add: the like gets the next id; its comment and its owner must exist. */
    method Add(record: Like) returns (r: Like)
      modifies session
      requires record.ownerId in session.tables.users
      requires record.commentId in session.tables.comments
      ensures r == record.(id := old(session.nextId))
      ensures session.tables == old(session.tables).(likes := old(session.tables.likes)[r.id := r])
      ensures session.nextId == old(session.nextId) + 1
      ensures session.durable == old(session.durable) && session.calls == old(session.calls)
    {
      r := record.(id := session.nextId);
      session.tables := session.tables.(likes := session.tables.likes[r.id := r]);
      session.nextId := session.nextId + 1;
    }

    /** delete: removes the like; None is ignored. */
    method Delete(record: Option<Like>)
      modifies session
      ensures session.tables == if record.None? then old(session.tables)
                                else old(session.tables).(likes := old(session.tables.likes) - {record.value.id})
      ensures session.nextId == old(session.nextId)
      ensures session.durable == old(session.durable) && session.calls == old(session.calls)
    {
      if record.Some? {
        session.tables := session.tables.(likes := session.tables.likes - {record.value.id});
      }
    }
  }
}
