/** The read queries of the comment, post, user and like repositories, as
    functions of the tables. Results that the database returns as lists are
    maps from id to row here: they say which rows come back, not in which
    order. */
module Queries {
  import opened Wrappers
  import opened Records
  import opened Store
  import BR = BaseRepository

  // ---------------------------------------------------------------------
  // Columns of the posts table, for the generic list()

  const PostColumns: set<string> := {"id", "title", "content", "draft", "author_id", "auto_reply", "reply_after"}

  /** The value of a column of a post row (NULL for a missing reply_after). */
  function PostValue(p: Post, column: string): BR.Value
  {
    if column == "id" then BR.IntVal(p.id)
    else if column == "title" then BR.StrVal(p.title)
    else if column == "content" then BR.StrVal(p.content)
    else if column == "draft" then BR.BoolVal(p.draft)
    else if column == "author_id" then BR.IntVal(p.authorId)
    else if column == "auto_reply" then BR.BoolVal(p.autoReply)
    else if column == "reply_after" then (if p.replyAfter.Some? then BR.IntVal(p.replyAfter.value) else BR.NullVal)
    else BR.NullVal
  }

  /** list(author_id=uid) returns exactly the posts written by `uid`, drafts included. */
  lemma ListByAuthor(posts: map<int, Post>, uid: int)
    ensures forall id :: id in BR.Where(posts, PostValue, [("author_id", BR.IntVal(uid))]) <==>
                         id in posts && posts[id].authorId == uid
  {
    forall id | id in posts
      ensures BR.Matches(PostValue, posts[id], [("author_id", BR.IntVal(uid))]) <==> posts[id].authorId == uid
    {
      assert [("author_id", BR.IntVal(uid))][0] == ("author_id", BR.IntVal(uid));
    }
  }

  // ---------------------------------------------------------------------
  // Comments

  /** get_top_level_comments: the unblocked comments of the post that reply to nothing. */
  function TopLevelComments(cs: map<int, Comment>, postId: int): (r: map<int, Comment>)
    ensures forall id :: id in r <==>
              id in cs && cs[id].postId == postId && cs[id].parentId.None? && !cs[id].blocked
    ensures forall id :: id in r ==> r[id] == cs[id]
  {
    map id | id in cs && cs[id].postId == postId && cs[id].parentId.None? && !cs[id].blocked :: cs[id]
  }

  /** Blocking a comment takes it out of the top-level list and changes
      nothing else in it; editing its content keeps the list's membership. */
  lemma BlockingHidesFromTopLevel(cs: map<int, Comment>, postId: int, id: int, now: int)
    requires id in cs
    ensures TopLevelComments(cs[id := BlockComment(cs[id], now)], postId) == TopLevelComments(cs, postId) - {id}
  {
  }

  /** The comments whose parent is `id`. */
  function DirectReplies(cs: map<int, Comment>, id: int): (r: map<int, Comment>)
    ensures forall k :: k in r <==> k in cs && cs[k].parentId == Some(id)
    ensures forall k :: k in r ==> r[k] == cs[k]
  {
    map k | k in cs && cs[k].parentId == Some(id) :: cs[k]
  }

  /** get_comment_details_and_replies: None for a missing or blocked comment,
      otherwise the comment with all its direct replies, blocked ones included. */
  function CommentDetailsAndReplies(cs: map<int, Comment>, id: int): (r: Option<(Comment, map<int, Comment>)>)
    ensures r.None? <==> id !in cs || cs[id].blocked
    ensures r.Some? ==> r.value.0 == cs[id] && r.value.1 == DirectReplies(cs, id)
  {
    if id in cs && !cs[id].blocked then Some((cs[id], DirectReplies(cs, id))) else None
  }

  /** A comment is never among its own replies, and every reply is younger. */
  lemma RepliesAreYounger(t: Tables, n: int, id: int)
    requires WellFormed(t, n)
    ensures id !in DirectReplies(t.comments, id)
    ensures forall k :: k in DirectReplies(t.comments, id) ==> id < k
  {
  }

  /** The reply filter of get_comment_details: the unblocked replies, in their order. */
  function UnblockedReplies(replies: seq<Comment>): (r: seq<Comment>)
    ensures |r| <= |replies|
    ensures forall c :: c in r <==> c in replies && !c.blocked
  {
    if replies == [] then []
    else (if replies[0].blocked then [] else [replies[0]]) + UnblockedReplies(replies[1..])
  }

  /** The filter keeps the replies in their order: filtering a concatenation
      is concatenating the filtered parts. */
  lemma {:induction false} UnblockedRepliesKeepOrder(a: seq<Comment>, b: seq<Comment>)
    ensures UnblockedReplies(a + b) == UnblockedReplies(a) + UnblockedReplies(b)
    decreases |a|
  {
    if a == [] {
      assert a + b == b;
    } else {
      assert (a + b)[1..] == a[1..] + b;
      UnblockedRepliesKeepOrder(a[1..], b);
    }
  }

  /** get_comment_with_post: the comment joined with its post; None when
      there is no such comment (or, impossible in a well-formed store, no such post). */
  function CommentWithPost(t: Tables, id: int): (r: Option<(Comment, Post)>)
    ensures r.Some? <==> id in t.comments && t.comments[id].postId in t.posts
    ensures r.Some? ==> r.value == (t.comments[id], t.posts[t.comments[id].postId])
  {
    if id in t.comments && t.comments[id].postId in t.posts
    then Some((t.comments[id], t.posts[t.comments[id].postId]))
    else None
  }

  /** In a well-formed store the join never loses a comment: the lookup finds
      every stored comment, and the post it attaches is the comment's own. */
  lemma CommentWithPostFindsEveryComment(t: Tables, n: int, id: int)
    requires WellFormed(t, n)
    ensures CommentWithPost(t, id).Some? <==> id in t.comments
    ensures CommentWithPost(t, id).Some? ==> CommentWithPost(t, id).value.1.id == t.comments[id].postId
  {
  }

  // ---------------------------------------------------------------------
  // Posts

  /** get_posts_with_authors: every published post paired with its author. */
  function PostsWithAuthors(t: Tables): (r: map<int, (Post, User)>)
    ensures forall id :: id in r <==> id in t.posts && !t.posts[id].draft && t.posts[id].authorId in t.users
    ensures forall id :: id in r ==> r[id] == (t.posts[id], t.users[t.posts[id].authorId])
  {
    map id | id in t.posts && !t.posts[id].draft && t.posts[id].authorId in t.users
           :: (t.posts[id], t.users[t.posts[id].authorId])
  }

  /** In a well-formed store each listed post is paired with the user whose
      id is the post's author_id, and a post whose author exists is listed
      exactly when it is not a draft. */
  lemma PostsListedWithTheirAuthors(t: Tables, n: int, id: int)
    requires WellFormed(t, n)
    requires id in t.posts
    ensures id in PostsWithAuthors(t) <==> !t.posts[id].draft
    ensures id in PostsWithAuthors(t) ==> PostsWithAuthors(t)[id].1.id == t.posts[id].authorId
  {
  }

  /** get_post_by_id_with_related_objects: the post and its author, or None. */
  function PostByIdWithAuthor(t: Tables, id: int): (r: Option<(Post, User)>)
    ensures r.Some? <==> id in t.posts && t.posts[id].authorId in t.users
    ensures r.Some? ==> r.value == (t.posts[id], t.users[t.posts[id].authorId])
  {
    if id in t.posts && t.posts[id].authorId in t.users
    then Some((t.posts[id], t.users[t.posts[id].authorId]))
    else None
  }

  // ---------------------------------------------------------------------
  // Users

  /** The users whose email is exactly `email`. */
  function UsersWithEmail(users: map<int, User>, email: string): set<int>
  {
    set id | id in users && users[id].email == email
  }

  /** With unique emails, at most one user matches an email, and the user
      stored under an id is the one its own email finds. */
  lemma {:induction false} AtMostOneUserPerEmail(t: Tables, n: int, email: string, id: int)
    requires WellFormed(t, n)
    requires id in t.users
    ensures forall a, b :: a in UsersWithEmail(t.users, email) && b in UsersWithEmail(t.users, email) ==> a == b
    ensures UsersWithEmail(t.users, t.users[id].email) == {id}
  {
    assert id in UsersWithEmail(t.users, t.users[id].email);
    forall k | k in UsersWithEmail(t.users, t.users[id].email) ensures k == id {
      assert t.users[k].email == t.users[id].email;
    }
  }
}
