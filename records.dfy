/** The stored records (users, posts, comments, likes) and the request bodies
    that build them. Times are whole seconds since the epoch, days are whole
    days since the epoch (UTC). Ids are assigned by the store when a record is
    added; a record that has not been added yet carries id 0. */
module Records {
  import opened Wrappers

  /** Column width of `posts.title` (String(256)). */
  const TitleMaxLength := 256

  const SecondsPerDay := 86400

  /** The calendar day (UTC) of a timestamp: what casting it to Date gives. */
  function Day(t: int): int
  {
    t / SecondsPerDay
  }

  datatype User = User(
    id: int,
    email: string,
    firstName: string,
    lastName: string,
    password: string,          // whatever the caller stored: a hash
    dateOfBirth: Option<int>)  // a day number

  datatype Post = Post(
    id: int,
    title: string,
    content: string,
    draft: bool,
    authorId: int,
    autoReply: bool,
    replyAfter: Option<int>)   // minutes

  datatype Comment = Comment(
    id: int,
    content: string,
    likesCount: int,
    postId: int,
    ownerId: int,
    parentId: Option<int>,
    blocked: bool,
    blockedAt: Option<int>,
    createdAt: int)

  datatype Like = Like(id: int, commentId: int, ownerId: int)

  /** Body of a comment creation request. */
  datatype CreateCommentSchema = CreateCommentSchema(content: string, postId: int, parentId: Option<int>)

  /** Body of a post creation or post update request (the two schemas have the same fields). */
  datatype PostSchema = PostSchema(
    title: string,
    content: string,
    draft: bool,
    autoReply: bool,
    replyAfter: Option<int>)

  /** Body of a signup request. */
  datatype UserCreate = UserCreate(
    email: string,
    firstName: string,
    lastName: string,
    dateOfBirth: Option<int>,
    password1: string,
    password2: string)

  /** Body of a profile update request. */
  datatype UserUpdateSchema = UserUpdateSchema(
    email: string,
    firstName: string,
    lastName: string,
    dateOfBirth: Option<int>)

  /** Body of a password change request. */
  datatype ChangePasswordSchema = ChangePasswordSchema(oldPassword: string, newPassword1: string, newPassword2: string)

  /** A comment as the column defaults make it: no likes, not blocked. */
  function NewComment(content: string, postId: int, ownerId: int, parentId: Option<int>): (c: Comment)
    ensures c.content == content && c.postId == postId && c.ownerId == ownerId && c.parentId == parentId
    ensures c.likesCount == 0 && !c.blocked && c.blockedAt == None
  {
    Comment(0, content, 0, postId, ownerId, parentId, false, None, 0)
  }

  /** A post as the column defaults make it: published, no auto-reply. */
  function NewPost(title: string, content: string, authorId: int): (p: Post)
    ensures p.title == title && p.content == content && p.authorId == authorId
    ensures !p.draft && !p.autoReply && p.replyAfter == None
  {
    Post(0, title, content, false, authorId, false, None)
  }

  /** Comment.block_comment: marks the comment blocked at `now`. */
  function BlockComment(c: Comment, now: int): (r: Comment)
    ensures r.blocked && r.blockedAt == Some(now)
    ensures r.(blocked := c.blocked, blockedAt := c.blockedAt) == c
  {
    c.(blocked := true, blockedAt := Some(now))
  }

  /** Blocking again keeps the comment blocked and only moves the time. */
  lemma BlockAgain(c: Comment, t1: int, t2: int)
    ensures BlockComment(BlockComment(c, t1), t2) == BlockComment(c, t2)
  {
  }
}
