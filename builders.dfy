/** Building and updating records from request bodies. */
module Builders {
  import opened Wrappers
  import opened Records

  /** create_comment_from_schema: a comment owned by `user`, with the body's
      content, post and parent copied over and no check that either exists. */
  function CommentFromSchema(user: User, data: CreateCommentSchema): (c: Comment)
    ensures c.ownerId == user.id
    ensures c.content == data.content && c.postId == data.postId && c.parentId == data.parentId
    ensures c.likesCount == 0 && !c.blocked && c.blockedAt == None
  {
    NewComment(data.content, data.postId, user.id, data.parentId)
  }

  /** create_post_from_schema: a post authored by `user` with the body's five fields. */
  function PostFromSchema(user: User, data: PostSchema): (p: Post)
    ensures p.authorId == user.id
    ensures p.title == data.title && p.content == data.content && p.draft == data.draft
    ensures p.autoReply == data.autoReply && p.replyAfter == data.replyAfter
    ensures p == NewPost(data.title, data.content, user.id).(draft := data.draft, autoReply := data.autoReply, replyAfter := data.replyAfter)
  {
    Post(0, data.title, data.content, data.draft, user.id, data.autoReply, data.replyAfter)
  }

  /** update_post_from_schema: overwrites the five editable fields and nothing else. */
  function UpdatePostFromSchema(data: PostSchema, post: Post): (p: Post)
    ensures p.id == post.id && p.authorId == post.authorId
    ensures p.title == data.title && p.content == data.content && p.draft == data.draft
    ensures p.autoReply == data.autoReply && p.replyAfter == data.replyAfter
  {
    post.(title := data.title, content := data.content, draft := data.draft,
          autoReply := data.autoReply, replyAfter := data.replyAfter)
  }

  /** Applying the same update twice is the same as applying it once, and the
      result does not depend on the editable fields the post had before. */
  lemma UpdatePostIdempotent(data: PostSchema, post: Post, other: Post)
    requires other.id == post.id && other.authorId == post.authorId
    ensures UpdatePostFromSchema(data, UpdatePostFromSchema(data, post)) == UpdatePostFromSchema(data, post)
    ensures UpdatePostFromSchema(data, other) == UpdatePostFromSchema(data, post)
  {
  }

  /** create_user_from_signup_data: the profile fields of the body and the given hash as password. */
  function UserFromSignupData(data: UserCreate, hashedPassword: string): (u: User)
    ensures u.email == data.email && u.firstName == data.firstName && u.lastName == data.lastName
    ensures u.dateOfBirth == data.dateOfBirth
    ensures u.password == hashedPassword
  {
    User(0, data.email, data.firstName, data.lastName, hashedPassword, data.dateOfBirth)
  }

  /** apply_updates_to_user: overwrites email, names and date of birth; keeps id and password. */
  function ApplyUpdatesToUser(user: User, data: UserUpdateSchema): (u: User)
    ensures u.id == user.id && u.password == user.password
    ensures u.email == data.email && u.firstName == data.firstName && u.lastName == data.lastName
    ensures u.dateOfBirth == data.dateOfBirth
  {
    user.(email := data.email, firstName := data.firstName, lastName := data.lastName,
          dateOfBirth := data.dateOfBirth)
  }

  lemma ApplyUpdatesIdempotent(user: User, data: UserUpdateSchema)
    ensures ApplyUpdatesToUser(ApplyUpdatesToUser(user, data), data) == ApplyUpdatesToUser(user, data)
  {
  }
}
