/** The post service. Creating and updating a post first asks the moderator
    about the title and text, and refuses unsafe text before the unit of
    work is entered; then each operation runs in one unit-of-work scope and
    reports a missing post before a missing permission. */
module PostServices {
  import opened Wrappers
  import opened Records
  import opened Store
  import opened Sessions
  import opened Repositories
  import opened Transactions
  import opened Builders
  import opened Ownership
  import opened ContentModeration
  import BR = BaseRepository
  import Q = Queries

  const UnsafeText := "Text has content such as sexual harassment, offensive content etc."
  const PostNotFound := "Post not found"
  const UpdateNotOwner := "Only owner can update the post"
  const DeleteNotOwner := "Only owner can delete the post"
  /** What the database answers to a title longer than its column. */
  const TitleTooLong := "value too long for type character varying(256)"

  /** The author part of a listed post (first and last name). */
  datatype Author = Author(firstName: string, lastName: string)

  /** A post together with its author's names. */
  datatype PostWithAuthor = PostWithAuthor(post: Post, author: Author)

  function AuthorOf(user: User): (a: Author)
    ensures a.firstName == user.firstName && a.lastName == user.lastName
  {
    Author(user.firstName, user.lastName)
  }

  /** The text the moderator is asked about: the title, a newline, the content. */
  function ModeratedText(title: string, content: string): string
  {
    title + "\n" + content
  }

  /** Title and content can both be read back from the moderated text. */
  lemma ModeratedTextHoldsBoth(title: string, content: string)
    ensures var s := ModeratedText(title, content);
            |s| == |title| + 1 + |content| && s[..|title|] == title &&
            s[|title|] == '\n' && s[|title| + 1..] == content
  {
    var s := ModeratedText(title, content);
    assert s == (title + "\n") + content;
    assert (title + "\n")[..|title|] == title;
  }

  /** The posts of `uid`, drafts included. */
  function PostIdsBy(t: Tables, uid: int): set<int>
  {
    set id | id in t.posts && t.posts[id].authorId == uid
  }

  /** The listing built from the joined rows holds exactly the published
      posts, each with its own author's names. */
  lemma {:induction false} ListedItemsArePublishedPosts(t: Tables, n: int, rows: seq<(Post, User)>, items: seq<PostWithAuthor>)
    requires WellFormed(t, n)
    requires forall pu :: pu in rows <==> pu in Q.PostsWithAuthors(t).Values
    requires |items| == |rows|
    requires forall k :: 0 <= k < |rows| ==> items[k] == PostWithAuthor(rows[k].0, AuthorOf(rows[k].1))
    ensures forall i :: 0 <= i < |items| ==>
              var p := items[i].post;
              p.id in t.posts && t.posts[p.id] == p && !p.draft &&
              p.authorId in t.users && items[i].author == AuthorOf(t.users[p.authorId])
    ensures forall id :: id in t.posts && !t.posts[id].draft ==>
              exists i :: 0 <= i < |items| && items[i].post == t.posts[id]
  {
    var pwa := Q.PostsWithAuthors(t);
    forall k | 0 <= k < |items|
      ensures var p := items[k].post;
              p.id in t.posts && t.posts[p.id] == p && !p.draft &&
              p.authorId in t.users && items[k].author == AuthorOf(t.users[p.authorId])
    {
      assert rows[k] in pwa.Values;
      if forall id :: id in pwa ==> pwa[id] != rows[k] {
        assert false;
      }
      var id :| id in pwa && pwa[id] == rows[k];
    }
    forall id | id in t.posts && !t.posts[id].draft
      ensures exists i :: 0 <= i < |items| && items[i].post == t.posts[id]
    {
      Q.PostsListedWithTheirAuthors(t, n, id);
      assert pwa[id] in pwa.Values;
      var k :| 0 <= k < |rows| && rows[k] == pwa[id];
      assert items[k].post == t.posts[id];
    }
  }

  class PostService {
    const uow: UnitOfWork
    const moderator: ContentModerator

    constructor (uow: UnitOfWork, moderator: ContentModerator)
      ensures this.uow == uow && this.moderator == moderator
    {
      this.uow := uow;
      this.moderator := moderator;
    }

    /** create_post: unsafe text is refused and nothing else happens; a
        title too long for its column fails at the database and nothing is
        stored; otherwise the post is stored under the next id, authored by
        the user. */
    method CreatePost(user: User, data: PostSchema, reply: ApiReply) returns (r: Result<Post>)
      requires uow.Ready() && user.id in uow.session.durable.users
      modifies uow.session, moderator
      ensures uow.Ready()
      ensures moderator.asked == old(moderator.asked) + [ModeratedText(data.title, data.content)]
      ensures r.Ok? || r.BadRequest? || r.ServerError?
      ensures r.BadRequest? <==> !IsSafe(reply)
      ensures r.BadRequest? ==> r.detail == UnsafeText && unchanged(uow.session)
      ensures r.ServerError? <==> IsSafe(reply) && |data.title| > TitleMaxLength
      ensures r.ServerError? ==>
                uow.session.durable == old(uow.session.durable) && uow.session.nextId == old(uow.session.nextId) &&
                uow.session.calls == old(uow.session.calls) + [SessionCall.Rollback, SessionCall.Close]
      ensures r.Ok? ==> r.value == PostFromSchema(user, data).(id := old(uow.session.nextId))
      ensures r.Ok? ==> uow.session.durable == old(uow.session.durable).(posts := old(uow.session.durable.posts)[r.value.id := r.value])
      ensures r.Ok? ==> uow.session.nextId == old(uow.session.nextId) + 1
      ensures r.Ok? ==> uow.session.calls == old(uow.session.calls) + [SessionCall.Commit, SessionCall.Close]
    {
      var safe := moderator.ModerateText(ModeratedText(data.title, data.content), reply);
      if !safe {
        return BadRequest(UnsafeText);
      }
      var post := PostFromSchema(user, data);
      var u := uow.Enter();
      ghost var t0 := u.session.durable;
      ghost var n0 := u.session.nextId;
      var created := u.postRepository.Add(post);
      if created.None? {
        u.Exit(true);
        return ServerError(TitleTooLong);
      }
      AddPostKeepsConsistent(t0, n0, created.value);
      u.Commit();
      u.Exit(false);
      return Ok(created.value);
    }

    /** get_user_posts: exactly the user's posts, drafts included. */
    method GetUserPosts(user: User) returns (posts: seq<Post>)
      requires uow.Ready()
      modifies uow.session
      ensures uow.Ready()
      ensures uow.session.durable == old(uow.session.durable) && uow.session.nextId == old(uow.session.nextId)
      ensures uow.session.calls == old(uow.session.calls) + [SessionCall.Commit, SessionCall.Commit, SessionCall.Close]
      ensures forall p :: p in posts <==> p in uow.session.durable.posts.Values && p.authorId == user.id
      ensures |posts| == |PostIdsBy(uow.session.durable, user.id)|
    {
      var u := uow.Enter();
      ghost var t0 := u.session.durable;
      var filters := [("author_id", BR.IntVal(user.id))];
      assert filters[0].0 in Q.PostColumns;
      var listing := u.postRepository.List(filters);
      Q.ListByAuthor(t0.posts, user.id);
      assert BR.Where(t0.posts, Q.PostValue, filters).Keys == PostIdsBy(t0, user.id);
      u.Commit();
      var rows := listing.rows;
      posts := [];
      var i := 0;
      while i < |rows|
        invariant 0 <= i <= |rows|
        invariant posts == rows[..i]
      {
        posts := posts + [rows[i]];
        i := i + 1;
      }
      assert rows[..|rows|] == rows;
      u.Commit();
      u.Exit(false);
    }

    /** get_all_posts_with_authors: every published post, each with its
        author's names (the author always exists). */
    method GetAllPostsWithAuthors() returns (items: seq<PostWithAuthor>)
      requires uow.Ready()
      modifies uow.session
      ensures uow.Ready()
      ensures uow.session.durable == old(uow.session.durable) && uow.session.nextId == old(uow.session.nextId)
      ensures uow.session.calls == old(uow.session.calls) + [SessionCall.Close]
      ensures |items| == |Q.PostsWithAuthors(uow.session.durable)|
      ensures forall i :: 0 <= i < |items| ==>
                var p := items[i].post;
                p.id in uow.session.durable.posts && uow.session.durable.posts[p.id] == p && !p.draft &&
                p.authorId in uow.session.durable.users && items[i].author == AuthorOf(uow.session.durable.users[p.authorId])
      ensures forall id :: id in uow.session.durable.posts && !uow.session.durable.posts[id].draft ==>
                exists i :: 0 <= i < |items| && items[i].post == uow.session.durable.posts[id]
    {
      var u := uow.Enter();
      ghost var t := u.session.durable;
      var rows := u.postRepository.GetPostsWithAuthors();
      items := [];
      var i := 0;
      while i < |rows|
        invariant 0 <= i <= |rows|
        invariant |items| == i
        invariant forall k :: 0 <= k < i ==> items[k] == PostWithAuthor(rows[k].0, AuthorOf(rows[k].1))
      {
        var (post, author) := rows[i];
        items := items + [PostWithAuthor(post, AuthorOf(author))];
        i := i + 1;
      }
      ListedItemsArePublishedPosts(t, u.session.nextId, rows, items);
      u.Exit(false);
    }

    /** get_post_with_related_data: the post with its author's names, or
        not found. */
    method GetPostWithRelatedData(postId: int) returns (r: Result<PostWithAuthor>)
      requires uow.Ready()
      modifies uow.session
      ensures uow.Ready()
      ensures uow.session.durable == old(uow.session.durable) && uow.session.nextId == old(uow.session.nextId)
      ensures r.Ok? || r.NotFound?
      ensures r.NotFound? <==> postId !in uow.session.durable.posts
      ensures r.NotFound? ==> r.detail == PostNotFound
      ensures r.Ok? ==> r.value.post == uow.session.durable.posts[postId] &&
                        r.value.author == AuthorOf(uow.session.durable.users[r.value.post.authorId])
      ensures uow.session.calls == old(uow.session.calls) +
                if r.NotFound? then [SessionCall.Rollback, SessionCall.Close] else [SessionCall.Close]
    {
      var u := uow.Enter();
      var found := u.postRepository.GetPostByIdWithRelatedObjects(postId);
      if found.None? {
        u.Exit(true);
        return NotFound(PostNotFound);
      }
      var (post, author) := found.value;
      u.Exit(false);
      return Ok(PostWithAuthor(post, AuthorOf(author)));
    }

    /** update_post: moderation comes first, so unsafe text on a missing
        post is a bad request, not a missing post; only the author may
        update; the five editable fields are overwritten. */
    method UpdatePost(user: User, postId: int, data: PostSchema, reply: ApiReply) returns (r: Result<Post>)
      requires uow.Ready()
      modifies uow.session, moderator
      ensures uow.Ready()
      ensures moderator.asked == old(moderator.asked) + [ModeratedText(data.title, data.content)]
      ensures uow.session.nextId == old(uow.session.nextId)
      ensures r.BadRequest? <==> !IsSafe(reply)
      ensures r.BadRequest? ==> r.detail == UnsafeText && unchanged(uow.session)
      ensures r.NotFound? <==> IsSafe(reply) && postId !in old(uow.session.durable.posts)
      ensures r.NotFound? ==> r.detail == PostNotFound
      ensures r.Forbidden? <==>
                IsSafe(reply) && postId in old(uow.session.durable.posts) &&
                !IsUserOwnerOfPost(user, old(uow.session.durable.posts[postId]))
      ensures r.Forbidden? ==> r.detail == UpdateNotOwner
      ensures r.ServerError? <==>
                IsSafe(reply) && postId in old(uow.session.durable.posts) &&
                IsUserOwnerOfPost(user, old(uow.session.durable.posts[postId])) && |data.title| > TitleMaxLength
      ensures r.NotFound? || r.Forbidden? || r.ServerError? ==>
                uow.session.durable == old(uow.session.durable) &&
                uow.session.calls == old(uow.session.calls) + [SessionCall.Rollback, SessionCall.Close]
      ensures r.Ok? ==> r.value == UpdatePostFromSchema(data, old(uow.session.durable.posts[postId]))
      ensures r.Ok? ==> uow.session.durable == old(uow.session.durable).(posts := old(uow.session.durable.posts)[postId := r.value])
      ensures r.Ok? ==> uow.session.calls == old(uow.session.calls) + [SessionCall.Commit, SessionCall.Close]
    {
      var safe := moderator.ModerateText(ModeratedText(data.title, data.content), reply);
      if !safe {
        return BadRequest(UnsafeText);
      }
      var u := uow.Enter();
      ghost var t0 := u.session.durable;
      var post := u.postRepository.GetById(postId);
      if post.None? {
        u.Exit(true);
        return NotFound(PostNotFound);
      }
      if !IsUserOwnerOfPost(user, post.value) {
        u.Exit(true);
        return Forbidden(UpdateNotOwner);
      }
      var changed := UpdatePostFromSchema(data, post.value);
      var updated := u.postRepository.Update(changed);
      if updated.None? {
        u.Exit(true);
        return ServerError(TitleTooLong);
      }
      EditPostKeepsConsistent(t0, u.session.nextId, updated.value);
      u.Commit();
      u.Exit(false);
      return Ok(updated.value);
    }

    /** delete_post: only the author may delete; the post's comments, the
        replies below them and their likes go with it. */
    method DeletePost(user: User, postId: int) returns (r: Result<()>)
      requires uow.Ready()
      modifies uow.session
      ensures uow.Ready()
      ensures uow.session.nextId == old(uow.session.nextId)
      ensures r.Ok? || r.NotFound? || r.Forbidden?
      ensures r.NotFound? <==> postId !in old(uow.session.durable.posts)
      ensures r.NotFound? ==> r.detail == PostNotFound
      ensures r.Forbidden? <==>
                postId in old(uow.session.durable.posts) && !IsUserOwnerOfPost(user, old(uow.session.durable.posts[postId]))
      ensures r.Forbidden? ==> r.detail == DeleteNotOwner
      ensures !r.Ok? ==> uow.session.durable == old(uow.session.durable) &&
                         uow.session.calls == old(uow.session.calls) + [SessionCall.Rollback, SessionCall.Close]
      ensures r.Ok? ==> uow.session.durable == Store.DeletePost(old(uow.session.durable), postId)
      ensures r.Ok? ==> uow.session.calls == old(uow.session.calls) + [SessionCall.Commit, SessionCall.Close]
    {
      var u := uow.Enter();
      ghost var t0 := u.session.durable;
      var post := u.postRepository.GetById(postId);
      if post.None? {
        u.Exit(true);
        return NotFound(PostNotFound);
      }
      if !IsUserOwnerOfPost(user, post.value) {
        u.Exit(true);
        return Forbidden(DeleteNotOwner);
      }
      u.postRepository.Delete(post);
      DeletePostKeepsConsistent(t0, u.session.nextId, post.value.id);
      u.Commit();
      u.Exit(false);
      return Ok(());
    }
  }
}
