/** Who may act on a comment or a post. */
module Ownership {
  import opened Records
  import opened Store

  /** is_user_owner_of_comment */
  predicate IsUserOwnerOfComment(user: User, comment: Comment)
  {
    user.id == comment.ownerId
  }

  /** is_user_owner_of_post */
  predicate IsUserOwnerOfPost(user: User, post: Post)
  {
    user.id == post.authorId
  }

  /** In a well-formed database every stored comment has exactly one
      stored owner: the owner id is a foreign key into users, and users are
      filed under their own ids. */
  lemma {:induction false} ExactlyOneOwnerOfComment(t: Tables, n: int, cid: int)
    requires WellFormed(t, n) && cid in t.comments
    ensures exists u :: u in t.users && IsUserOwnerOfComment(t.users[u], t.comments[cid])
    ensures forall a, b ::
              a in t.users && IsUserOwnerOfComment(t.users[a], t.comments[cid]) &&
              b in t.users && IsUserOwnerOfComment(t.users[b], t.comments[cid])
              ==> a == b
  {
    var o := t.comments[cid].ownerId;
    assert o in t.users;
    assert IsUserOwnerOfComment(t.users[o], t.comments[cid]);
  }

  /** Likewise every stored post has exactly one stored author. */
  lemma {:induction false} ExactlyOneAuthorOfPost(t: Tables, n: int, pid: int)
    requires WellFormed(t, n) && pid in t.posts
    ensures exists u :: u in t.users && IsUserOwnerOfPost(t.users[u], t.posts[pid])
    ensures forall a, b ::
              a in t.users && IsUserOwnerOfPost(t.users[a], t.posts[pid]) &&
              b in t.users && IsUserOwnerOfPost(t.users[b], t.posts[pid])
              ==> a == b
  {
    var o := t.posts[pid].authorId;
    assert o in t.users;
    assert IsUserOwnerOfPost(t.users[o], t.posts[pid]);
  }
}
