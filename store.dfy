/** The four tables, the constraints the database keeps on them, the
    invariants the services keep on top, and the multi-row changes: cascade
    deletes and the like toggle. */
module Store {
  import opened Wrappers
  import opened Records

  datatype Tables = Tables(
    users: map<int, User>,
    posts: map<int, Post>,
    comments: map<int, Comment>,
    likes: map<int, Like>)

  const EmptyTables := Tables(map[], map[], map[], map[])

  // ---------------------------------------------------------------------
  // The reply tree

  /** `id` is `root` itself or a reply somewhere below it: walks up the
      parent chain from `id`, which only ever goes to smaller ids. */
  predicate InSubtree(cs: map<int, Comment>, id: int, root: int)
    decreases id - root
  {
    id == root ||
    (root < id && id in cs && cs[id].parentId.Some? && cs[id].parentId.value < id
     && InSubtree(cs, cs[id].parentId.value, root))
  }

  /** Comment `id` is on post `pid`, or is a reply below a comment that is. */
  predicate UnderPost(cs: map<int, Comment>, id: int, pid: int)
    decreases if id < 0 then 0 else id
  {
    id in cs &&
    (cs[id].postId == pid ||
     (cs[id].parentId.Some? && 0 <= cs[id].parentId.value < id && UnderPost(cs, cs[id].parentId.value, pid)))
  }

  function Subtree(cs: map<int, Comment>, root: int): set<int>
  {
    set c | c in cs && InSubtree(cs, c, root)
  }

  function PostCascade(cs: map<int, Comment>, pid: int): set<int>
  {
    set c | c in cs && UnderPost(cs, c, pid)
  }

  // ---------------------------------------------------------------------
  // Likes

  /** The likes of comment `cid`. */
  function LikesOf(likes: map<int, Like>, cid: int): set<int>
  {
    set l | l in likes && likes[l].commentId == cid
  }

  /** The likes of comment `cid` by user `uid`. */
  function LikesBy(likes: map<int, Like>, cid: int, uid: int): set<int>
  {
    set l | l in likes && likes[l].commentId == cid && likes[l].ownerId == uid
  }

  // ---------------------------------------------------------------------
  // What the database enforces

  ghost predicate UsersOk(t: Tables, nextId: int)
  {
    && (forall id :: id in t.users ==> 0 <= id < nextId && t.users[id].id == id)
    && (forall a, b :: a in t.users && b in t.users && t.users[a].email == t.users[b].email ==> a == b)
  }

  ghost predicate PostsOk(t: Tables, nextId: int)
  {
    forall id :: id in t.posts ==>
      0 <= id < nextId && t.posts[id].id == id && |t.posts[id].title| <= TitleMaxLength &&
      t.posts[id].authorId in t.users
  }

  /** The comment's owner and post exist, and so does its parent, which is older. */
  predicate CommentLinksOk(t: Tables, c: Comment)
  {
    c.ownerId in t.users && c.postId in t.posts &&
    (c.parentId.Some? ==> c.parentId.value in t.comments && c.parentId.value < c.id)
  }

  ghost predicate CommentsOk(t: Tables, nextId: int)
  {
    forall id :: id in t.comments ==>
      0 <= id < nextId && t.comments[id].id == id && CommentLinksOk(t, t.comments[id])
  }

  ghost predicate LikesOk(t: Tables, nextId: int)
  {
    forall id :: id in t.likes ==>
      0 <= id < nextId && t.likes[id].id == id && t.likes[id].commentId in t.comments &&
      t.likes[id].ownerId in t.users
  }

  /** Keys are ids below the next id to hand out, foreign keys (to users,
      posts, comments) point at existing rows, emails are unique, titles fit
      their column. */
  ghost predicate WellFormed(t: Tables, nextId: int)
  {
    0 <= nextId && UsersOk(t, nextId) && PostsOk(t, nextId) && CommentsOk(t, nextId) && LikesOk(t, nextId)
  }

  // ---------------------------------------------------------------------
  // What the services keep on top

  /** likes_count is the number of likes the comment has. */
  ghost predicate LikeCountsMatch(t: Tables)
  {
    forall c :: c in t.comments ==> t.comments[c].likesCount == |LikesOf(t.likes, c)|
  }

  /** At most one like per (comment, user): no database constraint, only the toggle keeps it. */
  ghost predicate OneLikePerUser(t: Tables)
  {
    forall a, b ::
      a in t.likes && b in t.likes && t.likes[a].commentId == t.likes[b].commentId &&
      t.likes[a].ownerId == t.likes[b].ownerId
      ==> a == b
  }

  ghost predicate Consistent(t: Tables, nextId: int)
  {
    WellFormed(t, nextId) && LikeCountsMatch(t) && OneLikePerUser(t)
  }

  /** A freshly created database satisfies the invariant, so the state every
      service method starts from exists. */
  lemma EmptyIsConsistent(nextId: int)
    requires 0 <= nextId
    ensures Consistent(EmptyTables, nextId)
  {
  }

  /** Handing out ids never invalidates the tables. */
  lemma ConsistentLater(t: Tables, n: int, m: int)
    requires Consistent(t, n) && n <= m
    ensures Consistent(t, m)
  {
  }

  /** likes_count is never negative. */
  lemma LikesCountNonNegative(t: Tables, n: int, cid: int)
    requires Consistent(t, n) && cid in t.comments
    ensures t.comments[cid].likesCount >= 0
  {
  }

  /** The like a lookup finds for (comment, user) is the only one there is. */
  lemma {:induction false} OnlyLikeOfPair(t: Tables, n: int, cid: int, uid: int, l: int)
    requires Consistent(t, n)
    requires l in t.likes && t.likes[l].commentId == cid && t.likes[l].ownerId == uid
    ensures LikesBy(t.likes, cid, uid) == {l}
  {
    forall k | k in LikesBy(t.likes, cid, uid) ensures k == l {
      assert t.likes[k].commentId == t.likes[l].commentId && t.likes[k].ownerId == t.likes[l].ownerId;
    }
  }

  /** Some like of (comment, user), when there is one. */
  lemma SomeLikeOfPair(likes: map<int, Like>, cid: int, uid: int) returns (l: int)
    requires LikesBy(likes, cid, uid) != {}
    ensures l in likes && likes[l].commentId == cid && likes[l].ownerId == uid
  {
    var mine := LikesBy(likes, cid, uid);
    if forall k :: k !in mine {
      assert false;
    }
    l :| l in mine;
  }

  // ---------------------------------------------------------------------
  // Inserting and replacing rows

  /** A new comment with the next id, existing post and parent and no likes keeps the tables consistent. */
  lemma AddCommentKeepsConsistent(t: Tables, n: int, c: Comment)
    requires Consistent(t, n)
    requires c.id == n && c.likesCount == 0 && CommentLinksOk(t, c)
    ensures Consistent(t.(comments := t.comments[n := c]), n + 1)
  {
    var t' := t.(comments := t.comments[n := c]);
    assert LikesOf(t'.likes, n) == {} by {
      forall l | l in t.likes ensures t.likes[l].commentId != n {
      }
    }
  }

  /** Rewriting a comment's content or block state keeps the tables consistent. */
  lemma EditCommentKeepsConsistent(t: Tables, n: int, c: Comment)
    requires Consistent(t, n)
    requires c.id in t.comments
    requires c.postId == t.comments[c.id].postId && c.parentId == t.comments[c.id].parentId
    requires c.ownerId == t.comments[c.id].ownerId
    requires c.likesCount == t.comments[c.id].likesCount
    ensures Consistent(t.(comments := t.comments[c.id := c]), n)
  {
  }

  lemma AddPostKeepsConsistent(t: Tables, n: int, p: Post)
    requires Consistent(t, n)
    requires p.id == n && |p.title| <= TitleMaxLength && p.authorId in t.users
    ensures Consistent(t.(posts := t.posts[n := p]), n + 1)
  {
  }

  lemma EditPostKeepsConsistent(t: Tables, n: int, p: Post)
    requires Consistent(t, n)
    requires p.id in t.posts && |p.title| <= TitleMaxLength && p.authorId in t.users
    ensures Consistent(t.(posts := t.posts[p.id := p]), n)
  {
  }

  lemma AddUserKeepsConsistent(t: Tables, n: int, u: User)
    requires Consistent(t, n)
    requires u.id == n && forall id :: id in t.users ==> t.users[id].email != u.email
    ensures Consistent(t.(users := t.users[n := u]), n + 1)
  {
  }

  lemma EditUserKeepsConsistent(t: Tables, n: int, u: User)
    requires Consistent(t, n)
    requires u.id in t.users && forall id :: id in t.users && id != u.id ==> t.users[id].email != u.email
    ensures Consistent(t.(users := t.users[u.id := u]), n)
  {
  }

  // ---------------------------------------------------------------------
  // Deleting a comment: its replies, recursively, and all their likes

  function DeleteComment(t: Tables, id: int): (r: Tables)
    ensures forall c :: c in r.comments <==> c in t.comments && !InSubtree(t.comments, c, id)
    ensures forall c :: c in r.comments ==> r.comments[c] == t.comments[c]
    ensures forall l :: l in r.likes <==> l in t.likes && t.likes[l].commentId !in Subtree(t.comments, id)
    ensures forall l :: l in r.likes ==> r.likes[l] == t.likes[l]
    ensures r.users == t.users && r.posts == t.posts
  {
    var doomed := Subtree(t.comments, id);
    t.(comments := map c | c in t.comments && c !in doomed :: t.comments[c],
       likes := map l | l in t.likes && t.likes[l].commentId !in doomed :: t.likes[l])
  }

  /** A reply of a comment in the subtree is in the subtree. */
  lemma ReplyInSubtree(cs: map<int, Comment>, c: int, root: int)
    requires c in cs && cs[c].parentId.Some? && cs[c].parentId.value < c
    requires InSubtree(cs, cs[c].parentId.value, root)
    ensures InSubtree(cs, c, root)
  {
  }

  lemma {:induction false} DeleteCommentKeepsConsistent(t: Tables, n: int, id: int)
    requires Consistent(t, n)
    ensures Consistent(DeleteComment(t, id), n)
  {
    var r := DeleteComment(t, id);
    forall c | c in r.comments
      ensures CommentLinksOk(r, r.comments[c])
    {
      var p := t.comments[c].parentId;
      if p.Some? {
        if InSubtree(t.comments, p.value, id) {
          ReplyInSubtree(t.comments, c, id);
        }
        assert !InSubtree(t.comments, p.value, id);
      }
    }
    forall c | c in r.comments
      ensures LikesOf(r.likes, c) == LikesOf(t.likes, c)
    {
      assert c !in Subtree(t.comments, id);
    }
  }

  /** The deleted comment goes, and so does every reply of it. */
  lemma {:induction false} DeleteCommentTakesReplies(t: Tables, n: int, id: int, reply: int)
    requires Consistent(t, n)
    requires reply in t.comments && t.comments[reply].parentId == Some(id)
    ensures reply !in DeleteComment(t, id).comments
    ensures id !in DeleteComment(t, id).comments
    ensures forall l :: l in t.likes && t.likes[l].commentId in {id, reply} ==> l !in DeleteComment(t, id).likes
  {
    assert InSubtree(t.comments, id, id);
    ReplyInSubtree(t.comments, reply, id);
    assert reply in Subtree(t.comments, id);
    assert id !in t.comments || id in Subtree(t.comments, id);
  }

  // ---------------------------------------------------------------------
  // Deleting a post: its comments, the replies below them, and their likes

  function DeletePost(t: Tables, pid: int): (r: Tables)
    ensures r.posts == t.posts - {pid}
    ensures forall c :: c in r.comments <==> c in t.comments && !UnderPost(t.comments, c, pid)
    ensures forall c :: c in r.comments ==> r.comments[c] == t.comments[c]
    ensures forall l :: l in r.likes <==> l in t.likes && t.likes[l].commentId !in PostCascade(t.comments, pid)
    ensures forall l :: l in r.likes ==> r.likes[l] == t.likes[l]
    ensures r.users == t.users
  {
    var doomed := PostCascade(t.comments, pid);
    t.(posts := t.posts - {pid},
       comments := map c | c in t.comments && c !in doomed :: t.comments[c],
       likes := map l | l in t.likes && t.likes[l].commentId !in doomed :: t.likes[l])
  }

  lemma {:induction false} DeletePostKeepsConsistent(t: Tables, n: int, pid: int)
    requires Consistent(t, n)
    ensures Consistent(DeletePost(t, pid), n)
  {
    var r := DeletePost(t, pid);
    DeletePostKeepsLinks(t, n, pid);
    forall c | c in r.comments
      ensures LikesOf(r.likes, c) == LikesOf(t.likes, c)
    {
      assert c !in PostCascade(t.comments, pid);
    }
  }

  /** The schema part: no surviving comment points at the deleted post or at
      a deleted comment. */
  lemma {:induction false} DeletePostKeepsLinks(t: Tables, n: int, pid: int)
    requires WellFormed(t, n)
    ensures WellFormed(DeletePost(t, pid), n)
  {
    var r := DeletePost(t, pid);
    forall c | c in r.comments
      ensures CommentLinksOk(r, r.comments[c])
    {
      var p := t.comments[c].parentId;
      assert t.comments[c].postId != pid;
      if p.Some? {
        assert 0 <= p.value < c;
        assert !UnderPost(t.comments, p.value, pid);
      }
    }
  }

  /** No comment of the deleted post survives, nor any like of one. */
  lemma DeletePostTakesComments(t: Tables, pid: int, c: int)
    requires c in t.comments && t.comments[c].postId == pid
    ensures c !in DeletePost(t, pid).comments
    ensures forall l :: l in t.likes && t.likes[l].commentId == c ==> l !in DeletePost(t, pid).likes
  {
    assert c in PostCascade(t.comments, pid);
  }

  // ---------------------------------------------------------------------
  // The like toggle

  /** Liking a comment: with no like of `uid` on `cid`, one is added (with id
      `newId`) and likes_count goes up by one; otherwise the like is removed
      and likes_count goes down by one. */
  function ToggleLike(t: Tables, cid: int, uid: int, newId: int): (r: Tables)
    requires cid in t.comments
    ensures cid in r.comments
    ensures r.users == t.users && r.posts == t.posts
    ensures r.comments == t.comments[cid := r.comments[cid]]
    ensures r.comments[cid] == t.comments[cid].(likesCount := r.comments[cid].likesCount)
    ensures LikesBy(t.likes, cid, uid) == {} ==>
              r.comments[cid].likesCount == t.comments[cid].likesCount + 1 &&
              r.likes == t.likes[newId := Like(newId, cid, uid)]
    ensures LikesBy(t.likes, cid, uid) != {} ==>
              r.comments[cid].likesCount == t.comments[cid].likesCount - 1 &&
              r.likes == t.likes - LikesBy(t.likes, cid, uid)
  {
    var mine := LikesBy(t.likes, cid, uid);
    var c := t.comments[cid];
    if mine == {} then
      t.(likes := t.likes[newId := Like(newId, cid, uid)],
         comments := t.comments[cid := c.(likesCount := c.likesCount + 1)])
    else
      t.(likes := t.likes - mine,
         comments := t.comments[cid := c.(likesCount := c.likesCount - 1)])
  }

  lemma {:induction false} ToggleLikeKeepsConsistent(t: Tables, n: int, cid: int, uid: int)
    requires Consistent(t, n) && cid in t.comments
    requires uid in t.users
    ensures Consistent(ToggleLike(t, cid, uid, n), n + 1)
  {
    var r := ToggleLike(t, cid, uid, n);
    var mine := LikesBy(t.likes, cid, uid);
    assert n !in t.likes;
    if mine == {} {
      assert LikesOf(r.likes, cid) == LikesOf(t.likes, cid) + {n};
      forall c | c in r.comments && c != cid
        ensures LikesOf(r.likes, c) == LikesOf(t.likes, c)
      {
      }
      forall a | a in t.likes
        ensures !(t.likes[a].commentId == cid && t.likes[a].ownerId == uid)
      {
        assert a !in mine;
      }
    } else {
      UnlikeKeepsConsistent(t, n, cid, uid);
      ConsistentLater(r, n, n + 1);
    }
  }

  /** Removing the like needs no new id: the tables stay consistent under the same next id. */
  lemma {:induction false} UnlikeKeepsConsistent(t: Tables, n: int, cid: int, uid: int)
    requires Consistent(t, n) && cid in t.comments
    requires LikesBy(t.likes, cid, uid) != {}
    ensures Consistent(ToggleLike(t, cid, uid, n), n)
  {
    var r := ToggleLike(t, cid, uid, n);
    var l := SomeLikeOfPair(t.likes, cid, uid);
    OnlyLikeOfPair(t, n, cid, uid, l);
    assert LikesOf(r.likes, cid) == LikesOf(t.likes, cid) - {l};
    assert l in LikesOf(t.likes, cid);
    forall c | c in r.comments && c != cid
      ensures LikesOf(r.likes, c) == LikesOf(t.likes, c)
    {
    }
  }

  /** Liking twice from the state with no like restores the tables exactly. */
  lemma {:induction false} ToggleLikeTwiceRestores(t: Tables, n: int, cid: int, uid: int)
    requires Consistent(t, n) && cid in t.comments
    requires LikesBy(t.likes, cid, uid) == {}
    ensures ToggleLike(ToggleLike(t, cid, uid, n), cid, uid, n + 1) == t
  {
    var once := ToggleLike(t, cid, uid, n);
    assert n !in t.likes;
    assert LikesBy(once.likes, cid, uid) == {n};
    var twice := ToggleLike(once, cid, uid, n + 1);
    assert twice.likes == t.likes;
    assert twice.comments == t.comments;
  }

  /** Liking twice from the state with a like restores likes_count and leaves
      one like of the user on the comment (under a new id). */
  lemma {:induction false} ToggleLikeTwiceRestoresCount(t: Tables, n: int, cid: int, uid: int)
    requires Consistent(t, n) && cid in t.comments
    requires LikesBy(t.likes, cid, uid) != {}
    ensures var twice := ToggleLike(ToggleLike(t, cid, uid, n), cid, uid, n + 1);
            twice.comments == t.comments && LikesBy(twice.likes, cid, uid) == {n + 1}
  {
    var once := ToggleLike(t, cid, uid, n);
    var l := SomeLikeOfPair(t.likes, cid, uid);
    OnlyLikeOfPair(t, n, cid, uid, l);
    assert LikesBy(once.likes, cid, uid) == {};
    var twice := ToggleLike(once, cid, uid, n + 1);
    assert twice.comments == t.comments;
    assert n + 1 !in once.likes by {
      assert forall k :: k in once.likes ==> k in t.likes;
    }
  }
}
