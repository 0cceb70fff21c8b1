/** The unit of work: one session and the four repositories working through
    it, used as an `async with` scope by every service operation. Entering
    the scope gives the unit of work itself; leaving it closes the session,
    after a rollback when the scope ends with an exception. It never commits
    on its own. */
module Transactions {
  import opened Store
  import opened Sessions
  import opened Repositories

  class UnitOfWork {
    const session: Session
    const userRepository: UserRepository
    const postRepository: PostRepository
    const commentRepository: CommentRepository
    const likeRepository: LikeRepository

    /** Every repository works through this unit of work's session. */
    ghost predicate Valid()
    {
      userRepository.session == session && postRepository.session == session &&
      commentRepository.session == session && likeRepository.session == session
    }

    /** Between service operations: the repositories share the session,
        nothing is pending, and the committed tables are consistent. */
    ghost predicate Ready()
      reads session
    {
      Valid() && session.tables == session.durable && Consistent(session.durable, session.nextId)
    }

    constructor (session: Session, userRepository: UserRepository, postRepository: PostRepository,
                 commentRepository: CommentRepository, likeRepository: LikeRepository)
      requires userRepository.session == session && postRepository.session == session
      requires commentRepository.session == session && likeRepository.session == session
      ensures this.session == session && this.userRepository == userRepository
      ensures this.postRepository == postRepository && this.commentRepository == commentRepository
      ensures this.likeRepository == likeRepository
      ensures Valid()
    {
      this.session := session;
      this.userRepository := userRepository;
      this.postRepository := postRepository;
      this.commentRepository := commentRepository;
      this.likeRepository := likeRepository;
    }

    method Commit()
      modifies session
      ensures session.durable == old(session.tables) && session.tables == old(session.tables)
      ensures session.nextId == old(session.nextId) && session.calls == old(session.calls) + [SessionCall.Commit]
    {
      session.Commit();
    }

    method Rollback()
      modifies session
      ensures session.tables == old(session.durable) && session.durable == old(session.durable)
      ensures session.nextId == old(session.nextId) && session.calls == old(session.calls) + [SessionCall.Rollback]
    {
      session.Rollback();
    }

    method Close()
      modifies session
      ensures session.tables == old(session.durable) && session.durable == old(session.durable)
      ensures session.nextId == old(session.nextId) && session.calls == old(session.calls) + [SessionCall.Close]
    {
      session.Close();
    }

    /** __aenter__ */
    method Enter() returns (u: UnitOfWork)
      ensures u == this
    {
      u := this;
    }

    /** __aexit__: rollback and close when the scope raised, close alone otherwise. */
    method Exit(raised: bool)
      modifies session
      ensures session.tables == old(session.durable) && session.durable == old(session.durable)
      ensures session.nextId == old(session.nextId)
      ensures session.calls == old(session.calls) +
                (if raised then [SessionCall.Rollback, SessionCall.Close] else [SessionCall.Close])
    {
      if raised {
        Rollback();
      }
      Close();
    }
  }
}
