/** The user service: signup with a unique email, profile update, and the
    password change that does nothing. Password hashing is not modelled:
    the hash of the signup password is a parameter. */
module UserServices {
  import opened Wrappers
  import opened Records
  import opened Store
  import opened Sessions
  import opened Transactions
  import opened Builders
  import Q = Queries

  const EmailTaken := "The user with this email already exists"

  /** Some user other than `self` holds `email`. */
  ghost predicate HeldByOther(t: Tables, self: int, email: string)
  {
    exists id :: id in t.users && id != self && t.users[id].email == email
  }

  class UserService {
    const uow: UnitOfWork

    constructor (uow: UnitOfWork)
      ensures this.uow == uow
    {
      this.uow := uow;
    }

    /** user_signup: a taken email is refused and no user is added;
        otherwise exactly one user is added, holding the hash it is given.
        `passwordHash` stands for what hash_password gives for the first
        password of the request; hashing is not part of this model. */
    method UserSignup(data: UserCreate, passwordHash: string) returns (r: Result<User>)
      requires uow.Ready()
      modifies uow.session
      ensures uow.Ready()
      ensures r.Ok? || r.BadRequest?
      ensures r.BadRequest? <==> Q.UsersWithEmail(old(uow.session.durable.users), data.email) != {}
      ensures r.BadRequest? ==>
                r.detail == EmailTaken && uow.session.durable == old(uow.session.durable) &&
                uow.session.nextId == old(uow.session.nextId) &&
                uow.session.calls == old(uow.session.calls) + [SessionCall.Rollback, SessionCall.Close]
      ensures r.Ok? ==> r.value == UserFromSignupData(data, passwordHash).(id := old(uow.session.nextId))
      ensures r.Ok? ==> uow.session.durable == old(uow.session.durable).(users := old(uow.session.durable.users)[r.value.id := r.value])
      ensures r.Ok? ==> r.value.id !in old(uow.session.durable.users) && uow.session.nextId == old(uow.session.nextId) + 1
      ensures r.Ok? ==> uow.session.calls == old(uow.session.calls) + [SessionCall.Commit, SessionCall.Close]
    {
      var u := uow.Enter();
      ghost var t0 := u.session.durable;
      ghost var n0 := u.session.nextId;
      var existing := u.userRepository.GetByEmail(data.email);
      if existing.Some? {
        u.Exit(true);
        return BadRequest(EmailTaken);
      }
      var user := UserFromSignupData(data, passwordHash);
      forall id | id in t0.users
        ensures t0.users[id].email != user.email
      {
        assert id !in Q.UsersWithEmail(t0.users, data.email);
      }
      var created := u.userRepository.Add(user);
      AddUserKeepsConsistent(t0, n0, created);
      u.Commit();
      u.Exit(false);
      return Ok(created);
    }

    /** update_user: an email held by another user is refused; keeping
        one's own email is allowed. Two scopes: the lookup, then the write.
        `user` is the signed-in user as stored. */
    method UpdateUser(user: User, data: UserUpdateSchema) returns (r: Result<User>)
      requires uow.Ready()
      requires user.id in uow.session.durable.users && uow.session.durable.users[user.id] == user
      modifies uow.session
      ensures uow.Ready()
      ensures uow.session.nextId == old(uow.session.nextId)
      ensures r.Ok? || r.BadRequest?
      ensures r.BadRequest? <==> HeldByOther(old(uow.session.durable), user.id, data.email)
      ensures r.BadRequest? ==>
                r.detail == EmailTaken && uow.session.durable == old(uow.session.durable) &&
                uow.session.calls == old(uow.session.calls) + [SessionCall.Rollback, SessionCall.Close]
      ensures r.Ok? ==> r.value == ApplyUpdatesToUser(user, data)
      ensures r.Ok? ==> uow.session.durable == old(uow.session.durable).(users := old(uow.session.durable.users)[user.id := r.value])
      ensures r.Ok? ==>
                uow.session.calls == old(uow.session.calls) + [SessionCall.Close, SessionCall.Commit, SessionCall.Close]
    {
      var u := uow.Enter();
      ghost var t0 := u.session.durable;
      ghost var n0 := u.session.nextId;
      var sameEmail := u.userRepository.GetByEmail(data.email);
      if sameEmail.Some? && user.email != data.email {
        if forall id :: id in t0.users ==> t0.users[id] != sameEmail.value {
          assert false;
        }
        ghost var other :| other in t0.users && t0.users[other] == sameEmail.value;
        assert other != user.id;
        u.Exit(true);
        return BadRequest(EmailTaken);
      }
      forall id | id in t0.users && id != user.id
        ensures t0.users[id].email != data.email
      {
        assert id in Q.UsersWithEmail(t0.users, data.email) <==> t0.users[id].email == data.email;
      }
      u.Exit(false);
      var v := uow.Enter();
      var changed := ApplyUpdatesToUser(user, data);
      var updated := v.userRepository.Update(changed);
      EditUserKeepsConsistent(t0, n0, updated);
      v.Commit();
      v.Exit(false);
      return Ok(updated);
    }

    /** change_password: not implemented; it accepts any request and changes nothing. */
    method ChangePassword(data: ChangePasswordSchema) returns (r: Result<()>)
      ensures r == Ok(())
    {
      return Ok(());
    }
  }
}
