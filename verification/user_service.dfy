/**
 * `UserService`: find-or-fail lookups, existence-checked delete and update,
 * and the guard that keeps an email owned by at most one user id.
 */
module UserServices {
  import opened Outcomes
  import opened Domain
  import opened JpaStore

  /** Some user stored under an id other than `id` owns `email`. */
  predicate EmailTakenByOther(users: map<int, User>, email: string, id: int)
  {
    exists k :: k in users && users[k].email == email && k != id
  }

  /** No email is owned by two distinct ids. */
  predicate EmailsUnique(users: map<int, User>)
  {
    forall j, k :: j in users && k in users && users[j].email == users[k].email ==> j == k
  }

  /**
   * Writing a user whose email no other id owns keeps emails unique: the
   * only row that could share the email is the one being replaced.
   */
  lemma UpsertKeepsEmailsUnique(users: map<int, User>, user: User)
    requires EmailsUnique(users)
    requires !EmailTakenByOther(users, user.email, user.id)
    ensures EmailsUnique(users[user.id := user])
  {
  }

  /** Removing a row never makes two ids share an email. */
  lemma RemoveKeepsEmailsUnique(users: map<int, User>, id: int)
    requires EmailsUnique(users)
    ensures EmailsUnique(users - {id})
  {
  }

  /** When emails are unique and `id` owns `email`, no other id owns it. */
  lemma OwnerExcludesOthers(users: map<int, User>, email: string, id: int)
    requires EmailsUnique(users)
    requires id in users && users[id].email == email
    ensures !EmailTakenByOther(users, email, id)
  {
  }

  class UserService {
    const repository: Repository<User>

    /** The injected repository keeps each user under its own id. */
    ghost predicate Valid()
      reads repository
    {
      repository.Valid() && forall u: User :: repository.idOf(u) == u.id
    }

    constructor (repository: Repository<User>)
      requires repository.Valid() && forall u: User :: repository.idOf(u) == u.id
      ensures Valid()
      ensures this.repository == repository
    {
      this.repository := repository;
    }

    /** `findAll`: the stored users, untouched. */
    method FindAll() returns (users: map<int, User>)
      ensures users == repository.records
    {
      users := repository.FindAll();
    }

    /** `findById`: the user with that id, or `NotFound`. */
    method FindById(id: int) returns (r: Outcome<User>)
      ensures r.Ok? <==> id in repository.records
      ensures r.Ok? ==> r.value == repository.records[id]
      ensures !r.Ok? ==> r == NotFound
    {
      var found := repository.FindById(id);
      if found.Some? {
        r := Ok(found.value);
      } else {
        r := NotFound;
      }
    }

    /** `assertUserExists`: passes when the user's id is stored, else `NotFound`. */
    method AssertUserExists(user: User) returns (r: Outcome<()>)
      ensures r.Ok? <==> user.id in repository.records
      ensures !r.Ok? ==> r == NotFound
    {
      var found := FindById(user.id);
      r := if found.Ok? then Ok(()) else NotFound;
    }

    /**
     * `assertEmailIsUnique`: asks the store for a user with this email and
     * fails with `InvalidEmail` when the one it returns has another id.
     * It always passes when no other id owns the email, and when emails are
     * unique it fails exactly when another id owns it.
     */
    method AssertEmailIsUnique(email: string, userId: int) returns (r: Outcome<()>)
      requires Valid()
      ensures r == Ok(()) || r == InvalidEmail
      ensures r == InvalidEmail ==> EmailTakenByOther(repository.records, email, userId)
      ensures !EmailTakenByOther(repository.records, email, userId) ==> r.Ok?
      ensures EmailsUnique(repository.records) ==>
                (r.Ok? <==> !EmailTakenByOther(repository.records, email, userId))
    {
      var found := repository.FindOne((u: User) => u.email == email);
      if found.Some? && found.value.id != userId {
        r := InvalidEmail;
      } else {
        if found.Some? && EmailsUnique(repository.records) {
          OwnerExcludesOthers(repository.records, email, userId);
        }
        r := Ok(());
      }
    }

    /**
     * `save`: the email guard, then the upsert. On `InvalidEmail` nothing is
     * written; on success the user is stored under its id and returned.
     */
    method Save(user: User) returns (r: Outcome<User>)
      requires Valid()
      modifies repository
      ensures Valid()
      ensures r == Ok(user) || r == InvalidEmail
      ensures r == InvalidEmail ==> repository.records == old(repository.records)
      ensures r == InvalidEmail ==> EmailTakenByOther(old(repository.records), user.email, user.id)
      ensures r.Ok? ==> repository.records == old(repository.records)[user.id := user]
      ensures !EmailTakenByOther(old(repository.records), user.email, user.id) ==> r.Ok?
      ensures EmailsUnique(old(repository.records)) ==>
                (r.Ok? <==> !EmailTakenByOther(old(repository.records), user.email, user.id))
      ensures EmailsUnique(old(repository.records)) ==> EmailsUnique(repository.records)
    {
      var unique := AssertEmailIsUnique(user.email, user.id);
      if !unique.Ok? {
        return InvalidEmail;
      }
      if EmailsUnique(repository.records) {
        UpsertKeepsEmailsUnique(repository.records, user);
      }
      var saved := repository.Save(user);
      r := Ok(saved);
    }

    /** `delete`: `NotFound` with nothing removed when the id is absent; otherwise exactly that user goes. */
    method Delete(id: int) returns (r: Outcome<()>)
      requires Valid()
      modifies repository
      ensures Valid()
      ensures r == NotFound <==> id !in old(repository.records)
      ensures r == NotFound ==> repository.records == old(repository.records)
      ensures r.Ok? ==> repository.records == old(repository.records) - {id}
      ensures r.Ok? || r == NotFound
      ensures id !in repository.records
      ensures EmailsUnique(old(repository.records)) ==> EmailsUnique(repository.records)
    {
      var userToDelete := FindById(id);
      if !userToDelete.Ok? {
        return NotFound;
      }
      if EmailsUnique(repository.records) {
        RemoveKeepsEmailsUnique(repository.records, id);
      }
      repository.Delete(userToDelete.value);
      r := Ok(());
    }

    /**
     * `update`: existence first, then the email guard, then the upsert. An
     * absent id gives `NotFound` whatever the email; a failed guard gives
     * `InvalidEmail`; either way nothing is written.
     */
    method Update(userToUpdate: User) returns (r: Outcome<()>)
      requires Valid()
      modifies repository
      ensures Valid()
      ensures r == NotFound <==> userToUpdate.id !in old(repository.records)
      ensures !r.Ok? ==> repository.records == old(repository.records)
      ensures r == InvalidEmail ==> EmailTakenByOther(old(repository.records), userToUpdate.email, userToUpdate.id)
      ensures r.Ok? ==> repository.records == old(repository.records)[userToUpdate.id := userToUpdate]
      ensures (userToUpdate.id in old(repository.records)
               && !EmailTakenByOther(old(repository.records), userToUpdate.email, userToUpdate.id)) ==> r.Ok?
      ensures EmailsUnique(old(repository.records)) ==>
                (r.Ok? <==> userToUpdate.id in old(repository.records)
                            && !EmailTakenByOther(old(repository.records), userToUpdate.email, userToUpdate.id))
      ensures EmailsUnique(old(repository.records)) ==> EmailsUnique(repository.records)
    {
      var present := AssertUserExists(userToUpdate);
      if !present.Ok? {
        return NotFound;
      }
      var unique := AssertEmailIsUnique(userToUpdate.email, userToUpdate.id);
      if !unique.Ok? {
        return InvalidEmail;
      }
      if EmailsUnique(repository.records) {
        UpsertKeepsEmailsUnique(repository.records, userToUpdate);
      }
      var _ := repository.Save(userToUpdate);
      r := Ok(());
    }

    /** `findByFirstName`: a user with that first name, or `NotFound` when there is none. */
    method FindByFirstName(firstName: string) returns (r: Outcome<User>)
      requires Valid()
      ensures r == NotFound <==>
                forall id :: id in repository.records ==> repository.records[id].firstName != firstName
      ensures r.Ok? ==> r.value.firstName == firstName && r.value.id in repository.records
                        && repository.records[r.value.id] == r.value
      ensures r.Ok? || r == NotFound
    {
      var found := repository.FindOne((u: User) => u.firstName == firstName);
      if found.Some? {
        r := Ok(found.value);
      } else {
        r := NotFound;
      }
    }
  }
}
