/**
 * `UserServiceImp` over the users table: registration and partial update,
 * both guarded by `validationUser` (a non-empty email that no other user
 * holds), lookup and deletion.
 */
module UserService {
  import opened Common
  import opened Entities
  import opened Store

  /** `getUser`: the stored user, or NotFound. */
  function GetUser(users: seq<User>, id: int): (r: Result<User>)
    ensures r.Ok? <==> exists u :: u in users && u.id == id
    ensures r.Ok? ==> r.value in users && r.value.id == id
    ensures r.Err? ==> r.error == NotFound
  {
    match Find(users, UserKey, id)
    case Some(u) => Ok(u)
    case None => Err(NotFound)
  }

  /** The email is missing or empty. */
  predicate EmailBlank(email: Option<string>) {
    email.None? || email.value == ""
  }

  /** Another user (by id) holds the same email. */
  predicate EmailTaken(users: seq<User>, user: User) {
    exists u :: u in users && u.email == user.email && u.id != user.id
  }

  /**
   * `validationUser`: a blank email is a validation error; an email held by a
   * user with a different id is a conflict. The blank test comes first.
   */
  function ValidationUser(users: seq<User>, user: User): (r: Result<()>)
    ensures r == Err(Validation) <==> EmailBlank(user.email)
    ensures r == Err(Conflict) <==> !EmailBlank(user.email) && EmailTaken(users, user)
    ensures r.Ok? <==> !EmailBlank(user.email) && !EmailTaken(users, user)
  {
    if EmailBlank(user.email) then Err(Validation)
    else if exists u :: u in users && u.email == user.email && u.id != user.id then Err(Conflict)
    else Ok(())
  }

  /** A user who holds an email already is no conflict with itself: re-submitting one's own email passes. */
  lemma OwnEmailIsNoConflict(users: seq<User>, u: User)
    requires u in users && !EmailBlank(u.email)
    requires forall v :: v in users && v.email == u.email ==> v.id == u.id
    ensures ValidationUser(users, u).Ok?
  {
  }

  /** A second user with a stored user's email is a conflict; with an email nobody holds it passes. */
  lemma DuplicateEmailConflicts(users: seq<User>, holder: User, newcomer: User)
    requires holder in users && !EmailBlank(newcomer.email) && holder.id != newcomer.id
    ensures newcomer.email == holder.email ==> ValidationUser(users, newcomer) == Err(Conflict)
    ensures (forall u :: u in users ==> u.email != newcomer.email) ==> ValidationUser(users, newcomer).Ok?
  {
  }

  /** No two users with different ids share an email. */
  ghost predicate EmailsDistinct(users: seq<User>) {
    forall u, v :: u in users && v in users && u.email == v.email ==> u.id == v.id
  }

  /** Storing a user that passed validation, in place or appended, keeps the emails distinct. */
  lemma {:induction false} ValidatedRowKeepsEmailsDistinct(users: seq<User>, rows: seq<User>, row: User)
    requires EmailsDistinct(users) && !EmailTaken(users, row)
    requires forall x :: x in rows ==> x == row || x in users
    ensures EmailsDistinct(rows)
  {
    forall u, v | u in rows && v in rows && u.email == v.email ensures u.id == v.id {
      if u == row && v != row {
        assert v in users;
      } else if v == row && u != row {
        assert u in users;
      }
    }
  }

  /** The user `updateUser` saves: the stored user with each supplied (non-null) field replaced. */
  function MergeUser(stored: User, patch: User): (r: User)
    ensures r.id == stored.id
    ensures r.name == if patch.name.Some? then patch.name else stored.name
    ensures r.email == if patch.email.Some? then patch.email else stored.email
  {
    stored.(name := if patch.name.Some? then patch.name else stored.name,
            email := if patch.email.Some? then patch.email else stored.email)
  }

  /** A patch that supplies nothing leaves the user as stored. */
  lemma EmptyPatchKeepsUser(stored: User, patch: User)
    requires patch.name.None? && patch.email.None?
    ensures MergeUser(stored, patch) == stored
  {
  }

  /**
   * `addUser`: validates, then saves. A user whose id is already stored
   * replaces that row (save merges); any other gets the next generated id.
   */
  method AddUser(db: Database, user: User) returns (r: Result<User>)
    requires db.Valid()
    modifies db`users, db`userSeq
    ensures db.Valid()
    ensures ValidationUser(old(db.users), user).Err? ==>
              r == Err(ValidationUser(old(db.users), user).error) && db.users == old(db.users) && db.userSeq == old(db.userSeq)
    ensures ValidationUser(old(db.users), user).Ok? ==>
              var s := Save(old(db.users), UserKey, UserWithId, old(db.userSeq), user);
              r == Ok(s.row) && db.users == s.rows && db.userSeq == s.next
    ensures r.Ok? ==> r.value.name == user.name && r.value.email == user.email
    ensures r.Ok? ==> GetUser(db.users, r.value.id) == Ok(r.value)
    ensures EmailsDistinct(old(db.users)) ==> EmailsDistinct(db.users)
  {
    var valid := ValidationUser(db.users, user);
    if valid.Err? {
      return Err(valid.error);
    }
    var s := Save(db.users, UserKey, UserWithId, db.userSeq, user);
    if Find(db.users, UserKey, user.id).None? {
      forall x | x in s.rows ensures x == s.row || x in db.users {
      }
    }
    if EmailsDistinct(db.users) {
      ValidatedRowKeepsEmailsDistinct(db.users, s.rows, s.row);
    }
    db.users, db.userSeq := s.rows, s.next;
    r := Ok(s.row);
  }

  /**
   * `updateUser`: NotFound for an unknown id; otherwise the merged user is
   * validated and saved in place of the stored one.
   */
  method UpdateUser(db: Database, id: int, patch: User) returns (r: Result<User>)
    requires db.Valid()
    modifies db`users
    ensures db.Valid()
    ensures GetUser(old(db.users), id).Err? ==> r == Err(NotFound) && db.users == old(db.users)
    ensures GetUser(old(db.users), id).Ok? ==>
              var merged := MergeUser(GetUser(old(db.users), id).value, patch);
              if ValidationUser(old(db.users), merged).Err? then
                r == Err(ValidationUser(old(db.users), merged).error) && db.users == old(db.users)
              else
                r == Ok(merged) && db.users == Put(old(db.users), UserKey, merged)
    ensures r.Ok? ==> r.value.id == id && GetUser(db.users, id) == Ok(r.value)
    ensures forall other {:trigger GetUser(old(db.users), other)} :: other != id ==> GetUser(db.users, other) == GetUser(old(db.users), other)
    ensures EmailsDistinct(old(db.users)) ==> EmailsDistinct(db.users)
  {
    var stored :- GetUser(db.users, id);
    var merged := MergeUser(stored, patch);
    var valid := ValidationUser(db.users, merged);
    if valid.Err? {
      return Err(valid.error);
    }
    var s := Save(db.users, UserKey, UserWithId, db.userSeq, merged);
    if EmailsDistinct(db.users) {
      ValidatedRowKeepsEmailsDistinct(db.users, s.rows, s.row);
    }
    db.users := s.rows;
    r := Ok(merged);
  }

  /** `deleteUser`: removes the row; an unknown id is not an error. */
  method DeleteUser(db: Database, id: int)
    requires db.Valid()
    modifies db`users
    ensures db.Valid()
    ensures db.users == Remove(old(db.users), UserKey, id)
    ensures GetUser(db.users, id) == Err(NotFound)
    ensures forall other {:trigger GetUser(old(db.users), other)} :: other != id ==> GetUser(db.users, other) == GetUser(old(db.users), other)
  {
    RemoveKeepsKeysUnique(db.users, UserKey, id);
    db.users := Remove(db.users, UserKey, id);
  }

  /** After a deletion the id is unknown, whatever the table held. */
  lemma DeletedUserIsNotFound(users: seq<User>, id: int)
    ensures GetUser(Remove(users, UserKey, id), id) == Err(NotFound)
    ensures forall u :: u in Remove(users, UserKey, id) ==> u in users
  {
  }
}
