/**
 * `UserInMemoryStorage`: users kept in a hash map under their id, with a
 * counter that is incremented before each new user takes its value, so the
 * first id is 1 and no id is handed out twice, even after a deletion.
 */
module UserStorage {
  import opened Common
  import opened Entities

  class UserInMemoryStorage {
    var users: map<int, User>
    var id: int
    /** The ids `addUser` has handed out so far. */
    ghost var issued: set<int>

    /** Every user is stored under its own id, and every id handed out is at most the counter. */
    ghost predicate Valid()
      reads this
    {
      && 0 <= id
      && (forall k :: k in users ==> users[k].id == k)
      && (forall k :: k in issued ==> 1 <= k <= id)
    }

    /** An empty store whose counter stands at 0. */
    constructor ()
      ensures Valid()
      ensures users == map[] && id == 0 && issued == {}
    {
      users := map[];
      id := 0;
      issued := {};
    }

    /** `addUser`: the user takes the incremented counter as its id and is stored under it. */
    method AddUser(user: User) returns (added: User)
      requires Valid()
      modifies this
      ensures Valid()
      ensures id == old(id) + 1
      ensures added == user.(id := id)
      ensures users == old(users)[added.id := added]
      ensures issued == old(issued) + {added.id}
      ensures added.id !in old(issued) && added.id >= 1
    {
      id := id + 1;
      added := user.(id := id);
      users := users[added.id := added];
      issued := issued + {added.id};
    }

    /** `updateUser`: stores the user under its id, replacing or inserting; the counter is untouched. */
    method UpdateUser(user: User) returns (updated: User)
      requires Valid()
      modifies this`users
      ensures Valid()
      ensures updated == user
      ensures users == old(users)[user.id := user]
    {
      users := users[user.id := user];
      updated := user;
    }

    /** `getUser`: the user stored under `key`, or NotFound. */
    method GetUser(key: int) returns (r: Result<User>)
      requires Valid()
      ensures key in users ==> r == Ok(users[key]) && r.value.id == key
      ensures key !in users ==> r == Err(NotFound)
    {
      if key in users {
        r := Ok(users[key]);
      } else {
        r := Err(NotFound);
      }
    }

    /** `getUsers`: exactly the stored users. */
    method GetUsers() returns (all: set<User>)
      requires Valid()
      ensures forall u :: u in all ==> u.id in users && users[u.id] == u
      ensures forall k :: k in users ==> users[k] in all
    {
      all := set k | k in users :: users[k];
    }

    /** `deleteUser`: removes the entry; deleting an absent id changes nothing. */
    method DeleteUser(key: int)
      requires Valid()
      modifies this`users
      ensures Valid()
      ensures users == old(users) - {key}
      ensures key !in old(users) ==> users == old(users)
    {
      users := users - {key};
    }
  }

  /**
   * Three registrations, a deletion and one more registration: the ids run
   * 1, 2, 3 in call order, and the next one is 4 although user 3 is gone.
   */
  method IdsCountFromOne(u: User) returns (first: int, second: int, third: int, fourth: int)
    ensures first == 1 && second == 2 && third == 3 && fourth == 4
  {
    var store := new UserInMemoryStorage();
    var a := store.AddUser(u);
    var b := store.AddUser(u);
    var c := store.AddUser(u);
    store.DeleteUser(c.id);
    var lookup := store.GetUser(c.id);
    assert lookup == Err(NotFound);
    var d := store.AddUser(u);
    first, second, third, fourth := a.id, b.id, c.id, d.id;
  }
}
