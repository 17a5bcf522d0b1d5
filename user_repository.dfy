/** The user store (UserRepositoryImpl.java): rows keyed by generated id
    under the unique `login` column, soft deletion, and the lookups that
    only see non-deleted users holding at least one role. */
module UserRepositoryImpl {
  import opened Common
  import opened UserModel

  type Rows = map<nat, User>

  ghost predicate WellKeyed(rows: Rows, nextId: nat)
  {
    forall k :: k in rows ==> rows[k].id == Some(k) && k < nextId
  }

  /** The database's unique constraint on `login` (over all rows, deleted
      ones included). */
  ghost predicate UniqueLogins(rows: Rows)
  {
    forall j, k :: j in rows && k in rows && rows[j].login == rows[k].login ==> j == k
  }

  predicate LoginClash(rows: Rows, u: User)
  {
    exists k :: k in rows && Some(k) != u.id && rows[k].login == u.login
  }

  /** What `findByLogin`/`findById` can return: the query filters on
      `deleted = false` and inner-joins the roles, so a user without roles
      is not found either. */
  predicate Visible(u: User)
  {
    !u.deleted && u.roles != {}
  }

  function VisibleLoginKeys(rows: Rows, login: string): set<nat>
  {
    set k | k in rows && rows[k].login == login && Visible(rows[k])
  }

  /** `findById`. */
  function FindById(rows: Rows, id: nat): (r: Option<User>)
    ensures r.Some? <==> id in rows && Visible(rows[id])
    ensures r.Some? ==> r.value == rows[id] && !r.value.deleted
  {
    if id in rows && Visible(rows[id]) then Some(rows[id]) else None
  }

  function FindAll(rows: Rows): set<User> { rows.Values }

  function FindAllActiveUsers(rows: Rows): set<User>
  {
    set u | u in rows.Values && !u.deleted
  }

  /** A set: the DISTINCT query returns each matching user once. */
  function FindAllActiveUsersByRolename(rows: Rows, roleName: string): set<User>
  {
    set u | u in rows.Values && !u.deleted && HasRole(u, roleName)
  }

  function FindDeletedUsers(rows: Rows): set<User>
  {
    set u | u in rows.Values && u.deleted
  }

  /** The table after `deleteById`: only a visible user is marked deleted. */
  function SoftDeleted(rows: Rows, id: nat): (r: Rows)
    ensures r.Keys == rows.Keys
    ensures FindById(rows, id).Some? ==> r == rows[id := rows[id].(deleted := true)]
    ensures FindById(rows, id).None? ==> r == rows
  {
    if FindById(rows, id).Some? then rows[id := rows[id].(deleted := true)] else rows
  }

  /** `findAll` includes deleted users; the active and deleted queries split it. */
  lemma ActiveAndDeletedPartition(rows: Rows)
    ensures FindAllActiveUsers(rows) + FindDeletedUsers(rows) == FindAll(rows)
    ensures FindAllActiveUsers(rows) * FindDeletedUsers(rows) == {}
  {
  }

  /** The by-role query holds exactly the active users with a role of that name. */
  lemma ByRolenameIsActiveWithRole(rows: Rows, roleName: string, u: User)
    ensures u in FindAllActiveUsersByRolename(rows, roleName) <==>
              u in FindAllActiveUsers(rows) && HasRole(u, roleName)
  {
  }

  /** Soft deletion hides the user from the lookups, keeps the row in
      `findAll`, and a second deletion changes nothing. */
  lemma SoftDeleteProperties(rows: Rows, id: nat)
    ensures FindById(SoftDeleted(rows, id), id).None?
    ensures SoftDeleted(SoftDeleted(rows, id), id) == SoftDeleted(rows, id)
    ensures id in rows ==> id in SoftDeleted(rows, id)
  {
  }

  lemma SoftDeleteKeepsLogins(rows: Rows, nextId: nat, id: nat)
    requires WellKeyed(rows, nextId) && UniqueLogins(rows)
    ensures WellKeyed(SoftDeleted(rows, id), nextId) && UniqueLogins(SoftDeleted(rows, id))
  {
    var r := SoftDeleted(rows, id);
    forall j, k | j in r && k in r && r[j].login == r[k].login
      ensures j == k
    {
      assert rows[j].login == r[j].login && rows[k].login == r[k].login;
    }
  }

  class UserRepository {
    var rows: Rows
    var nextId: nat

    ghost predicate Valid()
      reads this
    {
      WellKeyed(rows, nextId) && UniqueLogins(rows)
    }

    constructor ()
      ensures Valid() && rows == map[]
    {
      rows := map[];
      nextId := 1;
    }

    /** `save`: persist (fresh id) or merge; a login used by another row,
        deleted or not, is rejected by the database and nothing changes. */
    method Save(u: User) returns (r: Result<User>)
      requires Valid()
      modifies this
      ensures Valid()
      ensures r.Err? <==> LoginClash(old(rows), u)
      ensures r.Err? ==> r.error == UniqueViolation && rows == old(rows) && nextId == old(nextId)
      ensures r.Ok? && u.id.Some? && u.id.value in old(rows) ==>
                r.value == u && rows == old(rows)[u.id.value := u] && nextId == old(nextId)
      ensures r.Ok? && !(u.id.Some? && u.id.value in old(rows)) ==>
                old(nextId) !in old(rows) && r.value == u.(id := Some(old(nextId)))
                && rows == old(rows)[old(nextId) := r.value] && nextId == old(nextId) + 1
    {
      if LoginClash(rows, u) {
        return Err(UniqueViolation);
      }
      if u.id.Some? && u.id.value in rows {
        rows := rows[u.id.value := u];
        r := Ok(u);
      } else {
        var saved := u.(id := Some(nextId));
        rows := rows[nextId := saved];
        nextId := nextId + 1;
        r := Ok(saved);
      }
    }

    /** `delete`: merges the given object with `deleted` set. */
    method Delete(u: User) returns (r: Result<User>)
      requires Valid()
      modifies this
      ensures Valid()
      ensures r.Err? <==> LoginClash(old(rows), u)
      ensures r.Ok? ==> r.value == u.(deleted := true, id := r.value.id)
      ensures r.Ok? && u.id.Some? && u.id.value in old(rows) ==>
                rows == old(rows)[u.id.value := u.(deleted := true)] && nextId == old(nextId)
      ensures r.Ok? && !(u.id.Some? && u.id.value in old(rows)) ==>
                r.value.id == Some(old(nextId)) && old(nextId) !in old(rows)
                && rows == old(rows)[old(nextId) := r.value] && nextId == old(nextId) + 1
      ensures r.Err? ==> rows == old(rows) && nextId == old(nextId)
    {
      r := Save(u.(deleted := true));
    }

    /** `deleteById`: goes through the visible lookup, so an unknown, deleted
        or role-less user is left alone. */
    method DeleteById(id: nat)
      requires Valid()
      modifies this
      ensures Valid() && nextId == old(nextId)
      ensures rows == SoftDeleted(old(rows), id)
    {
      SoftDeleteKeepsLogins(rows, nextId, id);
      rows := SoftDeleted(rows, id);
    }

    /** `findByLogin`: null exactly when no visible user has the login. */
    method FindByLogin(login: string) returns (r: Option<User>)
      requires Valid()
      ensures r.None? <==> VisibleLoginKeys(rows, login) == {}
      ensures r.Some? ==> r.value.id.Some? && r.value.id.value in VisibleLoginKeys(rows, login)
                          && rows[r.value.id.value] == r.value
      ensures r.Some? ==> r.value.login == login && Visible(r.value)
    {
      if VisibleLoginKeys(rows, login) == {} {
        r := None;
      } else {
        var k :| k in VisibleLoginKeys(rows, login);
        r := Some(rows[k]);
      }
    }
  }
}
