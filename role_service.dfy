/** The role service (RoleServiceImpl.java): name-checked creation and
    renaming, lookups that raise when nothing is found, deletion, and
    get-or-create. Role names are kept unique by these checks alone. */
module RoleServiceImpl {
  import opened Common
  import opened UserModel
  import RoleStore = RoleRepositoryImpl

  /** No two stored roles share a name. */
  ghost predicate UniqueRoleNames(rows: RoleStore.Rows)
  {
    forall j, k :: j in rows && k in rows && rows[j].name == rows[k].name ==> j == k
  }

  /** With unique names, a name that exists belongs to exactly one role. */
  lemma {:induction false} ExistingNameIsSingle(rows: RoleStore.Rows, name: string)
    requires UniqueRoleNames(rows) && RoleStore.Exists(rows, name)
    ensures |RoleStore.NameKeys(rows, name)| == 1
  {
    var k :| k in RoleStore.NameKeys(rows, name);
    assert RoleStore.NameKeys(rows, name) == {k};
  }

  /** Storing a role under a new key keeps names unique when its name is
      not taken. */
  lemma InsertKeepsUnique(rows: RoleStore.Rows, key: nat, role: Role)
    requires UniqueRoleNames(rows) && key !in rows && !RoleStore.Exists(rows, role.name)
    ensures UniqueRoleNames(rows[key := role])
  {
    forall k | k in rows && rows[k].name == role.name
      ensures k in RoleStore.NameKeys(rows, role.name)
    {
    }
  }

  /** Renaming a role keeps names unique when the new name is not taken or
      is the role's own. */
  lemma RenameKeepsUnique(rows: RoleStore.Rows, id: nat, newName: string)
    requires UniqueRoleNames(rows) && id in rows
    requires !RoleStore.Exists(rows, newName) || rows[id].name == newName
    ensures UniqueRoleNames(rows[id := rows[id].(name := newName)])
  {
    forall k | k in rows && rows[k].name == newName
      ensures k in RoleStore.NameKeys(rows, newName)
    {
    }
  }

  class RoleService {
    const repo: RoleStore.RoleRepository

    constructor (repo: RoleStore.RoleRepository)
      ensures this.repo == repo
    {
      this.repo := repo;
    }

    /** `createRole`: refuses a name that exists, otherwise stores a new role. */
    method CreateRole(name: string) returns (r: Result<Role>)
      requires repo.Valid()
      modifies repo
      ensures repo.Valid()
      ensures r.Err? <==> RoleStore.Exists(old(repo.rows), name)
      ensures r.Err? ==> r.error == RoleNameTaken && repo.rows == old(repo.rows) && repo.nextId == old(repo.nextId)
      ensures r.Ok? ==> r.value == Role(Some(old(repo.nextId)), name)
                        && old(repo.nextId) !in old(repo.rows)
                        && repo.rows == old(repo.rows)[old(repo.nextId) := r.value]
                        && RoleStore.NameKeys(repo.rows, name) == {old(repo.nextId)}
      ensures UniqueRoleNames(old(repo.rows)) ==> UniqueRoleNames(repo.rows)
    {
      var taken := RoleStore.Exists(repo.rows, name);
      if taken {
        return Err(RoleNameTaken);
      }
      ghost var before := repo.rows;
      var saved := repo.Save(Role(None, name));
      r := Ok(saved);
      if UniqueRoleNames(before) {
        InsertKeepsUnique(before, saved.id.value, saved);
      }
    }

    /** `findById`: raises for an unknown id. */
    method FindById(id: nat) returns (r: Result<Role>)
      ensures r.Err? <==> id !in repo.rows
      ensures r.Err? ==> r.error == RoleIdNotFound
      ensures r.Ok? ==> r.value == repo.rows[id]
    {
      var found := RoleStore.FindById(repo.rows, id);
      if found.None? {
        return Err(RoleIdNotFound);
      }
      r := Ok(found.value);
    }

    /** `findByName`: raises when no role has the name. */
    method FindByName(name: string) returns (r: Result<Role>)
      requires repo.Valid()
      ensures r.Err? <==> !RoleStore.Exists(repo.rows, name)
      ensures r.Err? ==> r.error == RoleNameNotFound
      ensures r.Ok? ==> r.value.name == name && r.value.id.Some? && r.value.id.value in repo.rows
                        && repo.rows[r.value.id.value] == r.value
    {
      var found := repo.FindByName(name);
      if found.None? {
        return Err(RoleNameNotFound);
      }
      r := Ok(found.value);
    }

    /** `updateRole`: an unknown id raises; a name held by another role
        raises; keeping the current name is allowed. */
    method UpdateRole(id: nat, newName: string) returns (r: Result<Role>)
      requires repo.Valid()
      modifies repo
      ensures repo.Valid()
      ensures r.Err? ==> repo.rows == old(repo.rows)
      ensures id !in old(repo.rows) ==> r == Err(RoleIdNotFound)
      ensures id in old(repo.rows) ==>
                (r.Err? <==> RoleStore.Exists(old(repo.rows), newName) && old(repo.rows)[id].name != newName)
      ensures r.Err? && id in old(repo.rows) ==> r.error == RoleNameTaken
      ensures r.Ok? ==> r.value == old(repo.rows)[id].(name := newName)
                        && repo.rows == old(repo.rows)[id := r.value]
      ensures UniqueRoleNames(old(repo.rows)) ==> UniqueRoleNames(repo.rows)
    {
      var found := FindById(id);
      if found.Err? {
        return found;
      }
      var role := found.value;
      if RoleStore.Exists(repo.rows, newName) && role.name != newName {
        return Err(RoleNameTaken);
      }
      ghost var before := repo.rows;
      var saved := repo.Save(role.(name := newName));
      r := Ok(saved);
      if UniqueRoleNames(before) {
        RenameKeepsUnique(before, id, newName);
      }
    }

    /** `deleteById`: raises for an unknown id, otherwise removes the role. */
    method DeleteById(id: nat) returns (r: Result<()>)
      requires repo.Valid()
      modifies repo
      ensures repo.Valid()
      ensures r.Err? <==> id !in old(repo.rows)
      ensures r.Err? ==> r.error == RoleIdNotFound && repo.rows == old(repo.rows)
      ensures r.Ok? ==> repo.rows == old(repo.rows) - {id}
    {
      var found := FindById(id);
      if found.Err? {
        return Err(found.error);
      }
      repo.DeleteById(id);
      r := Ok(());
    }

    /** `existByName`. */
    method ExistByName(name: string) returns (b: bool)
      ensures b <==> exists k :: k in repo.rows && repo.rows[k].name == name
    {
      b := RoleStore.Exists(repo.rows, name);
      forall k | k in repo.rows && repo.rows[k].name == name
        ensures k in RoleStore.NameKeys(repo.rows, name)
      {
      }
    }

    /** `getOrCreateRole`: the stored role with the name if there is one,
        otherwise a newly created one. With unique names, the store then
        holds exactly one role of that name, so a second call finds it. */
    method GetOrCreateRole(name: string) returns (role: Role)
      requires repo.Valid()
      modifies repo
      ensures repo.Valid()
      ensures role.name == name && role.id.Some? && role.id.value in repo.rows && repo.rows[role.id.value] == role
      ensures RoleStore.Exists(old(repo.rows), name) ==> repo.rows == old(repo.rows) && repo.nextId == old(repo.nextId)
      ensures !RoleStore.Exists(old(repo.rows), name) ==>
                role == Role(Some(old(repo.nextId)), name) && repo.rows == old(repo.rows)[old(repo.nextId) := role]
      ensures UniqueRoleNames(old(repo.rows)) ==>
                UniqueRoleNames(repo.rows) && RoleStore.NameKeys(repo.rows, name) == {role.id.value}
    {
      var existing := repo.FindByName(name);
      if existing.Some? {
        role := existing.value;
        if UniqueRoleNames(repo.rows) {
          ExistingNameIsSingle(repo.rows, name);
          assert RoleStore.NameKeys(repo.rows, name) == {role.id.value} by {
            forall k | k in RoleStore.NameKeys(repo.rows, name)
              ensures k == role.id.value
            {
            }
          }
        }
        return;
      }
      var created := CreateRole(name);
      role := created.value;
    }
  }
}
