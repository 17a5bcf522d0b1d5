/** The role store (RoleRepositoryImpl.java): rows keyed by generated id,
    insert-or-merge `save`, lookup by name, the id-ordered listing and hard
    deletion. */
module RoleRepositoryImpl {
  import opened Common
  import opened UserModel

  type Rows = map<nat, Role>

  ghost predicate WellKeyed(rows: Rows, nextId: nat)
  {
    forall k :: k in rows ==> rows[k].id == Some(k) && k < nextId
  }

  function NameKeys(rows: Rows, name: string): set<nat>
  {
    set k | k in rows && rows[k].name == name
  }

  /** `exists`: the count of roles with the name is positive. */
  predicate Exists(rows: Rows, name: string)
  {
    NameKeys(rows, name) != {}
  }

  function FindById(rows: Rows, id: nat): (r: Option<Role>)
    ensures r.Some? <==> id in rows
    ensures r.Some? ==> r.value == rows[id]
  {
    if id in rows then Some(rows[id]) else None
  }

  /** The ids of a role sequence increase strictly. */
  predicate IdsAscending(s: seq<Role>)
  {
    (forall i :: 0 <= i < |s| ==> s[i].id.Some?)
    && forall i, j :: 0 <= i < j < |s| ==> s[i].id.value < s[j].id.value
  }

  class RoleRepository {
    var rows: Rows
    var nextId: nat

    ghost predicate Valid()
      reads this
    {
      WellKeyed(rows, nextId)
    }

    constructor ()
      ensures Valid() && rows == map[]
    {
      rows := map[];
      nextId := 1;
    }

    /** `save`: persist under a fresh id, or merge into the stored row. */
    method Save(role: Role) returns (saved: Role)
      requires Valid()
      modifies this
      ensures Valid()
      ensures role.id.Some? && role.id.value in old(rows) ==>
                saved == role && rows == old(rows)[role.id.value := role] && nextId == old(nextId)
      ensures !(role.id.Some? && role.id.value in old(rows)) ==>
                old(nextId) !in old(rows) && saved == role.(id := Some(old(nextId)))
                && rows == old(rows)[old(nextId) := saved] && nextId == old(nextId) + 1
    {
      if role.id.Some? && role.id.value in rows {
        rows := rows[role.id.value := role];
        saved := role;
      } else {
        saved := role.(id := Some(nextId));
        rows := rows[nextId := saved];
        nextId := nextId + 1;
      }
    }

    /** `findByName`: null exactly when `exists` is false; otherwise one of
        the roles with that name. */
    method FindByName(name: string) returns (r: Option<Role>)
      requires Valid()
      ensures r.None? <==> !Exists(rows, name)
      ensures r.Some? ==> r.value.id.Some? && r.value.id.value in NameKeys(rows, name)
                          && rows[r.value.id.value] == r.value && r.value.name == name
    {
      if NameKeys(rows, name) == {} {
        r := None;
      } else {
        var k :| k in NameKeys(rows, name);
        r := Some(rows[k]);
      }
    }

    /** `findAll` with `ORDER BY r.id`: every stored role exactly once, by
        ascending id. */
    method FindAll() returns (result: seq<Role>)
      requires Valid()
      ensures IdsAscending(result)
      ensures forall i :: 0 <= i < |result| ==> result[i].id.value in rows && rows[result[i].id.value] == result[i]
      ensures forall k :: k in rows ==> rows[k] in result
    {
      result := [];
      var i := 0;
      while i < nextId
        invariant 0 <= i <= nextId
        invariant IdsAscending(result)
        invariant forall j :: 0 <= j < |result| ==> result[j].id.value < i
        invariant forall j :: 0 <= j < |result| ==> result[j].id.value in rows && rows[result[j].id.value] == result[j]
        invariant forall k :: k in rows && k < i ==> rows[k] in result
      {
        if i in rows {
          result := result + [rows[i]];
        }
        i := i + 1;
      }
    }

    /** `delete`: merge then remove, so the row with the role's id is gone. */
    method Delete(role: Role)
      requires Valid()
      modifies this
      ensures Valid() && nextId == old(nextId)
      ensures rows == if role.id.Some? then old(rows) - {role.id.value} else old(rows)
    {
      if role.id.Some? {
        rows := rows - {role.id.value};
      }
    }

    /** `deleteById`: removes an existing row; an unknown id is a no-op. */
    method DeleteById(id: nat)
      requires Valid()
      modifies this
      ensures Valid() && nextId == old(nextId)
      ensures rows == old(rows) - {id}
      ensures id !in old(rows) ==> rows == old(rows)
    {
      if id in rows {
        rows := rows - {id};
      }
    }
  }
}
