/** The user and role records (User.java; the role record itself is known
    only through its id and name), the two user constructors and the role
    membership operations. */
module UserModel {
  import opened Common

  datatype Role = Role(id: Option<nat>, name: string)

  const ADMIN: string := "admin"
  const MODERATOR: string := "moderator"
  const USER: string := "user"

  /** One row of the users table with its eagerly loaded role set. */
  datatype User = User(
    id: Option<nat>,
    login: string,
    password: string,
    address: Option<string>,
    postalCode: Option<string>,
    country: Option<string>,
    roles: set<Role>,
    deleted: bool)

  /** The constructor taking a role set: null becomes the empty set. */
  function UserWithRoles(login: string, password: string, roles: Option<set<Role>>): (u: User)
    ensures u.roles == (if roles.Some? then roles.value else {})
    ensures !u.deleted && u.login == login && u.password == password && u.id.None?
  {
    User(None, login, password, None, None, None, if roles.Some? then roles.value else {}, false)
  }

  /** The constructor taking one role: a null role leaves the set empty. */
  function UserWithRole(login: string, password: string, role: Option<Role>): (u: User)
    ensures role.Some? ==> u.roles == {role.value}
    ensures role.None? ==> u.roles == {}
    ensures !u.deleted && u.login == login && u.password == password && u.id.None?
  {
    User(None, login, password, None, None, None, if role.Some? then {role.value} else {}, false)
  }

  /** The names of the roles a user holds. */
  function RoleNames(u: User): set<string>
  {
    set r | r in u.roles :: r.name
  }

  /** `hasRole`: some held role carries the name. */
  predicate HasRole(u: User, name: string)
  {
    exists r :: r in u.roles && r.name == name
  }

  lemma HasRoleIsNameMembership(u: User, name: string)
    ensures HasRole(u, name) <==> name in RoleNames(u)
  {
    if name in RoleNames(u) {
      var r :| r in u.roles && r.name == name;
    }
  }

  predicate IsAdmin(u: User) { HasRole(u, ADMIN) }
  predicate IsModerator(u: User) { HasRole(u, MODERATOR) }
  predicate IsUser(u: User) { HasRole(u, USER) }

  /** `addRole`: a null role is ignored. */
  function AddRole(u: User, role: Option<Role>): (r: User)
    ensures role.Some? ==> role.value in r.roles && HasRole(r, role.value.name)
    ensures u.roles <= r.roles
    ensures forall x :: x in r.roles ==> x in u.roles || role == Some(x)
    ensures r == u.(roles := r.roles)
  {
    if role.Some? then u.(roles := u.roles + {role.value}) else u
  }

  /** `removeRole`: a null role is ignored. */
  function RemoveRole(u: User, role: Option<Role>): (r: User)
    ensures role.Some? ==> role.value !in r.roles
    ensures r.roles <= u.roles
    ensures forall x :: x in u.roles && role != Some(x) ==> x in r.roles
    ensures r == u.(roles := r.roles)
  {
    if role.Some? then u.(roles := u.roles - {role.value}) else u
  }

  /** Adding the same role twice is adding it once; neither operation does
      anything with a null role. */
  lemma AddRoleIdempotent(u: User, role: Option<Role>)
    ensures AddRole(AddRole(u, role), role) == AddRole(u, role)
    ensures AddRole(u, None) == u && RemoveRole(u, None) == u
  {
  }

  /** Removing a role that was just added restores the original user exactly
      when the user did not hold it before. */
  lemma RemoveUndoesAdd(u: User, role: Role)
    ensures RemoveRole(AddRole(u, Some(role)), Some(role)) == u <==> role !in u.roles
  {
    if role !in u.roles {
      assert u.roles + {role} - {role} == u.roles;
    }
  }
}
