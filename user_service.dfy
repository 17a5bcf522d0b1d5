/** The user service (UserServiceImpl.java): raising lookups, account
    creation with a get-or-create role, soft deletion, profile and role
    updates, and the two role summaries used in login responses. The
    password encoder is an injected function the model does not look into. */
module UserServiceImpl {
  import opened Common
  import opened UserModel
  import UserStore = UserRepositoryImpl
  import RoleStore = RoleRepositoryImpl
  import RoleServiceImpl

  /* ---------------- lower-casing ---------------- */

  /** `Character.toLowerCase` on the ASCII letters; every other character is
      kept. */
  function LowerChar(c: char): (r: char)
    ensures 'A' <= c <= 'Z' ==> r as int == c as int + 32
    ensures !('A' <= c <= 'Z') ==> r == c
  {
    if 'A' <= c <= 'Z' then (c as int + 32) as char else c
  }

  /** `String.toLowerCase`, character by character. */
  function ToLower(s: string): (r: string)
    ensures |r| == |s|
    ensures forall i :: 0 <= i < |s| ==> r[i] == LowerChar(s[i])
  {
    if s == [] then [] else [LowerChar(s[0])] + ToLower(s[1..])
  }

  /** No upper-case ASCII letter survives lower-casing, so lower-casing twice
      is lower-casing once. */
  lemma ToLowerIdempotent(s: string)
    ensures forall i :: 0 <= i < |ToLower(s)| ==> !('A' <= ToLower(s)[i] <= 'Z')
    ensures ToLower(ToLower(s)) == ToLower(s)
  {
  }

  /* ---------------- role summaries ---------------- */

  /** `order` lists the roles of `s`, each exactly once. */
  predicate Enumerates(order: seq<Role>, s: set<Role>)
  {
    (forall i, j :: 0 <= i < j < |order| ==> order[i] != order[j])
    && (forall i :: 0 <= i < |order| ==> order[i] in s)
    && (forall x :: x in s ==> x in order)
  }

  /** `reduce((a, b) -> a + "," + b)` over the role names, left to right. */
  function JoinNames(order: seq<Role>): (r: string)
    ensures |order| == 1 ==> r == order[0].name
    decreases |order|
  {
    if |order| == 0 then ""
    else if |order| == 1 then order[0].name
    else JoinNames(order[..|order| - 1]) + "," + order[|order| - 1].name
  }

  /** A list of distinct roles drawn from `s` is no longer than `s`. */
  lemma {:induction false} DistinctWithin(order: seq<Role>, s: set<Role>)
    requires forall i, j :: 0 <= i < j < |order| ==> order[i] != order[j]
    requires forall i :: 0 <= i < |order| ==> order[i] in s
    ensures |order| <= |s|
    decreases |order|
  {
    if |order| > 0 {
      var last := order[|order| - 1];
      var front := order[..|order| - 1];
      forall i | 0 <= i < |front|
        ensures front[i] in s - {last}
      {
        assert front[i] == order[i];
      }
      DistinctWithin(front, s - {last});
    }
  }

  /** An enumeration of a one-role set is that role, so a user created with a
      single role lists just its name. */
  lemma {:induction false} SingleRoleListing(order: seq<Role>, role: Role)
    requires Enumerates(order, {role})
    ensures order == [role]
    ensures JoinNames(order) == role.name
  {
    DistinctWithin(order, {role});
    assert role in order;
  }

  /** The login-time details accepted by `updateUser`: a null password or
      role set means "keep". */
  datatype UserDetails = UserDetails(login: string, password: Option<string>, roles: Option<set<Role>>)

  /** The user `updateUser` writes back, from the stored one. */
  function Updated(stored: User, details: UserDetails, encode: string -> string): (u: User)
    ensures u.login == details.login && u.id == stored.id && u.deleted == stored.deleted
    ensures u.password == (if details.password.Some? && details.password.value != "" then encode(details.password.value)
                           else stored.password)
    ensures u.roles == (if details.roles.Some? then details.roles.value else stored.roles)
    ensures u.address == stored.address && u.postalCode == stored.postalCode && u.country == stored.country
  {
    var withLogin := stored.(login := details.login);
    var withPassword :=
      if details.password.Some? && details.password.value != "" then withLogin.(password := encode(details.password.value))
      else withLogin;
    if details.roles.Some? then withPassword.(roles := details.roles.value) else withPassword
  }

  /** An update that sends neither a password nor roles and keeps the login
      writes back exactly what was stored. */
  lemma EmptyUpdateKeepsUser(stored: User, encode: string -> string)
    ensures Updated(stored, UserDetails(stored.login, None, None), encode) == stored
    ensures Updated(stored, UserDetails(stored.login, Some(""), None), encode) == stored
  {
  }

  /** Merging a changed copy of a stored user that keeps its login never
      clashes with the unique-login constraint. */
  lemma SameLoginNoClash(rows: UserStore.Rows, id: nat, u: User)
    requires UserStore.UniqueLogins(rows) && id in rows
    requires u.id == Some(id) && u.login == rows[id].login
    ensures !UserStore.LoginClash(rows, u)
  {
  }

  class UserService {
    const repo: UserStore.UserRepository
    const roleService: RoleServiceImpl.RoleService
    const encode: string -> string

    constructor (repo: UserStore.UserRepository, roleService: RoleServiceImpl.RoleService, encode: string -> string)
      ensures this.repo == repo && this.roleService == roleService && this.encode == encode
    {
      this.repo := repo;
      this.roleService := roleService;
      this.encode := encode;
    }

    ghost predicate Valid()
      reads repo, roleService.repo
    {
      repo.Valid() && roleService.repo.Valid()
    }

    /** `findByLogin`: raises when no visible user has the login. */
    method FindByLogin(login: string) returns (r: Result<User>)
      requires Valid()
      ensures r.Err? <==> UserStore.VisibleLoginKeys(repo.rows, login) == {}
      ensures r.Err? ==> r.error == UserLoginNotFound
      ensures r.Ok? ==> r.value.login == login && UserStore.Visible(r.value)
                        && r.value.id.Some? && r.value.id.value in repo.rows && repo.rows[r.value.id.value] == r.value
    {
      var found := repo.FindByLogin(login);
      if found.None? {
        return Err(UserLoginNotFound);
      }
      r := Ok(found.value);
    }

    /** `findById`: raises when the id is unknown or the user is invisible. */
    method FindById(id: nat) returns (r: Result<User>)
      ensures r.Err? <==> UserStore.FindById(repo.rows, id).None?
      ensures r.Err? ==> r.error == UserIdNotFound
      ensures r.Ok? ==> id in repo.rows && r.value == repo.rows[id] && UserStore.Visible(r.value)
    {
      var found := UserStore.FindById(repo.rows, id);
      if found.None? {
        return Err(UserIdNotFound);
      }
      r := Ok(found.value);
    }

    /** `createUser`: a login held by a visible user is refused before
        anything changes. Otherwise the lower-cased role is fetched or
        created, and the new user (encoded password, that one role, the
        address fields) is saved; the database still refuses a login held by
        a deleted or role-less user, after the role has been created. */
    method CreateUser(login: string, password: string, roleName: string,
                      address: Option<string>, postalCode: Option<string>, country: Option<string>)
      returns (r: Result<User>)
      requires Valid()
      modifies repo, roleService.repo
      ensures Valid()
      ensures r == Err(LoginTaken) <==> UserStore.VisibleLoginKeys(old(repo.rows), login) != {}
      ensures r == Err(LoginTaken) ==> repo.rows == old(repo.rows) && roleService.repo.rows == old(roleService.repo.rows)
      ensures r.Err? ==> r.error == LoginTaken || r.error == UniqueViolation
      ensures r.Err? ==> repo.rows == old(repo.rows)
      ensures r == Err(UniqueViolation) ==>
                (exists k :: k in old(repo.rows) && old(repo.rows)[k].login == login && !UserStore.Visible(old(repo.rows)[k]))
      ensures r.Ok? ==> r.value.id.Some? && r.value.id.value !in old(repo.rows)
                        && repo.rows == old(repo.rows)[r.value.id.value := r.value]
      ensures r.Ok? ==> r.value.login == login && r.value.password == encode(password) && !r.value.deleted
                        && r.value.address == address && r.value.postalCode == postalCode && r.value.country == country
      ensures r.Ok? ==> exists role: Role :: r.value.roles == {role} && role.name == ToLower(roleName)
                                      && role.id.Some? && role.id.value in roleService.repo.rows
                                      && roleService.repo.rows[role.id.value] == role
      ensures r.Ok? ==> UserStore.VisibleLoginKeys(repo.rows, login) == {r.value.id.value}
      ensures r != Err(LoginTaken) && RoleStore.Exists(old(roleService.repo.rows), ToLower(roleName)) ==>
                roleService.repo.rows == old(roleService.repo.rows)
      ensures r != Err(LoginTaken) && !RoleStore.Exists(old(roleService.repo.rows), ToLower(roleName)) ==>
                roleService.repo.rows == old(roleService.repo.rows)[old(roleService.repo.nextId) :=
                                                                    Role(Some(old(roleService.repo.nextId)), ToLower(roleName))]
    {
      var existing := repo.FindByLogin(login);
      if existing.Some? {
        return Err(LoginTaken);
      }
      var role := roleService.GetOrCreateRole(ToLower(roleName));
      var newUser := UserWithRoles(login, encode(password), Some({role}));
      newUser := newUser.(address := address, postalCode := postalCode, country := country);
      r := repo.Save(newUser);
      if r.Err? {
        var k :| k in repo.rows && Some(k) != newUser.id && repo.rows[k].login == newUser.login;
        assert k !in UserStore.VisibleLoginKeys(repo.rows, login);
      } else {
        assert r.value.roles == {role};
        var id := r.value.id.value;
        assert UserStore.VisibleLoginKeys(repo.rows, login) == {id} by {
          forall k | k in UserStore.VisibleLoginKeys(repo.rows, login)
            ensures k == id
          {
            assert repo.rows[k].login == repo.rows[id].login;
          }
        }
      }
    }

    /** `deleteById`: raises unless the user is visible, then soft-deletes. */
    method DeleteById(id: nat) returns (r: Result<()>)
      requires Valid()
      modifies repo
      ensures Valid()
      ensures r.Err? <==> UserStore.FindById(old(repo.rows), id).None?
      ensures r.Err? ==> r.error == UserIdNotFound && repo.rows == old(repo.rows)
      ensures r.Ok? ==> repo.rows == old(repo.rows)[id := old(repo.rows)[id].(deleted := true)]
      ensures UserStore.FindById(repo.rows, id).None?
    {
      var found := FindById(id);
      if found.Err? {
        return Err(found.error);
      }
      repo.DeleteById(id);
      r := Ok(());
    }

    /** `deleteUserByLogin`: raises unless a visible user has the login, then
        merges that user with `deleted` set. */
    method DeleteUserByLogin(login: string) returns (r: Result<()>)
      requires Valid()
      modifies repo
      ensures Valid()
      ensures r.Err? <==> UserStore.VisibleLoginKeys(old(repo.rows), login) == {}
      ensures r.Err? ==> r.error == UserLoginNotFound && repo.rows == old(repo.rows)
      ensures r.Ok? ==> exists k :: k in UserStore.VisibleLoginKeys(old(repo.rows), login)
                                   && repo.rows == old(repo.rows)[k := old(repo.rows)[k].(deleted := true)]
      ensures UserStore.VisibleLoginKeys(repo.rows, login) == {}
    {
      var found := FindByLogin(login);
      if found.Err? {
        return Err(found.error);
      }
      var user := found.value;
      var k := user.id.value;
      SameLoginNoClash(repo.rows, k, user.(deleted := true));
      ghost var before := repo.rows;
      var _ := repo.Delete(user);
      r := Ok(());
      forall j | j in repo.rows && repo.rows[j].login == login
        ensures j == k
      {
        assert before[j].login == before[k].login;
      }
    }

    /** `updateUser`: raises for an invisible user; otherwise writes back the
        new login, the encoded password when a non-empty one is sent, and the
        roles when a set is sent. A login taken by another row is refused by
        the database. */
    method UpdateUser(id: nat, details: UserDetails) returns (r: Result<User>)
      requires Valid()
      modifies repo
      ensures Valid()
      ensures UserStore.FindById(old(repo.rows), id).None? ==> r == Err(UserIdNotFound)
      ensures UserStore.FindById(old(repo.rows), id).Some? ==>
                (r.Err? <==> UserStore.LoginClash(old(repo.rows), Updated(old(repo.rows)[id], details, encode)))
      ensures r.Err? ==> repo.rows == old(repo.rows)
      ensures r.Ok? ==> r.value == Updated(old(repo.rows)[id], details, encode)
                        && repo.rows == old(repo.rows)[id := r.value]
    {
      var found := FindById(id);
      if found.Err? {
        return Err(found.error);
      }
      var user := Updated(found.value, details, encode);
      r := repo.Save(user);
    }

    /** `getPrimaryRole`: "user" for a user without roles; otherwise the
        first of admin, moderator and user that is held; otherwise the name
        of whichever held role the set's iterator yields first. */
    method GetPrimaryRole(u: User) returns (name: string)
      ensures u.roles == {} ==> name == USER
      ensures u.roles != {} && IsAdmin(u) ==> name == ADMIN
      ensures u.roles != {} && !IsAdmin(u) && IsModerator(u) ==> name == MODERATOR
      ensures u.roles != {} && !IsAdmin(u) && !IsModerator(u) && IsUser(u) ==> name == USER
      ensures u.roles != {} && !IsAdmin(u) && !IsModerator(u) && !IsUser(u) ==> name in RoleNames(u)
      ensures name in RoleNames(u) || name == USER
    {
      if u.roles == {} {
        return USER;
      }
      if HasRole(u, ADMIN) {
        HasRoleIsNameMembership(u, ADMIN);
        return ADMIN;
      }
      if HasRole(u, MODERATOR) {
        HasRoleIsNameMembership(u, MODERATOR);
        return MODERATOR;
      }
      if HasRole(u, USER) {
        return USER;
      }
      var first :| first in u.roles;
      name := first.name;
    }

    /** `getAllRoles`: "user" for a user without roles; otherwise the role
        names joined by commas, in the set's iteration order. */
    method GetAllRoles(u: User) returns (s: string)
      ensures u.roles == {} ==> s == USER
      ensures u.roles != {} ==> exists order :: Enumerates(order, u.roles) && s == JoinNames(order)
    {
      if u.roles == {} {
        return USER;
      }
      var rest := u.roles;
      var first :| first in rest;
      rest := rest - {first};
      s := first.name;
      ghost var order := [first];
      while rest != {}
        invariant rest <= u.roles && |order| >= 1
        invariant forall i, j :: 0 <= i < j < |order| ==> order[i] != order[j]
        invariant forall x :: x in order <==> x in u.roles && x !in rest
        invariant s == JoinNames(order)
        decreases |rest|
      {
        var next :| next in rest;
        rest := rest - {next};
        order := order + [next];
        assert order[..|order| - 1] == order[..|order| - 1];
        s := s + "," + next.name;
      }
      assert Enumerates(order, u.roles);
    }

    /** `addRoleToUser`: raises for an invisible user; otherwise fetches or
        creates the role (by the name as given) and saves the user with it
        added. */
    method AddRoleToUser(userId: nat, roleName: string) returns (r: Result<User>)
      requires Valid()
      modifies repo, roleService.repo
      ensures Valid()
      ensures r.Err? <==> UserStore.FindById(old(repo.rows), userId).None?
      ensures r.Err? ==> r.error == UserIdNotFound && repo.rows == old(repo.rows)
                         && roleService.repo.rows == old(roleService.repo.rows)
      ensures r.Ok? ==> HasRole(r.value, roleName) && old(repo.rows)[userId].roles <= r.value.roles
                        && repo.rows == old(repo.rows)[userId := r.value]
                        && r.value == old(repo.rows)[userId].(roles := r.value.roles)
      ensures r.Ok? ==> exists role: Role :: role.name == roleName && role.id.Some? && role.id.value in roleService.repo.rows
                                      && roleService.repo.rows[role.id.value] == role
                                      && r.value.roles == old(repo.rows)[userId].roles + {role}
      ensures RoleStore.Exists(roleService.repo.rows, roleName) || r.Err?
      ensures r.Ok? && RoleStore.Exists(old(roleService.repo.rows), roleName) ==>
                roleService.repo.rows == old(roleService.repo.rows)
      ensures r.Ok? && !RoleStore.Exists(old(roleService.repo.rows), roleName) ==>
                roleService.repo.rows == old(roleService.repo.rows)[old(roleService.repo.nextId) :=
                                                                    Role(Some(old(roleService.repo.nextId)), roleName)]
    {
      var found := FindById(userId);
      if found.Err? {
        return Err(found.error);
      }
      var role := roleService.GetOrCreateRole(roleName);
      var user := AddRole(found.value, Some(role));
      SameLoginNoClash(repo.rows, userId, user);
      r := repo.Save(user);
      assert role.id.value in RoleStore.NameKeys(roleService.repo.rows, roleName);
    }

    /** `removeRoleFromUser`: raises for an invisible user, then raises when
        no role has the name (so the "not found" branch after the lookup is
        never taken); otherwise saves the user without the found role. */
    method RemoveRoleFromUser(userId: nat, roleName: string) returns (r: Result<User>)
      requires Valid()
      modifies repo
      ensures Valid()
      ensures UserStore.FindById(old(repo.rows), userId).None? ==> r == Err(UserIdNotFound)
      ensures UserStore.FindById(old(repo.rows), userId).Some? ==>
                (r.Err? <==> !RoleStore.Exists(roleService.repo.rows, roleName))
      ensures r.Err? ==> (r.error == UserIdNotFound || r.error == RoleNameNotFound) && repo.rows == old(repo.rows)
      ensures r.Ok? ==> exists k :: k in RoleStore.NameKeys(roleService.repo.rows, roleName)
                                   && r.value == RemoveRole(old(repo.rows)[userId], Some(roleService.repo.rows[k]))
      ensures r.Ok? ==> repo.rows == old(repo.rows)[userId := r.value] && r.value.roles <= old(repo.rows)[userId].roles
    {
      var found := FindById(userId);
      if found.Err? {
        return Err(found.error);
      }
      var role := roleService.FindByName(roleName);
      if role.Err? {
        return Err(role.error);
      }
      var user := RemoveRole(found.value, Some(role.value));
      SameLoginNoClash(repo.rows, userId, user);
      r := repo.Save(user);
      assert role.value.id.value in RoleStore.NameKeys(roleService.repo.rows, roleName);
    }

    /** `updateUserAddress`: raises for an invisible user; otherwise replaces
        the three address fields and nothing else. */
    method UpdateUserAddress(userId: nat, address: Option<string>, postalCode: Option<string>, country: Option<string>)
      returns (r: Result<User>)
      requires Valid()
      modifies repo
      ensures Valid()
      ensures r.Err? <==> UserStore.FindById(old(repo.rows), userId).None?
      ensures r.Err? ==> r.error == UserIdNotFound && repo.rows == old(repo.rows)
      ensures r.Ok? ==> r.value == old(repo.rows)[userId].(address := address, postalCode := postalCode, country := country)
                        && repo.rows == old(repo.rows)[userId := r.value]
    {
      var found := FindById(userId);
      if found.Err? {
        return Err(found.error);
      }
      var user := found.value.(address := address, postalCode := postalCode, country := country);
      SameLoginNoClash(repo.rows, userId, user);
      r := repo.Save(user);
    }
  }
}
