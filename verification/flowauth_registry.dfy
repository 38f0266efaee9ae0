/**
 * FlowAuth's registry of users and groups, as its administration endpoints
 * maintain it. Every user owns a personal group created along with them;
 * other groups are created by an administrator. Membership is one relation
 * between user ids and group ids (the association table both sides of the
 * API read), so a user's groups and a group's members are two views of it.
 * Passwords are checked for strength by a parameter and otherwise not kept.
 */
module FlowAuthRegistry {
  import opened Wrappers

  datatype User = User(name: string, isAdmin: bool, hasTwoFactor: bool, requireTwoFactor: bool, personalGroup: nat)

  datatype Group = Group(name: string, isUserGroup: bool)

  /** Users and groups by id, and the (user id, group id) pairs of the membership relation. */
  datatype Registry = Registry(users: map<nat, User>, groups: map<nat, Group>, memberships: set<(nat, nat)>)

  /** The refusals of the administration endpoints. */
  datatype ApiError =
    | UsernameTooShort
    | UsernameExists
    | PasswordMissing
    | PasswordNotComplex
    | WouldLeaveNoAdmins
    | CannotDeleteOnlyAdmin
    | GroupNameExists
    | PersonalGroupNotDeletable
    | NotFound

  /** The JSON body of a refusal: its message and the field it blames. */
  datatype ErrorBody = ErrorBody(message: string, badField: string)

  /** A refusal's HTTP status: 404 for an unknown id, 400 for everything else. */
  function Code(e: ApiError): (code: int)
    ensures code == 404 <==> e == NotFound
    ensures code != 404 ==> code == 400
  {
    if e == NotFound then 404 else 400
  }

  /** The message and field of the refusals whose bodies the administration API documents. */
  function Body(e: ApiError): (r: Option<ErrorBody>)
    ensures r.Some? ==> Code(e) == 400
    ensures e in {UsernameTooShort, UsernameExists} ==> r.Some? && r.value.badField == "username"
    ensures e in {PasswordMissing, PasswordNotComplex} ==> r.Some? && r.value.badField == "password"
    ensures e == WouldLeaveNoAdmins ==> r.Some? && r.value.badField == "is_admin"
    ensures e == GroupNameExists ==> r.Some? && r.value.badField == "groupname"
  {
    match e
    case UsernameTooShort => Some(ErrorBody("Username too short.", "username"))
    case UsernameExists => Some(ErrorBody("Username already exists.", "username"))
    case PasswordMissing => Some(ErrorBody("Password must be provided.", "password"))
    case PasswordNotComplex => Some(ErrorBody("Password not complex enough.", "password"))
    case WouldLeaveNoAdmins => Some(ErrorBody("Removing this user's admin rights would leave no admins.", "is_admin"))
    case GroupNameExists => Some(ErrorBody("Group name already exists.", "groupname"))
    case _ => None
  }

  // ---------------------------------------------------------------------
  // The invariant
  // ---------------------------------------------------------------------

  /** Every user's personal group exists and is marked as a personal group. */
  ghost predicate PersonalGroupsExist(reg: Registry) {
    forall u :: u in reg.users ==>
      reg.users[u].personalGroup in reg.groups && reg.groups[reg.users[u].personalGroup].isUserGroup
  }

  /** No two users share a personal group, and every personal group has its user. */
  ghost predicate PersonalGroupsOwned(reg: Registry) {
    && (forall u, v :: u in reg.users && v in reg.users && reg.users[u].personalGroup == reg.users[v].personalGroup ==> u == v)
    && (forall g :: g in reg.groups && reg.groups[g].isUserGroup ==> exists u :: u in reg.users && reg.users[u].personalGroup == g)
  }

  ghost predicate UniqueUserNames(reg: Registry) {
    forall u, v :: u in reg.users && v in reg.users && reg.users[u].name == reg.users[v].name ==> u == v
  }

  ghost predicate UniqueGroupNames(reg: Registry) {
    forall g, h :: g in reg.groups && h in reg.groups && reg.groups[g].name == reg.groups[h].name ==> g == h
  }

  ghost predicate SomeAdmin(reg: Registry) {
    exists u :: u in reg.users && reg.users[u].isAdmin
  }

  /** Memberships relate existing users to existing groups. */
  ghost predicate MembershipsExist(reg: Registry) {
    forall p :: p in reg.memberships ==> p.0 in reg.users && p.1 in reg.groups
  }

  /** What the administration endpoints keep true of the registry. */
  ghost predicate Valid(reg: Registry) {
    && PersonalGroupsExist(reg)
    && PersonalGroupsOwned(reg)
    && UniqueUserNames(reg)
    && UniqueGroupNames(reg)
    && SomeAdmin(reg)
    && MembershipsExist(reg)
  }

  // ---------------------------------------------------------------------
  // Ids and names
  // ---------------------------------------------------------------------

  lemma {:induction false} MaxOf(ids: set<nat>) returns (m: nat)
    requires ids != {}
    ensures m in ids && forall i :: i in ids ==> i <= m
  {
    var x :| x in ids;
    if ids == {x} {
      m := x;
    } else {
      var rest := ids - {x};
      var m' := MaxOf(rest);
      m := if x > m' then x else m';
      forall i | i in ids ensures i <= m {
        if i != x { assert i in rest; }
      }
    }
  }

  lemma MaxExists(ids: set<nat>)
    requires ids != {}
    ensures exists m :: m in ids && forall i :: i in ids ==> i <= m
  {
    var m := MaxOf(ids);
  }

  /**
   * The id the database gives a new row: one more than the largest id in
   * use, or 1 in an empty table, so the id of a row deleted last is given
   * out again.
   */
  function NextId(ids: set<nat>): (n: nat)
    ensures n !in ids && n >= 1
    ensures forall i :: i in ids ==> i < n
    ensures ids != {} ==> n - 1 in ids
  {
    if ids == {} then 1
    else
      MaxExists(ids);
      var m :| m in ids && forall i :: i in ids ==> i <= m;
      m + 1
  }

  function UserNames(reg: Registry): (r: set<string>)
    ensures forall n :: n in r <==> exists u :: u in reg.users && reg.users[u].name == n
  {
    set u | u in reg.users :: reg.users[u].name
  }

  function GroupNames(reg: Registry): (r: set<string>)
    ensures forall n :: n in r <==> exists g :: g in reg.groups && reg.groups[g].name == n
  {
    set g | g in reg.groups :: reg.groups[g].name
  }

  /** The user is an admin and no other user is. */
  predicate IsOnlyAdmin(reg: Registry, uid: nat)
    requires uid in reg.users
  {
    reg.users[uid].isAdmin && forall v | v in reg.users.Keys :: v != uid ==> !reg.users[v].isAdmin
  }

  /** The registry a fresh FlowAuth starts from: one administrator and their personal group, both with id 1. */
  function Initial(adminName: string): (reg: Registry)
    ensures Valid(reg)
  {
    var reg := Registry(map[1 := User(adminName, true, false, false, 1)], map[1 := Group(adminName, true)], {(1, 1)});
    assert reg.users[1].personalGroup == 1;
    reg
  }

  // ---------------------------------------------------------------------
  // Reading the registry
  // ---------------------------------------------------------------------

  /** What `GET /admin/users/<id>` shows of a user: all their groups, the personal one included. */
  datatype UserView = UserView(id: nat, name: string, isAdmin: bool, hasTwoFactor: bool, requireTwoFactor: bool,
                               groups: set<(nat, string)>, groupId: nat)

  function GroupsOf(reg: Registry, uid: nat): (r: set<(nat, string)>)
    ensures forall g, n :: (g, n) in r <==> (uid, g) in reg.memberships && g in reg.groups && reg.groups[g].name == n
  {
    set p | p in reg.memberships && p.0 == uid && p.1 in reg.groups :: (p.1, reg.groups[p.1].name)
  }

  function GetUser(reg: Registry, uid: nat): (r: Result<UserView, ApiError>)
    ensures r.Err? <==> uid !in reg.users
    ensures r.Ok? ==> r.value.id == uid && r.value.name == reg.users[uid].name && r.value.groupId == reg.users[uid].personalGroup
    ensures r.Ok? ==> r.value.groups == GroupsOf(reg, uid)
  {
    if uid !in reg.users then Err(NotFound)
    else
      var u := reg.users[uid];
      Ok(UserView(uid, u.name, u.isAdmin, u.hasTwoFactor, u.requireTwoFactor, GroupsOf(reg, uid), u.personalGroup))
  }

  /** `GET /admin/users/<id>/groups`: the user's groups other than personal ones. */
  function UserGroups(reg: Registry, uid: nat): (r: Result<set<(nat, string)>, ApiError>)
    ensures r.Err? <==> uid !in reg.users
    ensures r.Ok? ==> forall g, n :: (g, n) in r.value <==>
                        (uid, g) in reg.memberships && g in reg.groups && !reg.groups[g].isUserGroup && reg.groups[g].name == n
  {
    if uid !in reg.users then Err(NotFound)
    else Ok(set p | p in reg.memberships && p.0 == uid && p.1 in reg.groups && !reg.groups[p.1].isUserGroup :: (p.1, reg.groups[p.1].name))
  }

  /** `GET /admin/users/<id>/user_group`: the user's personal group. */
  function UserGroup(reg: Registry, uid: nat): (r: Result<(nat, string), ApiError>)
    requires PersonalGroupsExist(reg)
    ensures r.Err? <==> uid !in reg.users
    ensures r.Ok? ==> r.value.0 in reg.groups && reg.groups[r.value.0].isUserGroup && r.value.1 == reg.groups[r.value.0].name
  {
    if uid !in reg.users then Err(NotFound)
    else
      var g := reg.users[uid].personalGroup;
      Ok((g, reg.groups[g].name))
  }

  /** `GET /admin/groups/<id>/members`. */
  function GroupMembers(reg: Registry, gid: nat): (r: Result<set<(nat, string)>, ApiError>)
    ensures r.Err? <==> gid !in reg.groups
    ensures r.Ok? ==> forall u, n :: (u, n) in r.value <==> (u, gid) in reg.memberships && u in reg.users && reg.users[u].name == n
  {
    if gid !in reg.groups then Err(NotFound)
    else Ok(set p | p in reg.memberships && p.1 == gid && p.0 in reg.users :: (p.0, reg.users[p.0].name))
  }

  /** `GET /admin/users`: every user. */
  function ListUsers(reg: Registry): (r: set<(nat, string)>)
    ensures forall u, n :: (u, n) in r <==> u in reg.users && reg.users[u].name == n
  {
    set u | u in reg.users :: (u, reg.users[u].name)
  }

  /** `GET /admin/groups`: every group that is not a user's personal group. */
  function ListGroups(reg: Registry): (r: set<(nat, string)>)
    ensures forall g, n :: (g, n) in r <==> g in reg.groups && !reg.groups[g].isUserGroup && reg.groups[g].name == n
  {
    set g | g in reg.groups && !reg.groups[g].isUserGroup :: (g, reg.groups[g].name)
  }

  /** A fresh registry lists its administrator alone, no groups, and the administrator's personal group under id 1. */
  lemma InitialListings(adminName: string)
    ensures ListUsers(Initial(adminName)) == {(1, adminName)}
    ensures ListGroups(Initial(adminName)) == {}
    ensures UserGroup(Initial(adminName), 1) == Ok((1, adminName))
  {
    var reg := Initial(adminName);
    assert (1, adminName) in ListUsers(reg);
  }

  // ---------------------------------------------------------------------
  // Users
  // ---------------------------------------------------------------------

  /** The registry with one more user, who is the only member of a new personal group of the same name. */
  function AddUser(reg: Registry, uid: nat, gid: nat, name: string): Registry {
    Registry(reg.users[uid := User(name, false, false, false, gid)],
             reg.groups[gid := Group(name, true)],
             reg.memberships + {(uid, gid)})
  }

  /**
   * `POST /admin/users`: the name must be non-empty and unused, the password
   * present and complex enough; the user is created without admin rights or
   * two-factor, together with a personal group of the same name that they
   * belong to. A name some group already has is refused too, since the
   * personal group could not take it.
   */
  function CreateUser(reg: Registry, name: string, password: string, isComplex: string -> bool): (r: Result<(Registry, nat), ApiError>)
    ensures |name| == 0 ==> r == Err(UsernameTooShort)
    ensures |name| > 0 && name in UserNames(reg) ==> r == Err(UsernameExists)
    ensures |name| > 0 && name !in UserNames(reg) && |password| == 0 ==> r == Err(PasswordMissing)
    ensures |name| > 0 && name !in UserNames(reg) && |password| > 0 && !isComplex(password) ==> r == Err(PasswordNotComplex)
    ensures r.Ok? <==> |name| > 0 && name !in UserNames(reg) && |password| > 0 && isComplex(password) && name !in GroupNames(reg)
    ensures r.Ok? ==> var (after, uid) := r.value;
                      && uid == NextId(reg.users.Keys) && after.users.Keys == reg.users.Keys + {uid}
                      && (forall v :: v in reg.users ==> after.users[v] == reg.users[v])
  {
    if |name| == 0 then Err(UsernameTooShort)
    else if name in UserNames(reg) then Err(UsernameExists)
    else if |password| == 0 then Err(PasswordMissing)
    else if !isComplex(password) then Err(PasswordNotComplex)
    else if name in GroupNames(reg) then Err(GroupNameExists)
    else
      var uid := NextId(reg.users.Keys);
      Ok((AddUser(reg, uid, NextId(reg.groups.Keys), name), uid))
  }

  lemma AddUserPersonalGroups(reg: Registry, uid: nat, gid: nat, name: string)
    requires PersonalGroupsExist(reg) && PersonalGroupsOwned(reg)
    requires uid !in reg.users && gid !in reg.groups
    ensures PersonalGroupsExist(AddUser(reg, uid, gid, name)) && PersonalGroupsOwned(AddUser(reg, uid, gid, name))
  {
    var after := AddUser(reg, uid, gid, name);
    assert after.users[uid].personalGroup == gid;
    forall g | g in after.groups && after.groups[g].isUserGroup
      ensures exists u :: u in after.users && after.users[u].personalGroup == g
    {
      if g != gid {
        var u :| u in reg.users && reg.users[u].personalGroup == g;
        assert after.users[u].personalGroup == g;
      }
    }
  }

  lemma AddUserNames(reg: Registry, uid: nat, gid: nat, name: string)
    requires UniqueUserNames(reg) && UniqueGroupNames(reg)
    requires uid !in reg.users && gid !in reg.groups
    requires name !in UserNames(reg) && name !in GroupNames(reg)
    ensures UniqueUserNames(AddUser(reg, uid, gid, name)) && UniqueGroupNames(AddUser(reg, uid, gid, name))
  {
  }

  lemma AddUserValid(reg: Registry, uid: nat, gid: nat, name: string)
    requires Valid(reg)
    requires uid !in reg.users && gid !in reg.groups
    requires name !in UserNames(reg) && name !in GroupNames(reg)
    ensures Valid(AddUser(reg, uid, gid, name))
  {
    var after := AddUser(reg, uid, gid, name);
    AddUserPersonalGroups(reg, uid, gid, name);
    AddUserNames(reg, uid, gid, name);
    var a :| a in reg.users && reg.users[a].isAdmin;
    assert after.users[a].isAdmin;
  }

  lemma CreateUserValid(reg: Registry, name: string, password: string, isComplex: string -> bool)
    requires Valid(reg)
    requires CreateUser(reg, name, password, isComplex).Ok?
    ensures Valid(CreateUser(reg, name, password, isComplex).value.0)
  {
    AddUserValid(reg, NextId(reg.users.Keys), NextId(reg.groups.Keys), name);
  }

  /**
   * A newly added user, seen through the API: neither admin nor two-factor,
   * a member of their personal group and of nothing else, and the personal
   * group's only member.
   */
  lemma AddedUserView(reg: Registry, uid: nat, gid: nat, name: string)
    requires MembershipsExist(reg)
    requires uid !in reg.users && gid !in reg.groups
    ensures var after := AddUser(reg, uid, gid, name);
            && GetUser(after, uid) == Ok(UserView(uid, name, false, false, false, {(gid, name)}, gid))
            && GroupMembers(after, gid) == Ok({(uid, name)})
            && UserGroups(after, uid) == Ok({})
  {
    var after := AddUser(reg, uid, gid, name);
    assert (uid, gid) in after.memberships;
    forall p | p in reg.memberships ensures p.0 != uid && p.1 != gid {
      assert p.0 in reg.users && p.1 in reg.groups;
    }
    assert GroupsOf(after, uid) == {(gid, name)};
    assert GroupMembers(after, gid).value == {(uid, name)};
    assert UserGroups(after, uid).value == {} by {
      forall p | p in after.memberships && p.0 == uid && p.1 in after.groups
        ensures after.groups[p.1].isUserGroup
      { }
    }
  }

  /** What `GET /admin/users/<id>` shows of a user just created. */
  lemma CreatedUserView(reg: Registry, name: string, password: string, isComplex: string -> bool)
    requires Valid(reg)
    requires CreateUser(reg, name, password, isComplex).Ok?
    ensures var (after, uid) := CreateUser(reg, name, password, isComplex).value;
            var gid := NextId(reg.groups.Keys);
            && GetUser(after, uid) == Ok(UserView(uid, name, false, false, false, {(gid, name)}, gid))
            && GroupMembers(after, gid) == Ok({(uid, name)})
            && UserGroups(after, uid) == Ok({})
  {
    AddedUserView(reg, NextId(reg.users.Keys), NextId(reg.groups.Keys), name);
  }

  /** On a fresh registry the first user created gets id 2 and personal group 2. */
  lemma FirstUserIds(adminName: string, name: string, password: string, isComplex: string -> bool)
    requires CreateUser(Initial(adminName), name, password, isComplex).Ok?
    ensures var (after, uid) := CreateUser(Initial(adminName), name, password, isComplex).value;
            uid == 2 && GetUser(after, uid).value.groupId == 2
  {
    var reg := Initial(adminName);
    assert reg.users.Keys == {1} && reg.groups.Keys == {1};
    assert NextId({1}) == 2;
  }

  /** The fields `PATCH /admin/users/<id>` may carry; an absent field is left as it is. */
  datatype UserEdit = UserEdit(name: Option<string>, password: Option<string>, isAdmin: Option<bool>,
                               hasTwoFactor: Option<bool>, requireTwoFactor: Option<bool>)

  /** The edit that only sets the admin flag. */
  function SetAdmin(b: bool): (e: UserEdit)
    ensures e.isAdmin == Some(b) && e.name.None? && e.password.None?
  {
    UserEdit(None, None, Some(b), None, None)
  }

  /** A user with an accepted edit applied: two-factor can be switched off, not on, and the personal group stays. */
  function EditedUser(u: User, edit: UserEdit): User {
    User(edit.name.GetOr(u.name),
         edit.isAdmin.GetOr(u.isAdmin),
         if edit.hasTwoFactor == Some(false) then false else u.hasTwoFactor,
         edit.requireTwoFactor.GetOr(u.requireTwoFactor),
         u.personalGroup)
  }

  function ReplaceUser(reg: Registry, uid: nat, u: User): Registry {
    reg.(users := reg.users[uid := u])
  }

  /**
   * `PATCH /admin/users/<id>`: a new name must be non-empty and not another
   * user's, a new password complex enough, and the only admin keeps their
   * admin rights. Switching two-factor off is accepted for a user without
   * it. The personal group keeps its name.
   */
  function EditUser(reg: Registry, uid: nat, edit: UserEdit, isComplex: string -> bool): (r: Result<Registry, ApiError>)
    ensures uid !in reg.users ==> r == Err(NotFound)
    ensures uid in reg.users && edit.name == Some("") ==> r == Err(UsernameTooShort)
    ensures (&& uid in reg.users && edit.name.Some? && edit.name.value != ""
             && edit.name.value != reg.users[uid].name && edit.name.value in UserNames(reg))
            ==> r == Err(UsernameExists)
    ensures uid in reg.users && edit.name.None? && edit.password.Some? && !isComplex(edit.password.value)
            ==> r == Err(PasswordNotComplex)
    ensures (&& uid in reg.users && edit.name.None? && edit.password.None?
             && edit.isAdmin == Some(false) && IsOnlyAdmin(reg, uid))
            ==> r == Err(WouldLeaveNoAdmins)
    ensures uid in reg.users ==>
              (r.Err? <==> || edit.name == Some("")
                           || (edit.name.Some? && edit.name.value != reg.users[uid].name && edit.name.value in UserNames(reg))
                           || (edit.password.Some? && !isComplex(edit.password.value))
                           || (edit.isAdmin == Some(false) && IsOnlyAdmin(reg, uid)))
    ensures r.Ok? ==> && r.value.groups == reg.groups && r.value.memberships == reg.memberships
                      && r.value.users.Keys == reg.users.Keys
                      && (forall v :: v in reg.users && v != uid ==> r.value.users[v] == reg.users[v])
                      && r.value.users[uid].personalGroup == reg.users[uid].personalGroup
    ensures r.Ok? && edit.name.Some? ==> r.value.users[uid].name == edit.name.value
    ensures r.Ok? && edit.isAdmin.Some? ==> r.value.users[uid].isAdmin == edit.isAdmin.value
    ensures r.Ok? && edit.hasTwoFactor == Some(false) ==> !r.value.users[uid].hasTwoFactor
  {
    if uid !in reg.users then Err(NotFound)
    else
      var u := reg.users[uid];
      if edit.name == Some("") then Err(UsernameTooShort)
      else if edit.name.Some? && edit.name.value != u.name && edit.name.value in UserNames(reg) then Err(UsernameExists)
      else if edit.password.Some? && !isComplex(edit.password.value) then Err(PasswordNotComplex)
      else if edit.isAdmin == Some(false) && IsOnlyAdmin(reg, uid) then Err(WouldLeaveNoAdmins)
      else Ok(ReplaceUser(reg, uid, EditedUser(u, edit)))
  }

  lemma ReplaceUserPersonalGroups(reg: Registry, uid: nat, u: User)
    requires PersonalGroupsExist(reg) && PersonalGroupsOwned(reg)
    requires uid in reg.users && u.personalGroup == reg.users[uid].personalGroup
    ensures PersonalGroupsExist(ReplaceUser(reg, uid, u)) && PersonalGroupsOwned(ReplaceUser(reg, uid, u))
  {
    var after := ReplaceUser(reg, uid, u);
    forall g | g in after.groups && after.groups[g].isUserGroup
      ensures exists v :: v in after.users && after.users[v].personalGroup == g
    {
      var v :| v in reg.users && reg.users[v].personalGroup == g;
      assert after.users[v].personalGroup == g;
    }
  }

  lemma ReplaceUserGroups(reg: Registry, uid: nat, u: User)
    requires UniqueGroupNames(reg) && MembershipsExist(reg)
    requires uid in reg.users
    ensures UniqueGroupNames(ReplaceUser(reg, uid, u)) && MembershipsExist(ReplaceUser(reg, uid, u))
  {
  }

  lemma ReplaceUserNames(reg: Registry, uid: nat, u: User)
    requires UniqueUserNames(reg)
    requires uid in reg.users && (u.name == reg.users[uid].name || u.name !in UserNames(reg))
    ensures UniqueUserNames(ReplaceUser(reg, uid, u))
  {
    var after := ReplaceUser(reg, uid, u);
    forall w | w in reg.users && w != uid
      ensures reg.users[w].name != u.name || u.name == reg.users[uid].name
    {
      assert reg.users[w].name in UserNames(reg);
    }
    forall v, w | v in after.users && w in after.users && after.users[v].name == after.users[w].name
      ensures v == w
    {
      if (v != uid && w != uid) || u.name == reg.users[uid].name {
        assert reg.users[v].name == reg.users[w].name;
      }
    }
  }

  lemma ReplaceUserAdmin(reg: Registry, uid: nat, u: User)
    requires SomeAdmin(reg)
    requires uid in reg.users && (u.isAdmin || !IsOnlyAdmin(reg, uid))
    ensures SomeAdmin(ReplaceUser(reg, uid, u))
  {
    var after := ReplaceUser(reg, uid, u);
    if u.isAdmin {
      assert after.users[uid].isAdmin;
    } else {
      var a :| a in reg.users && reg.users[a].isAdmin;
      if a == uid {
        var b :| b in reg.users && b != uid && reg.users[b].isAdmin;
        assert after.users[b].isAdmin;
      } else {
        assert after.users[a].isAdmin;
      }
    }
  }

  lemma EditUserValid(reg: Registry, uid: nat, edit: UserEdit, isComplex: string -> bool)
    requires Valid(reg)
    requires EditUser(reg, uid, edit, isComplex).Ok?
    ensures Valid(EditUser(reg, uid, edit, isComplex).value)
  {
    var u := EditedUser(reg.users[uid], edit);
    assert EditUser(reg, uid, edit, isComplex) == Ok(ReplaceUser(reg, uid, u));
    assert !(edit.name.Some? && edit.name.value != reg.users[uid].name && edit.name.value in UserNames(reg));
    assert !(edit.isAdmin == Some(false) && IsOnlyAdmin(reg, uid));
    ReplaceUserValid(reg, uid, u);
  }

  lemma ReplaceUserValid(reg: Registry, uid: nat, u: User)
    requires Valid(reg)
    requires uid in reg.users && u.personalGroup == reg.users[uid].personalGroup
    requires u.name == reg.users[uid].name || u.name !in UserNames(reg)
    requires u.isAdmin || !IsOnlyAdmin(reg, uid)
    ensures Valid(ReplaceUser(reg, uid, u))
  {
    ReplaceUserPersonalGroups(reg, uid, u);
    ReplaceUserNames(reg, uid, u);
    ReplaceUserAdmin(reg, uid, u);
    ReplaceUserGroups(reg, uid, u);
  }

  /** Renaming a user leaves their personal group, and its name, as they were. */
  lemma RenameKeepsPersonalGroup(reg: Registry, uid: nat, newName: string, isComplex: string -> bool)
    requires Valid(reg)
    requires EditUser(reg, uid, UserEdit(Some(newName), None, None, None, None), isComplex).Ok?
    ensures var after := EditUser(reg, uid, UserEdit(Some(newName), None, None, None, None), isComplex).value;
            && GetUser(after, uid).value.name == newName
            && UserGroup(after, uid) == UserGroup(reg, uid)
            && GetUser(after, uid).value.groups == GetUser(reg, uid).value.groups
  {
  }

  /** The registry without a user, their personal group, and every membership of either. */
  function RemoveUser(reg: Registry, uid: nat): Registry
    requires uid in reg.users
  {
    var gid := reg.users[uid].personalGroup;
    Registry(reg.users - {uid}, reg.groups - {gid}, set p | p in reg.memberships && p.0 != uid && p.1 != gid)
  }

  /**
   * `DELETE /admin/users/<id>`: the only admin cannot be deleted; any other
   * user goes, with their personal group and every membership of either.
   */
  function DeleteUser(reg: Registry, uid: nat): (r: Result<Registry, ApiError>)
    ensures uid !in reg.users ==> r == Err(NotFound)
    ensures uid in reg.users ==> (r.Err? <==> IsOnlyAdmin(reg, uid))
    ensures r.Ok? ==> && r.value.users.Keys == reg.users.Keys - {uid}
                      && r.value.groups.Keys == reg.groups.Keys - {reg.users[uid].personalGroup}
                      && (forall v :: v in r.value.users ==> r.value.users[v] == reg.users[v])
                      && (forall g :: g in r.value.groups ==> r.value.groups[g] == reg.groups[g])
                      && (forall p :: p in r.value.memberships <==>
                            p in reg.memberships && p.0 != uid && p.1 != reg.users[uid].personalGroup)
  {
    if uid !in reg.users then Err(NotFound)
    else if IsOnlyAdmin(reg, uid) then Err(CannotDeleteOnlyAdmin)
    else Ok(RemoveUser(reg, uid))
  }

  lemma RemoveUserPersonalGroups(reg: Registry, uid: nat)
    requires PersonalGroupsExist(reg) && PersonalGroupsOwned(reg)
    requires uid in reg.users
    ensures PersonalGroupsExist(RemoveUser(reg, uid)) && PersonalGroupsOwned(RemoveUser(reg, uid))
  {
    var after := RemoveUser(reg, uid);
    var gid := reg.users[uid].personalGroup;
    forall g | g in after.groups && after.groups[g].isUserGroup
      ensures exists u :: u in after.users && after.users[u].personalGroup == g
    {
      var u :| u in reg.users && reg.users[u].personalGroup == g;
      assert u != uid;
      assert after.users[u].personalGroup == g;
    }
    forall v | v in after.users
      ensures after.users[v].personalGroup in after.groups
    {
      assert reg.users[v].personalGroup != gid;
    }
  }

  lemma RemoveUserNames(reg: Registry, uid: nat)
    requires UniqueUserNames(reg) && UniqueGroupNames(reg) && MembershipsExist(reg)
    requires uid in reg.users
    ensures UniqueUserNames(RemoveUser(reg, uid)) && UniqueGroupNames(RemoveUser(reg, uid))
    ensures MembershipsExist(RemoveUser(reg, uid))
  {
  }

  lemma RemoveUserAdmin(reg: Registry, uid: nat)
    requires SomeAdmin(reg)
    requires uid in reg.users && !IsOnlyAdmin(reg, uid)
    ensures SomeAdmin(RemoveUser(reg, uid))
  {
    var a :| a in reg.users && reg.users[a].isAdmin && a != uid;
    assert RemoveUser(reg, uid).users[a].isAdmin;
  }

  lemma RemoveUserValid(reg: Registry, uid: nat)
    requires Valid(reg)
    requires uid in reg.users && !IsOnlyAdmin(reg, uid)
    ensures Valid(RemoveUser(reg, uid))
  {
    RemoveUserPersonalGroups(reg, uid);
    RemoveUserNames(reg, uid);
    RemoveUserAdmin(reg, uid);
  }

  lemma DeleteUserValid(reg: Registry, uid: nat)
    requires Valid(reg)
    requires DeleteUser(reg, uid).Ok?
    ensures Valid(DeleteUser(reg, uid).value)
  {
    RemoveUserValid(reg, uid);
  }

  /** The only admin survives an attempt to delete them or take their rights away. */
  lemma OnlyAdminProtected(reg: Registry, uid: nat, isComplex: string -> bool)
    requires uid in reg.users && IsOnlyAdmin(reg, uid)
    ensures DeleteUser(reg, uid) == Err(CannotDeleteOnlyAdmin)
    ensures EditUser(reg, uid, SetAdmin(false), isComplex) == Err(WouldLeaveNoAdmins)
    ensures GetUser(reg, uid).Ok? && GetUser(reg, uid).value.isAdmin
  {
  }

  /** Removing a user just added gives back the registry as it was. */
  lemma RemoveAddedUser(reg: Registry, uid: nat, gid: nat, name: string)
    requires MembershipsExist(reg)
    requires uid !in reg.users && gid !in reg.groups
    ensures RemoveUser(AddUser(reg, uid, gid, name), uid) == reg
  {
    var r := RemoveUser(AddUser(reg, uid, gid, name), uid);
    assert r.users == reg.users;
    assert r.groups == reg.groups;
    forall p ensures p in r.memberships <==> p in reg.memberships {
      if p in reg.memberships {
        assert p.0 in reg.users && p.1 in reg.groups;
      }
    }
  }

  /**
   * Deleting a user just created gives back the registry as it was before,
   * so the same name can be created again and gets the same ids.
   */
  lemma CreateThenDelete(reg: Registry, name: string, password: string, isComplex: string -> bool)
    requires Valid(reg)
    requires CreateUser(reg, name, password, isComplex).Ok?
    ensures var (after, uid) := CreateUser(reg, name, password, isComplex).value;
            DeleteUser(after, uid) == Ok(reg)
  {
    var uid, gid := NextId(reg.users.Keys), NextId(reg.groups.Keys);
    var after := AddUser(reg, uid, gid, name);
    assert CreateUser(reg, name, password, isComplex) == Ok((after, uid));
    var a :| a in reg.users && reg.users[a].isAdmin;
    assert a != uid && after.users[a].isAdmin;
    assert !IsOnlyAdmin(after, uid);
    RemoveAddedUser(reg, uid, gid, name);
  }

  /** After a user is deleted, creating them again succeeds exactly as the first creation did. */
  lemma ReAddDeletedUser(reg: Registry, name: string, password: string, isComplex: string -> bool)
    requires Valid(reg)
    requires CreateUser(reg, name, password, isComplex).Ok?
    ensures var (after, uid) := CreateUser(reg, name, password, isComplex).value;
            && DeleteUser(after, uid).Ok?
            && GetUser(DeleteUser(after, uid).value, uid).Err?
            && CreateUser(DeleteUser(after, uid).value, name, password, isComplex) == CreateUser(reg, name, password, isComplex)
  {
    CreateThenDelete(reg, name, password, isComplex);
  }

  // ---------------------------------------------------------------------
  // Groups
  // ---------------------------------------------------------------------

  /** `POST /admin/groups`: a new group under an unused name, with no members. */
  function CreateGroup(reg: Registry, name: string): (r: Result<(Registry, nat), ApiError>)
    ensures r.Err? <==> name in GroupNames(reg)
    ensures r.Err? ==> r.error == GroupNameExists
    ensures r.Ok? ==> var (after, gid) := r.value;
                      && gid !in reg.groups && gid == NextId(reg.groups.Keys)
                      && after.groups.Keys == reg.groups.Keys + {gid}
                      && after.users == reg.users && after.memberships == reg.memberships
                      && (forall g :: g in reg.groups ==> after.groups[g] == reg.groups[g])
  {
    if name in GroupNames(reg) then Err(GroupNameExists)
    else
      var gid := NextId(reg.groups.Keys);
      Ok((reg.(groups := reg.groups[gid := Group(name, false)]), gid))
  }

  lemma CreateGroupValid(reg: Registry, name: string)
    requires Valid(reg)
    requires CreateGroup(reg, name).Ok?
    ensures Valid(CreateGroup(reg, name).value.0)
  {
  }

  /** A created group is listed under its name, has no members, and is not a personal group. */
  lemma CreatedGroupView(reg: Registry, name: string)
    requires Valid(reg)
    requires CreateGroup(reg, name).Ok?
    ensures var (after, gid) := CreateGroup(reg, name).value;
            && (gid, name) in ListGroups(after)
            && GroupMembers(after, gid) == Ok({})
  {
    var (after, gid) := CreateGroup(reg, name).value;
    assert GroupMembers(after, gid).value == {} by {
      forall p | p in after.memberships ensures p.1 != gid {
        assert p.1 in reg.groups;
      }
    }
  }

  /** `PATCH /admin/groups/<id>`: rename a group, to a name no other group has. */
  function EditGroup(reg: Registry, gid: nat, name: string): (r: Result<Registry, ApiError>)
    ensures gid !in reg.groups ==> r == Err(NotFound)
    ensures gid in reg.groups ==> (r.Err? <==> name != reg.groups[gid].name && name in GroupNames(reg))
    ensures r.Ok? ==> && r.value.users == reg.users && r.value.memberships == reg.memberships
                      && r.value.groups.Keys == reg.groups.Keys
                      && r.value.groups[gid] == reg.groups[gid].(name := name)
                      && (forall g :: g in reg.groups && g != gid ==> r.value.groups[g] == reg.groups[g])
  {
    if gid !in reg.groups then Err(NotFound)
    else if name != reg.groups[gid].name && name in GroupNames(reg) then Err(GroupNameExists)
    else Ok(reg.(groups := reg.groups[gid := reg.groups[gid].(name := name)]))
  }

  lemma EditGroupValid(reg: Registry, gid: nat, name: string)
    requires Valid(reg)
    requires EditGroup(reg, gid, name).Ok?
    ensures Valid(EditGroup(reg, gid, name).value)
  {
    var after := EditGroup(reg, gid, name).value;
    forall g, h | g in after.groups && h in after.groups && after.groups[g].name == after.groups[h].name
      ensures g == h
    {
      if g != gid && h != gid {
        assert reg.groups[g].name == reg.groups[h].name;
      } else if name == reg.groups[gid].name {
        assert reg.groups[g].name == reg.groups[h].name;
      } else {
        assert name !in GroupNames(reg);
      }
    }
    forall g | g in after.groups && after.groups[g].isUserGroup
      ensures exists u :: u in after.users && after.users[u].personalGroup == g
    {
      assert reg.groups[g].isUserGroup;
    }
  }

  /**
   * `DELETE /admin/groups/<id>`: a group other than a personal one goes,
   * with its memberships.
   */
  function DeleteGroup(reg: Registry, gid: nat): (r: Result<Registry, ApiError>)
    ensures gid !in reg.groups ==> r == Err(NotFound)
    ensures gid in reg.groups ==> (r.Err? <==> reg.groups[gid].isUserGroup)
    ensures r.Ok? ==> && r.value.users == reg.users
                      && r.value.groups.Keys == reg.groups.Keys - {gid}
                      && (forall g :: g in r.value.groups ==> r.value.groups[g] == reg.groups[g])
                      && (forall p :: p in r.value.memberships <==> p in reg.memberships && p.1 != gid)
  {
    if gid !in reg.groups then Err(NotFound)
    else if reg.groups[gid].isUserGroup then Err(PersonalGroupNotDeletable)
    else Ok(Registry(reg.users, reg.groups - {gid}, set p | p in reg.memberships && p.1 != gid))
  }

  lemma DeleteGroupValid(reg: Registry, gid: nat)
    requires Valid(reg)
    requires DeleteGroup(reg, gid).Ok?
    ensures Valid(DeleteGroup(reg, gid).value)
    ensures GroupMembers(DeleteGroup(reg, gid).value, gid) == Err(NotFound)
  {
    var after := DeleteGroup(reg, gid).value;
    forall v | v in after.users
      ensures after.users[v].personalGroup in after.groups
    {
      assert reg.groups[reg.users[v].personalGroup].isUserGroup;
    }
  }

  // ---------------------------------------------------------------------
  // Membership
  // ---------------------------------------------------------------------

  /**
   * `PATCH /admin/groups/<id>/members`: the group's members become exactly
   * the users given; an unknown group or user is not found.
   */
  function SetGroupMembers(reg: Registry, gid: nat, members: set<nat>): (r: Result<Registry, ApiError>)
    ensures r.Err? <==> gid !in reg.groups || !(members <= reg.users.Keys)
    ensures r.Ok? ==> && r.value.users == reg.users && r.value.groups == reg.groups
                      && (forall u, g :: (u, g) in r.value.memberships <==>
                            if g == gid then u in members else (u, g) in reg.memberships)
  {
    if gid !in reg.groups || !(members <= reg.users.Keys) then Err(NotFound)
    else
      Ok(reg.(memberships := (set p | p in reg.memberships && p.1 != gid) + (set u | u in members :: (u, gid))))
  }

  /** Setting a group's members shows on both sides: in the group's member list and in each user's groups. */
  lemma SetGroupMembersBothSides(reg: Registry, gid: nat, members: set<nat>, uid: nat)
    requires Valid(reg)
    requires SetGroupMembers(reg, gid, members).Ok?
    requires uid in reg.users
    ensures var after := SetGroupMembers(reg, gid, members).value;
            && Valid(after)
            && (forall u, n :: (u, n) in GroupMembers(after, gid).value <==> u in members && reg.users[u].name == n)
            && (!reg.groups[gid].isUserGroup ==>
                  ((gid, reg.groups[gid].name) in UserGroups(after, uid).value <==> uid in members))
  {
  }

  /** Setting no members empties the group, and no user lists it any more. */
  lemma ClearGroupMembers(reg: Registry, gid: nat, uid: nat)
    requires Valid(reg)
    requires gid in reg.groups && uid in reg.users
    ensures var after := SetGroupMembers(reg, gid, {}).value;
            && GroupMembers(after, gid) == Ok({})
            && forall g, n :: (g, n) in UserGroups(after, uid).value ==> g != gid
  {
    var after := SetGroupMembers(reg, gid, {}).value;
    assert GroupMembers(after, gid).value == {} by {
      forall p | p in after.memberships ensures p.1 != gid { }
    }
  }

  /**
   * `PATCH /admin/users/<id>/groups`: the user's memberships of groups other
   * than personal ones become exactly the groups given; their memberships
   * of personal groups stay; an unknown user or group is not found.
   */
  function SetUserGroups(reg: Registry, uid: nat, groups: set<nat>): (r: Result<Registry, ApiError>)
    ensures r.Err? <==> uid !in reg.users || !(groups <= reg.groups.Keys)
    ensures r.Ok? ==> && r.value.users == reg.users && r.value.groups == reg.groups
                      && (forall u, g :: (u, g) in r.value.memberships <==>
                            if u == uid && g in reg.groups && !reg.groups[g].isUserGroup then g in groups
                            else (u, g) in reg.memberships || (u == uid && g in groups))
  {
    if uid !in reg.users || !(groups <= reg.groups.Keys) then Err(NotFound)
    else
      var kept := set p | p in reg.memberships && (p.0 != uid || p.1 !in reg.groups || reg.groups[p.1].isUserGroup);
      Ok(reg.(memberships := kept + (set g | g in groups :: (uid, g))))
  }

  /** Setting a user's groups shows on both sides: in the user's group list and in each group's members. */
  lemma SetUserGroupsBothSides(reg: Registry, uid: nat, groups: set<nat>, gid: nat)
    requires Valid(reg)
    requires SetUserGroups(reg, uid, groups).Ok?
    requires gid in reg.groups && !reg.groups[gid].isUserGroup
    ensures var after := SetUserGroups(reg, uid, groups).value;
            && Valid(after)
            && ((gid, reg.groups[gid].name) in UserGroups(after, uid).value <==> gid in groups)
            && ((uid, reg.users[uid].name) in GroupMembers(after, gid).value <==> gid in groups)
  {
  }

  /** Setting no groups leaves the user in no group but personal ones. */
  lemma ClearUserGroups(reg: Registry, uid: nat)
    requires Valid(reg)
    requires uid in reg.users
    ensures UserGroups(SetUserGroups(reg, uid, {}).value, uid) == Ok({})
  {
    var after := SetUserGroups(reg, uid, {}).value;
    assert UserGroups(after, uid).value == {} by {
      forall p | p in after.memberships && p.0 == uid && p.1 in after.groups
        ensures after.groups[p.1].isUserGroup
      { }
    }
  }
}
