/** The user service: looking users up, and role membership as group names
    attached to users. */
module Users {
  import opened Wrappers
  import opened Models

  type GroupName = string

  const AssetUserGroup: GroupName := "Asset User"
  const AssetModeratorGroup: GroupName := "Asset Moderator"
  const AssetAdminGroup: GroupName := "Asset Admin"

  /** The groups that exist, and which groups each user belongs to. */
  datatype Directory = Directory(groups: set<GroupName>, members: map<UserId, set<GroupName>>)

  datatype GroupError = NoSuchGroup(name: GroupName)

  /** The group names of a user (none for a user without memberships). */
  function GroupsOf(d: Directory, u: UserId): set<GroupName> {
    if u in d.members then d.members[u] else {}
  }

  /** `get_user_by_id`: the user with that id, or nothing (the source returns
      the text "User not found"). */
  function GetUserById(users: seq<User>, id: UserId): (r: Option<User>)
    ensures r.Some? <==> exists k :: 0 <= k < |users| && users[k].id == id
    ensures r.Some? ==> r.value.id == id && r.value in users
  {
    if |users| == 0 then None
    else if users[0].id == id then Some(users[0])
    else
      var r := GetUserById(users[1..], id);
      assert forall k :: 1 <= k < |users| ==> users[k] == users[1..][k - 1];
      r
  }

  /** `is_user_in_group`. */
  predicate IsUserInGroup(d: Directory, u: UserId, g: GroupName) {
    g in GroupsOf(d, u)
  }

  /** `add_user_to_group`: the group must exist; afterwards the user is in it
      and nothing else changes. */
  function AddUserToGroup(d: Directory, u: UserId, g: GroupName): (r: Result<Directory, GroupError>)
    ensures r.Success? <==> g in d.groups
    ensures r.Failure? ==> r.error == NoSuchGroup(g)
    ensures r.Success? ==> r.value.groups == d.groups
    ensures r.Success? ==> IsUserInGroup(r.value, u, g)
    ensures r.Success? ==> GroupsOf(r.value, u) - {g} == GroupsOf(d, u) - {g}
    ensures r.Success? ==> forall v :: v != u ==> GroupsOf(r.value, v) == GroupsOf(d, v)
  {
    if g !in d.groups then Failure(NoSuchGroup(g))
    else Success(d.(members := d.members[u := GroupsOf(d, u) + {g}]))
  }

  /** `remove_user_from_group`: the group must exist; afterwards the user is
      not in it and nothing else changes. */
  function RemoveUserFromGroup(d: Directory, u: UserId, g: GroupName): (r: Result<Directory, GroupError>)
    ensures r.Success? <==> g in d.groups
    ensures r.Failure? ==> r.error == NoSuchGroup(g)
    ensures r.Success? ==> r.value.groups == d.groups
    ensures r.Success? ==> !IsUserInGroup(r.value, u, g)
    ensures r.Success? ==> GroupsOf(r.value, u) - {g} == GroupsOf(d, u) - {g}
    ensures r.Success? ==> forall v :: v != u ==> GroupsOf(r.value, v) == GroupsOf(d, v)
  {
    if g !in d.groups then Failure(NoSuchGroup(g))
    else Success(d.(members := d.members[u := GroupsOf(d, u) - {g}]))
  }

  /** The directory after a promotion, and the error that stopped it, if
      any. Each membership change is written as soon as it is made, so a
      promotion stopped by its second step keeps its first. */
  datatype Promotion = Promotion(directory: Directory, error: Option<GroupError>)

  /** Join the role group, then leave "Asset User"; the first missing group
      stops the promotion, and whatever was written before it stays. */
  function Promote(d: Directory, u: UserId, role: GroupName): (r: Promotion)
    ensures r.directory.groups == d.groups
  {
    match AddUserToGroup(d, u, role)
    case Failure(e) => Promotion(d, Some(e))
    case Success(d1) =>
      match RemoveUserFromGroup(d1, u, AssetUserGroup)
      case Failure(e) => Promotion(d1, Some(e))
      case Success(d2) => Promotion(d2, None)
  }

  /** `make_user_mod`: join "Asset Moderator", then leave "Asset User". */
  function MakeUserMod(d: Directory, u: UserId): (r: Promotion)
    ensures r.directory.groups == d.groups
  {
    Promote(d, u, AssetModeratorGroup)
  }

  /** `make_user_admin`: join "Asset Admin", then leave "Asset User". */
  function MakeUserAdmin(d: Directory, u: UserId): (r: Promotion)
    ensures r.directory.groups == d.groups
  {
    Promote(d, u, AssetAdminGroup)
  }

  /** The two role groups involved exist exactly when promotion succeeds. */
  predicate RoleGroupsExist(d: Directory, role: GroupName) {
    role in d.groups && AssetUserGroup in d.groups
  }

  /** What a promotion does to the user's memberships: with both groups
      present they end in the role group and out of "Asset User"; with the
      role group missing nothing is written; with only "Asset User" missing
      the role group is joined all the same and the error names "Asset
      User". Every other user is untouched either way. */
  lemma PromoteEffect(d: Directory, u: UserId, role: GroupName)
    ensures var r := Promote(d, u, role);
            && (r.error.None? <==> RoleGroupsExist(d, role))
            && (role !in d.groups ==> r == Promotion(d, Some(NoSuchGroup(role))))
            && (role in d.groups && AssetUserGroup !in d.groups ==>
                  r.error == Some(NoSuchGroup(AssetUserGroup))
                  && GroupsOf(r.directory, u) == GroupsOf(d, u) + {role})
            && (RoleGroupsExist(d, role) ==>
                  GroupsOf(r.directory, u) == (GroupsOf(d, u) + {role}) - {AssetUserGroup})
            && (forall v :: v != u ==> GroupsOf(r.directory, v) == GroupsOf(d, v))
  {
    var a := AddUserToGroup(d, u, role);
    if a.Success? {
      assert GroupsOf(a.value, u) == GroupsOf(d, u) + {role};
      if AssetUserGroup in d.groups {
        var r := RemoveUserFromGroup(a.value, u, AssetUserGroup);
        assert GroupsOf(r.value, u) == (GroupsOf(d, u) + {role}) - {AssetUserGroup};
      }
    }
  }

  /** Promotion to moderator: the user ends in "Asset Moderator" and out of
      "Asset User"; every other membership of theirs ("Asset Admin" among
      them) and every other user are untouched. Without "Asset User" the
      moderator membership is written and an error reported. */
  lemma MakeUserModEffect(d: Directory, u: UserId)
    ensures MakeUserMod(d, u).error.None? <==> RoleGroupsExist(d, AssetModeratorGroup)
    ensures var r := MakeUserMod(d, u);
            r.error.None? ==>
              && GroupsOf(r.directory, u) == (GroupsOf(d, u) + {AssetModeratorGroup}) - {AssetUserGroup}
              && (forall v :: v != u ==> GroupsOf(r.directory, v) == GroupsOf(d, v))
    ensures AssetModeratorGroup in d.groups && AssetUserGroup !in d.groups ==>
              MakeUserMod(d, u).error == Some(NoSuchGroup(AssetUserGroup))
              && IsUserInGroup(MakeUserMod(d, u).directory, u, AssetModeratorGroup)
  {
    PromoteEffect(d, u, AssetModeratorGroup);
  }

  /** Promotion to admin: the user ends in "Asset Admin" and out of "Asset
      User"; every other membership and every other user are untouched.
      Without "Asset User" the admin membership is written and an error
      reported. */
  lemma MakeUserAdminEffect(d: Directory, u: UserId)
    ensures MakeUserAdmin(d, u).error.None? <==> RoleGroupsExist(d, AssetAdminGroup)
    ensures var r := MakeUserAdmin(d, u);
            r.error.None? ==>
              && GroupsOf(r.directory, u) == (GroupsOf(d, u) + {AssetAdminGroup}) - {AssetUserGroup}
              && (forall v :: v != u ==> GroupsOf(r.directory, v) == GroupsOf(d, v))
    ensures AssetAdminGroup in d.groups && AssetUserGroup !in d.groups ==>
              MakeUserAdmin(d, u).error == Some(NoSuchGroup(AssetUserGroup))
              && IsUserInGroup(MakeUserAdmin(d, u).directory, u, AssetAdminGroup)
  {
    PromoteEffect(d, u, AssetAdminGroup);
  }

  /** Removing a group the user had just been added to, and did not have
      before, restores every user's memberships. */
  lemma AddThenRemoveRestores(d: Directory, u: UserId, g: GroupName)
    requires g in d.groups && !IsUserInGroup(d, u, g)
    ensures var a := AddUserToGroup(d, u, g);
            && a.Success?
            && RemoveUserFromGroup(a.value, u, g).Success?
            && forall v :: GroupsOf(RemoveUserFromGroup(a.value, u, g).value, v) == GroupsOf(d, v)
  {
    var a := AddUserToGroup(d, u, g);
    var r := RemoveUserFromGroup(a.value, u, g);
    assert GroupsOf(r.value, u) == GroupsOf(d, u);
  }

  /** The post-save hook for a newly created user: join "Asset User". */
  function OnUserCreated(d: Directory, u: UserId): (r: Result<Directory, GroupError>) {
    AddUserToGroup(d, u, AssetUserGroup)
  }

  /** A fresh user, who has no memberships yet, ends up in exactly
      {"Asset User"}. */
  lemma NewUserIsAssetUser(d: Directory, u: UserId)
    requires AssetUserGroup in d.groups && GroupsOf(d, u) == {}
    ensures OnUserCreated(d, u).Success?
    ensures GroupsOf(OnUserCreated(d, u).value, u) == {AssetUserGroup}
  {
    var r := OnUserCreated(d, u);
    assert GroupsOf(r.value, u) - {AssetUserGroup} == {};
  }
}
