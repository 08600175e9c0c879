/** The role predicates of the permission classes. Each looks only at the
    requesting user's group names. */
module Permissions {
  import opened Models
  import opened Users

  /** `IsAssetAdmin`. */
  predicate IsAssetAdmin(groups: set<GroupName>) {
    AssetAdminGroup in groups
  }

  /** `IsAssetNormalUser`. */
  predicate IsAssetNormalUser(groups: set<GroupName>) {
    AssetUserGroup in groups
  }

  /** `IsAssetModerator`. */
  predicate IsAssetModerator(groups: set<GroupName>) {
    AssetModeratorGroup in groups
  }

  /** The roles are not mutually exclusive: one user may hold all three, and
      a user may hold none. */
  lemma RolesOverlap()
    ensures var all := {AssetUserGroup, AssetModeratorGroup, AssetAdminGroup};
            IsAssetAdmin(all) && IsAssetNormalUser(all) && IsAssetModerator(all)
    ensures !IsAssetAdmin({}) && !IsAssetNormalUser({}) && !IsAssetModerator({})
  {
  }

  /** After promotion to moderator the user is a moderator and no longer a
      normal user; whether they are an admin is unchanged. */
  lemma PromotionToModerator(d: Directory, u: UserId)
    requires MakeUserMod(d, u).error.None?
    ensures var g := GroupsOf(MakeUserMod(d, u).directory, u);
            IsAssetModerator(g) && !IsAssetNormalUser(g)
            && (IsAssetAdmin(g) <==> IsAssetAdmin(GroupsOf(d, u)))
  {
    MakeUserModEffect(d, u);
  }

  /** After promotion to admin the user is an admin and no longer a normal
      user; whether they are a moderator is unchanged. */
  lemma PromotionToAdmin(d: Directory, u: UserId)
    requires MakeUserAdmin(d, u).error.None?
    ensures var g := GroupsOf(MakeUserAdmin(d, u).directory, u);
            IsAssetAdmin(g) && !IsAssetNormalUser(g)
            && (IsAssetModerator(g) <==> IsAssetModerator(GroupsOf(d, u)))
  {
    MakeUserAdminEffect(d, u);
  }
}
