/** The user query and its mutations (src/hooks/useUserManagement.ts): every profile with
    its role rows, and the table operations that grant or withdraw a role and approve or
    disapprove a user. The hosted tables are values: a query's answer is `None` when it
    reported an error, and a mutation is the table it leaves behind. */
module UserManagement {
  import opened Common

  /** A `profiles` row (`is_approved` may be null). */
  datatype Profile = Profile(id: string, userId: string, fullName: string, email: string, isApproved: Option<bool>)

  /** A `user_roles` row. */
  datatype RoleRow = RoleRow(userId: string, role: string)

  /** An element of `users`: the profile's columns with its `user_roles`. */
  datatype UserEntry = UserEntry(profile: Profile, userRoles: seq<RoleRow>)

  /** `roles.filter(r => r.user_id === userId)` */
  function RolesOf(roles: seq<RoleRow>, userId: string): (r: seq<RoleRow>)
    ensures forall x :: x in r <==> x in roles && x.userId == userId
  {
    if roles == [] then []
    else
      assert forall x | x in roles[1..] :: x in roles;
      (if roles[0].userId == userId then [roles[0]] else []) + RolesOf(roles[1..], userId)
  }

  /** `profiles.map(profile => ({ ...profile, user_roles }))`: one entry per profile, in the
      order the profiles came back, each with exactly the role rows of its user. */
  function JoinRoles(profiles: seq<Profile>, roles: seq<RoleRow>): (users: seq<UserEntry>)
    ensures |users| == |profiles|
    ensures forall i | 0 <= i < |users| ::
      users[i].profile == profiles[i]
      && forall x :: x in users[i].userRoles <==> x in roles && x.userId == profiles[i].userId
  {
    if profiles == [] then []
    else [UserEntry(profiles[0], RolesOf(roles, profiles[0].userId))] + JoinRoles(profiles[1..], roles)
  }

  /** The users query function: `None` when either lookup reported an error. */
  function FetchUsers(profiles: Option<seq<Profile>>, roles: Option<seq<RoleRow>>): (r: Option<seq<UserEntry>>)
    ensures r.Some? <==> profiles.Some? && roles.Some?
    ensures r.Some? ==> |r.value| == |profiles.value|
    ensures r.Some? ==> r.value == JoinRoles(profiles.value, roles.value)
  {
    if profiles.None? || roles.None? then None else Some(JoinRoles(profiles.value, roles.value))
  }

  /** `user_roles.insert([{ user_id, role }])` */
  function AssignRole(roles: seq<RoleRow>, userId: string, role: string): (r: seq<RoleRow>)
    ensures |r| == |roles| + 1 && r[..|roles|] == roles && r[|roles|] == RoleRow(userId, role)
  {
    roles + [RoleRow(userId, role)]
  }

  /** `user_roles.delete().eq("user_id", userId).eq("role", role)` */
  function RemoveRole(roles: seq<RoleRow>, userId: string, role: string): (r: seq<RoleRow>)
    ensures |r| <= |roles|
    ensures forall x :: x in r <==> x in roles && x != RoleRow(userId, role)
  {
    if roles == [] then []
    else
      var last := roles[|roles| - 1];
      var rest := RemoveRole(roles[..|roles| - 1], userId, role);
      assert forall x | x in roles :: x in roles[..|roles| - 1] || x == last;
      if last.userId == userId && last.role == role then rest else rest + [last]
  }

  /** Granting a role and withdrawing it again leaves the table as withdrawing alone would;
      withdrawing twice is withdrawing once. */
  lemma AssignThenRemove(roles: seq<RoleRow>, userId: string, role: string)
    ensures RemoveRole(AssignRole(roles, userId, role), userId, role) == RemoveRole(roles, userId, role)
  {
    assert AssignRole(roles, userId, role)[..|roles|] == roles;
  }

  lemma {:induction false} RemoveIdempotent(roles: seq<RoleRow>, userId: string, role: string)
    ensures RemoveRole(RemoveRole(roles, userId, role), userId, role) == RemoveRole(roles, userId, role)
  {
    if roles != [] {
      var init := roles[..|roles| - 1];
      var last := roles[|roles| - 1];
      RemoveIdempotent(init, userId, role);
      var once := RemoveRole(init, userId, role);
      if !(last.userId == userId && last.role == role) {
        assert (once + [last])[..|once + [last]| - 1] == once;
      }
    }
  }

  /** A granted role shows in the entry of every profile of that user; a withdrawn one in
      none; every other role row shows where it did. */
  lemma RoleChangesShow(profiles: seq<Profile>, roles: seq<RoleRow>, userId: string, role: string)
    ensures var users := JoinRoles(profiles, AssignRole(roles, userId, role));
      forall i | 0 <= i < |users| && profiles[i].userId == userId :: RoleRow(userId, role) in users[i].userRoles
    ensures var users := JoinRoles(profiles, RemoveRole(roles, userId, role));
      var before := JoinRoles(profiles, roles);
      forall i | 0 <= i < |users| ::
        RoleRow(userId, role) !in users[i].userRoles
        && forall x | x != RoleRow(userId, role) :: x in users[i].userRoles <==> x in before[i].userRoles
  {
  }

  /** `profiles.update({ is_approved: approved }).eq("user_id", userId)` */
  function SetApprovalByUser(profiles: seq<Profile>, userId: string, approved: bool): (r: seq<Profile>)
    ensures |r| == |profiles|
    ensures forall i | 0 <= i < |r| ::
      if profiles[i].userId == userId then r[i] == profiles[i].(isApproved := Some(approved)) else r[i] == profiles[i]
  {
    if profiles == [] then []
    else
      var p := profiles[0];
      [if p.userId == userId then p.(isApproved := Some(approved)) else p] + SetApprovalByUser(profiles[1..], userId, approved)
  }

  /** The last approval decision for a user is the one that holds. */
  lemma ApprovalTwice(profiles: seq<Profile>, userId: string, first: bool, second: bool)
    ensures SetApprovalByUser(SetApprovalByUser(profiles, userId, first), userId, second) == SetApprovalByUser(profiles, userId, second)
  {
    var twice := SetApprovalByUser(SetApprovalByUser(profiles, userId, first), userId, second);
    var once := SetApprovalByUser(profiles, userId, second);
    assert |twice| == |once|;
    forall i | 0 <= i < |once| ensures twice[i] == once[i] {
    }
  }

  /** A decision for a user shows in the entries of that user's profiles, roles unchanged, and
      leaves every other entry as it was. */
  lemma ApprovalShows(profiles: seq<Profile>, roles: seq<RoleRow>, userId: string, approved: bool)
    ensures var users := JoinRoles(SetApprovalByUser(profiles, userId, approved), roles);
      var before := JoinRoles(profiles, roles);
      forall i | 0 <= i < |users| ::
        (profiles[i].userId == userId ==> users[i].profile.isApproved == Some(approved) && users[i].userRoles == before[i].userRoles)
        && (profiles[i].userId != userId ==> users[i] == before[i])
  {
    var updated := SetApprovalByUser(profiles, userId, approved);
    var users := JoinRoles(updated, roles);
    var before := JoinRoles(profiles, roles);
    forall i | 0 <= i < |users|
      ensures users[i].userRoles == before[i].userRoles
      ensures profiles[i].userId != userId ==> users[i] == before[i]
    {
      assert updated[i].userId == profiles[i].userId;
      JoinRolesAt(updated, roles, i);
      JoinRolesAt(profiles, roles, i);
    }
  }

  /** Each entry's roles are its user's rows, as `RolesOf` lists them. */
  lemma {:induction false} JoinRolesAt(profiles: seq<Profile>, roles: seq<RoleRow>, i: nat)
    requires i < |profiles|
    ensures JoinRoles(profiles, roles)[i] == UserEntry(profiles[i], RolesOf(roles, profiles[i].userId))
  {
    if i > 0 {
      JoinRolesAt(profiles[1..], roles, i - 1);
    }
  }
}
