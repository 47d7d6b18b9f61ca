/** identity/permissions.py: PermissionEngine.check_permission and compute_user_categories. */
module Permissions {
  import opened Prelude

  datatype Role = Role(skillDeny: seq<string>, skillAllow: seq<string>, categories: seq<string>)

  datatype Dept = Dept(denied: seq<string>, allowed: seq<string>)

  /** deptId is none or the empty string when the user has no department. */
  datatype User = User(skillDeny: seq<string>, skillAllow: seq<string>, roles: seq<string>,
                       deptId: Option<string>, allowedCategories: seq<string>)

  datatype Skill = Skill(id: string, category: string)

  const NO_ROLE := Role([], [], [])
  const NO_DEPT := Dept([], [])

  predicate HasDept(user: User) {
    user.deptId.Some? && user.deptId.value != ""
  }

  /** Whether anything at all is configured for the user. */
  predicate HasAnyRestriction(user: User) {
    user.skillDeny != [] || user.skillAllow != [] || user.roles != [] || HasDept(user) || user.allowedCategories != []
  }

  // ------------------------------------------------------------------ the decision, without an order of checks

  function RoleOf(cache: map<string, Role>, id: string): Role {
    if id in cache then cache[id] else NO_ROLE
  }

  function RolesOf(cache: map<string, Role>, user: User): (roles: seq<Role>)
    ensures |roles| == |user.roles|
  {
    seq(|user.roles|, i requires 0 <= i < |user.roles| => RoleOf(cache, user.roles[i]))
  }

  /** A user without a department is as one whose department says nothing. */
  function DeptOf(cache: map<string, Dept>, user: User): Dept {
    if HasDept(user) && user.deptId.value in cache then cache[user.deptId.value] else NO_DEPT
  }

  predicate Denies(role: Role, id: string) {
    id in role.skillDeny
  }

  predicate Allows(role: Role, id: string) {
    id in role.skillAllow && !Denies(role, id)
  }

  predicate Mentions(role: Role, id: string) {
    Denies(role, id) || Allows(role, id)
  }

  /** What the roles' skill lists say: the first role that mentions the skill decides. */
  function RoleVerdict(roles: seq<Role>, id: string): Option<bool> {
    if roles == [] then None
    else if Mentions(roles[0], id) then Some(Allows(roles[0], id))
    else RoleVerdict(roles[1..], id)
  }

  predicate DeptAdmits(dept: Dept, category: string) {
    category !in dept.denied && (dept.allowed == [] || category in dept.allowed)
  }

  function SetOf(names: seq<string>): set<string> {
    set c | c in names
  }

  function RoleCategories(roles: seq<Role>): set<string> {
    if roles == [] then {}
    else RoleCategories(roles[..|roles| - 1]) + SetOf(roles[|roles| - 1].categories)
  }

  predicate Permits(roles: seq<Role>, dept: Dept, user: User, skill: Skill) {
    && skill.id !in user.skillDeny
    && (skill.id in user.skillAllow ||
        match RoleVerdict(roles, skill.id)
        case Some(verdict) => verdict
        case None =>
          DeptAdmits(dept, skill.category) &&
          (skill.category in RoleCategories(roles) || skill.category in user.allowedCategories ||
           !HasAnyRestriction(user)))
  }

  /** The categories the department admits, of those of the roles, or of its own where no role names any. */
  ghost predicate IsComputed(roles: seq<Role>, dept: Dept, categories: set<string>) {
    forall c :: c in categories <==>
                DeptAdmits(dept, c) &&
                (c in RoleCategories(roles) || (RoleCategories(roles) == {} && c in dept.allowed))
  }

  lemma {:induction false} FirstMentionDecides(roles: seq<Role>, id: string, i: nat)
    requires i < |roles| && Mentions(roles[i], id)
    requires forall j | 0 <= j < i :: !Mentions(roles[j], id)
    ensures RoleVerdict(roles, id) == Some(Allows(roles[i], id))
  {
    if i > 0 {
      assert !Mentions(roles[0], id);
      FirstMentionDecides(roles[1..], id, i - 1);
    }
  }

  lemma {:induction false} NoMentionNoVerdict(roles: seq<Role>, id: string)
    requires forall j | 0 <= j < |roles| :: !Mentions(roles[j], id)
    ensures RoleVerdict(roles, id) == None
  {
    if roles != [] {
      assert !Mentions(roles[0], id);
      NoMentionNoVerdict(roles[1..], id);
    }
  }

  lemma {:induction false} RoleCategoriesAre(roles: seq<Role>, c: string)
    ensures c in RoleCategories(roles) <==> exists i | 0 <= i < |roles| :: c in roles[i].categories
  {
    if roles != [] {
      var n := |roles| - 1;
      RoleCategoriesAre(roles[..n], c);
      if i :| 0 <= i < |roles| && c in roles[i].categories {
        assert i < n ==> c in roles[..n][i].categories;
      }
    }
  }

  class PermissionEngine {
    var roleCache: map<string, Role>
    var deptCache: map<string, Dept>

    constructor ()
      ensures roleCache == map[] && deptCache == map[]
    {
      roleCache, deptCache := map[], map[];
    }

    method SetRoleData(roleId: string, data: Role)
      modifies this`roleCache
      ensures roleCache == old(roleCache)[roleId := data]
    {
      roleCache := roleCache[roleId := data];
    }

    method SetDeptData(deptId: string, data: Dept)
      modifies this`deptCache
      ensures deptCache == old(deptCache)[deptId := data]
    {
      deptCache := deptCache[deptId := data];
    }

    method CheckPermission(user: User, skill: Skill) returns (allowed: bool)
      ensures allowed <==> Permits(RolesOf(roleCache, user), DeptOf(deptCache, user), user, skill)
    {
      var roles := RolesOf(roleCache, user);
      if skill.id in user.skillDeny {
        return false;
      }
      if skill.id in user.skillAllow {
        return true;
      }
      for i := 0 to |user.roles|
        invariant forall j | 0 <= j < i :: !Mentions(roles[j], skill.id)
      {
        var role := RoleOf(roleCache, user.roles[i]);
        assert role == roles[i];
        if skill.id in role.skillDeny {
          FirstMentionDecides(roles, skill.id, i);
          return false;
        }
        if skill.id in role.skillAllow {
          FirstMentionDecides(roles, skill.id, i);
          return true;
        }
      }
      NoMentionNoVerdict(roles, skill.id);
      if HasDept(user) {
        var dept := DeptOf(deptCache, user);
        if skill.category in dept.denied {
          return false;
        }
        if dept.allowed != [] && skill.category !in dept.allowed {
          return false;
        }
      }
      for i := 0 to |user.roles|
        invariant forall j | 0 <= j < i :: skill.category !in roles[j].categories
      {
        var role := RoleOf(roleCache, user.roles[i]);
        assert role == roles[i];
        if role.categories != [] && skill.category in role.categories {
          RoleCategoriesAre(roles, skill.category);
          return true;
        }
      }
      RoleCategoriesAre(roles, skill.category);
      if user.allowedCategories != [] {
        return skill.category in user.allowedCategories;
      }
      return !HasAnyRestriction(user);
    }

    method ComputeUserCategories(user: User) returns (categories: set<string>)
      ensures IsComputed(RolesOf(roleCache, user), DeptOf(deptCache, user), categories)
    {
      var roles := RolesOf(roleCache, user);
      categories := {};
      for i := 0 to |user.roles|
        invariant categories == RoleCategories(roles[..i])
      {
        var role := RoleOf(roleCache, user.roles[i]);
        assert roles[..i + 1][..i] == roles[..i];
        categories := categories + SetOf(role.categories);
      }
      assert roles[..|roles|] == roles;
      if HasDept(user) {
        var dept := DeptOf(deptCache, user);
        if dept.allowed != [] {
          if categories != {} {
            categories := categories * SetOf(dept.allowed);
          } else {
            categories := SetOf(dept.allowed);
          }
        }
        ghost var all := categories;
        for i := 0 to |dept.denied|
          invariant categories == all - SetOf(dept.denied[..i])
        {
          categories := categories - {dept.denied[i]};
        }
      }
    }
  }

  // ------------------------------------------------------------------ two decisions compared

  /** For a skill that no list mentions, and a user whose allowed categories are the computed ones, the check
      is membership in those categories, exactly if anything is configured for the user at all: a user for
      whom nothing is may call everything, though the computed set is empty. */
  lemma {:induction false} DecisionIsSetFormula(roles: seq<Role>, dept: Dept, user: User, skill: Skill)
    requires |roles| == |user.roles| && (!HasDept(user) ==> dept == NO_DEPT)
    requires skill.id !in user.skillDeny && skill.id !in user.skillAllow
    requires forall i | 0 <= i < |roles| :: !Mentions(roles[i], skill.id)
    requires IsComputed(roles, dept, SetOf(user.allowedCategories))
    ensures (Permits(roles, dept, user, skill) <==> skill.category in user.allowedCategories)
            <==> HasAnyRestriction(user)
  {
    NoMentionNoVerdict(roles, skill.id);
    var computed := SetOf(user.allowedCategories);
    assert skill.category in computed <==> skill.category in user.allowedCategories;
  }

  /** The rule as documented: a deny of any role goes before an allow of any role. */
  function DocumentedVerdict(roles: seq<Role>, id: string): Option<bool> {
    if exists i | 0 <= i < |roles| :: Denies(roles[i], id) then Some(false)
    else if exists i | 0 <= i < |roles| :: Allows(roles[i], id) then Some(true)
    else None
  }

  predicate AllowBeforeDeny(roles: seq<Role>, id: string) {
    exists i, j | 0 <= i < j < |roles| ::
      && Allows(roles[i], id) && Denies(roles[j], id)
      && forall k | 0 <= k < i :: !Denies(roles[k], id)
  }

  lemma FirstMention(roles: seq<Role>, id: string) returns (i: nat)
    requires exists j | 0 <= j < |roles| :: Mentions(roles[j], id)
    ensures i < |roles| && Mentions(roles[i], id)
    ensures forall j | 0 <= j < i :: !Mentions(roles[j], id)
  {
    i := 0;
    while !Mentions(roles[i], id)
      invariant i < |roles| && forall j | 0 <= j < i :: !Mentions(roles[j], id)
      invariant exists j | i <= j < |roles| :: Mentions(roles[j], id)
      decreases |roles| - i
    {
      i := i + 1;
    }
  }

  /** The code goes role by role instead, so it agrees with the documented rule exactly if no role that allows
      the skill stands before the first one that denies it. */
  lemma {:induction false} DocumentedIffNoAllowFirst(roles: seq<Role>, id: string)
    ensures RoleVerdict(roles, id) == DocumentedVerdict(roles, id) <==> !AllowBeforeDeny(roles, id)
  {
    if exists j | 0 <= j < |roles| :: Mentions(roles[j], id) {
      var i := FirstMention(roles, id);
      FirstMentionDecides(roles, id, i);
      assert forall k | 0 <= k < |roles| && Denies(roles[k], id) :: Mentions(roles[k], id);
    } else {
      NoMentionNoVerdict(roles, id);
      assert forall k | 0 <= k < |roles| :: !Mentions(roles[k], id);
    }
  }

  // ------------------------------------------------------------------ the order of the checks

  predicate RoleDenies(cache: map<string, Role>, role: string, id: string) {
    role in cache && id in cache[role].skillDeny
  }

  predicate RoleNames(cache: map<string, Role>, role: string, id: string) {
    role in cache && (id in cache[role].skillDeny || id in cache[role].skillAllow)
  }

  predicate RoleCovers(cache: map<string, Role>, role: string, category: string) {
    role in cache && category in cache[role].categories
  }

  predicate OwnListsSilent(user: User, skill: Skill) {
    skill.id !in user.skillDeny && skill.id !in user.skillAllow
  }

  predicate RolesSilent(cache: map<string, Role>, user: User, skill: Skill) {
    forall j | 0 <= j < |user.roles| :: !RoleNames(cache, user.roles[j], skill.id)
  }

  /** The user's department, if there is data on it, denies the category or allows others only. */
  predicate DeptForbids(cache: map<string, Dept>, user: User, category: string) {
    && user.deptId.Some? && user.deptId.value != "" && user.deptId.value in cache
    && var dept := cache[user.deptId.value];
       category in dept.denied || (dept.allowed != [] && category !in dept.allowed)
  }

  lemma RoleNamesIsMention(cache: map<string, Role>, user: User, id: string)
    ensures forall j | 0 <= j < |user.roles| ::
              && (Mentions(RolesOf(cache, user)[j], id) <==> RoleNames(cache, user.roles[j], id))
              && (Denies(RolesOf(cache, user)[j], id) <==> RoleDenies(cache, user.roles[j], id))
  {
  }

  /** A skill in the user's own deny list is denied, whatever every other list says; otherwise one in the own allow
      list is allowed, whatever the roles and the department say. */
  lemma OwnListsDecide(roleCache: map<string, Role>, deptCache: map<string, Dept>, user: User, skill: Skill)
    requires !OwnListsSilent(user, skill)
    ensures Permits(RolesOf(roleCache, user), DeptOf(deptCache, user), user, skill) <==> skill.id !in user.skillDeny
  {
  }

  /** Otherwise the first of the user's roles that names the skill decides: it denies it if its deny list does,
      whatever later roles and the department say. */
  lemma FirstRoleDecides(roleCache: map<string, Role>, deptCache: map<string, Dept>, user: User, skill: Skill, i: nat)
    requires OwnListsSilent(user, skill)
    requires i < |user.roles| && RoleNames(roleCache, user.roles[i], skill.id)
    requires forall j | 0 <= j < i :: !RoleNames(roleCache, user.roles[j], skill.id)
    ensures Permits(RolesOf(roleCache, user), DeptOf(deptCache, user), user, skill) <==>
            !RoleDenies(roleCache, user.roles[i], skill.id)
  {
    RoleNamesIsMention(roleCache, user, skill.id);
    FirstMentionDecides(RolesOf(roleCache, user), skill.id, i);
  }

  /** Otherwise the department can only forbid; what it leaves is allowed if a role covers its category or the user's
      own categories do, or to a user for whom nothing at all is configured. */
  lemma CategoriesDecide(roleCache: map<string, Role>, deptCache: map<string, Dept>, user: User, skill: Skill)
    requires OwnListsSilent(user, skill) && RolesSilent(roleCache, user, skill)
    ensures Permits(RolesOf(roleCache, user), DeptOf(deptCache, user), user, skill) <==>
            && !DeptForbids(deptCache, user, skill.category)
            && (|| (exists i | 0 <= i < |user.roles| :: RoleCovers(roleCache, user.roles[i], skill.category))
                || skill.category in user.allowedCategories
                || (user.skillDeny == user.skillAllow == user.roles == user.allowedCategories == [] &&
                    (user.deptId == None || user.deptId == Some(""))))
  {
    var roles := RolesOf(roleCache, user);
    RoleNamesIsMention(roleCache, user, skill.id);
    NoMentionNoVerdict(roles, skill.id);
    RoleCategoriesAre(roles, skill.category);
    assert forall i | 0 <= i < |roles| ::
        skill.category in roles[i].categories <==> RoleCovers(roleCache, user.roles[i], skill.category);
  }

  // ------------------------------------------------------------------ the documented order

  /** The order that the documentation gives, rule by rule. */
  predicate DocumentedPermits(roles: seq<Role>, dept: Dept, user: User, skill: Skill) {
    if skill.id in user.skillDeny then false
    else if skill.id in user.skillAllow then true
    else if exists i | 0 <= i < |roles| :: skill.id in roles[i].skillDeny then false
    else if exists i | 0 <= i < |roles| :: skill.id in roles[i].skillAllow then true
    else if skill.category in dept.denied then false
    else if skill.category in dept.allowed then true
    else exists i | 0 <= i < |roles| :: skill.category in roles[i].categories
  }

  predicate SomeRoleCovers(roles: seq<Role>, category: string) {
    exists i | 0 <= i < |roles| :: category in roles[i].categories
  }

  predicate SomeRoleNames(roles: seq<Role>, id: string) {
    exists i | 0 <= i < |roles| :: Mentions(roles[i], id)
  }

  /** Where the code keeps to it. A department's allowed categories only restrict in the code, and the user's own
      categories count. */
  predicate KeepsToDocumentation(roles: seq<Role>, dept: Dept, user: User, skill: Skill) {
    if !OwnListsSilent(user, skill) then true
    else if SomeRoleNames(roles, skill.id) then !AllowBeforeDeny(roles, skill.id)
    else if skill.category in dept.denied then true
    else if skill.category in dept.allowed then
      SomeRoleCovers(roles, skill.category) || skill.category in user.allowedCategories
    else if dept.allowed != [] then !SomeRoleCovers(roles, skill.category)
    else
      SomeRoleCovers(roles, skill.category) || (skill.category !in user.allowedCategories && HasAnyRestriction(user))
  }

  lemma VerdictAsDocumented(roles: seq<Role>, id: string)
    ensures DocumentedVerdict(roles, id) ==
            if exists i | 0 <= i < |roles| :: id in roles[i].skillDeny then Some(false)
            else if exists i | 0 <= i < |roles| :: id in roles[i].skillAllow then Some(true)
            else None
    ensures DocumentedVerdict(roles, id).Some? <==> SomeRoleNames(roles, id)
  {
    if i :| 0 <= i < |roles| && id in roles[i].skillDeny {
      assert Denies(roles[i], id) && Mentions(roles[i], id);
    } else if i :| 0 <= i < |roles| && id in roles[i].skillAllow {
      assert Allows(roles[i], id) && Mentions(roles[i], id);
    }
  }

  lemma NamedIffVerdict(roles: seq<Role>, id: string)
    ensures RoleVerdict(roles, id).Some? <==> SomeRoleNames(roles, id)
  {
    if SomeRoleNames(roles, id) {
      var i := FirstMention(roles, id);
      FirstMentionDecides(roles, id, i);
    } else {
      NoMentionNoVerdict(roles, id);
    }
  }

  /** The whole decision is the documented one exactly there. */
  lemma {:induction false} DecisionAsDocumentedIff(roles: seq<Role>, dept: Dept, user: User, skill: Skill)
    requires |roles| == |user.roles| && (!HasDept(user) ==> dept == NO_DEPT)
    ensures (Permits(roles, dept, user, skill) <==> DocumentedPermits(roles, dept, user, skill))
            <==> KeepsToDocumentation(roles, dept, user, skill)
  {
    VerdictAsDocumented(roles, skill.id);
    NamedIffVerdict(roles, skill.id);
    DocumentedIffNoAllowFirst(roles, skill.id);
    RoleCategoriesAre(roles, skill.category);
  }
}
