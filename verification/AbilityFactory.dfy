/**
 The rule list of a principal: the permissions of the live roles, with super-admins allowed
 everything and nobody logged in allowed nothing.
 */
module Abilities {
  import opened Wrappers
  import opened RecordScoping

  const SUPER_ADMIN := "super-admin"
  const USER_ID := "${userId}"

  /** A permission row: a raw rule, `fields` as the list of its field names. */
  datatype Permission = Permission(action: Action, subject: Subject, conditions: Option<Conditions>,
                                   fields: seq<string>, inverted: bool)

  datatype Role = Role(id: nat, name: string, isActive: bool, deleted: bool, permissions: Option<seq<Permission>>)

  datatype Assignment = Assignment(isActive: bool, expiresAt: Option<int>, role: Option<Role>)

  datatype Principal = Principal(id: string, primaryRole: Option<Role>, userRoles: seq<Assignment>)

  // ---- Live roles ------------------------------------------------------------------------------

  predicate Live(role: Option<Role>) { role.Some? && role.value.isActive && !role.value.deleted }

  predicate Current(assignment: Assignment, now: int) {
    assignment.isActive && (assignment.expiresAt.None? || assignment.expiresAt.value > now)
  }

  /** The roles a principal holds now: the primary one, then those of current assignments. */
  function Held(user: Principal, now: int): seq<Role> {
    (if Live(user.primaryRole) then [user.primaryRole.value] else []) + HeldThrough(user.userRoles, now)
  }

  function HeldThrough(assignments: seq<Assignment>, now: int): seq<Role> {
    if |assignments| == 0 then []
    else
      HeldThrough(assignments[..|assignments| - 1], now)
      + var a := assignments[|assignments| - 1]; if Current(a, now) && Live(a.role) then [a.role.value] else []
  }

  lemma {:induction false} HeldThroughExactly(assignments: seq<Assignment>, now: int, r: Role)
    ensures r in HeldThrough(assignments, now)
            <==> r.isActive && !r.deleted && exists i :: Gives(assignments, now, r, i)
    decreases |assignments|
  {
    if assignments != [] {
      var last, front := |assignments| - 1, assignments[..|assignments| - 1];
      HeldThroughExactly(front, now, r);
      if i: nat :| Gives(front, now, r, i) { assert Gives(assignments, now, r, i); }
      if i: nat :| Gives(assignments, now, r, i) { assert i < last ==> Gives(front, now, r, i); }
      if Gives(assignments, now, r, last) { assert assignments[last].role == Some(r); }
    }
  }

  /** The i-th assignment is active, not expired, and of this role. */
  ghost predicate Gives(assignments: seq<Assignment>, now: int, r: Role, i: nat) {
    && i < |assignments| && assignments[i].role == Some(r) && assignments[i].isActive
    && (assignments[i].expiresAt.Some? ==> now < assignments[i].expiresAt.value)
  }

  /** Which roles count: active ones not deleted, held as the primary role or by a current assignment. */
  lemma HeldExactly(user: Principal, now: int, r: Role)
    ensures r in Held(user, now)
            <==> r.isActive && !r.deleted
                 && (user.primaryRole == Some(r) || exists i :: Gives(user.userRoles, now, r, i))
  {
    HeldThroughExactly(user.userRoles, now, r);
  }

  /** Map.set on the insertion-ordered map from ids to roles. */
  function WithRole(roles: seq<Role>, role: Role): seq<Role> {
    if |roles| == 0 then [role]
    else if roles[0].id == role.id then [role] + roles[1..]
    else [roles[0]] + WithRole(roles[1..], role)
  }

  /** The roles set one after the other. */
  function Collected(held: seq<Role>): seq<Role> {
    if |held| == 0 then [] else WithRole(Collected(held[..|held| - 1]), held[|held| - 1])
  }

  method LiveRoles(user: Principal, now: int) returns (roles: seq<Role>)
    ensures roles == Collected(Held(user, now))
  {
    roles := [];
    ghost var held: seq<Role> := [];
    if Live(user.primaryRole) {
      roles := WithRole(roles, user.primaryRole.value);
      held := [user.primaryRole.value];
    }
    ghost var primary := held;
    var i := 0;
    while i < |user.userRoles|
      invariant 0 <= i <= |user.userRoles|
      invariant held == primary + HeldThrough(user.userRoles[..i], now)
      invariant roles == Collected(held)
    {
      var a := user.userRoles[i];
      assert user.userRoles[..i + 1][..i] == user.userRoles[..i];
      if Current(a, now) && Live(a.role) {
        roles := WithRole(roles, a.role.value);
        assert (held + [a.role.value])[..|held|] == held;
        held := held + [a.role.value];
      }
      i := i + 1;
    }
    assert user.userRoles[..i] == user.userRoles;
  }

  ghost predicate DistinctIds(roles: seq<Role>) {
    forall i, j :: 0 <= i < j < |roles| ==> roles[i].id != roles[j].id
  }

  lemma {:induction false} WithRoleMembers(roles: seq<Role>, role: Role, r: Role)
    requires DistinctIds(roles)
    ensures r in WithRole(roles, role) <==> r == role || (r in roles && r.id != role.id)
    decreases |roles|
  {
    if roles != [] {
      assert roles == [roles[0]] + roles[1..];
      assert DistinctIds(roles[1..]);
      if roles[0].id != role.id {
        WithRoleMembers(roles[1..], role, r);
      } else if r in roles[1..] {
        var i :| 0 <= i < |roles[1..]| && roles[1..][i] == r;
        assert roles[i + 1] == r;
      }
    }
  }

  lemma {:induction false} WithRoleDistinct(roles: seq<Role>, role: Role)
    requires DistinctIds(roles)
    ensures DistinctIds(WithRole(roles, role))
    decreases |roles|
  {
    if roles != [] && roles[0].id != role.id {
      var rest := WithRole(roles[1..], role);
      WithRoleDistinct(roles[1..], role);
      forall i | 0 <= i < |rest| ensures rest[i].id != roles[0].id {
        WithRoleMembers(roles[1..], role, rest[i]);
        if rest[i] != role {
          var k :| 0 <= k < |roles[1..]| && roles[1..][k] == rest[i];
          assert roles[k + 1] == rest[i];
        }
      }
    }
  }

  /** Position i is where r is held, and its id is not held again. */
  ghost predicate LastAt(held: seq<Role>, r: Role, i: nat) {
    i < |held| && held[i] == r && forall j :: i < j < |held| ==> held[j].id != r.id
  }

  lemma LastAtStep(held: seq<Role>, role: Role, r: Role)
    ensures (exists i :: LastAt(held + [role], r, i))
            <==> r == role || (r.id != role.id && exists i :: LastAt(held, r, i))
  {
    var all := held + [role];
    if r == role { assert LastAt(all, r, |held|); }
    if i: nat :| LastAt(held, r, i) && r.id != role.id { assert LastAt(all, r, i); }
    if i: nat :| LastAt(all, r, i) && i < |held| {
      assert all[|held|] == role;
      forall j | i < j < |held| ensures held[j].id != r.id { assert all[j] == held[j]; }
      assert LastAt(held, r, i);
    }
  }

  /** Every held role is among the live roles once: as the copy held last under its id. */
  lemma {:induction false} LiveRolesAre(held: seq<Role>, r: Role)
    ensures DistinctIds(Collected(held))
    ensures r in Collected(held) <==> exists i :: LastAt(held, r, i)
    decreases |held|
  {
    if held != [] {
      var last := |held| - 1;
      var rest := held[..last];
      LiveRolesAre(rest, r);
      WithRoleDistinct(Collected(rest), held[last]);
      WithRoleMembers(Collected(rest), held[last], r);
      assert held == rest + [held[last]];
      LastAtStep(rest, held[last], r);
    }
  }

  /** The ids of the roles, each once, in the order in which they come first. */
  function FirstIds(held: seq<Role>): seq<nat> {
    if |held| == 0 then []
    else
      var ids := FirstIds(held[..|held| - 1]);
      var id := held[|held| - 1].id;
      if id in ids then ids else ids + [id]
  }

  function Ids(roles: seq<Role>): seq<nat> { seq(|roles|, i requires 0 <= i < |roles| => roles[i].id) }

  /** Setting a role keeps the place of its id, or adds it at the end. */
  lemma {:induction false} WithRoleIds(roles: seq<Role>, role: Role)
    ensures Ids(WithRole(roles, role)) == if role.id in Ids(roles) then Ids(roles) else Ids(roles) + [role.id]
    decreases |roles|
  {
    if roles != [] {
      assert Ids(roles) == [roles[0].id] + Ids(roles[1..]);
      if roles[0].id == role.id {
        assert Ids([role] + roles[1..]) == [role.id] + Ids(roles[1..]);
      } else {
        WithRoleIds(roles[1..], role);
        var rest := WithRole(roles[1..], role);
        assert Ids([roles[0]] + rest) == [roles[0].id] + Ids(rest);
      }
    }
  }

  /** The live roles stand in the order in which their ids were first held. */
  lemma {:induction false} LiveRolesInOrder(held: seq<Role>)
    ensures Ids(Collected(held)) == FirstIds(held)
    decreases |held|
  {
    if held != [] {
      LiveRolesInOrder(held[..|held| - 1]);
      WithRoleIds(Collected(held[..|held| - 1]), held[|held| - 1]);
    }
  }

  // ---- Rules -------------------------------------------------------------------------------------

  function Interpolate(condition: Condition, userId: string): Condition {
    match condition
    case Plain(Str(text)) => if text == USER_ID then Plain(Str(userId)) else condition
    case _ => condition
  }

  /** The conditions with the placeholder replaced at the top level. */
  ghost function Interpolated(conditions: Conditions, userId: string): Conditions {
    seq(|conditions|, i requires 0 <= i < |conditions| =>
      Pair(conditions[i].key, Interpolate(conditions[i].condition, userId)))
  }

  method InterpolateConditions(conditions: Conditions, userId: string) returns (interpolated: Conditions)
    ensures interpolated == Interpolated(conditions, userId)
  {
    interpolated := [];
    var i := 0;
    while i < |conditions|
      invariant 0 <= i <= |conditions|
      invariant interpolated == Interpolated(conditions[..i], userId)
    {
      interpolated := interpolated + [Pair(conditions[i].key, Interpolate(conditions[i].condition, userId))];
      i := i + 1;
    }
    assert conditions[..i] == conditions;
  }

  /** A field-limited grant grants nothing. */
  predicate Skipped(permission: Permission) { |permission.fields| > 0 && !permission.inverted }

  predicate Conditional(permission: Permission) {
    permission.conditions.Some? && |permission.conditions.value| > 0
  }

  ghost function RuleOf(permission: Permission, userId: string): Rule {
    Rule(permission.action, permission.subject,
         if Conditional(permission) then Some(Interpolated(permission.conditions.value, userId)) else None,
         permission.inverted)
  }

  ghost function RulesOf(permissions: seq<Permission>, userId: string): seq<Rule> {
    if permissions == [] then []
    else
      var last := |permissions| - 1;
      RulesOf(permissions[..last], userId)
      + if Skipped(permissions[last]) then [] else [RuleOf(permissions[last], userId)]
  }

  /** All permissions of the roles, in order. */
  ghost function Permissions(roles: seq<Role>): seq<Permission> {
    if roles == [] then []
    else
      var last := roles[|roles| - 1];
      Permissions(roles[..|roles| - 1]) + if last.permissions.Some? then last.permissions.value else []
  }

  lemma {:induction false} RulesOfSplit(left: seq<Permission>, right: seq<Permission>, userId: string)
    ensures RulesOf(left + right, userId) == RulesOf(left, userId) + RulesOf(right, userId)
    decreases |right|
  {
    if right == [] {
      assert left + right == left;
    } else {
      var last := |right| - 1;
      assert (left + right)[..|left| + last] == left + right[..last];
      RulesOfSplit(left, right[..last], userId);
    }
  }

  predicate Unrestricted(roles: seq<Role>) {
    exists i :: 0 <= i < |roles| && roles[i].name == SUPER_ADMIN
  }

  const EVERYTHING := [Rule(Manage, All, None, false)]

  ghost function AbilityOf(roles: seq<Role>, userId: string): seq<Rule> {
    if Unrestricted(roles) then EVERYTHING else RulesOf(Permissions(roles), userId)
  }

  /** The pair with the user's own id where its plain value is the placeholder, and as it is otherwise. */
  ghost predicate IsPairFor(pair: Pair, written: Pair, userId: string) {
    && pair.key == written.key
    && pair.condition == if written.condition == Plain(Str(USER_ID)) then Plain(Str(userId)) else written.condition
  }

  /** The rule says what the permission says, for this user; empty conditions are none. */
  ghost predicate Carries(rule: Rule, p: Permission, userId: string) {
    && rule.action == p.action && rule.subject == p.subject && rule.inverted == p.inverted
    && (rule.conditions.None? <==> p.conditions.None? || p.conditions.value == [])
    && (rule.conditions.Some? ==>
          && |rule.conditions.value| == |p.conditions.value|
          && forall i :: 0 <= i < |p.conditions.value| ==>
               IsPairFor(rule.conditions.value[i], p.conditions.value[i], userId))
  }

  /** RuleOf gives the one rule that carries the permission. */
  lemma CarriesExactly(rule: Rule, p: Permission, userId: string)
    ensures Carries(rule, p, userId) <==> rule == RuleOf(p, userId)
  {
    if Carries(rule, p, userId) && rule.conditions.Some? {
      assert rule.conditions.value == Interpolated(p.conditions.value, userId);
    }
  }

  method AddRolePermissions(rules: seq<Rule>, permissions: seq<Permission>, userId: string) returns (r: seq<Rule>)
    ensures r == rules + RulesOf(permissions, userId)
  {
    r := rules;
    var i := 0;
    while i < |permissions|
      invariant 0 <= i <= |permissions|
      invariant r == rules + RulesOf(permissions[..i], userId)
    {
      var permission := permissions[i];
      var conditions: Option<Conditions> := None;
      if Conditional(permission) {
        var interpolated := InterpolateConditions(permission.conditions.value, userId);
        conditions := Some(interpolated);
      }
      assert permissions[..i + 1][..i] == permissions[..i];
      i := i + 1;
      var fieldLimited := |permission.fields| > 0;
      if fieldLimited && !permission.inverted { continue; }
      r := r + [Rule(permission.action, permission.subject, conditions, permission.inverted)];
    }
    assert permissions[..i] == permissions;
  }

  ghost function RulesForUser(user: Option<Principal>, now: int): seq<Rule> {
    if user.None? then [] else AbilityOf(Collected(Held(user.value, now)), user.value.id)
  }

  method CreateForUser(user: Option<Principal>, now: int) returns (rules: seq<Rule>)
    ensures rules == RulesForUser(user, now)
  {
    rules := [];
    if user.None? { return; }
    var roles := LiveRoles(user.value, now);
    if Unrestricted(roles) { return EVERYTHING; }
    var i := 0;
    while i < |roles|
      invariant 0 <= i <= |roles|
      invariant rules == RulesOf(Permissions(roles[..i]), user.value.id)
    {
      var role := roles[i];
      assert roles[..i + 1][..i] == roles[..i];
      i := i + 1;
      if role.permissions.None? {
        assert Permissions(roles[..i]) == Permissions(roles[..i - 1]);
        continue;
      }
      RulesOfSplit(Permissions(roles[..i - 1]), role.permissions.value, user.value.id);
      rules := AddRolePermissions(rules, role.permissions.value, user.value.id);
    }
    assert roles[..i] == roles;
  }

  /** A field-limited grant anywhere in the list changes nothing. */
  lemma FieldLimitedGrantsGiveNothing(left: seq<Permission>, p: Permission, right: seq<Permission>, userId: string)
    requires p.fields != [] && !p.inverted
    ensures RulesOf(left + [p] + right, userId) == RulesOf(left + right, userId)
  {
    RulesOfSplit(left + [p], right, userId);
    RulesOfSplit(left, right, userId);
    assert (left + [p])[..|left|] == left;
  }

  /** The record meets the permission's conditions, with the placeholder standing for the user's id. */
  ghost predicate Meets(p: Permission, userId: string, record: Record) {
    p.conditions.Some? ==>
      forall pair <- p.conditions.value ::
        match pair.condition
        case Plain(value) =>
          pair.key in record && record[pair.key] == if value == Str(USER_ID) then Str(userId) else value
        case Query(holds) => holds(record)
  }

  lemma RuleMatchesAsWritten(p: Permission, userId: string, record: Record)
    ensures Matches(RuleOf(p, userId), record) <==> Meets(p, userId, record)
  {
    if Conditional(p) {
      var written, pairs := p.conditions.value, Interpolated(p.conditions.value, userId);
      if Meets(p, userId, record) {
        forall i | 0 <= i < |pairs| ensures PairHolds(pairs[i], record) { assert written[i] in written; }
      }
      if forall pair <- pairs :: PairHolds(pair, record) {
        forall i | 0 <= i < |written|
          ensures match written[i].condition
                  case Plain(value) =>
                    && written[i].key in record
                    && record[written[i].key] == (if value == Str(USER_ID) then Str(userId) else value)
                  case Query(holds) => holds(record)
        {
          assert PairHolds(pairs[i], record) by { assert pairs[i] in pairs; }
        }
      }
    }
  }

  /** A "cannot" that ranks highest denies what it matches, field-limited or not. */
  lemma CannotDeniesTheWholeSubject(permissions: seq<Permission>, p: Permission, userId: string,
                                    action: Action, subject: Subject, columns: seq<string>, record: Record)
    requires p.inverted && p.action in {action, Manage} && p.subject in {subject, All} && Meets(p, userId, record)
    ensures var ranked := RulesFor(RulesOf(permissions + [p], userId), action, subject);
            !Allowed(ranked, record) && !Selects(ScopeOf(ranked, columns), record)
  {
    var rules := RulesOf(permissions + [p], userId);
    assert (permissions + [p])[..|permissions|] == permissions;
    assert rules == RulesOf(permissions, userId) + [RuleOf(p, userId)];
    assert RulesFor(rules, action, subject)[0] == RuleOf(p, userId);
    RuleMatchesAsWritten(p, userId, record);
  }

  // ---- Who may see what ---------------------------------------------------------------------------

  /** A permission row behind a selected record: a grant without field limits that applies to it. */
  ghost predicate Grants(p: Permission, userId: string, action: Action, subject: Subject, record: Record) {
    && !p.inverted && p.fields == []
    && p.action in {action, Manage} && p.subject in {subject, All}
    && Meets(p, userId, record)
  }

  lemma {:induction false} RulesAre(permissions: seq<Permission>, userId: string, rule: Rule)
    ensures rule in RulesOf(permissions, userId)
            <==> exists p :: p in permissions && !Skipped(p) && rule == RuleOf(p, userId)
    decreases |permissions|
  {
    if permissions != [] {
      var last, front := permissions[|permissions| - 1], permissions[..|permissions| - 1];
      RulesAre(front, userId, rule);
      assert permissions == front + [last] && last in permissions;
    }
  }

  lemma {:induction false} PermissionsAre(roles: seq<Role>, p: Permission)
    ensures p in Permissions(roles)
            <==> exists role :: role in roles && role.permissions.Some? && p in role.permissions.value
    decreases |roles|
  {
    if roles != [] {
      var last, front := roles[|roles| - 1], roles[..|roles| - 1];
      PermissionsAre(front, p);
      assert roles == front + [last] && last in roles;
    }
  }

  /** The permission is one of a live role's, and not a field-limited grant. */
  ghost predicate Effective(user: Principal, now: int, p: Permission) {
    && (p.fields == [] || p.inverted)
    && exists role, k :: LastAt(Held(user, now), role, k) && role.permissions.Some? && p in role.permissions.value
  }

  /** The rules of anyone but a super-admin are what the permissions of the live roles say, and no others. */
  lemma RulesForUserAre(user: Principal, now: int, rule: Rule)
    requires forall role, k :: LastAt(Held(user, now), role, k) ==> role.name != SUPER_ADMIN
    ensures rule in RulesForUser(Some(user), now)
            <==> exists p :: Effective(user, now, p) && Carries(rule, p, user.id)
  {
    UnrestrictedExactly(user, now);
    var roles := Collected(Held(user, now));
    RulesAre(Permissions(roles), user.id, rule);
    forall p ensures p in Permissions(roles) && !Skipped(p) <==> Effective(user, now, p) {
      EffectiveExactly(user, now, p);
    }
    forall p ensures Carries(rule, p, user.id) <==> rule == RuleOf(p, user.id) { CarriesExactly(rule, p, user.id); }
  }

  lemma EffectiveExactly(user: Principal, now: int, p: Permission)
    ensures p in Permissions(Collected(Held(user, now))) && !Skipped(p) <==> Effective(user, now, p)
  {
    var held := Held(user, now);
    PermissionsAre(Collected(held), p);
    if role :| role in Collected(held) && role.permissions.Some? && p in role.permissions.value {
      LiveRolesAre(held, role);
    }
    if role: Role, k: nat :| LastAt(held, role, k) && role.permissions.Some? && p in role.permissions.value {
      LiveRolesAre(held, role);
    }
  }

  /** Permissions keep their order: roles in order, and each role's permissions in theirs. */
  lemma RulesKeepOrder(left: seq<Permission>, p: Permission, mid: seq<Permission>, q: Permission,
                       right: seq<Permission>, userId: string) returns (i: nat, j: nat)
    requires !Skipped(p) && !Skipped(q)
    ensures var rules := RulesOf(left + [p] + mid + [q] + right, userId);
            i < j < |rules| && Carries(rules[i], p, userId) && Carries(rules[j], q, userId)
  {
    OneRule(p, userId);
    OneRule(q, userId);
    RulesOfSplit(left + [p] + mid + [q], right, userId);
    RulesOfSplit(left + [p] + mid, [q], userId);
    RulesOfSplit(left + [p], mid, userId);
    RulesOfSplit(left, [p], userId);
    i := |RulesOf(left, userId)|;
    j := |RulesOf(left + [p] + mid, userId)|;
    CarriesExactly(RuleOf(p, userId), p, userId);
    CarriesExactly(RuleOf(q, userId), q, userId);
  }

  lemma OneRule(p: Permission, userId: string)
    requires !Skipped(p)
    ensures RulesOf([p], userId) == [RuleOf(p, userId)]
  {
    assert [p][..0] == [];
  }

  /** The permissions of earlier roles come first. */
  lemma {:induction false} PermissionsSplit(left: seq<Role>, right: seq<Role>)
    ensures Permissions(left + right) == Permissions(left) + Permissions(right)
    decreases |right|
  {
    if right == [] {
      assert left + right == left;
    } else {
      var last := |right| - 1;
      assert (left + right)[..|left| + last] == left + right[..last];
      PermissionsSplit(left, right[..last]);
    }
  }

  /** Guests are allowed nothing. */
  lemma GuestsSeeNothing(action: Action, subject: Subject, columns: seq<string>, record: Record, now: int)
    ensures var ranked := RulesFor(RulesForUser(None, now), action, subject);
            !Allowed(ranked, record) && !Selects(ScopeOf(ranked, columns), record)
  {
  }

  /** A principal is unrestricted exactly when a role it holds now, in the copy held last, is the super-admin role. */
  lemma UnrestrictedExactly(user: Principal, now: int)
    ensures Unrestricted(Collected(Held(user, now)))
            <==> exists role, k :: LastAt(Held(user, now), role, k) && role.name == SUPER_ADMIN
  {
    var held := Held(user, now);
    var roles := Collected(held);
    if i :| 0 <= i < |roles| && roles[i].name == SUPER_ADMIN {
      LiveRolesAre(held, roles[i]);
      assert roles[i] in roles;
    }
    if role: Role, k: nat :| LastAt(held, role, k) && role.name == SUPER_ADMIN {
      LiveRolesAre(held, role);
      var r :| 0 <= r < |roles| && roles[r] == role;
      assert roles[r].name == SUPER_ADMIN;
    }
  }

  /** A live super-admin gets the full scope, for every action, subject and choice of columns. */
  lemma SuperAdminSeesEverything(user: Principal, now: int, action: Action, subject: Subject, columns: seq<string>,
                                 role: Role, k: nat)
    requires LastAt(Held(user, now), role, k) && role.name == SUPER_ADMIN
    ensures ScopeOf(RulesFor(RulesForUser(Some(user), now), action, subject), columns) == Everything
  {
    UnrestrictedExactly(user, now);
    assert RulesForUser(Some(user), now) == EVERYTHING;
    assert EVERYTHING[..0] == [];
    assert RulesFor(EVERYTHING, action, subject) == EVERYTHING;
  }

  /**
   Whoever is not a super-admin is shown a record only through a permission of a live role that
   grants it, with the placeholder standing for the user's own id.
   */
  lemma SelectedIsGranted(user: Principal, now: int, action: Action, subject: Subject, columns: seq<string>,
                          record: Record)
    requires !Unrestricted(Collected(Held(user, now)))
    requires Selects(ScopeOf(RulesFor(RulesForUser(Some(user), now), action, subject), columns), record)
    ensures exists role, p :: role in Held(user, now) && role.permissions.Some? && p in role.permissions.value
                              && Grants(p, user.id, action, subject, record)
  {
    var roles := Collected(Held(user, now));
    var rules := RulesOf(Permissions(roles), user.id);
    var ranked := RulesFor(rules, action, subject);
    SelectsExactly(ranked, columns, record);
    var i :| 0 <= i < Leading(ranked) && Matches(ranked[i], record) && Exact(ranked[i], columns) == true;
    RulesForAre(rules, action, subject, ranked[i]);
    RulesAre(Permissions(roles), user.id, ranked[i]);
    var p :| p in Permissions(roles) && !Skipped(p) && ranked[i] == RuleOf(p, user.id);
    EffectiveExactly(user, now, p);
    var role: Role, k: nat :| LastAt(Held(user, now), role, k) && role.permissions.Some? && p in role.permissions.value;
    RuleMatchesAsWritten(p, user.id, record);
    assert role in Held(user, now) && Grants(p, user.id, action, subject, record);
  }

  /** `{ column: "${userId}" }` gives each user exactly their own records. */
  lemma OwnersSeeTheirOwn(column: string, columns: seq<string>, userId: string, record: Record)
    requires column in columns
    ensures var own := Permission(Manage, All, Some([Pair(column, Plain(Str(USER_ID)))]), [], false);
            Selects(ScopeOf([RuleOf(own, userId)], columns), record)
            <==> column in record && record[column] == Str(userId)
  {
    var own := Permission(Manage, All, Some([Pair(column, Plain(Str(USER_ID)))]), [], false);
    var rule := RuleOf(own, userId);
    var pair := rule.conditions.value[0];
    assert pair == Pair(column, Plain(Str(userId)));
    assert rule.conditions.value == [pair];
    SelectsExactly([rule], columns, record);
    assert Leading([rule]) == 1;
    assert Matches(rule, record) <==> PairHolds(pair, record);
  }
}
