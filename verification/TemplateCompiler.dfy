/** Compiling a company template into a manifest. `slug` stands for `slugify`. */
module TemplateCompiler {
  import opened Manifest
  import opened Text

  datatype Result<+T> = Ok(value: T) | Err(error: Error)
  datatype Error = UnknownRoles(ids: seq<string>) | NoRoles | NoManifestId | MissingManagerRole(roleId: string)

  datatype Role = Role(
    id: string, defaultEnabled: bool, managerRoleId: Option<string>, teamId: Option<string>,
    channels: Option<seq<string>>)

  datatype Override = Override(managerRoleId: Option<string>, teamId: Option<string>, channels: Option<seq<string>>)

  datatype Params = Params(
    templateId: string, roles: seq<Role>, channels: seq<string>,
    addRoleIds: seq<string>, removeRoleIds: seq<string>,
    overrides: map<string, Override>, companyId: Option<string>)

  type Slug = string -> string

  // ----- unique strings -----

  /** The trimmed, non-blank values that are not in `seen`, each where it first occurs. */
  function UniqueBeyond(values: seq<string>, seen: set<string>): seq<string> {
    if values == [] then []
    else
      var value := Trim(values[0]);
      if value == "" || value in seen then UniqueBeyond(values[1..], seen)
      else [value] + UniqueBeyond(values[1..], seen + {value})
  }

  function UniqueStrings(values: seq<string>): seq<string> {
    UniqueBeyond(values, {})
  }

  /** `x` is one of the values, trimmed. */
  ghost predicate Among(x: string, values: seq<string>) {
    exists i :: 0 <= i < |values| && Trim(values[i]) == x
  }

  lemma AmongCons(x: string, values: seq<string>)
    requires values != []
    ensures Among(x, values) <==> x == Trim(values[0]) || Among(x, values[1..])
  {
    hide Trim;
    if Among(x, values) {
      var i :| 0 <= i < |values| && Trim(values[i]) == x;
      if i > 0 { assert values[1..][i - 1] == values[i]; }
    }
    if Among(x, values[1..]) {
      var i :| 0 <= i < |values[1..]| && Trim(values[1..][i]) == x;
      assert values[i + 1] == values[1..][i];
    }
  }

  lemma {:induction false} UniqueFacts(values: seq<string>, seen: set<string>)
    ensures Distinct(UniqueBeyond(values, seen))
    ensures forall x: string :: x in UniqueBeyond(values, seen) <==> x != "" && x !in seen && Among(x, values)
  {
    hide Trim;
    if values != [] {
      var value := Trim(values[0]);
      UniqueFacts(values[1..], if value == "" || value in seen then seen else seen + {value});
      forall x: string ensures Among(x, values) <==> x == value || Among(x, values[1..]) { AmongCons(x, values); }
    }
  }

  /** `uniqueStrings`: every non-blank value once, trimmed, in the order of first occurrence. */
  method CollectUnique(values: seq<string>) returns (out: seq<string>)
    ensures out == UniqueStrings(values)
    ensures Distinct(out)
    ensures forall x: string :: x in out <==> x != "" && Among(x, values)
  {
    var seen: set<string> := {};
    out := [];
    ghost var left := values;
    for i := 0 to |values|
      invariant left == values[i..]
      invariant out + UniqueBeyond(left, seen) == UniqueStrings(values)
    {
      var value := Trim(values[i]);
      left := left[1..];
      if value == "" || value in seen { continue; }
      seen := seen + {value};
      out := out + [value];
    }
    UniqueFacts(values, {});
  }

  // ----- roles -----

  function Unknown(ids: seq<string>, known: set<string>): seq<string> {
    if ids == [] then [] else (if ids[0] in known then [] else [ids[0]]) + Unknown(ids[1..], known)
  }

  function Selected(roles: seq<Role>, ids: set<string>): seq<Role> {
    if roles == [] then []
    else
      var before, last := Selected(roles[..|roles| - 1], ids), roles[|roles| - 1];
      if last.id in ids then before + [last] else before
  }

  /** The roles enabled by default, without the removed and with the added ones. */
  function SelectedIds(p: Params): set<string> {
    (set r | r in p.roles && r.defaultEnabled :: r.id)
    - (set x | x in UniqueStrings(p.removeRoleIds))
    + (set x | x in UniqueStrings(p.addRoleIds))
  }

  function SelectRoles(p: Params): Result<seq<Role>> {
    var known := set r | r in p.roles :: r.id;
    var removed, added := UniqueStrings(p.removeRoleIds), UniqueStrings(p.addRoleIds);
    if Unknown(removed, known) != [] then Err(UnknownRoles(Unknown(removed, known)))
    else if Unknown(added, known) != [] then Err(UnknownRoles(Unknown(added, known)))
    else
      var roles := Selected(p.roles, SelectedIds(p));
      if roles == [] then Err(NoRoles) else Ok(roles)
  }

  lemma {:induction false} SelectedMembers(roles: seq<Role>, ids: set<string>)
    ensures forall r :: r in Selected(roles, ids) <==> r in roles && r.id in ids
  {
    if roles != [] {
      SelectedMembers(roles[..|roles| - 1], ids);
      assert roles == roles[..|roles| - 1] + [roles[|roles| - 1]];
    }
  }

  /** A role is added, or enabled by default and not removed. */
  ghost predicate IsSelected(p: Params, id: string) {
    || id in UniqueStrings(p.addRoleIds)
    || (id !in UniqueStrings(p.removeRoleIds) && exists x :: x in p.roles && x.defaultEnabled && x.id == id)
  }

  /** The set-building loops of `selectRoles`. */
  method ChooseRoles(p: Params) returns (r: Result<seq<Role>>)
    ensures r == SelectRoles(p)
    ensures r.Ok? ==> forall role :: role in r.value <==> role in p.roles && IsSelected(p, role.id)
  {
    var known := set x | x in p.roles :: x.id;
    var selectedRoleIds := set x | x in p.roles && x.defaultEnabled :: x.id;
    ghost var enabled := selectedRoleIds;
    var removeRoleIds := CollectUnique(p.removeRoleIds);
    var addRoleIds := CollectUnique(p.addRoleIds);
    if Unknown(removeRoleIds, known) != [] { return Err(UnknownRoles(Unknown(removeRoleIds, known))); }
    if Unknown(addRoleIds, known) != [] { return Err(UnknownRoles(Unknown(addRoleIds, known))); }
    for i := 0 to |removeRoleIds|
      invariant selectedRoleIds == enabled - (set x | x in removeRoleIds[..i])
    {
      selectedRoleIds := selectedRoleIds - {removeRoleIds[i]};
    }
    assert removeRoleIds[..|removeRoleIds|] == removeRoleIds;
    for i := 0 to |addRoleIds|
      invariant selectedRoleIds == enabled - (set x | x in removeRoleIds) + (set x | x in addRoleIds[..i])
    {
      selectedRoleIds := selectedRoleIds + {addRoleIds[i]};
    }
    assert addRoleIds[..|addRoleIds|] == addRoleIds;
    assert selectedRoleIds == SelectedIds(p);
    var selectedRoles := Selected(p.roles, selectedRoleIds);
    SelectedMembers(p.roles, selectedRoleIds);
    if |selectedRoles| == 0 { return Err(NoRoles); }
    return Ok(selectedRoles);
  }

  // ----- employees -----

  /** `a?.trim() || undefined`. */
  function TrimmedOrNone(s: Option<string>): Option<string> {
    if s.Some? && Trim(s.value) != "" then Some(Trim(s.value)) else None
  }

  function OverrideOf(p: Params, role: Role): Override {
    if role.id in p.overrides then p.overrides[role.id] else Override(None, None, None)
  }

  function Prefer<T>(a: Option<T>, b: Option<T>): Option<T> {
    if a.Some? then a else b
  }

  function ManagerRole(p: Params, role: Role): Option<string> {
    TrimmedOrNone(Prefer(OverrideOf(p, role).managerRoleId, role.managerRoleId))
  }

  function ChannelsOf(p: Params, role: Role): seq<string> {
    var own := Prefer(OverrideOf(p, role).channels, role.channels);
    UniqueStrings(if own.Some? then own.value else p.channels)
  }

  predicate HasRole(roles: seq<Role>, id: string) {
    exists i :: 0 <= i < |roles| && roles[i].id == id
  }

  /** The record of one selected role; its manager role must be selected and have a non-empty slug. */
  function EmployeeOf(p: Params, selected: seq<Role>, manifestId: string, role: Role, slug: Slug): Result<Employee> {
    var id, manager := slug(role.id), ManagerRole(p, role);
    var team := TrimmedOrNone(Prefer(OverrideOf(p, role).teamId, role.teamId));
    if manager.Some? && !(HasRole(selected, manager.value) && slug(manager.value) != "") then
      Err(MissingManagerRole(manager.value))
    else
      Ok(Employee(id, manifestId + "-" + id, id, team,
                  if manager.Some? then Some(slug(manager.value)) else None, ChannelsOf(p, role)))
  }

  function EmployeesOf(p: Params, selected: seq<Role>, manifestId: string, roles: seq<Role>,
                       slug: Slug): Result<seq<Employee>>
  {
    if roles == [] then Ok([])
    else
      var first := EmployeeOf(p, selected, manifestId, roles[0], slug);
      if first.Err? then Err(first.error)
      else
        var rest := EmployeesOf(p, selected, manifestId, roles[1..], slug);
        if rest.Err? then rest else Ok([first.value] + rest.value)
  }

  // ----- teams -----

  function TeamRefs(es: seq<Employee>): seq<string> {
    if es == [] then []
    else (if es[0].teamId.Some? then [es[0].teamId.value] else []) + TeamRefs(es[1..])
  }

  function Members(es: seq<Employee>, team: string): seq<Employee> {
    if es == [] then []
    else
      var before, last := Members(es[..|es| - 1], team), es[|es| - 1];
      if last.teamId == Some(team) then before + [last] else before
  }

  /** Whether the manager of `e` is one of `team`; an empty manager id counts as none. */
  predicate ManagedInside(e: Employee, team: seq<Employee>) {
    e.managerEmployeeId.Some? && e.managerEmployeeId.value != "" && e.managerEmployeeId.value in EmployeeIds(team)
  }

  /** The first of `rest` whose manager is not in the team. */
  function FirstUnmanaged(rest: seq<Employee>, team: seq<Employee>): Option<Employee> {
    if rest == [] then None
    else if !ManagedInside(rest[0], team) then Some(rest[0])
    else FirstUnmanaged(rest[1..], team)
  }

  function TeamManager(team: seq<Employee>): Employee
    requires team != []
  {
    var found := FirstUnmanaged(team, team);
    if found.Some? then found.value else team[0]
  }

  function TeamOf(es: seq<Employee>, id: string): Team {
    var team := Members(es, id);
    Team(id, if team == [] then None else Some(TeamManager(team).id))
  }

  function Teams(es: seq<Employee>): seq<Team> {
    var order := UniqueStrings(TeamRefs(es));
    seq(|order|, i requires 0 <= i < |order| => TeamOf(es, order[i]))
  }

  function AllChannels(es: seq<Employee>): seq<string> {
    if es == [] then [] else es[0].channels + AllChannels(es[1..])
  }

  function Compile(p: Params, slug: Slug): Result<Manifest> {
    var selected := SelectRoles(p);
    if selected.Err? then Err(selected.error)
    else
      var company := TrimmedOrNone(p.companyId);
      var manifestId := slug(if company.Some? then company.value else p.templateId);
      if manifestId == "" then Err(NoManifestId)
      else
        var employees := EmployeesOf(p, selected.value, manifestId, selected.value, slug);
        if employees.Err? then Err(employees.error)
        else
          Ok(Manifest(manifestId, UniqueStrings(p.channels + AllChannels(employees.value)),
                      Teams(employees.value), employees.value))
  }

  // ----- compiled manifests have no dangling reference -----

  lemma TrimIsTrimmed(s: string)
    ensures Trim(Trim(s)) == Trim(s)
  {
    var pre, post := TrimCuts(s);
    TrimOfTrimmed(Trim(s));
  }

  /** A trimmed value is kept as it is. */
  lemma UniqueKeeps(values: seq<string>, x: string)
    requires x in values && x != "" && Trim(x) == x
    ensures x in UniqueStrings(values)
  {
    hide Trim;
    var i :| 0 <= i < |values| && values[i] == x;
    assert Among(x, values);
    UniqueFacts(values, {});
  }

  lemma UniqueIsTrimmed(values: seq<string>, x: string)
    requires x in UniqueStrings(values)
    ensures x != "" && Trim(x) == x
  {
    hide Trim;
    UniqueFacts(values, {});
    var i :| 0 <= i < |values| && Trim(values[i]) == x;
    TrimIsTrimmed(values[i]);
  }

  lemma {:induction false} EmployeesFacts(p: Params, selected: seq<Role>, manifestId: string, roles: seq<Role>,
                                         slug: Slug)
    requires EmployeesOf(p, selected, manifestId, roles, slug).Ok?
    ensures var es := EmployeesOf(p, selected, manifestId, roles, slug).value;
            |es| == |roles| && forall i | 0 <= i < |es| ::
                EmployeeOf(p, selected, manifestId, roles[i], slug) == Ok(es[i])
    decreases |roles|
  {
    hide EmployeeOf;
    if roles != [] {
      EmployeesFacts(p, selected, manifestId, roles[1..], slug);
    }
  }

  lemma {:induction false} TeamRefsFacts(es: seq<Employee>, i: nat)
    requires i < |es| && es[i].teamId.Some?
    ensures es[i].teamId.value in TeamRefs(es)
  {
    if i > 0 { TeamRefsFacts(es[1..], i - 1); }
  }

  lemma {:induction false} ChannelsFacts(es: seq<Employee>, i: nat, c: string)
    requires i < |es| && c in es[i].channels
    ensures c in AllChannels(es)
  {
    if i > 0 { ChannelsFacts(es[1..], i - 1, c); }
  }

  lemma {:induction false} MembersFacts(es: seq<Employee>, team: string)
    ensures forall e | e in Members(es, team) :: e in es && e.teamId == Some(team)
  {
    if es != [] { MembersFacts(es[..|es| - 1], team); }
  }

  lemma {:induction false} FirstUnmanagedFacts(rest: seq<Employee>, team: seq<Employee>)
    ensures var found := FirstUnmanaged(rest, team);
            && (found.Some? ==> found.value in rest && !ManagedInside(found.value, team))
            && (found.None? <==> forall e | e in rest :: ManagedInside(e, team))
  {
    hide ManagedInside;
    if rest != [] {
      FirstUnmanagedFacts(rest[1..], team);
      assert rest == [rest[0]] + rest[1..];
    }
  }

  lemma InIds(es: seq<Employee>, e: Employee)
    requires e in es
    ensures e.id in EmployeeIds(es)
  {
    var i :| 0 <= i < |es| && es[i] == e;
    assert EmployeeIds(es)[i] == e.id;
  }

  lemma TeamManagerResolves(es: seq<Employee>, team: string)
    ensures Resolves(TeamOf(es, team).managerEmployeeId, EmployeeIds(es))
  {
    var members := Members(es, team);
    if members != [] {
      MembersFacts(es, team);
      FirstUnmanagedFacts(members, members);
      assert members[0] in members;
      InIds(es, TeamManager(members));
    }
  }

  /** The slugs of the selected roles, which become the employee ids. */
  function Slugs(roles: seq<Role>, slug: Slug): seq<string> {
    seq(|roles|, i requires 0 <= i < |roles| => slug(roles[i].id))
  }

  lemma OneEmployeeResolves(p: Params, selected: seq<Role>, manifestId: string, slug: Slug, i: nat)
    requires EmployeesOf(p, selected, manifestId, selected, slug).Ok? && i < |selected|
    ensures var es := EmployeesOf(p, selected, manifestId, selected, slug).value;
            var m := Manifest(manifestId, UniqueStrings(p.channels + AllChannels(es)), Teams(es), es);
            |es| == |selected| && EmployeeResolves(es[i], m)
  {
    hide Trim, UniqueStrings, TeamOf;
    var es := EmployeesOf(p, selected, manifestId, selected, slug).value;
    EmployeesFacts(p, selected, manifestId, selected, slug);
    var m := Manifest(manifestId, UniqueStrings(p.channels + AllChannels(es)), Teams(es), es);
    var e, role := es[i], selected[i];
    if e.teamId.Some? {
      TrimIsTrimmed(Prefer(OverrideOf(p, role).teamId, role.teamId).value);
      TeamRefsFacts(es, i);
      UniqueKeeps(TeamRefs(es), e.teamId.value);
      var k :| 0 <= k < |UniqueStrings(TeamRefs(es))| && UniqueStrings(TeamRefs(es))[k] == e.teamId.value;
      assert TeamIds(m)[k] == TeamOf(es, e.teamId.value).id == e.teamId.value by { TeamOfId(es, e.teamId.value); }
    }
    if e.managerEmployeeId.Some? {
      var k :| 0 <= k < |selected| && selected[k].id == ManagerRole(p, role).value;
      assert EmployeeIds(es)[k] == e.managerEmployeeId.value;
    }
    forall c | c in e.channels ensures c in m.channels {
      var own := Prefer(OverrideOf(p, role).channels, role.channels);
      UniqueIsTrimmed(if own.Some? then own.value else p.channels, c);
      ChannelsFacts(es, i, c);
      UniqueKeeps(p.channels + AllChannels(es), c);
    }
  }

  lemma TeamOfId(es: seq<Employee>, id: string)
    ensures TeamOf(es, id).id == id
  {}

  lemma SamePrefix(prefix: string, a: string, b: string)
    ensures prefix + a == prefix + b <==> a == b
  {
    assert (prefix + a)[|prefix|..] == a && (prefix + b)[|prefix|..] == b;
  }

  lemma IdsOf(p: Params, selected: seq<Role>, manifestId: string, role: Role, slug: Slug)
    requires EmployeeOf(p, selected, manifestId, role, slug).Ok?
    ensures var e := EmployeeOf(p, selected, manifestId, role, slug).value;
            e.id == e.accountId == slug(role.id) && e.agentId == manifestId + "-" + slug(role.id)
  {}

  lemma IdsAreSlugs(p: Params, selected: seq<Role>, manifestId: string, slug: Slug)
    requires EmployeesOf(p, selected, manifestId, selected, slug).Ok?
    ensures var es := EmployeesOf(p, selected, manifestId, selected, slug).value;
            && EmployeeIds(es) == AccountIds(es) == Slugs(selected, slug)
            && (Distinct(AgentIds(es)) <==> Distinct(Slugs(selected, slug)))
  {
    var es := EmployeesOf(p, selected, manifestId, selected, slug).value;
    EmployeesFacts(p, selected, manifestId, selected, slug);
    hide EmployeeOf, EmployeesOf;
    var slugs := Slugs(selected, slug);
    forall i | 0 <= i < |es|
      ensures es[i].id == es[i].accountId == slugs[i] && es[i].agentId == manifestId + "-" + slugs[i]
    {
      IdsOf(p, selected, manifestId, selected[i], slug);
    }
    forall i, j | 0 <= i < j < |es| ensures AgentIds(es)[i] == AgentIds(es)[j] <==> slugs[i] == slugs[j] {
      SamePrefix(manifestId + "-", slugs[i], slugs[j]);
    }
  }

  /** A compiled manifest passes the reference check exactly when the selected roles have distinct
      slugs; nothing else about it can fail the check. */
  lemma CompiledResolvesIff(p: Params, slug: Slug)
    requires Compile(p, slug).Ok?
    ensures ReferencesResolve(Compile(p, slug).value) <==> Distinct(Slugs(SelectRoles(p).value, slug))
  {
    var m, selected := Compile(p, slug).value, SelectRoles(p).value;
    var es := m.employees;
    IdsAreSlugs(p, selected, m.id, slug);
    EmployeesFacts(p, selected, m.id, selected, slug);
    forall i | 0 <= i < |es| ensures EmployeeResolves(es[i], m) { OneEmployeeResolves(p, selected, m.id, slug, i); }
    var order := UniqueStrings(TeamRefs(es));
    UniqueFacts(TeamRefs(es), {});
    forall i | 0 <= i < |order|
      ensures TeamIds(m)[i] == order[i] && Resolves(m.teams[i].managerEmployeeId, EmployeeIds(es))
    {
      TeamOfId(es, order[i]);
      TeamManagerResolves(es, order[i]);
    }
  }

  ghost predicate DistinctRoles(roles: seq<Role>) {
    forall i, j | 0 <= i < j < |roles| :: roles[i].id != roles[j].id
  }

  /** Unique role ids and a slug that keeps them apart are enough. */
  lemma InjectiveSlugsResolve(p: Params, slug: Slug)
    requires Compile(p, slug).Ok?
    requires DistinctRoles(p.roles)
    requires SelectRoles(p).Ok?
    requires forall a, b | a in SelectRoles(p).value && b in SelectRoles(p).value &&
              slug(a.id) == slug(b.id) :: a.id == b.id
    ensures ReferencesResolve(Compile(p, slug).value)
  {
    CompiledResolvesIff(p, slug);
    hide ReferencesResolve, Compile, SelectRoles;
    var selected := SelectRoles(p).value;
    SelectedAreDistinct(p);
    forall i, j | 0 <= i < j < |selected| ensures Slugs(selected, slug)[i] != Slugs(selected, slug)[j] {
      assert selected[i] in selected && selected[j] in selected;
    }
  }

  lemma SelectedAreDistinct(p: Params)
    requires SelectRoles(p).Ok?
    requires DistinctRoles(p.roles)
    ensures DistinctRoles(SelectRoles(p).value)
  {
    SelectedDistinct(p.roles, SelectedIds(p));
  }

  lemma {:induction false} SelectedDistinct(roles: seq<Role>, ids: set<string>)
    requires DistinctRoles(roles)
    ensures forall r | r in Selected(roles, ids) :: r in roles
    ensures DistinctRoles(Selected(roles, ids))
  {
    if roles != [] {
      var init, last := roles[..|roles| - 1], roles[|roles| - 1];
      SelectedDistinct(init, ids);
      assert roles == init + [last];
      var before := Selected(init, ids);
      forall j | 0 <= j < |before| ensures before[j] in init && before[j].id != last.id {
        assert before[j] in before;
      }
    }
  }

  // ----- the manager of a team -----

  /** The member that manages member `i`. */
  ghost predicate Manages(team: seq<Employee>, i: nat, j: nat) {
    i < |team| && j < |team| && team[i].managerEmployeeId == Some(team[j].id) && team[j].id != ""
  }

  /** A walk along manager links inside the team that comes back to where it started. */
  ghost predicate IsCycle(team: seq<Employee>, walk: seq<nat>) {
    && |walk| >= 2 && walk[0] == walk[|walk| - 1]
    && forall k | 0 <= k < |walk| - 1 :: Manages(team, walk[k], walk[k + 1])
  }

  lemma ManagerInside(team: seq<Employee>, i: nat) returns (j: nat)
    requires i < |team| && ManagedInside(team[i], team)
    ensures Manages(team, i, j)
  {
    j :| 0 <= j < |team| && EmployeeIds(team)[j] == team[i].managerEmployeeId.value;
  }

  /** Following managers `n` times from the first member. */
  lemma {:induction false} Climb(team: seq<Employee>, n: nat) returns (walk: seq<nat>)
    requires team != [] && forall e | e in team :: ManagedInside(e, team)
    ensures |walk| == n + 1 && forall k | 0 <= k < |walk| :: walk[k] < |team|
    ensures forall k | 0 <= k < n :: Manages(team, walk[k], walk[k + 1])
  {
    if n == 0 {
      walk := [0];
    } else {
      walk := Climb(team, n - 1);
      var next := ManagerInside(team, walk[n - 1]);
      walk := walk + [next];
    }
  }

  lemma {:induction false} Pigeonhole(walk: seq<nat>, n: nat)
    requires |walk| > n && forall k | 0 <= k < |walk| :: walk[k] < n
    ensures exists i, j :: 0 <= i < j < |walk| && walk[i] == walk[j]
    decreases n
  {
    if forall i, j | 0 <= i < j < |walk| :: walk[i] != walk[j] {
      DistinctCount(walk);
      BelowFacts(n);
      SubsetCount(Elements(walk), Below(n));
    }
  }

  ghost function Elements(walk: seq<nat>): set<nat> {
    set x | x in walk
  }

  lemma {:induction false} DistinctCount(walk: seq<nat>)
    requires forall i, j | 0 <= i < j < |walk| :: walk[i] != walk[j]
    ensures |Elements(walk)| == |walk|
  {
    if walk != [] {
      var init, last := walk[..|walk| - 1], walk[|walk| - 1];
      DistinctCount(init);
      assert walk == init + [last];
      assert Elements(walk) == Elements(init) + {last};
    }
  }

  ghost function Below(n: nat): set<nat> {
    if n == 0 then {} else Below(n - 1) + {n - 1}
  }

  lemma {:induction false} BelowFacts(n: nat)
    ensures |Below(n)| == n && forall k: nat :: k in Below(n) <==> k < n
  {
    if n > 0 { BelowFacts(n - 1); }
  }

  lemma {:induction false} SubsetCount(a: set<nat>, b: set<nat>)
    requires a <= b
    ensures |a| <= |b|
  {
    if a != {} {
      var x :| x in a;
      SubsetCount(a - {x}, b - {x});
    }
  }

  /** If every member is managed inside the team, the manager links have a cycle. */
  lemma AllManagedMeansCycle(team: seq<Employee>) returns (cycle: seq<nat>)
    requires team != [] && forall e | e in team :: ManagedInside(e, team)
    ensures IsCycle(team, cycle)
  {
    var walk := Climb(team, |team|);
    Pigeonhole(walk, |team|);
    var i, j :| 0 <= i < j < |walk| && walk[i] == walk[j];
    cycle := walk[i..j + 1];
  }

  /** The chosen manager has no manager inside the team, unless every member has one; and then the
      manager links have a cycle. Without a cycle the fallback is never reached. */
  lemma TeamManagerIsOnTop(team: seq<Employee>)
    requires team != []
    ensures TeamManager(team) in team
    ensures ManagedInside(TeamManager(team), team) <==> forall e | e in team :: ManagedInside(e, team)
    ensures (forall walk: seq<nat> :: !IsCycle(team, walk)) ==> !ManagedInside(TeamManager(team), team)
  {
    FirstUnmanagedFacts(team, team);
    assert team[0] in team;
    if ManagedInside(TeamManager(team), team) {
      var cycle := AllManagedMeansCycle(team);
    }
  }

  // ----- what a compiled manifest says -----

  ghost predicate Ascending(at: seq<nat>) {
    forall i, j | 0 <= i < j < |at| :: at[i] < at[j]
  }

  ghost function Shifted(at: seq<nat>): seq<nat> {
    seq(|at|, i requires 0 <= i < |at| => at[i] + 1)
  }

  /** `at` are the positions at which the values of `unique`, in their order, first occur. */
  ghost predicate FirstsAt(values: seq<string>, unique: seq<string>, at: seq<nat>) {
    && Ascending(at) && |at| == |unique|
    && (forall i | 0 <= i < |at| :: at[i] < |values| && Trim(values[at[i]]) == unique[i])
    && (forall i, k | 0 <= i < |at| && 0 <= k < at[i] && k < |values| :: Trim(values[k]) != unique[i])
  }

  lemma FirstsShift(values: seq<string>, unique: seq<string>, at: seq<nat>)
    requires values != [] && FirstsAt(values[1..], unique, at) && Trim(values[0]) !in unique
    ensures FirstsAt(values, unique, Shifted(at))
  {
    hide Trim;
    var rest := values[1..];
    assert forall k | 1 <= k < |values| :: values[k] == rest[k - 1];
    assert forall i | 0 <= i < |unique| :: unique[i] in unique;
  }

  lemma FirstsCons(values: seq<string>, unique: seq<string>, at: seq<nat>)
    requires values != [] && FirstsAt(values, unique, at) && forall i | 0 <= i < |at| :: at[i] > 0
    ensures FirstsAt(values, [Trim(values[0])] + unique, [0] + at)
  {
    hide Trim;
  }

  /** The unique values come in the order in which they first occur. */
  lemma {:induction false} UniqueInOrder(values: seq<string>, seen: set<string>) returns (at: seq<nat>)
    ensures FirstsAt(values, UniqueBeyond(values, seen), at)
  {
    hide Trim, FirstsAt;
    if values == [] {
      at := [];
      NoFirsts();
    } else {
      var value, rest := Trim(values[0]), values[1..];
      var first := value != "" && value !in seen;
      var more := if first then seen + {value} else seen;
      var later := UniqueInOrder(rest, more);
      UniqueFacts(rest, more);
      FirstsShift(values, UniqueBeyond(rest, more), later);
      at := Shifted(later);
      if first {
        FirstsCons(values, UniqueBeyond(rest, more), at);
        at := [0] + at;
      }
    }
  }

  lemma NoFirsts()
    ensures FirstsAt([], [], [])
  {}

  /** `k` is one of the positions. */
  ghost predicate IsAt(at: seq<nat>, k: nat) {
    exists i :: 0 <= i < |at| && at[i] == k
  }

  lemma OneMoreAt(at: seq<nat>, n: nat)
    requires Ascending(at) && forall i | 0 <= i < |at| :: at[i] < n
    ensures Ascending(at + [n]) && IsAt(at + [n], n) && forall k: nat | IsAt(at, k) :: IsAt(at + [n], k)
  {
    assert (at + [n])[|at|] == n;
    forall k: nat | IsAt(at, k) ensures IsAt(at + [n], k) {
      var i :| 0 <= i < |at| && at[i] == k;
      assert (at + [n])[i] == k;
    }
  }

  /** The selected roles are in the template's order, each as often as there. */
  lemma {:induction false} SelectedInOrder(roles: seq<Role>, ids: set<string>) returns (at: seq<nat>)
    ensures Ascending(at) && |at| == |Selected(roles, ids)|
    ensures forall i | 0 <= i < |at| ::
              at[i] < |roles| && roles[at[i]].id in ids && Selected(roles, ids)[i] == roles[at[i]]
    ensures forall k: nat | k < |roles| && roles[k].id in ids :: IsAt(at, k)
  {
    at := [];
    if roles != [] {
      var n := |roles| - 1;
      at := SelectedInOrder(roles[..n], ids);
      OneMoreAt(at, n);
      hide IsAt, Ascending;
      if roles[n].id in ids { at := at + [n]; }
    }
  }

  lemma {:induction false} MembersInOrder(es: seq<Employee>, team: string) returns (at: seq<nat>)
    ensures AreMembers(at, es, team) && |at| == |Members(es, team)|
    ensures forall i | 0 <= i < |at| :: Members(es, team)[i] == es[at[i]]
  {
    at := [];
    if es != [] {
      var n := |es| - 1;
      at := MembersInOrder(es[..n], team);
      OneMoreAt(at, n);
      hide IsAt, Ascending;
      if es[n].teamId == Some(team) { at := at + [n]; }
    }
  }

  /** The id that a text names: trimmed, and none if nothing is left. */
  ghost predicate Names(id: Option<string>, given: Option<string>) {
    if given.Some? && Trim(given.value) != "" then id == Some(Trim(given.value)) else id == None
  }

  /** The employee that a selected role becomes: its ids come from the slug of the role; its team, manager and
      channels from the override of the role, where that says something, and else from the role. */
  ghost predicate Becomes(e: Employee, role: Role, p: Params, manifestId: string, selected: seq<Role>, slug: Slug) {
    var over := if role.id in p.overrides then p.overrides[role.id] else Override(None, None, None);
    && e.id == slug(role.id) && e.accountId == slug(role.id) && e.agentId == manifestId + "-" + slug(role.id)
    && (exists team ::
          && (if over.teamId.Some? then team == over.teamId else team == role.teamId)
          && Names(e.teamId, team))
    && (exists manager, id: Option<string> ::
          && (if over.managerRoleId.Some? then manager == over.managerRoleId else manager == role.managerRoleId)
          && Names(id, manager)
          && (id.None? ==> e.managerEmployeeId == None)
          && (id.Some? ==> e.managerEmployeeId == Some(slug(id.value)) && slug(id.value) != "" &&
                           exists k :: 0 <= k < |selected| && selected[k].id == id.value))
    && Distinct(e.channels)
    && forall c :: c in e.channels <==>
         c != "" && Among(c, if over.channels.Some? then over.channels.value
                             else if role.channels.Some? then role.channels.value else p.channels)
  }

  lemma EmployeeBecomes(p: Params, selected: seq<Role>, manifestId: string, role: Role, slug: Slug)
    requires EmployeeOf(p, selected, manifestId, role, slug).Ok?
    ensures Becomes(EmployeeOf(p, selected, manifestId, role, slug).value, role, p, manifestId, selected, slug)
  {
    hide Trim, Among;
    var over := OverrideOf(p, role);
    var team := Prefer(over.teamId, role.teamId);
    var manager := Prefer(over.managerRoleId, role.managerRoleId);
    var e := EmployeeOf(p, selected, manifestId, role, slug).value;
    assert Names(e.teamId, team) && Names(ManagerRole(p, role), manager);
    var own := Prefer(over.channels, role.channels);
    UniqueFacts(if own.Some? then own.value else p.channels, {});
  }

  /** `at` are the positions of the members of a team. */
  ghost predicate AreMembers(at: seq<nat>, es: seq<Employee>, id: string) {
    && Ascending(at) && (forall i | 0 <= i < |at| :: at[i] < |es| && es[at[i]].teamId == Some(id))
    && forall k: nat | k < |es| && es[k].teamId == Some(id) :: IsAt(at, k)
  }

  /** The manager of employee `i` is one of those at `at`. */
  ghost predicate ManagedAmong(es: seq<Employee>, i: nat, at: seq<nat>) {
    && i < |es| && es[i].managerEmployeeId.Some? && es[i].managerEmployeeId.value != ""
    && exists n: nat :: n < |at| && at[n] < |es| && es[at[n]].id == es[i].managerEmployeeId.value
  }

  /** The manager of a team is the first of its members, in manifest order, that has no manager among them,
      or the first member if all have. */
  ghost predicate IsTeam(t: Team, es: seq<Employee>) {
    exists at: seq<nat>, m: nat ::
      && AreMembers(at, es, t.id) && m < |at| && t.managerEmployeeId == Some(es[at[m]].id)
      && (forall n: nat | n < m :: ManagedAmong(es, at[n], at))
      && (ManagedAmong(es, at[m], at) ==> m == 0 && forall n: nat | n < |at| :: ManagedAmong(es, at[n], at))
  }

  lemma {:induction false} FirstUnmanagedAt(rest: seq<Employee>, team: seq<Employee>) returns (m: nat)
    requires FirstUnmanaged(rest, team).Some?
    ensures m < |rest| && rest[m] == FirstUnmanaged(rest, team).value && !ManagedInside(rest[m], team)
    ensures forall n | 0 <= n < m :: ManagedInside(rest[n], team)
  {
    hide ManagedInside;
    if ManagedInside(rest[0], team) {
      m := FirstUnmanagedAt(rest[1..], team);
      m := m + 1;
    } else {
      m := 0;
    }
  }

  lemma ManagedAmongIff(es: seq<Employee>, team: seq<Employee>, at: seq<nat>, n: nat)
    requires |at| == |team| && n < |at| && forall i | 0 <= i < |at| :: at[i] < |es| && team[i] == es[at[i]]
    ensures ManagedAmong(es, at[n], at) <==> ManagedInside(team[n], team)
  {
    var ids := EmployeeIds(team);
    assert forall i: nat | i < |at| :: ids[i] == es[at[i]].id;
  }

  lemma TeamOfIs(es: seq<Employee>, id: string)
    requires exists i :: 0 <= i < |es| && es[i].teamId == Some(id)
    ensures IsTeam(TeamOf(es, id), es)
  {
    hide ManagedInside, ManagedAmong, Members, FirstUnmanaged;
    var team := Members(es, id);
    var at := MembersInOrder(es, id);
    forall n: nat | n < |at| ensures ManagedAmong(es, at[n], at) <==> ManagedInside(team[n], team) {
      ManagedAmongIff(es, team, at, n);
    }
    FirstUnmanagedFacts(team, team);
    var m: nat := 0;
    if FirstUnmanaged(team, team).Some? { m := FirstUnmanagedAt(team, team); }
    assert forall n: nat | n < |at| :: team[n] in team;
    assert AreMembers(at, es, id);
    assert TeamOf(es, id).managerEmployeeId == Some(es[at[m]].id);
  }

  lemma {:induction false} InTeamRefs(es: seq<Employee>, id: string)
    ensures id in TeamRefs(es) <==> exists i :: 0 <= i < |es| && es[i].teamId == Some(id)
  {
    if es != [] {
      InTeamRefs(es[1..], id);
      assert forall i | 1 <= i < |es| :: es[i] == es[1..][i - 1];
    }
  }

  lemma {:induction false} InAllChannels(es: seq<Employee>, c: string)
    ensures c in AllChannels(es) <==> exists i :: 0 <= i < |es| && c in es[i].channels
  {
    if es != [] {
      InAllChannels(es[1..], c);
      assert forall i | 1 <= i < |es| :: es[i] == es[1..][i - 1];
    }
  }

  /** Team ids and channels of employees are trimmed and not empty. */
  ghost predicate Clean(es: seq<Employee>) {
    && (forall i | 0 <= i < |es| && es[i].teamId.Some? ::
          es[i].teamId.value != "" && Trim(es[i].teamId.value) == es[i].teamId.value)
    && (forall i, c | 0 <= i < |es| && c in es[i].channels :: c != "" && Trim(c) == c)
  }

  lemma EmployeeIsClean(p: Params, selected: seq<Role>, manifestId: string, role: Role, slug: Slug)
    requires EmployeeOf(p, selected, manifestId, role, slug).Ok?
    ensures Clean([EmployeeOf(p, selected, manifestId, role, slug).value])
  {
    var e := EmployeeOf(p, selected, manifestId, role, slug).value;
    if e.teamId.Some? { TrimIsTrimmed(Prefer(OverrideOf(p, role).teamId, role.teamId).value); }
    var own := Prefer(OverrideOf(p, role).channels, role.channels);
    forall c | c in e.channels ensures c != "" && Trim(c) == c {
      UniqueIsTrimmed(if own.Some? then own.value else p.channels, c);
    }
  }

  lemma TeamsAre(es: seq<Employee>)
    requires Clean(es)
    ensures var teams := Teams(es);
            && (forall i, j | 0 <= i < j < |teams| :: teams[i].id != teams[j].id)
            && (forall i | 0 <= i < |teams| :: IsTeam(teams[i], es))
            && (forall i | 0 <= i < |es| && es[i].teamId.Some? ::
                  exists t :: 0 <= t < |teams| && teams[t].id == es[i].teamId.value)
  {
    hide Trim, IsTeam, TeamOf;
    var refs, order, teams := TeamRefs(es), UniqueStrings(TeamRefs(es)), Teams(es);
    UniqueFacts(refs, {});
    forall i | 0 <= i < |order| ensures teams[i] == TeamOf(es, order[i]) && teams[i].id == order[i] {
      TeamOfId(es, order[i]);
    }
    forall i | 0 <= i < |order| ensures IsTeam(TeamOf(es, order[i]), es) {
      assert order[i] in order;
      var k :| 0 <= k < |refs| && Trim(refs[k]) == order[i];
      InTeamRefs(es, refs[k]);
      TeamOfIs(es, order[i]);
    }
    forall i | 0 <= i < |es| && es[i].teamId.Some?
      ensures exists t :: 0 <= t < |order| && order[t] == es[i].teamId.value
    {
      InTeamRefs(es, es[i].teamId.value);
      UniqueKeeps(refs, es[i].teamId.value);
    }
  }

  lemma ChannelsAre(es: seq<Employee>, channels: seq<string>)
    requires Clean(es)
    ensures var all := UniqueStrings(channels + AllChannels(es));
            Distinct(all) && forall c :: c in all <==>
              c != "" && (Among(c, channels) || exists i :: 0 <= i < |es| && c in es[i].channels)
  {
    hide Trim;
    var own := AllChannels(es);
    UniqueFacts(channels + own, {});
    forall c
      ensures Among(c, channels + own) <==> Among(c, channels) || exists i :: 0 <= i < |es| && c in es[i].channels
    {
      InAllChannels(es, c);
      AmongAppend(c, channels, own);
      if Among(c, own) {
        var k :| 0 <= k < |own| && Trim(own[k]) == c;
        InAllChannels(es, own[k]);
      }
      if c in own {
        var k :| 0 <= k < |own| && own[k] == c;
        assert Trim(own[k]) == c;
      }
    }
  }

  lemma AmongAppend(x: string, a: seq<string>, b: seq<string>)
    ensures Among(x, a + b) <==> Among(x, a) || Among(x, b)
  {
    hide Trim;
    if Among(x, a + b) {
      var i :| 0 <= i < |a + b| && Trim((a + b)[i]) == x;
      if i >= |a| { assert Trim(b[i - |a|]) == x; } else { assert Trim(a[i]) == x; }
    }
    if Among(x, a) {
      var i :| 0 <= i < |a| && Trim(a[i]) == x;
      assert Trim((a + b)[i]) == x;
    }
    if Among(x, b) {
      var i :| 0 <= i < |b| && Trim(b[i]) == x;
      assert Trim((a + b)[|a| + i]) == x;
    }
  }

  lemma CompiledEmployees(p: Params, selected: seq<Role>, manifestId: string, slug: Slug)
    requires EmployeesOf(p, selected, manifestId, selected, slug).Ok?
    ensures var es := EmployeesOf(p, selected, manifestId, selected, slug).value;
            && |es| == |selected| && Clean(es)
            && forall i | 0 <= i < |es| :: Becomes(es[i], selected[i], p, manifestId, selected, slug)
  {
    var es := EmployeesOf(p, selected, manifestId, selected, slug).value;
    EmployeesFacts(p, selected, manifestId, selected, slug);
    hide EmployeeOf, EmployeesOf, Becomes, Trim;
    forall i | 0 <= i < |selected|
      ensures Becomes(es[i], selected[i], p, manifestId, selected, slug) && Clean([es[i]])
    {
      EmployeeBecomes(p, selected, manifestId, selected[i], slug);
      EmployeeIsClean(p, selected, manifestId, selected[i], slug);
    }
    assert forall i | 0 <= i < |es| :: Clean([es[i]]) && [es[i]][0] == es[i];
  }

  /** A compiled manifest: one employee per selected role, in the order of the template; one team per team id
      in use; and the channels of the workspace and of all employees. */
  lemma CompiledManifestIs(p: Params, slug: Slug)
    requires Compile(p, slug).Ok?
    ensures SelectRoles(p).Ok?
    ensures var m, selected := Compile(p, slug).value, SelectRoles(p).value;
            && m.id != ""
            && (exists company :: Names(company, p.companyId) &&
                  m.id == slug(if company.Some? then company.value else p.templateId))
            && |m.employees| == |selected|
            && (forall i | 0 <= i < |selected| :: Becomes(m.employees[i], selected[i], p, m.id, selected, slug))
            && Distinct(TeamIds(m)) && (forall i | 0 <= i < |m.teams| :: IsTeam(m.teams[i], m.employees))
            && (forall i | 0 <= i < |m.employees| && m.employees[i].teamId.Some? ::
                  m.employees[i].teamId.value in TeamIds(m))
            && Distinct(m.channels)
            && (forall c :: c in m.channels <==>
                  && c != ""
                  && (Among(c, p.channels) || exists i :: 0 <= i < |m.employees| && c in m.employees[i].channels))
  {
    var m, selected := Compile(p, slug).value, SelectRoles(p).value;
    var es := m.employees;
    CompiledEmployees(p, selected, m.id, slug);
    TeamsAre(es);
    ChannelsAre(es, p.channels);
    hide Becomes, EmployeesOf, SelectRoles, IsTeam, UniqueStrings, Teams, Clean, Among;
    assert Names(TrimmedOrNone(p.companyId), p.companyId);
    forall i | 0 <= i < |es| && es[i].teamId.Some? ensures es[i].teamId.value in TeamIds(m) {
      var t :| 0 <= t < |m.teams| && m.teams[t].id == es[i].teamId.value;
      assert TeamIds(m)[t] == es[i].teamId.value;
    }
  }

  // ----- when there is no manifest -----

  /** An id in the list, trimmed, that no role of the template has. */
  ghost predicate IsUnknown(x: string, ids: seq<string>, roles: seq<Role>) {
    x != "" && Among(x, ids) && !HasRole(roles, x)
  }

  lemma {:induction false} UnknownFacts(ids: seq<string>, known: set<string>)
    ensures forall x :: x in Unknown(ids, known) <==> x in ids && x !in known
  {
    if ids != [] {
      UnknownFacts(ids[1..], known);
      assert ids == [ids[0]] + ids[1..];
    }
  }

  lemma UnknownsAre(ids: seq<string>, roles: seq<Role>)
    ensures var unknown := Unknown(UniqueStrings(ids), set r | r in roles :: r.id);
            && (forall x :: x in unknown <==> IsUnknown(x, ids, roles))
            && (unknown != [] <==> exists x :: IsUnknown(x, ids, roles))
  {
    hide Among;
    var known := set r | r in roles :: r.id;
    UniqueFacts(ids, {});
    UnknownFacts(UniqueStrings(ids), known);
    forall x ensures x in known <==> HasRole(roles, x) {
      if HasRole(roles, x) {
        var i :| 0 <= i < |roles| && roles[i].id == x;
        assert roles[i] in roles;
      }
    }
    var unknown := Unknown(UniqueStrings(ids), known);
    if unknown != [] { assert unknown[0] in unknown; }
  }

  /** Roles are selected unless an id to remove, or else one to add, is unknown, and then all such ids are
      reported, or nothing is selected. */
  lemma SelectFailsIff(p: Params)
    ensures var r := SelectRoles(p);
            var removes := exists x :: IsUnknown(x, p.removeRoleIds, p.roles);
            var adds := exists x :: IsUnknown(x, p.addRoleIds, p.roles);
            && (removes || adds ==>
                  && r.Err? && r.error.UnknownRoles?
                  && forall x ::
                       x in r.error.ids <==> IsUnknown(x, if removes then p.removeRoleIds else p.addRoleIds, p.roles))
            && (!removes && !adds ==>
                  if exists role :: role in p.roles && IsSelected(p, role.id) then r.Ok? else r == Err(NoRoles))
  {
    hide IsUnknown, UniqueStrings, Unknown;
    UnknownsAre(p.removeRoleIds, p.roles);
    UnknownsAre(p.addRoleIds, p.roles);
    SelectedMembers(p.roles, SelectedIds(p));
    var roles := Selected(p.roles, SelectedIds(p));
    assert roles != [] ==> roles[0] in roles;
  }

  /** The manager role that `role` names, after overriding, is not selected or has an empty slug. */
  ghost predicate LacksManager(p: Params, role: Role, selected: seq<Role>, slug: Slug, manager: string) {
    && Names(Some(manager), if role.id in p.overrides && p.overrides[role.id].managerRoleId.Some?
                            then p.overrides[role.id].managerRoleId else role.managerRoleId)
    && !(HasRole(selected, manager) && slug(manager) != "")
  }

  lemma {:induction false} EmployeesFailIff(p: Params, selected: seq<Role>, manifestId: string, roles: seq<Role>,
                                            slug: Slug)
    ensures var r := EmployeesOf(p, selected, manifestId, roles, slug);
            && (r.Err? ==> exists i, manager ::
                  && 0 <= i < |roles| && LacksManager(p, roles[i], selected, slug, manager)
                  && r.error == MissingManagerRole(manager)
                  && forall j, other | 0 <= j < i :: !LacksManager(p, roles[j], selected, slug, other))
            && (r.Ok? ==> forall i, manager | 0 <= i < |roles| :: !LacksManager(p, roles[i], selected, slug, manager))
    decreases |roles|
  {
    if roles != [] {
      var rest, r := roles[1..], EmployeesOf(p, selected, manifestId, roles, slug);
      EmployeesFailIff(p, selected, manifestId, rest, slug);
      OneFailsIff(p, selected, manifestId, roles[0], slug);
      hide EmployeeOf, LacksManager;
      var first := EmployeeOf(p, selected, manifestId, roles[0], slug);
      if first.Ok? && r.Err? {
        var i, manager :| 0 <= i < |rest| && LacksManager(p, rest[i], selected, slug, manager)
                          && r.error == MissingManagerRole(manager)
                          && forall j, other | 0 <= j < i :: !LacksManager(p, rest[j], selected, slug, other);
        assert roles[i + 1] == rest[i];
        assert forall j | 1 <= j < i + 1 :: roles[j] == rest[j - 1];
      }
    }
  }

  lemma OneFailsIff(p: Params, selected: seq<Role>, manifestId: string, role: Role, slug: Slug)
    ensures var r := EmployeeOf(p, selected, manifestId, role, slug);
            && (r.Err? ==> r.error.MissingManagerRole? && LacksManager(p, role, selected, slug, r.error.roleId))
            && (r.Ok? ==> forall manager :: !LacksManager(p, role, selected, slug, manager))
  {
    hide Trim;
  }

  /** A manifest is compiled unless no roles can be selected, its id is empty, or a selected role lacks its
      manager, of which the first is reported. */
  lemma CompileFailsIff(p: Params, slug: Slug)
    ensures var r, roles := Compile(p, slug), SelectRoles(p);
            if roles.Err? then r == Err(roles.error)
            else
              var selected := roles.value;
              var id := slug(if p.companyId.Some? && Trim(p.companyId.value) != "" then Trim(p.companyId.value)
                             else p.templateId);
              if id == "" then r == Err(NoManifestId)
              else
                && (r.Err? ==> exists i, manager ::
                      && 0 <= i < |selected| && LacksManager(p, selected[i], selected, slug, manager)
                      && r.error == MissingManagerRole(manager)
                      && forall j, other | 0 <= j < i :: !LacksManager(p, selected[j], selected, slug, other))
                && (r.Ok? ==> forall i, manager | 0 <= i < |selected| ::
                      !LacksManager(p, selected[i], selected, slug, manager))
  {
    hide LacksManager, EmployeesOf, SelectRoles, Trim;
    if SelectRoles(p).Ok? {
      var selected, company := SelectRoles(p).value, TrimmedOrNone(p.companyId);
      var id := slug(if company.Some? then company.value else p.templateId);
      EmployeesFailIff(p, selected, id, selected, slug);
    }
  }
}
