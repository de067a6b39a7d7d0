/** The company manifest and its reference check. */
module Manifest {

  datatype Option<+T> = None | Some(value: T)

  datatype Team = Team(id: string, managerEmployeeId: Option<string>)

  datatype Employee = Employee(
    id: string, agentId: string, accountId: string,
    teamId: Option<string>, managerEmployeeId: Option<string>, channels: seq<string>)

  datatype Manifest = Manifest(id: string, channels: seq<string>, teams: seq<Team>, employees: seq<Employee>)

  function TeamIds(m: Manifest): seq<string> {
    seq(|m.teams|, i requires 0 <= i < |m.teams| => m.teams[i].id)
  }

  function EmployeeIds(es: seq<Employee>): seq<string> {
    seq(|es|, i requires 0 <= i < |es| => es[i].id)
  }

  function AgentIds(es: seq<Employee>): seq<string> {
    seq(|es|, i requires 0 <= i < |es| => es[i].agentId)
  }

  function AccountIds(es: seq<Employee>): seq<string> {
    seq(|es|, i requires 0 <= i < |es| => es[i].accountId)
  }

  ghost predicate Distinct(ids: seq<string>) {
    forall i, j | 0 <= i < j < |ids| :: ids[i] != ids[j]
  }

  /** A reference that is absent or empty is not checked. */
  predicate Resolves(ref: Option<string>, ids: seq<string>) {
    ref.Some? && ref.value != "" ==> ref.value in ids
  }

  ghost predicate EmployeeResolves(e: Employee, m: Manifest) {
    && Resolves(e.teamId, TeamIds(m))
    && Resolves(e.managerEmployeeId, EmployeeIds(m.employees))
    && forall c | c in e.channels :: c in m.channels
  }

  /** All ids are unique and every team, manager and channel reference names something. */
  ghost predicate ReferencesResolve(m: Manifest) {
    && Distinct(TeamIds(m)) && Distinct(EmployeeIds(m.employees))
    && Distinct(AgentIds(m.employees)) && Distinct(AccountIds(m.employees))
    && (forall i | 0 <= i < |m.teams| :: Resolves(m.teams[i].managerEmployeeId, EmployeeIds(m.employees)))
    && (forall i | 0 <= i < |m.employees| :: EmployeeResolves(m.employees[i], m))
  }

  /** `assertUniqueIds`: whether it returns. */
  method AssertUniqueIds(values: seq<string>) returns (ok: bool)
    ensures ok <==> Distinct(values)
  {
    var seen: set<string> := {};
    for i := 0 to |values|
      invariant seen == set v | v in values[..i]
      invariant Distinct(values[..i])
    {
      if values[i] in seen {
        var j :| 0 <= j < i && values[..i][j] == values[i];
        assert values[j] == values[i];
        return false;
      }
      seen := seen + {values[i]};
    }
    assert values[..|values|] == values;
    return true;
  }

  method ValidateManifestReferences(m: Manifest) returns (ok: bool)
    ensures ok <==> ReferencesResolve(m)
  {
    ok := AssertUniqueIds(TeamIds(m));
    if !ok { return; }
    ok := AssertUniqueIds(EmployeeIds(m.employees));
    if !ok { return; }
    ok := AssertUniqueIds(AgentIds(m.employees));
    if !ok { return; }
    ok := AssertUniqueIds(AccountIds(m.employees));
    if !ok { return; }
    for i := 0 to |m.teams|
      invariant forall j | 0 <= j < i :: Resolves(m.teams[j].managerEmployeeId, EmployeeIds(m.employees))
    {
      if !Resolves(m.teams[i].managerEmployeeId, EmployeeIds(m.employees)) { return false; }
    }
    for i := 0 to |m.employees|
      invariant forall j | 0 <= j < i :: EmployeeResolves(m.employees[j], m)
    {
      var e := m.employees[i];
      if !Resolves(e.teamId, TeamIds(m)) { return false; }
      if !Resolves(e.managerEmployeeId, EmployeeIds(m.employees)) { return false; }
      for c := 0 to |e.channels|
        invariant forall d | 0 <= d < c :: e.channels[d] in m.channels
      {
        if e.channels[c] !in m.channels { return false; }
      }
    }
  }
}
