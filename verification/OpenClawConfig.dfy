/** Installing a company's agent plan into a host config, and the separate check that a config has
    the plan installed. */
module OpenClawConfig {
  import opened ManagedList
  import Text

  datatype Option<+T> = None | Some(value: T)
  datatype Result<+T, +E> = Ok(value: T) | Err(error: E)

  datatype Binding = Binding(channel: string, accountId: string)
  datatype AgentPlan = AgentPlan(agentId: string, accountId: string, workspace: string, bindings: seq<Binding>)

  /** A binding of a manifest employee; the account may be left to the employee's own. */
  datatype EmployeeBinding = EmployeeBinding(channel: string, accountId: Option<string>)

  /** `toBindingPlans`: without bindings an employee gets one on `decentchat`. */
  function ToBindingPlans(bindings: seq<EmployeeBinding>, accountId: string): seq<Binding> {
    if bindings == [] then [Binding("decentchat", accountId)]
    else
      seq(|bindings|, i requires 0 <= i < |bindings| =>
        Binding(bindings[i].channel, if bindings[i].accountId.Some? then bindings[i].accountId.value else accountId))
  }

  /** One plan per binding, in order, with the employee's account where none is given. */
  lemma BindingPlansAre(bindings: seq<EmployeeBinding>, accountId: string)
    ensures var plans := ToBindingPlans(bindings, accountId);
            && (bindings == [] ==> plans == [Binding("decentchat", accountId)])
            && (bindings != [] ==> |plans| == |bindings| && forall i | 0 <= i < |bindings| ::
                  && plans[i].channel == bindings[i].channel
                  && (bindings[i].accountId == Some(plans[i].accountId) ||
                      (bindings[i].accountId == None && plans[i].accountId == accountId)))
  {}

  datatype Error = MissingAccounts(accountIds: set<string>) | ConflictingBindings

  type Config = map<string, Json>

  // ----- the list operations of the code -----

  /** Ascending positions. */
  ghost predicate Ascending(indexes: seq<nat>) {
    forall i, j | 0 <= i < j < |indexes| :: indexes[i] < indexes[j]
  }

  method FindManagedEntryIndexes(list: seq<Json>, p: Planned) returns (indexes: seq<nat>)
    ensures AreManaged(indexes, list, p)
  {
    indexes := [];
    for index := 0 to |list|
      invariant Ascending(indexes) && forall i | 0 <= i < |indexes| :: indexes[i] < index
      invariant forall k: nat :: k in indexes <==> 0 <= k < index && Manages(p, list[k])
    {
      if Manages(p, list[index]) {
        indexes := indexes + [index];
      }
    }
  }

  /** The entries of `list` from position `from` on whose position is not in `gone`. */
  ghost function Keep(list: seq<Json>, from: nat, gone: set<nat>): seq<Json>
    requires from <= |list|
    decreases |list| - from
  {
    if from == |list| then []
    else if from in gone then Keep(list, from + 1, gone)
    else [list[from]] + Keep(list, from + 1, gone)
  }

  lemma {:induction false} KeepStretch(list: seq<Json>, from: nat, upTo: nat, gone: set<nat>)
    requires from <= upTo <= |list| && forall k: nat | from <= k < upTo :: k !in gone
    ensures Keep(list, from, gone) == list[from..upTo] + Keep(list, upTo, gone)
    decreases upTo - from
  {
    if from < upTo {
      KeepStretch(list, from + 1, upTo, gone);
      var rest := Keep(list, upTo, gone);
      assert [list[from]] + (list[from + 1..upTo] + rest) == list[from..upTo] + rest;
    }
  }

  /** Splicing out the given positions, the last one first. */
  method RemoveIndexes(list: seq<Json>, indexes: seq<nat>) returns (r: seq<Json>)
    requires Ascending(indexes) && forall k | 0 <= k < |indexes| :: indexes[k] < |list|
    ensures r == Keep(list, 0, set k: nat | k in indexes)
  {
    ghost var gone := set k: nat | k in indexes;
    r := list;
    var i := |indexes|;
    ghost var edge: nat := |list|;
    while i > 0
      invariant 0 <= i <= |indexes|
      invariant edge <= |list| && (forall k: nat | 0 <= k < i :: indexes[k] < edge)
      invariant forall k | i <= k < |indexes| :: edge <= indexes[k]
      invariant |r| >= edge && r[..edge] == list[..edge] && r[edge..] == Keep(list, edge, gone)
    {
      i := i - 1;
      var index := indexes[i];
      assert index in gone;
      forall k: nat | index + 1 <= k < edge ensures k !in gone {
        assert forall j | 0 <= j < |indexes| :: indexes[j] != k;
      }
      KeepStretch(list, index + 1, edge, gone);
      assert r[index + 1..] == r[..edge][index + 1..] + r[edge..];
      assert list[..edge][index + 1..] == list[index + 1..edge];
      assert r[..index] == r[..edge][..index] && list[..index] == list[..edge][..index];
      r := r[..index] + r[index + 1..];
      edge := index;
    }
    forall k: nat | 0 <= k < edge ensures k !in gone {
      assert forall j | 0 <= j < |indexes| :: indexes[j] != k;
    }
    KeepStretch(list, 0, edge, gone);
    assert r == r[..edge] + r[edge..];
  }

  lemma {:induction false} KeepIsWithout(list: seq<Json>, from: nat, gone: set<nat>, p: Planned)
    requires from <= |list| && forall k: nat | from <= k < |list| :: k in gone <==> Manages(p, list[k])
    ensures Keep(list, from, gone) == Without(list[from..], p)
    decreases |list| - from
  {
    hide Manages;
    if from < |list| {
      KeepIsWithout(list, from + 1, gone, p);
      assert list[from..][1..] == list[from + 1..];
      assert [] + Without(list[from + 1..], p) == Without(list[from + 1..], p);
    }
  }

  lemma {:induction false} UpsertAtFirst(list: seq<Json>, p: Planned, first: nat)
    requires first <= |list| && forall k: nat | 0 <= k < first :: !Manages(p, list[k])
    requires first < |list| ==> Manages(p, list[first])
    ensures first == |list| ==> Upsert(list, p) == list + [Refresh(p, EMPTY)]
    ensures first < |list| ==>
              Upsert(list, p) == list[..first] + [Refresh(p, list[first])] + Without(list[first + 1..], p)
    decreases first
  {
    hide Manages, Refresh;
    if first > 0 {
      UpsertAtFirst(list[1..], p, first - 1);
      if first < |list| {
        assert list[..first] == [list[0]] + list[1..][..first - 1];
        assert list[1..][first..] == list[first + 1..];
      }
    }
  }

  /** The managed positions of a list. */
  ghost predicate AreManaged(indexes: seq<nat>, list: seq<Json>, p: Planned) {
    Ascending(indexes) && forall k: nat :: k in indexes <==> k < |list| && Manages(p, list[k])
  }

  lemma FirstManaged(list: seq<Json>, p: Planned, indexes: seq<nat>)
    requires AreManaged(indexes, list, p) && indexes != []
    ensures indexes[0] < |list| && Manages(p, list[indexes[0]])
    ensures forall k: nat | k < indexes[0] :: !Manages(p, list[k])
    ensures forall k: nat :: k in indexes[1..] <==> indexes[0] < k < |list| && Manages(p, list[k])
  {
    assert indexes[0] in indexes;
    assert indexes == [indexes[0]] + indexes[1..];
  }

  lemma RefreshAndRemove(list: seq<Json>, p: Planned, indexes: seq<nat>)
    requires AreManaged(indexes, list, p) && indexes != []
    ensures indexes[0] < |list| && Manages(p, list[indexes[0]])
    ensures Keep(list[indexes[0] := Refresh(p, list[indexes[0]])], 0, set k: nat | k in indexes[1..]) == Upsert(list, p)
  {
    hide Manages, Refresh, Upsert, Without, Keep;
    FirstManaged(list, p, indexes);
    var first := indexes[0];
    var next, gone := list[first := Refresh(p, list[first])], set k: nat | k in indexes[1..];
    UpsertAtFirst(list, p, first);
    KeepStretch(next, 0, first + 1, gone);
    KeepIsWithout(next, first + 1, gone, p);
    assert next[first + 1..] == list[first + 1..];
    assert next[0..first + 1] == list[..first] + [Refresh(p, list[first])];
  }

  /** One round of the two loops of the compiler. */
  method InstallEntry(list: seq<Json>, p: Planned) returns (r: seq<Json>)
    ensures r == Upsert(list, p)
  {
    var managedIndexes := FindManagedEntryIndexes(list, p);
    if |managedIndexes| == 0 {
      UpsertAtFirst(list, p, |list|);
      return list + [Refresh(p, EMPTY)];
    }
    var first := managedIndexes[0];
    RefreshAndRemove(list, p, managedIndexes);
    r := list[first := Refresh(p, list[first])];
    if |managedIndexes| > 1 {
      assert forall k | 0 <= k < |managedIndexes| :: managedIndexes[k] in managedIndexes;
      r := RemoveIndexes(r, managedIndexes[1..]);
    } else {
      KeepStretch(r, 0, |r|, {});
      assert (set k: nat | k in managedIndexes[1..]) == {} && r[0..|r|] == r;
    }
  }

  // ----- planned routes -----

  function AgentEntries(agents: seq<AgentPlan>): seq<Planned> {
    seq(|agents|, i requires 0 <= i < |agents| => Agent(agents[i].agentId, agents[i].workspace))
  }

  function RoutesOfAgent(a: AgentPlan): seq<Planned> {
    seq(|a.bindings|, i requires 0 <= i < |a.bindings| =>
      Route(a.bindings[i].channel, a.bindings[i].accountId, a.agentId))
  }

  function RoutesOf(agents: seq<AgentPlan>): seq<Planned> {
    if agents == [] then [] else RoutesOf(agents[..|agents| - 1]) + RoutesOfAgent(agents[|agents| - 1])
  }

  /** The text under which a planned route is filed. */
  function Key(r: Planned): string
    requires r.Route?
  {
    r.channel + ":" + r.accountId
  }

  ghost predicate AllRoutes(routes: seq<Planned>) {
    forall i | 0 <= i < |routes| :: routes[i].Route?
  }

  /** `get`, the conflict check and `set` on the map of planned routes, kept in insertion order. */
  function Put(table: seq<Planned>, r: Planned): Option<seq<Planned>>
    requires AllRoutes(table) && r.Route?
  {
    if table == [] then Some([r])
    else if Key(table[0]) == Key(r) then
      if table[0].agentId != r.agentId then None else Some([r] + table[1..])
    else
      var rest := Put(table[1..], r);
      if rest.None? then None else Some([table[0]] + rest.value)
  }

  ghost predicate DistinctKeys(table: seq<Planned>) {
    AllRoutes(table) && forall i, j | 0 <= i < j < |table| :: Key(table[i]) != Key(table[j])
  }

  lemma {:induction false} PutFacts(table: seq<Planned>, r: Planned)
    requires DistinctKeys(table) && r.Route?
    ensures var t := Put(table, r);
            && (t.None? <==> exists w :: w in table && Key(w) == Key(r) && w.agentId != r.agentId)
            && (t.Some? ==> DistinctKeys(t.value))
            && (t.Some? ==> forall w: Planned :: w in t.value <==> w == r || (w in table && Key(w) != Key(r)))
  {
    hide Key;
    if table != [] && Key(table[0]) != Key(r) {
      PutFacts(table[1..], r);
      assert forall w :: w in table <==> w == table[0] || w in table[1..];
    } else if table != [] {
      assert forall w :: w in table <==> w == table[0] || w in table[1..];
    }
  }

  lemma PutKeepsRoutes(table: seq<Planned>, r: Planned)
    requires AllRoutes(table) && r.Route?
    ensures Put(table, r).Some? ==> AllRoutes(Put(table, r).value)
  {}

  function RouteTable(routes: seq<Planned>): (t: Option<seq<Planned>>)
    requires AllRoutes(routes)
    ensures t.Some? ==> AllRoutes(t.value)
  {
    if routes == [] then Some([])
    else
      var before := RouteTable(routes[..|routes| - 1]);
      if before.None? then None
      else PutKeepsRoutes(before.value, routes[|routes| - 1]); Put(before.value, routes[|routes| - 1])
  }

  /** The last route filed under a key. */
  ghost function LastWith(routes: seq<Planned>, key: string): Option<Planned>
    requires AllRoutes(routes)
  {
    if routes == [] then None
    else if Key(routes[|routes| - 1]) == key then Some(routes[|routes| - 1])
    else LastWith(routes[..|routes| - 1], key)
  }

  /** The table files exactly the last route of each key; it exists iff routes with one key always
      name one agent. */
  lemma {:induction false} TableFacts(routes: seq<Planned>)
    requires AllRoutes(routes)
    ensures RouteTable(routes).Some? <==>
              forall i, j | 0 <= i < |routes| && 0 <= j < |routes| && Key(routes[i]) == Key(routes[j]) ::
                routes[i].agentId == routes[j].agentId
    ensures RouteTable(routes).Some? ==>
              var t := RouteTable(routes).value;
              DistinctKeys(t) && forall w: Planned :: w in t <==> w.Route? && LastWith(routes, Key(w)) == Some(w)
  {
    hide Key, Put;
    if routes != [] {
      var before, last := routes[..|routes| - 1], routes[|routes| - 1];
      TableFacts(before);
      if RouteTable(before).Some? {
        var t := RouteTable(before).value;
        PutFacts(t, last);
        LastWithIsAgent(before, Key(last));
      }
      assert forall i | 0 <= i < |before| :: before[i] == routes[i];
    }
  }

  lemma {:induction false} LastWithIsAgent(routes: seq<Planned>, key: string)
    requires AllRoutes(routes)
    ensures var w := LastWith(routes, key);
            && (w.Some? ==> w.value in routes && Key(w.value) == key)
            && (w.None? ==> forall i | 0 <= i < |routes| :: Key(routes[i]) != key)
  {
    if routes != [] { LastWithIsAgent(routes[..|routes| - 1], key); }
  }

  // ----- materializing -----

  function Accounts(config: Config): Json {
    Field(Field(Field(Obj(config), "channels"), "decentchat"), "accounts")
  }

  /** The planned accounts that are not configured. */
  function Unconfigured(config: Config, agents: seq<AgentPlan>): set<string> {
    set a | a in agents && !(Accounts(config).Obj? && a.accountId in Accounts(config).fields) :: a.accountId
  }

  function ItemsOf(e: Json): seq<Json> {
    if e.Arr? then e.items else []
  }

  function AgentsList(config: Config): seq<Json> {
    ItemsOf(Field(Field(Obj(config), "agents"), "list"))
  }

  function Bindings(config: Config): seq<Json> {
    ItemsOf(Field(Obj(config), "bindings"))
  }

  lemma {:induction false} RoutesOfAreRoutes(agents: seq<AgentPlan>)
    ensures AllRoutes(RoutesOf(agents))
  {
    if agents != [] { RoutesOfAreRoutes(agents[..|agents| - 1]); }
  }

  /** What binding `j` of agent `a` asks for. */
  function Required(a: AgentPlan, j: nat): Planned
    requires j < |a.bindings|
  {
    Route(a.bindings[j].channel, a.bindings[j].accountId, a.agentId)
  }

  /** The planned routes are one per binding of an agent. */
  lemma {:induction false} RouteOfBinding(agents: seq<AgentPlan>, i: nat, j: nat)
    requires i < |agents| && j < |agents[i].bindings|
    ensures Required(agents[i], j) in RoutesOf(agents)
  {
    var last := |agents| - 1;
    if i < last {
      RouteOfBinding(agents[..last], i, j);
    } else {
      assert RoutesOfAgent(agents[last])[j] in RoutesOf(agents);
    }
  }

  lemma {:induction false} BindingOfRoute(agents: seq<AgentPlan>, r: Planned) returns (i: nat, j: nat)
    requires r in RoutesOf(agents)
    ensures i < |agents| && j < |agents[i].bindings| && r == Required(agents[i], j)
  {
    i := |agents| - 1;
    if r in RoutesOfAgent(agents[i]) {
      j :| 0 <= j < |agents[i].bindings| && r == RoutesOfAgent(agents[i])[j];
    } else {
      i, j := BindingOfRoute(agents[..i], r);
    }
  }

  function Installed(config: Config, agents: seq<AgentPlan>, table: seq<Planned>): Config {
    var existing := if Field(Obj(config), "agents").Obj? then Field(Obj(config), "agents").fields else map[];
    var list := Arr(UpsertAll(AgentsList(config), AgentEntries(agents)));
    config["agents" := Obj(existing["list" := list])]["bindings" := Arr(UpsertAll(Bindings(config), table))]
  }

  function Materialize(config: Config, agents: seq<AgentPlan>): Result<Config, Error> {
    if Unconfigured(config, agents) != {} then Err(MissingAccounts(Unconfigured(config, agents)))
    else
      RoutesOfAreRoutes(agents);
      var table := RouteTable(RoutesOf(agents));
      if table.None? then Err(ConflictingBindings) else Ok(Installed(config, agents, table.value))
  }

  // ----- the installation check -----

  predicate NotBlank(s: string) {
    Text.Trim(s) != ""
  }

  ghost predicate Configured(cfg: Config, agentId: string) {
    NotBlank(agentId) && exists k :: 0 <= k < |AgentsList(cfg)| && Field(AgentsList(cfg)[k], "id") == Str(agentId)
  }

  predicate HasRouteBinding(binding: Json, r: Planned)
    requires r.Route?
  {
    && !OtherType(binding)
    && Field(binding, "agentId") == Str(r.agentId)
    && Field(Field(binding, "match"), "channel") == Str(r.channel)
    && Field(Field(binding, "match"), "accountId") == Str(r.accountId)
  }

  ghost predicate Bound(bindings: seq<Json>, r: Planned)
    requires r.Route?
  {
    exists k :: 0 <= k < |bindings| && HasRouteBinding(bindings[k], r)
  }

  /** `assertCompanyBootstrapAgentInstallation` finds no agent and no binding missing. */
  ghost predicate PassesCheck(cfg: Config, agents: seq<AgentPlan>) {
    && (forall i | 0 <= i < |agents| :: Configured(cfg, agents[i].agentId))
    && (forall i, j | 0 <= i < |agents| && 0 <= j < |agents[i].bindings| ::
          Bound(Bindings(cfg), Required(agents[i], j)))
  }

  // ----- what is installed passes the check -----

  lemma {:induction false} CountedIsThere(list: seq<Json>, p: Planned)
    requires Count(list, p) >= 1
    ensures exists k :: 0 <= k < |list| && Manages(p, list[k])
  {
    if !Manages(p, list[0]) {
      CountedIsThere(list[1..], p);
      var k :| 0 <= k < |list[1..]| && Manages(p, list[1..][k]);
      assert Manages(p, list[k + 1]);
    }
  }

  lemma PlannedIsThere(list: seq<Json>, plans: seq<Planned>, i: nat)
    requires OneKind(plans) && i < |plans|
    ensures exists k :: 0 <= k < |UpsertAll(list, plans)| && Manages(plans[i], UpsertAll(list, plans)[k])
  {
    PlannedOnce(list, plans, i);
    CountedIsThere(UpsertAll(list, plans), plans[i]);
  }

  lemma {:induction false} UnmanagedIn(list: seq<Json>, plans: seq<Planned>, e: Json)
    ensures e in Unmanaged(list, plans) <==> e in list && !Managed(plans, e)
  {
    if list != [] {
      UnmanagedIn(list[1..], plans, e);
      assert e in list <==> e == list[0] || e in list[1..];
    }
  }

  /** A settled entry names the agent of the last plan that manages it. */
  lemma {:induction false} SettledAgentId(e: Json, plans: seq<Planned>, i: nat)
    requires AllRoutes(plans) && i < |plans| && Manages(plans[i], e)
    requires forall j | i < j < |plans| :: !SameKey(plans[j], plans[i])
    ensures Field(RefreshAll(e, plans), "agentId") == Str(plans[i].agentId)
  {
    var before, last := plans[..|plans| - 1], plans[|plans| - 1];
    RefreshAllKeepsKey(e, before, plans[i]);
    if i < |plans| - 1 {
      var mid := RefreshAll(e, before);
      if Manages(last, mid) { ManagesKey(last, plans[i], mid); }
      SettledAgentId(e, before, i);
    }
  }

  lemma SameKeySameText(p: Planned, q: Planned)
    requires p.Route? && q.Route?
    ensures SameKey(p, q) ==> Key(p) == Key(q)
    ensures forall b: Json :: HasRouteBinding(b, p) <==> Manages(p, b) && Field(b, "agentId") == Str(p.agentId)
    ensures forall b: Json | Manages(p, b) && HasRouteBinding(b, q) :: SameKey(p, q)
  {}

  lemma InstalledIsBound(bindings: seq<Json>, table: seq<Planned>, w: Planned)
    requires DistinctKeys(table) && w in table
    ensures Bound(UpsertAll(bindings, table), w)
  {
    var i :| 0 <= i < |table| && table[i] == w;
    PlannedIsThere(bindings, table, i);
    var list := UpsertAll(bindings, table);
    var k :| 0 <= k < |list| && Manages(w, list[k]);
    UpsertAllSettles(bindings, table);
    forall j | i < j < |table| ensures !SameKey(table[j], w) { SameKeySameText(table[j], w); }
    SettledAgentId(list[k], table, i);
    SameKeySameText(w, w);
  }

  /** The last route filed under the text of `r` is for the same channel and account. */
  ghost predicate Fits(routes: seq<Planned>, r: Planned)
    requires AllRoutes(routes) && r.Route?
  {
    var w := LastWith(routes, Key(r));
    w.Some? && SameKey(w.value, r)
  }

  lemma RouteIsBoundIff(bindings: seq<Json>, routes: seq<Planned>, r: Planned)
    requires AllRoutes(routes) && RouteTable(routes).Some? && r in routes
    ensures Bound(UpsertAll(bindings, RouteTable(routes).value), r) <==> Fits(routes, r) || Bound(bindings, r)
  {
    hide Key, RouteTable, UpsertAll, HasRouteBinding;
    var table := RouteTable(routes).value;
    var list := UpsertAll(bindings, table);
    TableFacts(routes);
    LastWithIsAgent(routes, Key(r));
    UnmanagedSurvive(bindings, table, |table|);
    assert table[..|table|] == table;
    SameKeySameText(r, r);
    if Fits(routes, r) {
      var w := LastWith(routes, Key(r)).value;
      InstalledIsBound(bindings, table, w);
      assert w.agentId == r.agentId && w == r;
    } else {
      forall w | w in table ensures !SameKey(w, r) { SameKeySameText(w, r); }
      forall e: Json | HasRouteBinding(e, r) ensures e in list <==> e in bindings {
        forall i | 0 <= i < |table| ensures !Manages(table[i], e) { SameKeySameText(table[i], r); }
        UnmanagedIn(list, table, e);
        UnmanagedIn(bindings, table, e);
      }
      BoundIsMember(list, r);
      BoundIsMember(bindings, r);
    }
  }

  lemma BoundIsMember(list: seq<Json>, r: Planned)
    requires r.Route?
    ensures Bound(list, r) <==> exists e :: e in list && HasRouteBinding(e, r)
  {}

  /** What a caller can check beforehand: no agent id is blank, and every planned route is the last
      one filed under its text or is bound in the config already. */
  ghost predicate Installable(config: Config, agents: seq<AgentPlan>) {
    RoutesOfAreRoutes(agents);
    && (forall i | 0 <= i < |agents| :: NotBlank(agents[i].agentId))
    && (forall r | r in RoutesOf(agents) && r.Route? :: Fits(RoutesOf(agents), r) || Bound(Bindings(config), r))
  }

  lemma BoundByRoutes(bindings: seq<Json>, agents: seq<AgentPlan>)
    ensures (forall i, j | 0 <= i < |agents| && 0 <= j < |agents[i].bindings| ::
                Bound(bindings, Required(agents[i], j)))
            <==> (forall r | r in RoutesOf(agents) && r.Route? :: Bound(bindings, r))
  {
    hide RoutesOf, Bound;
    forall i, j | 0 <= i < |agents| && 0 <= j < |agents[i].bindings|
      ensures Required(agents[i], j) in RoutesOf(agents)
    {
      RouteOfBinding(agents, i, j);
    }
    forall r | r in RoutesOf(agents) && r.Route?
      ensures exists i, j :: 0 <= i < |agents| && 0 <= j < |agents[i].bindings| && r == Required(agents[i], j)
    {
      var i, j := BindingOfRoute(agents, r);
    }
  }

  /** A materialized config passes the installation check exactly when the plan is installable. */
  lemma MaterializedPassesIff(config: Config, agents: seq<AgentPlan>)
    requires Materialize(config, agents).Ok?
    ensures PassesCheck(Materialize(config, agents).value, agents) <==> Installable(config, agents)
  {
    RoutesOfAreRoutes(agents);
    var out, routes, plans := Materialize(config, agents).value, RoutesOf(agents), AgentEntries(agents);
    forall r | r in routes && r.Route?
      ensures Bound(Bindings(out), r) <==> Fits(routes, r) || Bound(Bindings(config), r)
    {
      RouteIsBoundIff(Bindings(config), routes, r);
    }
    BoundByRoutes(Bindings(out), agents);
    forall i | 0 <= i < |agents| ensures Configured(out, agents[i].agentId) <==> NotBlank(agents[i].agentId) {
      PlannedIsThere(AgentsList(config), plans, i);
      var k :| 0 <= k < |AgentsList(out)| && Manages(plans[i], AgentsList(out)[k]);
      assert Field(AgentsList(out)[k], "id") == Str(agents[i].agentId);
    }
  }

  /** Channel names without a colon make the filing texts unambiguous. */
  lemma ColonFreeIsInstallable(config: Config, agents: seq<AgentPlan>)
    requires forall i, j | 0 <= i < |agents| && 0 <= j < |agents[i].bindings| :: ':' !in agents[i].bindings[j].channel
    requires forall i | 0 <= i < |agents| :: NotBlank(agents[i].agentId)
    ensures Installable(config, agents)
  {
    RoutesOfAreRoutes(agents);
    var routes := RoutesOf(agents);
    ColonFree(agents);
    forall r | r in routes && r.Route? ensures Fits(routes, r) {
      LastWithIsAgent(routes, Key(r));
      var w := LastWith(routes, Key(r)).value;
      SplitAtColon(w.channel, w.accountId, r.channel, r.accountId);
    }
  }

  /** So the plan of a manifest that lists no bindings, with agent ids that are not blank, passes the
      check whenever it is materialized. */
  lemma DefaultBindingsPass(config: Config, agents: seq<AgentPlan>)
    requires forall i | 0 <= i < |agents| :: agents[i].bindings == ToBindingPlans([], agents[i].accountId)
    requires forall i | 0 <= i < |agents| :: NotBlank(agents[i].agentId)
    requires Materialize(config, agents).Ok?
    ensures PassesCheck(Materialize(config, agents).value, agents)
  {
    hide Materialize, PassesCheck, Installable, NotBlank;
    assert ':' !in "decentchat";
    ColonFreeIsInstallable(config, agents);
    MaterializedPassesIff(config, agents);
  }

  lemma {:induction false} ColonFree(agents: seq<AgentPlan>)
    requires forall i, j | 0 <= i < |agents| && 0 <= j < |agents[i].bindings| :: ':' !in agents[i].bindings[j].channel
    ensures AllRoutes(RoutesOf(agents))
    ensures forall r | r in RoutesOf(agents) :: ':' !in r.channel
  {
    RoutesOfAreRoutes(agents);
    if agents != [] { ColonFree(agents[..|agents| - 1]); }
  }

  lemma {:induction false} SplitAtColon(a: string, x: string, b: string, y: string)
    requires ':' !in a && ':' !in b && a + ":" + x == b + ":" + y
    ensures a == b && x == y
  {
    var p, q := a + ":" + x, b + ":" + y;
    assert p[0] == (if a == "" then ':' else a[0]) && q[0] == (if b == "" then ':' else b[0]);
    assert a == "" <==> b == "";
    if a == "" {
      assert x == p[1..] && y == q[1..];
    } else {
      assert p[1..] == a[1..] + ":" + x && q[1..] == b[1..] + ":" + y;
      SplitAtColon(a[1..], x, b[1..], y);
      assert a == [a[0]] + a[1..] && b == [b[0]] + b[1..];
    }
  }

  /** One agent with the routes `a:b` to `c` and `a` to `b:c`, which are filed under one text. */
  function Colliding(agentId: string, workspace: string, accountId: string): AgentPlan {
    AgentPlan(agentId, accountId, workspace, [Binding("a:b", "c"), Binding("a", "b:c")])
  }

  lemma CollidingRoutes(a: AgentPlan)
    requires a == Colliding(a.agentId, a.workspace, a.accountId)
    ensures AllRoutes(RoutesOf([a])) && RouteTable(RoutesOf([a])).Some?
    ensures var first := Route("a:b", "c", a.agentId); first in RoutesOf([a]) && !Fits(RoutesOf([a]), first)
  {
    var first, second := Route("a:b", "c", a.agentId), Route("a", "b:c", a.agentId);
    assert RoutesOf([a]) == [first, second] by {
      var none: seq<AgentPlan> := [a][..0];
      assert none == [] && RoutesOf([a]) == RoutesOf(none) + RoutesOfAgent([a][0]);
      assert RoutesOfAgent(a) == [first, second];
    }
    assert Key(first) == Key(second) == "a:b:c";
    TableFacts(RoutesOf([a]));
  }

  /** Why the condition is there: with colliding routes materializing succeeds, and the result does
      not pass the check. */
  lemma CollidingRoutesFail(config: Config, a: AgentPlan)
    requires a == Colliding(a.agentId, a.workspace, a.accountId)
    requires Unconfigured(config, [a]) == {} && Bindings(config) == []
    ensures Materialize(config, [a]).Ok? && !PassesCheck(Materialize(config, [a]).value, [a])
  {
    CollidingRoutes(a);
    hide RoutesOf, RouteTable, Unconfigured, PassesCheck, Installed, Bindings, Fits;
    MaterializedPassesIff(config, [a]);
    var first := Route("a:b", "c", a.agentId);
    assert !Bound(Bindings(config), first);
  }

  // ----- what materializing keeps -----

  lemma InstalledParts(config: Config, agents: seq<AgentPlan>, table: seq<Planned>)
    ensures var out := Installed(config, agents, table);
            && AgentsList(out) == UpsertAll(AgentsList(config), AgentEntries(agents))
            && Bindings(out) == UpsertAll(Bindings(config), table)
            && Accounts(out) == Accounts(config)
            && out - {"agents", "bindings"} == config - {"agents", "bindings"}
            && forall name | name != "list" ::
                 Field(Field(Obj(out), "agents"), name) == Field(Field(Obj(config), "agents"), name)
  {
    hide UpsertAll;
  }

  lemma InstalledAgain(config: Config, agents: seq<AgentPlan>, table: seq<Planned>)
    ensures var out := Installed(config, agents, table);
            UpsertAll(AgentsList(out), AgentEntries(agents)) == AgentsList(out)
            && UpsertAll(Bindings(out), table) == Bindings(out)
            ==> Installed(out, agents, table) == out
  {
    hide UpsertAll;
    var out := Installed(config, agents, table);
    var again := Installed(out, agents, table);
    if UpsertAll(AgentsList(out), AgentEntries(agents)) == AgentsList(out)
       && UpsertAll(Bindings(out), table) == Bindings(out)
    {
      assert again["agents"].fields == out["agents"].fields;
      assert again == out;
    }
  }

  lemma UpsertAllKeeps(list: seq<Json>, plans: seq<Planned>)
    requires OneKind(plans)
    ensures forall i | 0 <= i < |plans| :: Count(UpsertAll(list, plans), plans[i]) == 1
    ensures Unmanaged(UpsertAll(list, plans), plans) == Unmanaged(list, plans)
  {
    forall i | 0 <= i < |plans| ensures Count(UpsertAll(list, plans), plans[i]) == 1 { PlannedOnce(list, plans, i); }
    UnmanagedSurvive(list, plans, |plans|);
    assert plans[..|plans|] == plans;
  }

  /** The two lists as a whole: of the old entries and a blank one for each plan, the first of those that one
      plan manages stays where it is, and the last plan for it decides what it says. */
  lemma MaterializedLists(config: Config, agents: seq<AgentPlan>)
    requires Materialize(config, agents).Ok?
    ensures AllRoutes(RoutesOf(agents)) && RouteTable(RoutesOf(agents)).Some?
    ensures var out, plans, table := Materialize(config, agents).value, AgentEntries(agents),
                                      RouteTable(RoutesOf(agents)).value;
            && AgentsList(out) == Shape(AgentsList(config) + Blanks(plans), plans)
            && Bindings(out) == Shape(Bindings(config) + Blanks(table), table)
  {
    RoutesOfAreRoutes(agents);
    hide Installed, AgentsList, Bindings, UpsertAll, RoutesOf, RouteTable, Unconfigured, Shape;
    var plans, table := AgentEntries(agents), RouteTable(RoutesOf(agents)).value;
    InstalledParts(config, agents, table);
    UpsertAllIs(AgentsList(config), plans);
    UpsertAllIs(Bindings(config), table);
  }

  ghost predicate IsAgentEntry(e: Json, id: string) {
    e.Obj? && Field(e, "id") == Str(id)
  }

  /** A binding of a channel and account: its `type` is absent, not a text, empty or `route`. */
  ghost predicate IsRouteEntry(e: Json, channel: string, accountId: string) {
    && e.Obj?
    && (Field(e, "type").Str? ==> Field(e, "type").s == "" || Field(e, "type").s == "route")
    && Field(Field(e, "match"), "channel") == Str(channel) && Field(Field(e, "match"), "accountId") == Str(accountId)
  }

  /** `e` has the id and workspace of `a`, and otherwise says what `before` said. */
  ghost predicate AgentOver(e: Json, a: AgentPlan, before: Json) {
    && Field(e, "id") == Str(a.agentId) && Field(e, "workspace") == Str(a.workspace)
    && forall name | name !in {"id", "workspace"} :: Field(e, name) == Field(before, name)
  }

  lemma AgentEntry(a: AgentPlan, base: Json)
    requires base.Obj?
    ensures var p := Agent(a.agentId, a.workspace);
            && (forall e: Json :: Manages(p, e) <==> IsAgentEntry(e, a.agentId))
            && AgentOver(Refresh(p, base), a, base)
  {
    forall name: string { RefreshKeepsRest(Agent(a.agentId, a.workspace), base, name); }
  }

  /** The last plan for an agent id decides its workspace. The one entry with that id has it, and otherwise says
      what the first old entry with that id said, if there was one. */
  lemma AgentIsInstalled(config: Config, agents: seq<AgentPlan>, i: nat) returns (k: nat)
    requires Materialize(config, agents).Ok? && i < |agents|
    requires forall j | i < j < |agents| :: agents[j].agentId != agents[i].agentId
    ensures var before, list := AgentsList(config), AgentsList(Materialize(config, agents).value);
            var id := agents[i].agentId;
            && k < |list| && (forall m | 0 <= m < |list| :: IsAgentEntry(list[m], id) <==> m == k)
            && ((forall f | 0 <= f < |before| :: !IsAgentEntry(before[f], id)) ==> AgentOver(list[k], agents[i], EMPTY))
            && forall f | 0 <= f < |before| && IsAgentEntry(before[f], id)
                  && (forall g | 0 <= g < f :: !IsAgentEntry(before[g], id)) ::
                 AgentOver(list[k], agents[i], before[f])
  {
    hide Manages, Refresh, IsAgentEntry, AgentOver, UpsertAll, FirstOf, Unconfigured;
    var before, plans := AgentsList(config), AgentEntries(agents);
    RoutesOfAreRoutes(agents);
    InstalledParts(config, agents, RouteTable(RoutesOf(agents)).value);
    hide Installed, AgentsList, RouteTable, RoutesOf;
    k := EntryOfPlan(before, plans, i);
    FirstOfIs(before, plans[i]);
    AgentEntry(agents[i], FirstOf(before, plans[i]));
  }

  /** `e` says what `r` says, and otherwise what `before` said. */
  ghost predicate RouteOver(e: Json, r: Planned, before: Json)
    requires r.Route?
  {
    && Field(e, "type") == Str("route") && Field(e, "agentId") == Str(r.agentId)
    && (forall name | name !in {"type", "agentId", "match"} :: Field(e, name) == Field(before, name))
    && (forall name | name !in {"channel", "accountId"} ::
          Field(Field(e, "match"), name) == Field(Field(before, "match"), name))
  }

  lemma RouteOverFirst(before: seq<Json>, table: seq<Planned>, i: nat) returns (k: nat)
    requires DistinctKeys(table) && i < |table|
    ensures var r, list := table[i], UpsertAll(before, table);
            && k < |list| && (forall m | 0 <= m < |list| :: IsRouteEntry(list[m], r.channel, r.accountId) <==> m == k)
            && ((forall f | 0 <= f < |before| :: !IsRouteEntry(before[f], r.channel, r.accountId)) ==>
                  RouteOver(list[k], r, EMPTY))
            && forall f | 0 <= f < |before| && IsRouteEntry(before[f], r.channel, r.accountId)
                  && (forall g | 0 <= g < f :: !IsRouteEntry(before[g], r.channel, r.accountId)) ::
                 RouteOver(list[k], r, before[f])
  {
    hide Manages, Refresh, RouteOver, IsRouteEntry, Key, UpsertAll, FirstOf, SameKey;
    var r := table[i];
    forall j | i < j < |table| ensures !SameKey(table[j], r) { SameKeySameText(table[j], r); }
    assert OneKind(table);
    k := EntryOfPlan(before, table, i);
    FirstOfIs(before, r);
    RouteEntries(r, FirstOf(before, r));
  }

  lemma RouteEntries(r: Planned, base: Json)
    requires r.Route? && base.Obj?
    ensures forall e: Json :: Manages(r, e) <==> IsRouteEntry(e, r.channel, r.accountId)
    ensures RouteOver(Refresh(r, base), r, base)
  {
    forall name: string { RefreshKeepsRest(r, base, name); }
  }

  lemma {:induction false} LastWithSkips(a: seq<Planned>, b: seq<Planned>, key: string)
    requires AllRoutes(a + b) && AllRoutes(a)
    requires forall r | r in b && r.Route? :: Key(r) != key
    ensures LastWith(a + b, key) == LastWith(a, key)
  {
    hide Key;
    if b == [] {
      assert a + b == a;
    } else {
      var init, last := b[..|b| - 1], b[|b| - 1];
      assert (a + b)[..|a + b| - 1] == a + init && (a + b)[|a + b| - 1] == last && last in b;
      assert forall i | 0 <= i < |a + init| :: (a + init)[i] == (a + b)[i];
      LastWithSkips(a, init, key);
    }
  }

  lemma {:induction false} LastWithAt(routes: seq<Planned>, n: nat)
    requires AllRoutes(routes) && n < |routes|
    requires forall m | n < m < |routes| :: Key(routes[m]) != Key(routes[n])
    ensures LastWith(routes, Key(routes[n])) == Some(routes[n])
  {
    hide Key;
    if n < |routes| - 1 { LastWithAt(routes[..|routes| - 1], n); }
  }

  /** No later binding, in the order of agents and of their bindings, is filed under the same text. */
  ghost predicate LastOfKey(agents: seq<AgentPlan>, i: nat, j: nat)
    requires i < |agents| && j < |agents[i].bindings|
  {
    forall k, l | 0 <= k < |agents| && 0 <= l < |agents[k].bindings| && (k > i || (k == i && l > j)) ::
      Key(Required(agents[k], l)) != Key(Required(agents[i], j))
  }

  lemma {:induction false} LastOfKeyIsFiled(agents: seq<AgentPlan>, i: nat, j: nat)
    requires i < |agents| && j < |agents[i].bindings| && LastOfKey(agents, i, j)
    ensures AllRoutes(RoutesOf(agents))
    ensures LastWith(RoutesOf(agents), Key(Required(agents[i], j))) == Some(Required(agents[i], j))
  {
    hide Key;
    RoutesOfAreRoutes(agents);
    var last, r := |agents| - 1, Required(agents[i], j);
    var before, mine := RoutesOf(agents[..last]), RoutesOfAgent(agents[last]);
    RoutesOfAreRoutes(agents[..last]);
    if i < last {
      LastOfKeyIsFiled(agents[..last], i, j);
      forall m | m in mine && m.Route? ensures Key(m) != Key(r) {
        var l :| 0 <= l < |mine| && mine[l] == m;
        assert m == Required(agents[last], l);
      }
      LastWithSkips(before, mine, Key(r));
    } else {
      assert (before + mine)[|before| + j] == r;
      forall m | |before| + j < m < |before + mine| ensures Key((before + mine)[m]) != Key(r) {
        assert (before + mine)[m] == Required(agents[last], m - |before|);
      }
      LastWithAt(before + mine, |before| + j);
    }
  }

  /** The same for a binding that is the last one filed under its text: the one entry for its channel and account
      names its agent, and otherwise says what the first old one said, if there was one. */
  lemma RouteIsInstalled(config: Config, agents: seq<AgentPlan>, i: nat, j: nat) returns (k: nat)
    requires Materialize(config, agents).Ok?
    requires i < |agents| && j < |agents[i].bindings| && LastOfKey(agents, i, j)
    ensures var r := Required(agents[i], j);
            var before, list := Bindings(config), Bindings(Materialize(config, agents).value);
            && k < |list| && (forall m | 0 <= m < |list| :: IsRouteEntry(list[m], r.channel, r.accountId) <==> m == k)
            && ((forall f | 0 <= f < |before| :: !IsRouteEntry(before[f], r.channel, r.accountId)) ==>
                  RouteOver(list[k], r, EMPTY))
            && forall f | 0 <= f < |before| && IsRouteEntry(before[f], r.channel, r.accountId)
                  && (forall g | 0 <= g < f :: !IsRouteEntry(before[g], r.channel, r.accountId)) ::
                 RouteOver(list[k], r, before[f])
  {
    hide IsRouteEntry, RouteOver, UpsertAll, Unconfigured, AgentsList, LastOfKey;
    LastOfKeyIsFiled(agents, i, j);
    var r := Required(agents[i], j);
    var table := RouteTable(RoutesOf(agents)).value;
    InstalledParts(config, agents, table);
    TableFacts(RoutesOf(agents));
    hide Installed, Bindings, RoutesOf, RouteTable, LastWith, Key;
    var n :| 0 <= n < |table| && table[n] == r;
    k := RouteOverFirst(Bindings(config), table, n);
  }

  /** The keys of one table, in order, are the first ones of the other. */
  ghost predicate SameKeysAhead(table: seq<Planned>, longer: seq<Planned>)
    requires AllRoutes(table) && AllRoutes(longer)
  {
    |table| <= |longer| && forall i | 0 <= i < |table| :: Key(table[i]) == Key(longer[i])
  }

  /** The keys filed so far, in order, stay in front while further routes are filed. */
  lemma {:induction false} TableKeysGrow(routes: seq<Planned>, n: nat)
    requires AllRoutes(routes) && RouteTable(routes).Some? && n <= |routes|
    ensures RouteTable(routes[..n]).Some?
    ensures SameKeysAhead(RouteTable(routes[..n]).value, RouteTable(routes).value)
    decreases |routes|
  {
    if n < |routes| {
      var before := routes[..|routes| - 1];
      assert before[..n] == routes[..n];
      TableKeysGrow(before, n);
      PutKeepsKeys(RouteTable(before).value, routes[|routes| - 1]);
    } else {
      assert routes[..n] == routes;
    }
  }

  lemma {:induction false} PutKeepsKeys(table: seq<Planned>, r: Planned)
    requires AllRoutes(table) && r.Route? && Put(table, r).Some? && AllRoutes(Put(table, r).value)
    ensures SameKeysAhead(table, Put(table, r).value)
  {
    hide Key;
    if table != [] && Key(table[0]) != Key(r) {
      PutKeepsRoutes(table[1..], r);
      PutKeepsKeys(table[1..], r);
    }
  }

  /** The two errors: accounts that are not configured, all of them, come first; then routes that are filed
      under one text for different agents. */
  lemma MaterializeFailsIff(config: Config, agents: seq<AgentPlan>)
    ensures var r := Materialize(config, agents);
            var accounts := Accounts(config);
            var missing := set a | a in agents && !(accounts.Obj? && a.accountId in accounts.fields) :: a.accountId;
            var conflict := exists i, j, k, l ::
                              && 0 <= i < |agents| && 0 <= j < |agents[i].bindings|
                              && 0 <= k < |agents| && 0 <= l < |agents[k].bindings|
                              && Key(Required(agents[i], j)) == Key(Required(agents[k], l))
                              && agents[i].agentId != agents[k].agentId;
            && (missing != {} ==> r == Err(MissingAccounts(missing)))
            && (missing == {} && conflict ==> r == Err(ConflictingBindings))
            && (missing == {} && !conflict ==> r.Ok?)
  {
    RoutesOfAreRoutes(agents);
    var routes := RoutesOf(agents);
    TableFacts(routes);
    hide RouteTable, RoutesOf, Key, Installed;
    forall i, j | 0 <= i < |agents| && 0 <= j < |agents[i].bindings| ensures Required(agents[i], j) in routes {
      RouteOfBinding(agents, i, j);
    }
    if m, n :| 0 <= m < |routes| && 0 <= n < |routes| && Key(routes[m]) == Key(routes[n])
               && routes[m].agentId != routes[n].agentId {
      var i, j := BindingOfRoute(agents, routes[m]);
      var k, l := BindingOfRoute(agents, routes[n]);
    }
  }

  /** Each planned agent and each filed route is there exactly once, and entries that no plan manages
      survive in their order; all other parts of the config are untouched. */
  lemma MaterializeInstalls(config: Config, agents: seq<AgentPlan>)
    requires Materialize(config, agents).Ok?
    ensures AllRoutes(RoutesOf(agents)) && RouteTable(RoutesOf(agents)).Some?
    ensures var out, plans, table := Materialize(config, agents).value, AgentEntries(agents),
                                      RouteTable(RoutesOf(agents)).value;
            && (forall i | 0 <= i < |plans| :: Count(AgentsList(out), plans[i]) == 1)
            && (forall i | 0 <= i < |table| :: Count(Bindings(out), table[i]) == 1)
            && Unmanaged(AgentsList(out), plans) == Unmanaged(AgentsList(config), plans)
            && Unmanaged(Bindings(out), table) == Unmanaged(Bindings(config), table)
            && out - {"agents", "bindings"} == config - {"agents", "bindings"}
            && (forall name | name != "list" ::
                  Field(Field(Obj(out), "agents"), name) == Field(Field(Obj(config), "agents"), name))
  {
    RoutesOfAreRoutes(agents);
    hide Installed, AgentsList, Bindings, UpsertAll, Count, Unmanaged, RoutesOf, RouteTable, Unconfigured;
    var plans, table := AgentEntries(agents), RouteTable(RoutesOf(agents)).value;
    InstalledParts(config, agents, table);
    UpsertAllKeeps(AgentsList(config), plans);
    UpsertAllKeeps(Bindings(config), table);
  }

  /** Materializing the result again gives the same config. */
  lemma MaterializeTwice(config: Config, agents: seq<AgentPlan>)
    requires Materialize(config, agents).Ok?
    ensures Materialize(Materialize(config, agents).value, agents) == Materialize(config, agents)
  {
    RoutesOfAreRoutes(agents);
    hide Installed, AgentsList, Bindings, UpsertAll, RoutesOf, RouteTable, Accounts;
    var out, plans, table := Materialize(config, agents).value, AgentEntries(agents),
                              RouteTable(RoutesOf(agents)).value;
    InstalledParts(config, agents, table);
    UpsertTwice(AgentsList(config), plans);
    UpsertTwice(Bindings(config), table);
    InstalledAgain(config, agents, table);
    assert Unconfigured(out, agents) == Unconfigured(config, agents);
  }

  // ----- the code -----

  method EnsureManifestAccountsConfigured(config: Config, agents: seq<AgentPlan>) returns (missing: set<string>)
    ensures missing == Unconfigured(config, agents)
  {
    var accounts := Accounts(config);
    missing := {};
    for i := 0 to |agents|
      invariant missing == Unconfigured(config, agents[..i])
    {
      var agent := agents[i];
      assert agents[..i + 1] == agents[..i] + [agent];
      if !accounts.Obj? || agent.accountId !in accounts.fields {
        missing := missing + {agent.accountId};
      }
    }
    assert agents[..|agents|] == agents;
  }

  lemma FileOne(done: seq<Planned>, current: seq<Planned>, r: Planned)
    requires AllRoutes(done) && AllRoutes(current) && RouteTable(done) == Some(current) && r.Route?
    ensures AllRoutes(done + [r]) && RouteTable(done + [r]) == Put(current, r)
    ensures Put(current, r).Some? ==> AllRoutes(Put(current, r).value)
  {
    hide Key, Put;
    PutKeepsRoutes(current, r);
    assert (done + [r])[..|done|] == done;
  }

  /** The inner loop: filing the routes of one agent after those filed `before`. */
  method FileRoutes(filed: seq<Planned>, agent: AgentPlan, ghost before: seq<Planned>)
    returns (table: Option<seq<Planned>>)
    requires AllRoutes(filed) && AllRoutes(before) && RouteTable(before) == Some(filed)
    ensures AllRoutes(before + RoutesOfAgent(agent)) && RouteTable(before + RoutesOfAgent(agent)) == table
  {
    hide Key, Put, RouteTable;
    ghost var mine := RoutesOfAgent(agent);
    var current := filed;
    assert before + mine[..0] == before;
    for j := 0 to |agent.bindings|
      invariant AllRoutes(current) && RouteTable(before + mine[..j]) == Some(current)
    {
      var binding := agent.bindings[j];
      var route := Route(binding.channel, binding.accountId, agent.agentId);
      var next := Put(current, route);
      FileOne(before + mine[..j], current, route);
      assert before + mine[..j + 1] == before + mine[..j] + [route];
      if next.None? {
        ConflictStays(before + mine[..j + 1], before + mine);
        return None;
      }
      current := next.value;
    }
    assert mine[..|mine|] == mine;
    return Some(current);
  }

  /** The nested loops that file the planned routes. */
  method PlanRoutes(agents: seq<AgentPlan>) returns (table: Option<seq<Planned>>)
    ensures AllRoutes(RoutesOf(agents)) && table == RouteTable(RoutesOf(agents))
  {
    RoutesOfAreRoutes(agents);
    var filed: seq<Planned> := [];
    assert agents[..0] == [];
    for i := 0 to |agents|
      invariant AllRoutes(RoutesOf(agents[..i])) && AllRoutes(filed) && RouteTable(RoutesOf(agents[..i])) == Some(filed)
    {
      hide RouteTable;
      table := FileRoutes(filed, agents[i], RoutesOf(agents[..i]));
      RoutesPrefix(agents, i);
      if table.None? {
        ConflictStays(RoutesOf(agents[..i + 1]), RoutesOf(agents));
        return;
      }
      filed := table.value;
    }
    assert agents[..|agents|] == agents;
    return Some(filed);
  }

  lemma {:induction false} ConflictStays(first: seq<Planned>, routes: seq<Planned>)
    requires AllRoutes(routes) && first <= routes && RouteTable(first).None?
    ensures RouteTable(routes).None?
    decreases |routes|
  {
    if |first| < |routes| {
      ConflictStays(first, routes[..|routes| - 1]);
    } else {
      assert first == routes;
    }
  }

  lemma {:induction false} RoutesPrefix(agents: seq<AgentPlan>, i: nat)
    requires i < |agents|
    ensures RoutesOf(agents[..i + 1]) == RoutesOf(agents[..i]) + RoutesOfAgent(agents[i])
    ensures RoutesOf(agents[..i + 1]) <= RoutesOf(agents)
    decreases |agents|
  {
    assert agents[..i + 1][..i] == agents[..i];
    var last := |agents| - 1;
    if i < last {
      RoutesPrefix(agents[..last], i);
      assert agents[..last][..i] == agents[..i] && agents[..last][..i + 1] == agents[..i + 1];
    } else {
      assert agents[..i + 1] == agents;
    }
  }

  method InstallAll(list: seq<Json>, plans: seq<Planned>) returns (r: seq<Json>)
    ensures r == UpsertAll(list, plans)
  {
    r := list;
    for i := 0 to |plans|
      invariant r == UpsertAll(list, plans[..i])
    {
      assert plans[..i + 1][..i] == plans[..i];
      r := InstallEntry(r, plans[i]);
    }
    assert plans[..|plans|] == plans;
  }

  method MaterializeCompanyOpenClawConfig(config: Config, agents: seq<AgentPlan>) returns (r: Result<Config, Error>)
    ensures r == Materialize(config, agents)
  {
    var missing := EnsureManifestAccountsConfigured(config, agents);
    if missing != {} { return Err(MissingAccounts(missing)); }
    var existing := if Field(Obj(config), "agents").Obj? then Field(Obj(config), "agents").fields else map[];
    var agentsList := InstallAll(AgentsList(config), AgentEntries(agents));
    var table := PlanRoutes(agents);
    if table.None? { return Err(ConflictingBindings); }
    var bindings := InstallAll(Bindings(config), table.value);
    var nextConfig := config["agents" := Obj(existing["list" := Arr(agentsList)])];
    return Ok(nextConfig["bindings" := Arr(bindings)]);
  }
}
