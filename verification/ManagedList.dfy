/** JSON values, and the list surgery with which the compiler installs planned entries in a host
    config: the first managed entry is refreshed in place, further ones are removed, and a missing
    one is appended. */
module ManagedList {

  datatype Json =
    | Null
    | Bool(b: bool)
    | Num(n: int)
    | Str(s: string)
    | Arr(items: seq<Json>)
    | Obj(fields: map<string, Json>)

  const EMPTY := Obj(map[])

  /** `value[name]` for a record, absent otherwise. */
  function Field(e: Json, name: string): Json {
    if e.Obj? && name in e.fields then e.fields[name] else Null
  }

  /** An entry of `agents.list` or a route of `bindings` that the plan wants installed. */
  datatype Planned =
    | Agent(agentId: string, workspace: string)
    | Route(channel: string, accountId: string, agentId: string)

  predicate SameKey(p: Planned, q: Planned) {
    match (p, q)
    case (Agent(a, _), Agent(b, _)) => a == b
    case (Route(c, x, _), Route(d, y, _)) => c == d && x == y
    case _ => false
  }

  /** Whether a present `type` keeps a binding from being a route. */
  predicate OtherType(e: Json) {
    Field(e, "type").Str? && Field(e, "type").s != "" && Field(e, "type").s != "route"
  }

  /** The entries that installing `p` takes over. */
  predicate Manages(p: Planned, e: Json) {
    e.Obj? &&
    match p
    case Agent(id, _) => Field(e, "id") == Str(id)
    case Route(channel, accountId, _) =>
      && !OtherType(e)
      && Field(Field(e, "match"), "channel") == Str(channel)
      && Field(Field(e, "match"), "accountId") == Str(accountId)
  }

  /** The entry written for `p` over the entry `e`. */
  function Refresh(p: Planned, e: Json): Json
    requires e.Obj?
  {
    match p
    case Agent(id, workspace) => Obj(e.fields["id" := Str(id)]["workspace" := Str(workspace)])
    case Route(channel, accountId, agentId) =>
      var current := if Field(e, "match").Obj? then Field(e, "match").fields else map[];
      var route := Obj(current["channel" := Str(channel)]["accountId" := Str(accountId)]);
      Obj(e.fields["type" := Str("route")]["agentId" := Str(agentId)]["match" := route])
  }

  lemma RefreshFacts(p: Planned, e: Json)
    requires e.Obj?
    ensures Manages(p, Refresh(p, e))
  {}

  /** A refreshed entry says what the plan says, and everything else that it said before. */
  lemma RefreshKeepsRest(p: Planned, e: Json, name: string)
    requires e.Obj?
    ensures var r := Refresh(p, e);
            match p
            case Agent(id, workspace) =>
              && Field(r, "id") == Str(id) && Field(r, "workspace") == Str(workspace)
              && (name !in {"id", "workspace"} ==> Field(r, name) == Field(e, name))
            case Route(channel, accountId, agentId) =>
              && Field(r, "type") == Str("route") && Field(r, "agentId") == Str(agentId)
              && Field(Field(r, "match"), "channel") == Str(channel)
              && Field(Field(r, "match"), "accountId") == Str(accountId)
              && (name !in {"type", "agentId", "match"} ==> Field(r, name) == Field(e, name))
              && (name !in {"channel", "accountId"} ==>
                    Field(Field(r, "match"), name) == Field(Field(e, "match"), name))
  {}

  lemma ManagesKey(p: Planned, q: Planned, e: Json)
    requires Manages(p, e)
    ensures Manages(q, e) ==> SameKey(p, q) || p.Agent? != q.Agent?
    ensures SameKey(p, q) ==> Manages(q, e)
  {}

  /** The later of two plans for one key decides the entry. */
  lemma RefreshAbsorbs(p: Planned, q: Planned, e: Json)
    requires e.Obj? && SameKey(p, q)
    ensures Refresh(p, Refresh(q, e)) == Refresh(p, e)
  {
    if p.Agent? {
      assert Refresh(p, Refresh(q, e)).fields == Refresh(p, e).fields;
    } else {
      var x, y := Refresh(p, Refresh(q, e)), Refresh(p, e);
      assert x.fields["match"].fields == y.fields["match"].fields;
      assert x.fields == y.fields;
    }
  }

  function Without(list: seq<Json>, p: Planned): seq<Json> {
    if list == [] then [] else (if Manages(p, list[0]) then [] else [list[0]]) + Without(list[1..], p)
  }

  function Upsert(list: seq<Json>, p: Planned): seq<Json> {
    if list == [] then [Refresh(p, EMPTY)]
    else if Manages(p, list[0]) then [Refresh(p, list[0])] + Without(list[1..], p)
    else [list[0]] + Upsert(list[1..], p)
  }

  function UpsertAll(list: seq<Json>, plans: seq<Planned>): seq<Json> {
    if plans == [] then list else Upsert(UpsertAll(list, plans[..|plans| - 1]), plans[|plans| - 1])
  }

  // ----- each planned entry is there once -----

  ghost function Count(list: seq<Json>, p: Planned): nat {
    if list == [] then 0 else (if Manages(p, list[0]) then 1 else 0) + Count(list[1..], p)
  }

  /** Agents and routes are kept in different lists. */
  ghost predicate OneKind(plans: seq<Planned>) {
    forall i, j | 0 <= i < |plans| && 0 <= j < |plans| :: plans[i].Agent? == plans[j].Agent?
  }

  lemma {:induction false} WithoutCount(list: seq<Json>, p: Planned, q: Planned)
    requires p.Agent? == q.Agent?
    ensures Count(Without(list, p), q) == if SameKey(p, q) then 0 else Count(list, q)
  {
    if list != [] {
      WithoutCount(list[1..], p, q);
      if Manages(p, list[0]) {
        ManagesKey(p, q, list[0]);
        assert Without(list, p) == Without(list[1..], p);
      } else {
        if Manages(q, list[0]) { ManagesKey(q, p, list[0]); }
        assert Without(list, p)[1..] == Without(list[1..], p);
      }
    }
  }

  lemma {:induction false} UpsertCount(list: seq<Json>, p: Planned, q: Planned)
    requires p.Agent? == q.Agent?
    ensures Count(Upsert(list, p), q) == if SameKey(p, q) then 1 else Count(list, q)
  {
    if list == [] {
      RefreshFacts(p, EMPTY);
      ManagesKey(p, q, Refresh(p, EMPTY));
    } else if Manages(p, list[0]) {
      RefreshFacts(p, list[0]);
      ManagesKey(p, q, list[0]);
      ManagesKey(p, q, Refresh(p, list[0]));
      WithoutCount(list[1..], p, q);
      assert Upsert(list, p)[1..] == Without(list[1..], p);
    } else {
      if Manages(q, list[0]) { ManagesKey(q, p, list[0]); }
      UpsertCount(list[1..], p, q);
      assert Upsert(list, p)[1..] == Upsert(list[1..], p);
    }
  }

  /** Every planned entry is in the list exactly once. */
  lemma {:induction false} PlannedOnce(list: seq<Json>, plans: seq<Planned>, i: nat)
    requires OneKind(plans) && i < |plans|
    ensures Count(UpsertAll(list, plans), plans[i]) == 1
  {
    hide Manages, Refresh, Upsert;
    var last, before := plans[|plans| - 1], plans[..|plans| - 1];
    UpsertCount(UpsertAll(list, before), last, plans[i]);
    if !SameKey(last, plans[i]) {
      PlannedOnce(list, before, i);
    }
  }

  // ----- unmanaged entries survive in order -----

  ghost predicate Managed(plans: seq<Planned>, e: Json) {
    exists i :: 0 <= i < |plans| && Manages(plans[i], e)
  }

  ghost function Unmanaged(list: seq<Json>, plans: seq<Planned>): seq<Json> {
    if list == [] then [] else (if Managed(plans, list[0]) then [] else [list[0]]) + Unmanaged(list[1..], plans)
  }

  lemma {:induction false} WithoutKeepsUnmanaged(list: seq<Json>, plans: seq<Planned>, p: Planned)
    requires p in plans
    ensures Unmanaged(Without(list, p), plans) == Unmanaged(list, plans)
  {
    if list != [] {
      WithoutKeepsUnmanaged(list[1..], plans, p);
      if Manages(p, list[0]) {
        assert Without(list, p) == Without(list[1..], p);
      } else {
        assert Without(list, p)[1..] == Without(list[1..], p);
      }
    }
  }

  lemma {:induction false} UpsertKeepsUnmanaged(list: seq<Json>, plans: seq<Planned>, p: Planned)
    requires p in plans
    ensures Unmanaged(Upsert(list, p), plans) == Unmanaged(list, plans)
  {
    if list == [] {
      RefreshFacts(p, EMPTY);
    } else if Manages(p, list[0]) {
      RefreshFacts(p, list[0]);
      WithoutKeepsUnmanaged(list[1..], plans, p);
      assert Upsert(list, p)[1..] == Without(list[1..], p);
    } else {
      UpsertKeepsUnmanaged(list[1..], plans, p);
      assert Upsert(list, p)[1..] == Upsert(list[1..], p);
    }
  }

  /** The entries that no plan manages are the same as before, in the same order. */
  lemma {:induction false} UnmanagedSurvive(list: seq<Json>, plans: seq<Planned>, n: nat)
    requires n <= |plans|
    ensures Unmanaged(UpsertAll(list, plans[..n]), plans) == Unmanaged(list, plans)
  {
    if n > 0 {
      assert plans[..n][..n - 1] == plans[..n - 1];
      UnmanagedSurvive(list, plans, n - 1);
      UpsertKeepsUnmanaged(UpsertAll(list, plans[..n - 1]), plans, plans[n - 1]);
    }
  }

  // ----- installing twice is installing once -----

  /** What all plans together make of one entry. */
  ghost function RefreshAll(e: Json, plans: seq<Planned>): Json {
    if plans == [] then e
    else
      var before, last := RefreshAll(e, plans[..|plans| - 1]), plans[|plans| - 1];
      if Manages(last, before) then Refresh(last, before) else before
  }

  lemma {:induction false} RefreshAllKeepsKey(e: Json, plans: seq<Planned>, p: Planned)
    requires Manages(p, e) && forall i | 0 <= i < |plans| :: plans[i].Agent? == p.Agent?
    ensures Manages(p, RefreshAll(e, plans))
    ensures Refresh(p, RefreshAll(e, plans)) == Refresh(p, e)
  {
    if plans != [] {
      var before, last := plans[..|plans| - 1], plans[|plans| - 1];
      RefreshAllKeepsKey(e, before, p);
      var mid := RefreshAll(e, before);
      if Manages(last, mid) {
        ManagesKey(p, last, mid);
        RefreshFacts(last, mid);
        ManagesKey(last, p, Refresh(last, mid));
        RefreshAbsorbs(p, last, mid);
      }
    }
  }

  /** Every entry that some plan manages is already as all plans together leave it. */
  ghost predicate Settled(list: seq<Json>, plans: seq<Planned>) {
    forall k | 0 <= k < |list| && Managed(plans, list[k]) :: RefreshAll(list[k], plans) == list[k]
  }

  lemma {:induction false} RefreshAllUnmanaged(e: Json, plans: seq<Planned>)
    requires !Managed(plans, e)
    ensures RefreshAll(e, plans) == e
  {
    if plans != [] {
      var before, last := plans[..|plans| - 1], plans[|plans| - 1];
      assert forall i | 0 <= i < |before| :: before[i] == plans[i];
      RefreshAllUnmanaged(e, before);
      assert last in plans && !Manages(last, e);
    }
  }

  lemma {:induction false} InWithout(list: seq<Json>, p: Planned)
    ensures forall e | e in Without(list, p) :: e in list && !Manages(p, e)
  {
    if list != [] { InWithout(list[1..], p); }
  }

  lemma {:induction false} InUpsert(list: seq<Json>, p: Planned)
    ensures forall e | e in Upsert(list, p) ::
              (e in list && !Manages(p, e)) || exists x: Json :: x.Obj? && e == Refresh(p, x)
  {
    if list == [] {
      assert EMPTY.Obj?;
    } else if Manages(p, list[0]) {
      InWithout(list[1..], p);
    } else {
      InUpsert(list[1..], p);
    }
  }

  lemma {:induction false} UpsertAllSettles(list: seq<Json>, plans: seq<Planned>)
    requires OneKind(plans)
    ensures Settled(UpsertAll(list, plans), plans)
  {
    if plans != [] {
      var before, last := plans[..|plans| - 1], plans[|plans| - 1];
      UpsertAllSettles(list, before);
      var mid := UpsertAll(list, before);
      InUpsert(mid, last);
      forall e | e in Upsert(mid, last) && Managed(plans, e) ensures RefreshAll(e, plans) == e {
        if e in mid && !Manages(last, e) {
          ManagedBefore(e, plans);
          assert RefreshAll(e, before) == e by { var k :| 0 <= k < |mid| && mid[k] == e; }
        } else {
          var x: Json :| x.Obj? && e == Refresh(last, x);
          RefreshFacts(last, x);
          RefreshAllKeepsKey(e, before, last);
          RefreshAbsorbs(last, last, x);
        }
      }
    }
  }

  lemma ManagedBefore(e: Json, plans: seq<Planned>)
    requires plans != [] && Managed(plans, e) && !Manages(plans[|plans| - 1], e)
    ensures Managed(plans[..|plans| - 1], e)
  {
    var i :| 0 <= i < |plans| && Manages(plans[i], e);
    assert Manages(plans[..|plans| - 1][i], e);
  }

  ghost function MapRefresh(list: seq<Json>, plans: seq<Planned>): seq<Json> {
    seq(|list|, k requires 0 <= k < |list| => RefreshAll(list[k], plans))
  }

  lemma {:induction false} WithoutNone(list: seq<Json>, p: Planned)
    requires Count(list, p) == 0
    ensures Without(list, p) == list && forall k | 0 <= k < |list| :: !Manages(p, list[k])
  {
    if list != [] {
      WithoutNone(list[1..], p);
      assert list == [list[0]] + list[1..];
    }
  }

  /** With one managed entry an upsert only refreshes it. */
  lemma {:induction false} UpsertOne(list: seq<Json>, p: Planned)
    requires Count(list, p) == 1
    ensures |Upsert(list, p)| == |list|
    ensures forall k | 0 <= k < |list| ::
              Upsert(list, p)[k] == if Manages(p, list[k]) then Refresh(p, list[k]) else list[k]
  {
    if Manages(p, list[0]) {
      WithoutNone(list[1..], p);
    } else {
      UpsertOne(list[1..], p);
    }
  }

  lemma {:induction false} UpsertAllIsMap(list: seq<Json>, plans: seq<Planned>)
    requires OneKind(plans) && forall i | 0 <= i < |plans| :: Count(list, plans[i]) == 1
    ensures UpsertAll(list, plans) == MapRefresh(list, plans)
  {
    if plans == [] {
      assert MapRefresh(list, plans) == list;
    } else {
      var before, last := plans[..|plans| - 1], plans[|plans| - 1];
      UpsertAllIsMap(list, before);
      CountAfter(list, before, last);
      UpsertOne(UpsertAll(list, before), last);
    }
  }

  lemma {:induction false} CountAfter(list: seq<Json>, plans: seq<Planned>, q: Planned)
    requires Count(list, q) == 1 && forall i | 0 <= i < |plans| :: plans[i].Agent? == q.Agent?
    ensures Count(UpsertAll(list, plans), q) == 1
  {
    if plans != [] {
      var before, last := plans[..|plans| - 1], plans[|plans| - 1];
      CountAfter(list, before, q);
      UpsertCount(UpsertAll(list, before), last, q);
    }
  }

  /** Installing the same plans again changes nothing. */
  lemma UpsertTwice(list: seq<Json>, plans: seq<Planned>)
    requires OneKind(plans)
    ensures UpsertAll(UpsertAll(list, plans), plans) == UpsertAll(list, plans)
  {
    var once := UpsertAll(list, plans);
    forall i | 0 <= i < |plans| ensures Count(once, plans[i]) == 1 { PlannedOnce(list, plans, i); }
    UpsertAllIsMap(once, plans);
    UpsertAllSettles(list, plans);
    forall k | 0 <= k < |once| ensures RefreshAll(once[k], plans) == once[k] {
      if !Managed(plans, once[k]) { RefreshAllUnmanaged(once[k], plans); }
    }
  }

  // ----- the installed list as a whole -----

  /** One plan manages both entries. */
  ghost predicate Share(plans: seq<Planned>, e: Json, f: Json) {
    exists i :: 0 <= i < |plans| && Manages(plans[i], e) && Manages(plans[i], f)
  }

  /** The entries of `list` that share no plan with `e`. */
  ghost function Drop(list: seq<Json>, e: Json, plans: seq<Planned>): (rest: seq<Json>)
    ensures |rest| <= |list|
  {
    if list == [] then [] else (if Share(plans, e, list[0]) then [] else [list[0]]) + Drop(list[1..], e, plans)
  }

  /** Of the entries that share a plan only the first one stays, and it is as all plans leave it. */
  ghost function Shape(list: seq<Json>, plans: seq<Planned>): seq<Json>
    decreases |list|
  {
    if list == [] then []
    else [RefreshAll(list[0], plans)] + Shape(Drop(list[1..], list[0], plans), plans)
  }

  /** The blank entries of all plans. */
  ghost function Blanks(plans: seq<Planned>): seq<Json> {
    seq(|plans|, i requires 0 <= i < |plans| => Refresh(plans[i], EMPTY))
  }

  /** Plans of one kind that manage one common entry manage the same ones. */
  lemma KeysMeet(p: Planned, q: Planned, e: Json, f: Json)
    ensures p.Agent? == q.Agent? && Manages(p, e) && Manages(q, e) && Manages(q, f) ==> Manages(p, f)
  {}

  /** The last plan for an entry decides it. */
  lemma {:induction false} RefreshAllIsLast(e: Json, plans: seq<Planned>, i: nat)
    requires OneKind(plans) && i < |plans| && Manages(plans[i], e)
    requires forall j | i < j < |plans| :: !Manages(plans[j], e)
    ensures RefreshAll(e, plans) == Refresh(plans[i], e)
  {
    var before, last := plans[..|plans| - 1], plans[|plans| - 1];
    RefreshAllKeepsKey(e, before, plans[i]);
    var mid := RefreshAll(e, before);
    if i == |before| {
      assert plans[i] == last;
    } else {
      RefreshAllIsLast(e, before, i);
      KeysMeet(last, plans[i], mid, e);
    }
  }

  /** Refreshing does not change which plans manage an entry. */
  lemma RefreshAllManages(e: Json, plans: seq<Planned>, p: Planned)
    requires OneKind(plans + [p])
    ensures Manages(p, RefreshAll(e, plans)) <==> Manages(p, e)
  {
    forall i | 0 <= i < |plans| ensures plans[i].Agent? == p.Agent? {
      assert (plans + [p])[i] == plans[i] && (plans + [p])[|plans|] == p;
    }
    if Manages(p, e) {
      RefreshAllKeepsKey(e, plans, p);
    } else if Managed(plans, e) {
      var i :| 0 <= i < |plans| && Manages(plans[i], e);
      RefreshAllKeepsKey(e, plans, plans[i]);
      KeysMeet(p, plans[i], RefreshAll(e, plans), e);
    } else {
      RefreshAllUnmanaged(e, plans);
    }
  }

  lemma ShareIff(plans: seq<Planned>, e: Json, f: Json, p: Planned)
    requires OneKind(plans) && p in plans && Manages(p, e)
    ensures Share(plans, e, f) <==> Manages(p, f)
  {
    if Share(plans, e, f) {
      var i :| 0 <= i < |plans| && Manages(plans[i], e) && Manages(plans[i], f);
      ManagesKey(plans[i], p, e);
      ManagesKey(plans[i], p, f);
    }
  }

  lemma {:induction false} DropIsWithout(list: seq<Json>, e: Json, plans: seq<Planned>, p: Planned)
    requires OneKind(plans) && p in plans && Manages(p, e)
    ensures Drop(list, e, plans) == Without(list, p)
  {
    hide Manages, OneKind;
    if list != [] {
      ShareIff(plans, e, list[0], p);
      DropIsWithout(list[1..], e, plans, p);
    }
  }

  lemma {:induction false} DropAppend(a: seq<Json>, b: seq<Json>, e: Json, plans: seq<Planned>)
    ensures Drop(a + b, e, plans) == Drop(a, e, plans) + Drop(b, e, plans)
  {
    hide Share;
    if a == [] {
      assert a + b == b;
    } else {
      var first := if Share(plans, e, a[0]) then [] else [a[0]];
      DropAppend(a[1..], b, e, plans);
      assert (a + b)[0] == a[0] && (a + b)[1..] == a[1..] + b;
      assert Drop(a + b, e, plans) == first + Drop(a[1..] + b, e, plans);
      assert Drop(a, e, plans) == first + Drop(a[1..], e, plans);
      hide Drop;
      assert first + (Drop(a[1..], e, plans) + Drop(b, e, plans)) == first + Drop(a[1..], e, plans) + Drop(b, e, plans);
    }
  }

  lemma WithoutCons(x: Json, xs: seq<Json>, p: Planned)
    ensures Without([x] + xs, p) == if Manages(p, x) then Without(xs, p) else [x] + Without(xs, p)
    ensures ([x] + xs)[0] == x && ([x] + xs)[1..] == xs
  {
    hide Manages;
    assert ([x] + xs)[1..] == xs;
  }

  lemma {:induction false} WithoutDropped(list: seq<Json>, e: Json, plans: seq<Planned>, p: Planned)
    requires OneKind(plans + [p])
    ensures Manages(p, e) ==> Without(Drop(list, e, plans), p) == Without(list, p)
    ensures Without(Drop(list, e, plans), p) == Drop(Without(list, p), e, plans)
  {
    if list != [] {
      var x, xs := list[0], list[1..];
      assert list == [x] + xs;
      WithoutDropped(xs, e, plans, p);
      if Share(plans, e, x) {
        var i :| 0 <= i < |plans| && Manages(plans[i], e) && Manages(plans[i], x);
        assert (plans + [p])[i] == plans[i] && (plans + [p])[|plans|] == p;
        if Manages(p, e) {
          ManagesKey(p, plans[i], e);
          ManagesKey(plans[i], p, x);
        }
        hide Manages, Share;
        assert Drop(list, e, plans) == Drop(xs, e, plans);
        WithoutCons(x, xs, p);
      } else {
        hide Manages, Share;
        var kept := Drop(xs, e, plans);
        assert Drop(list, e, plans) == [x] + kept;
        WithoutCons(x, kept, p);
        if !Manages(p, x) {
          var rest := [x] + Without(xs, p);
          assert rest[0] == x && rest[1..] == Without(xs, p);
        }
        WithoutCons(x, xs, p);
      }
    }
  }

  lemma {:induction false} WithoutShape(list: seq<Json>, plans: seq<Planned>, p: Planned)
    requires OneKind(plans + [p])
    ensures Without(Shape(list, plans), p) == Shape(Without(list, p), plans)
    decreases |list|
  {
    hide Manages, OneKind, Share;
    if list != [] {
      var x, xs := list[0], list[1..];
      var kept := Drop(xs, x, plans);
      RefreshAllManages(x, plans, p);
      WithoutShape(kept, plans, p);
      WithoutDropped(xs, x, plans, p);
      assert Shape(list, plans)[1..] == Shape(kept, plans);
      if Manages(p, x) {
        assert Without(list, p) == Without(xs, p);
      } else {
        assert Without(list, p)[1..] == Without(xs, p);
      }
    }
  }

  /** A plan that manages none of the entries makes no difference. */
  lemma {:induction false} ShapeIgnores(list: seq<Json>, plans: seq<Planned>, p: Planned)
    requires OneKind(plans + [p]) && forall e | e in list :: !Manages(p, e)
    ensures Shape(list, plans + [p]) == Shape(list, plans)
    decreases |list|
  {
    if list != [] {
      var x, xs := list[0], list[1..];
      RefreshAllMore(x, plans, p);
      DropIgnores(xs, x, plans, p);
      InDrop(xs, x, plans);
      ShapeIgnores(Drop(xs, x, plans), plans, p);
    }
  }

  lemma RefreshAllMore(e: Json, plans: seq<Planned>, p: Planned)
    requires OneKind(plans + [p])
    ensures Manages(p, RefreshAll(e, plans)) <==> Manages(p, e)
    ensures RefreshAll(e, plans + [p]) ==
              if Manages(p, e) then Refresh(p, RefreshAll(e, plans)) else RefreshAll(e, plans)
  {
    RefreshAllManages(e, plans, p);
    hide Manages, Refresh, OneKind;
    assert (plans + [p])[..|plans|] == plans;
  }

  lemma {:induction false} DropIgnores(list: seq<Json>, e: Json, plans: seq<Planned>, p: Planned)
    requires !Manages(p, e)
    ensures Drop(list, e, plans + [p]) == Drop(list, e, plans)
  {
    hide Manages;
    if list != [] {
      DropIgnores(list[1..], e, plans, p);
      assert Share(plans + [p], e, list[0]) <==> Share(plans, e, list[0]) by {
        if Share(plans, e, list[0]) {
          var i :| 0 <= i < |plans| && Manages(plans[i], e) && Manages(plans[i], list[0]);
          assert (plans + [p])[i] == plans[i];
        }
      }
    }
  }

  lemma {:induction false} InDrop(list: seq<Json>, e: Json, plans: seq<Planned>)
    ensures forall x | x in Drop(list, e, plans) :: x in list
  {
    if list != [] { InDrop(list[1..], e, plans); }
  }

  /** Installing one more plan adds its blank entry at the end. */
  lemma {:induction false} UpsertShape(list: seq<Json>, plans: seq<Planned>, p: Planned)
    requires OneKind(plans + [p])
    ensures Upsert(Shape(list, plans), p) == Shape(list + [Refresh(p, EMPTY)], plans + [p])
    decreases |list|
  {
    var blank, all := Refresh(p, EMPTY), plans + [p];
    assert all[|plans|] == p;
    RefreshFacts(p, EMPTY);
    if list == [] {
      RefreshAllMore(blank, plans, p);
      assert forall i | 0 <= i < |plans| :: all[i] == plans[i];
      RefreshAllKeepsKey(blank, plans, p);
      RefreshAbsorbs(p, p, EMPTY);
      hide Manages, Refresh;
      assert list + [blank] == [blank] && [blank][1..] == [];
    } else {
      var x, xs := list[0], list[1..];
      var longer := list + [blank];
      assert longer[0] == x && longer[1..] == xs + [blank];
      RefreshAllMore(x, plans, p);
      assert Shape(list, plans)[1..] == Shape(Drop(xs, x, plans), plans);
      if Manages(p, x) {
        UpsertManaged(list, plans, p);
      } else {
        UpsertShape(Drop(xs, x, plans), plans, p);
        DropIgnores(xs + [blank], x, plans, p);
        DropAppend(xs, [blank], x, plans);
        assert Drop([blank], x, plans) == [blank] by {
          assert [blank][1..] == [] && Drop([], x, plans) == [];
          forall i | 0 <= i < |plans| ensures !(Manages(plans[i], x) && Manages(plans[i], blank)) {
            assert all[i] == plans[i];
            KeysMeet(p, plans[i], blank, x);
          }
        }
      }
    }
  }

  lemma UpsertManaged(list: seq<Json>, plans: seq<Planned>, p: Planned)
    requires OneKind(plans + [p]) && list != [] && Manages(p, list[0])
    ensures Upsert(Shape(list, plans), p) == Shape(list + [Refresh(p, EMPTY)], plans + [p])
  {
    var x, xs, blank := list[0], list[1..], Refresh(p, EMPTY);
    var longer := list + [blank];
    assert longer[0] == x && longer[1..] == xs + [blank];
    RefreshFacts(p, EMPTY);
    RefreshAllMore(x, plans, p);
    hide Manages, Refresh, OneKind, Share;
    assert Shape(list, plans)[1..] == Shape(Drop(xs, x, plans), plans);
    WithoutShape(Drop(xs, x, plans), plans, p);
    WithoutDropped(xs, x, plans, p);
    assert p in plans + [p];
    DropIsWithout(xs + [blank], x, plans + [p], p);
    WithoutAppend(xs, blank, p);
    InWithout(xs, p);
    ShapeIgnores(Without(xs, p), plans, p);
  }

  lemma {:induction false} WithoutAppend(list: seq<Json>, e: Json, p: Planned)
    requires Manages(p, e)
    ensures Without(list + [e], p) == Without(list, p)
  {
    hide Manages;
    if list == [] {
      assert list + [e] == [e] && [e][1..] == [];
    } else {
      WithoutAppend(list[1..], e, p);
      assert (list + [e])[1..] == list[1..] + [e];
    }
  }

  lemma {:induction false} ShapeOfNone(list: seq<Json>)
    ensures Shape(list, []) == list
    decreases |list|
  {
    if list != [] {
      DropOfNone(list[1..], list[0]);
      ShapeOfNone(list[1..]);
      assert list == [list[0]] + list[1..];
    }
  }

  lemma {:induction false} DropOfNone(list: seq<Json>, e: Json)
    ensures Drop(list, e, []) == list
  {
    if list != [] {
      DropOfNone(list[1..], e);
      assert list == [list[0]] + list[1..];
    }
  }

  /** Installing the plans puts a blank entry for each of them behind the list, keeps the first of the
      entries that one plan manages, and lets the last plan for it decide what it says. */
  lemma {:induction false} UpsertAllIs(list: seq<Json>, plans: seq<Planned>)
    requires OneKind(plans)
    ensures UpsertAll(list, plans) == Shape(list + Blanks(plans), plans)
  {
    hide Manages, Refresh, Share;
    if plans == [] {
      assert list + Blanks(plans) == list;
      ShapeOfNone(list);
    } else {
      var before, last := plans[..|plans| - 1], plans[|plans| - 1];
      UpsertAllIs(list, before);
      assert before + [last] == plans;
      UpsertShape(list + Blanks(before), before, last);
      assert list + Blanks(plans) == list + Blanks(before) + [Refresh(last, EMPTY)];
    }
  }

  // ----- the entry of one plan -----

  /** The first entry that `q` manages, or a blank one. */
  ghost function FirstOf(list: seq<Json>, q: Planned): Json {
    if list == [] then EMPTY else if Manages(q, list[0]) then list[0] else FirstOf(list[1..], q)
  }

  lemma {:induction false} FirstOfWithout(list: seq<Json>, p: Planned, q: Planned)
    requires p.Agent? == q.Agent? && !SameKey(p, q)
    ensures FirstOf(Without(list, p), q) == FirstOf(list, q)
  {
    if list != [] {
      FirstOfWithout(list[1..], p, q);
      if Manages(p, list[0]) {
        if Manages(q, list[0]) { ManagesKey(p, q, list[0]); }
        assert Without(list, p) == Without(list[1..], p);
      } else {
        assert Without(list, p)[1..] == Without(list[1..], p);
      }
    }
  }

  lemma {:induction false} FirstOfUpsert(list: seq<Json>, p: Planned, q: Planned)
    requires p.Agent? == q.Agent?
    ensures FirstOf(list, q).Obj?
    ensures FirstOf(Upsert(list, p), q) == if SameKey(p, q) then Refresh(p, FirstOf(list, q)) else FirstOf(list, q)
  {
    if list == [] {
      RefreshFacts(p, EMPTY);
      ManagesKey(p, q, Refresh(p, EMPTY));
      assert [Refresh(p, EMPTY)][1..] == [];
    } else if Manages(p, list[0]) {
      FirstOfUpsert(list[1..], p, q);
      RefreshFacts(p, list[0]);
      ManagesKey(p, q, list[0]);
      ManagesKey(p, q, Refresh(p, list[0]));
      assert Upsert(list, p)[1..] == Without(list[1..], p);
      if !SameKey(p, q) { FirstOfWithout(list[1..], p, q); }
    } else {
      FirstOfUpsert(list[1..], p, q);
      if SameKey(p, q) && Manages(q, list[0]) { ManagesKey(q, p, list[0]); }
      assert Upsert(list, p)[1..] == Upsert(list[1..], p);
    }
  }

  lemma {:induction false} FirstOfUpsertAll(list: seq<Json>, plans: seq<Planned>, i: nat)
    requires OneKind(plans) && i < |plans| && forall j | i < j < |plans| :: !SameKey(plans[j], plans[i])
    ensures FirstOf(list, plans[i]).Obj?
    ensures FirstOf(UpsertAll(list, plans), plans[i]) == Refresh(plans[i], FirstOf(list, plans[i]))
  {
    var q := plans[i];
    var before, last := plans[..|plans| - 1], plans[|plans| - 1];
    FirstOfUpsert(list, q, q);
    FirstOfUpsert(UpsertAll(list, before), last, q);
    if i == |before| {
      FirstOfKeeps(list, before, q);
      hide Manages, Refresh;
    } else {
      FirstOfUpsertAll(list, before, i);
    }
  }

  /** Whatever was installed before, refreshing the first entry of `q` has the same outcome. */
  lemma {:induction false} FirstOfKeeps(list: seq<Json>, plans: seq<Planned>, q: Planned)
    requires forall i | 0 <= i < |plans| :: plans[i].Agent? == q.Agent?
    ensures FirstOf(list, q).Obj? && FirstOf(UpsertAll(list, plans), q).Obj?
    ensures Refresh(q, FirstOf(UpsertAll(list, plans), q)) == Refresh(q, FirstOf(list, q))
  {
    FirstOfUpsert(list, q, q);
    if plans != [] {
      var before, last := plans[..|plans| - 1], plans[|plans| - 1];
      FirstOfKeeps(list, before, q);
      FirstOfUpsert(UpsertAll(list, before), last, q);
      if SameKey(last, q) { RefreshAbsorbs(q, last, FirstOf(UpsertAll(list, before), q)); }
    }
  }

  /** The first entry is in the list, and refreshing leaves it the only one that its plan manages. */
  lemma EntryOfPlan(list: seq<Json>, plans: seq<Planned>, i: nat) returns (k: nat)
    requires OneKind(plans) && i < |plans| && forall j | i < j < |plans| :: !SameKey(plans[j], plans[i])
    ensures FirstOf(list, plans[i]).Obj?
    ensures k < |UpsertAll(list, plans)| && UpsertAll(list, plans)[k] == Refresh(plans[i], FirstOf(list, plans[i]))
    ensures forall m | 0 <= m < |UpsertAll(list, plans)| :: Manages(plans[i], UpsertAll(list, plans)[m]) <==> m == k
  {
    var out := UpsertAll(list, plans);
    FirstOfUpsertAll(list, plans, i);
    PlannedOnce(list, plans, i);
    hide Refresh, Manages, UpsertAll;
    k := OneCounted(out, plans[i]);
  }

  lemma {:induction false} OneCounted(list: seq<Json>, q: Planned) returns (k: nat)
    requires Count(list, q) == 1
    ensures k < |list| && list[k] == FirstOf(list, q)
    ensures forall m | 0 <= m < |list| :: Manages(q, list[m]) <==> m == k
  {
    if Manages(q, list[0]) {
      k := 0;
      WithoutNone(list[1..], q);
    } else {
      k := OneCounted(list[1..], q);
      k := k + 1;
    }
  }

  lemma {:induction false} FirstOfIs(list: seq<Json>, q: Planned)
    ensures (forall k | 0 <= k < |list| :: !Manages(q, list[k])) ==> FirstOf(list, q) == EMPTY
    ensures forall k | 0 <= k < |list| && Manages(q, list[k]) && (forall j | 0 <= j < k :: !Manages(q, list[j])) ::
              FirstOf(list, q) == list[k]
  {
    hide Manages;
    if list != [] && !Manages(q, list[0]) { FirstOfIs(list[1..], q); }
  }
}
