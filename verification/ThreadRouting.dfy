/** Assigning threads to employees, and walking a communication scenario with the assignments. */
module ThreadRouting {
  import opened Router
  import Text

  datatype Source = FromTaskOwner | FromHandoffTarget
  datatype Assignment = Assignment(employeeId: string, source: Source)

  /** The first employee that goes by `token`. */
  function EmployeeByToken(es: seq<Employee>, token: Option<string>, lower: Lower): Option<nat> {
    if token.None? || es == [] then None
    else if token.value in Tokens(es[0], lower) then Some(0)
    else
      var later := EmployeeByToken(es[1..], token, lower);
      if later.None? then None else Some(later.value + 1)
  }

  lemma {:induction false} ByTokenFacts(es: seq<Employee>, token: Option<string>, lower: Lower)
    ensures var i := EmployeeByToken(es, token, lower);
            && (i.Some? ==> token.Some? && i.value < |es| && token.value in Tokens(es[i.value], lower))
            && (token.Some? ==> forall k | 0 <= k < |es| && token.value in Tokens(es[k], lower) ::
                 i.Some? && i.value <= k)
  {
    hide Tokens;
    if token.Some? && es != [] {
      ByTokenFacts(es[1..], token, lower);
      assert forall i | 1 <= i < |es| :: es[i] == es[1..][i - 1];
    }
  }

  /** The employee a message assigns its thread to, if any. An employee with an empty id is passed
      over. */
  function Resolved(es: seq<Employee>, m: Message, lower: Lower): Option<(nat, Source)>
    ensures Resolved(es, m, lower).Some? ==> Resolved(es, m, lower).value.0 < |es|
  {
    ByTokenFacts(es, TaskOwner(m), lower);
    ByTokenFacts(es, HandoffTarget(m), lower);
    var owner, target := EmployeeByToken(es, TaskOwner(m), lower), EmployeeByToken(es, HandoffTarget(m), lower);
    if owner.Some? && es[owner.value].id != "" then Some((owner.value, FromTaskOwner))
    else if target.Some? && es[target.value].id != "" then Some((target.value, FromHandoffTarget))
    else None
  }

  /** `i` is the first employee that goes by `token`, and its id is not empty. */
  ghost predicate GoesBy(es: seq<Employee>, i: nat, token: string, lower: Lower) {
    && i < |es| && es[i].id != "" && token in Tokens(es[i], lower)
    && forall k | 0 <= k < i :: token !in Tokens(es[k], lower)
  }

  /** A task assigns the thread to its owner, and a handoff to its target; nothing else does. */
  lemma ResolvedIff(es: seq<Employee>, m: Message, lower: Lower, i: nat, source: Source)
    ensures Resolved(es, m, lower) == Some((i, source)) <==>
              match source
              case FromTaskOwner => m.tag == "task" && m.owner != "" && GoesBy(es, i, m.owner, lower)
              case FromHandoffTarget => m.tag == "handoff" && m.target != "" && GoesBy(es, i, m.target, lower)
  {
    hide Tokens;
    ByTokenFacts(es, TaskOwner(m), lower);
    ByTokenFacts(es, HandoffTarget(m), lower);
  }

  function Update(es: seq<Employee>, m: Message, lower: Lower): Option<Assignment> {
    var r := Resolved(es, m, lower);
    if r.None? then None else Some(Assignment(es[r.value.0].id, r.value.1))
  }

  /** The employee a message assigns always responds to that message, wherever it is posted and
      whoever its thread was assigned to before. */
  lemma AssignedResponds(p: Params, es: seq<Employee>, lower: Lower)
    requires Resolved(es, p.message, lower).Some?
    ensures DecisionOf(p, es, Resolved(es, p.message, lower).value.0, lower).shouldRespond
  {
    ByTokenFacts(es, TaskOwner(p.message), lower);
    ByTokenFacts(es, HandoffTarget(p.message), lower);
    var i := Resolved(es, p.message, lower).value.0;
    hide Tokens, Resolved, IsMentioned, IsAssignedChannel, MatchesTopic;
    ElectionOutcome(p, es, i, lower);
  }

  // ----- scenarios -----

  datatype Step = Step(direct: bool, channel: Option<string>, thread: Option<string>, message: Message)

  /** The assignment in force for thread `t` before step `n`: that of the latest earlier message in the
      thread that resolves. */
  ghost function InForce(es: seq<Employee>, steps: seq<Step>, n: nat, t: string, lower: Lower): Option<Assignment>
    requires n <= |steps|
  {
    if n == 0 then None
    else
      var last := steps[n - 1];
      if last.thread == Some(t) && Update(es, last.message, lower).Some? then Update(es, last.message, lower)
      else InForce(es, steps, n - 1, t, lower)
  }

  /** The step `j` makes the assignment that is in force before step `n`. */
  lemma {:induction false} InForceIsLatest(es: seq<Employee>, steps: seq<Step>, n: nat, t: string, lower: Lower)
    ensures n <= |steps| ==>
              (InForce(es, steps, n, t, lower).None? <==>
                forall k | 0 <= k < n :: steps[k].thread != Some(t) || Update(es, steps[k].message, lower).None?)
    ensures n <= |steps| ==> forall j | 0 <= j < n && steps[j].thread == Some(t) &&
                  Update(es, steps[j].message, lower).Some?
              && (forall k | j < k < n :: steps[k].thread != Some(t) || Update(es, steps[k].message, lower).None?) ::
              InForce(es, steps, n, t, lower) == Update(es, steps[j].message, lower)
  {
    hide Update;
    if 0 < n <= |steps| { InForceIsLatest(es, steps, n - 1, t, lower); }
  }

  function ParamsOf(s: Step, current: Option<Assignment>): Params {
    Params(s.direct, s.channel, s.message, s.thread, if current.None? then None else Some(current.value.employeeId))
  }

  /** What all employees decide at step `n`. */
  ghost function DecisionsAt(es: seq<Employee>, steps: seq<Step>, n: nat, lower: Lower): seq<Decision>
    requires n < |steps|
  {
    var s := steps[n];
    var p := ParamsOf(s, if Given(s.thread) then InForce(es, steps, n, s.thread.value, lower) else None);
    seq(|es|, i requires 0 <= i < |es| => DecisionOf(p, es, i, lower))
  }

  /** The loop over the steps with its map of thread states. */
  method EvaluateScenario(es: seq<Employee>, steps: seq<Step>, lower: Lower) returns (decisions: seq<seq<Decision>>)
    ensures |decisions| == |steps|
    ensures forall n | 0 <= n < |steps| :: decisions[n] == DecisionsAt(es, steps, n, lower)
  {
    hide Update, DecisionOf;
    var threadState: map<string, Assignment> := map[];
    decisions := [];
    for n := 0 to |steps|
      invariant |decisions| == n
      invariant forall k | 0 <= k < n :: decisions[k] == DecisionsAt(es, steps, k, lower)
      invariant forall t: string | t != "" :: InForce(es, steps, n, t, lower)
                  == if t in threadState then Some(threadState[t]) else None
    {
      var step := steps[n];
      var current := if Given(step.thread) && step.thread.value in threadState
                     then Some(threadState[step.thread.value]) else None;
      var p := ParamsOf(step, current);
      decisions := decisions + [seq(|es|, i requires 0 <= i < |es| => DecisionOf(p, es, i, lower))];
      if Given(step.thread) {
        var update := Update(es, step.message, lower);
        if update.Some? { threadState := threadState[step.thread.value := update.value]; }
      }
    }
  }

  /** Step `j` is the latest message before step `n` that assigns the thread of step `n`. */
  ghost predicate Assigns(es: seq<Employee>, steps: seq<Step>, j: nat, n: nat, lower: Lower) {
    && j < n < |steps| && Given(steps[n].thread) && steps[j].thread == steps[n].thread
    && Resolved(es, steps[j].message, lower).Some?
    && forall k | j < k < n && steps[k].thread == steps[n].thread :: Resolved(es, steps[k].message, lower).None?
  }

  /** A message in a channel without mention, owner or target. */
  ghost predicate Plain(s: Step) {
    !s.direct && s.message.mentions == [] && TaskOwner(s.message) == HandoffTarget(s.message) == None
  }

  /** An employee that answers such a message only when it is routed to it or posted in its channel. */
  ghost predicate Routed(e: Employee) {
    e.participation.mode in {SilentUnlessRouted, Specialist}
  }

  /** A specialist takes part in its own channels only. */
  ghost predicate Present(e: Employee, s: Step, lower: Lower) {
    e.participation.mode == Specialist ==> IsAssignedChannel(e, s.channel, lower)
  }

  lemma AssignmentInForce(es: seq<Employee>, steps: seq<Step>, j: nat, n: nat, lower: Lower)
    requires Assigns(es, steps, j, n, lower)
    ensures InForce(es, steps, n, steps[n].thread.value, lower) == Update(es, steps[j].message, lower)
  {
    hide Resolved;
    var t := steps[n].thread.value;
    InForceIsLatest(es, steps, n, t, lower);
    assert forall k | j < k < n && steps[k].thread == Some(t) :: Update(es, steps[k].message, lower).None?;
  }

  /** Some step assigns the thread of step `n`, or none before it does. */
  lemma {:induction false} LatestAssigning(es: seq<Employee>, steps: seq<Step>, m: nat, n: nat, lower: Lower)
    returns (j: int)
    requires m <= n < |steps| && Given(steps[n].thread)
    requires forall k | m <= k < n && steps[k].thread == steps[n].thread :: Resolved(es, steps[k].message, lower).None?
    ensures j >= 0 ==> Assigns(es, steps, j, n, lower)
    ensures j < 0 ==> InForce(es, steps, m, steps[n].thread.value, lower) == None
  {
    hide Resolved;
    if m == 0 {
      j := -1;
    } else if steps[m - 1].thread == steps[n].thread && Resolved(es, steps[m - 1].message, lower).Some? {
      j := m - 1;
    } else {
      j := LatestAssigning(es, steps, m - 1, n, lower);
    }
  }

  /** Every employee decides a step of a scenario by the step itself and the id of the employee to whom the
      thread was last assigned, if it was. */
  lemma StepIsDecided(es: seq<Employee>, steps: seq<Step>, n: nat, i: nat, lower: Lower)
    requires n < |steps| && i < |es|
    ensures var Step(direct, channel, thread, message) := steps[n];
            && (forall j: nat | Assigns(es, steps, j, n, lower) ::
                  var k := Resolved(es, steps[j].message, lower).value.0;
                  DecisionsAt(es, steps, n, lower)[i]
                  == DecisionOf(Params(direct, channel, message, thread, Some(es[k].id)), es, i, lower))
            && ((forall j: nat :: !Assigns(es, steps, j, n, lower)) ==>
                  DecisionsAt(es, steps, n, lower)[i]
                  == DecisionOf(Params(direct, channel, message, thread, None), es, i, lower))
  {
    hide Resolved, InForce, DecisionOf;
    forall j: nat | Assigns(es, steps, j, n, lower)
      ensures InForce(es, steps, n, steps[n].thread.value, lower) == Update(es, steps[j].message, lower)
    {
      AssignmentInForce(es, steps, j, n, lower);
    }
    if Given(steps[n].thread) {
      var j := LatestAssigning(es, steps, n, n, lower);
    }
  }

  /** Over every scenario, a plain follow-up in an assigned thread is answered by exactly the routed
      employees that are present and whose id is the assigned id, trimmed. With unique ids and an assigned
      id without white space around it that is the assigned employee and nobody else; it answers as the
      assignee only if its id has none. */
  lemma FollowUpInScenario(es: seq<Employee>, steps: seq<Step>, j: nat, n: nat, i: nat, lower: Lower)
    requires DistinctIds(es) && Assigns(es, steps, j, n, lower) && Plain(steps[n])
    requires i < |es| && Routed(es[i])
    ensures var k, d := Resolved(es, steps[j].message, lower).value.0, DecisionsAt(es, steps, n, lower)[i];
            var id := Text.Trim(es[k].id);
            && (id != "" ==> (d.shouldRespond <==> es[i].id == id && Present(es[i], steps[n], lower)))
            && (id == es[k].id ==> (d.shouldRespond <==> i == k && Present(es[i], steps[n], lower)))
            && (i == k ==> (d == Decision(true, ThreadAssignee, Thread) <==>
                              id == es[k].id && Present(es[k], steps[n], lower)))
  {
    hide InForce, Tokens, IsAssignedChannel, MatchesTopic;
    AssignmentInForce(es, steps, j, n, lower);
    var current := Update(es, steps[j].message, lower);
    ElectionOutcome(ParamsOf(steps[n], current), es, i, lower);
  }

  /** An employee whose id has white space in front, as a manifest may give it: it is assigned the thread
      and then stays silent in it. */
  lemma UntrimmedAssigneeStaysSilent(lower: Lower, p: Participation) returns (es: seq<Employee>, steps: seq<Step>)
    requires lower("ann") == "ann" && p.mode == SilentUnlessRouted
    ensures |es| == 1 && es[0].id == " ann" && es[0].participation == p && |steps| == 2
    ensures Assigns(es, steps, 0, 1, lower) && Plain(steps[1])
    ensures Resolved(es, steps[0].message, lower) == Some((0, FromTaskOwner))
    ensures DecisionsAt(es, steps, 0, lower)[0].shouldRespond
    ensures DecisionsAt(es, steps, 1, lower)[0] == Decision(false, NotThreadAssignee, Thread)
  {
    var e := Employee(" ann", "ann", "ann", "", [], p);
    es := [e];
    var task := Step(false, None, Some("t"), Message([], "task", "ann", "", ""));
    steps := [task, Step(false, None, Some("t"), Message([], "", "", "", ""))];
    assert Text.Trim("ann") == "ann" by { Text.TrimOfTrimmed("ann"); }
    assert Text.Trim(" ann") == "ann" by { assert " ann"[1..] == "ann"; }
    assert "ann" in Tokens(e, lower);
    hide Tokens, IsAssignedChannel;
    var p0 := ParamsOf(task, None);
    assert DecisionsAt(es, steps, 0, lower)[0] == DecisionOf(p0, es, 0, lower);
    AssignedResponds(p0, es, lower);
    AssignmentInForce(es, steps, 0, 1, lower);
    hide InForce;
    ElectionOutcome(ParamsOf(steps[1], Update(es, task.message, lower)), es, 0, lower);
  }
}
