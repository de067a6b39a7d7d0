/** Who answers a message: every employee's bot decides alone, from the same manifest. The regular
    expressions that pull mentions, tags and fields out of a text are taken as done; `lower` stands
    for `toLowerCase`. */
module Router {
  import opened Text

  datatype Option<+T> = None | Some(value: T)

  datatype Mode = SummaryFirst | Specialist | MentionOnly | SilentUnlessRouted | ProactiveOnOwnedChannel

  datatype Participation = Participation(
    mode: Mode, respondWhenMentioned: Option<bool>, replyInThreadsOnly: bool, topics: seq<string>)

  datatype Employee = Employee(
    id: string, alias: string, accountId: string, title: string, channels: seq<string>, participation: Participation)

  type Lower = string -> string

  /** A message: its mention tokens, its leading tag, its `owner` and `target` fields (all normalised,
      empty when absent) and its text. */
  datatype Message = Message(mentions: seq<string>, tag: string, owner: string, target: string, text: string)

  /** The owner field counts in a `task` message only, the target field in a `handoff` only. */
  function TaskOwner(m: Message): Option<string> {
    if m.tag == "task" && m.owner != "" then Some(m.owner) else None
  }

  function HandoffTarget(m: Message): Option<string> {
    if m.tag == "handoff" && m.target != "" then Some(m.target) else None
  }

  predicate HasSummaryTrigger(m: Message) {
    m.tag in {"blocked", "handoff", "done"}
  }

  // ----- names of an employee -----

  function Normalize(s: string, lower: Lower): string {
    lower(Trim(s))
  }

  /** The normalised value and its normalised pieces, without empty ones. */
  function TokensOf(raw: string, lower: Lower): set<string> {
    if raw == "" then {}
    else
      var pieces := set x | x in Split(raw, "") :: Normalize(x, lower);
      ({Normalize(raw, lower)} + pieces) - {""}
  }

  function Tokens(e: Employee, lower: Lower): set<string> {
    TokensOf(e.alias, lower) + TokensOf(e.id, lower) + TokensOf(e.accountId, lower) + TokensOf(e.title, lower)
  }

  lemma NextPiece(pieces: seq<string>, i: nat, lower: Lower)
    requires i < |pieces|
    ensures (set x | x in pieces[..i + 1] :: Normalize(x, lower))
         == (set x | x in pieces[..i] :: Normalize(x, lower)) + {Normalize(pieces[i], lower)}
  {
    hide Normalize;
    assert pieces[..i + 1] == pieces[..i] + [pieces[i]];
  }

  method AddTokens(values: set<string>, raw: string, lower: Lower) returns (r: set<string>)
    ensures r == values + TokensOf(raw, lower)
  {
    hide Normalize, Split;
    r := values;
    if raw == "" { return; }
    var normalized := Normalize(raw, lower);
    if normalized != "" { r := r + {normalized}; }
    var pieces := Split(raw, "");
    for i := 0 to |pieces|
      invariant r == values + (({normalized} + (set x | x in pieces[..i] :: Normalize(x, lower))) - {""})
    {
      var piece := Normalize(pieces[i], lower);
      NextPiece(pieces, i, lower);
      if piece != "" { r := r + {piece}; }
    }
    assert pieces[..|pieces|] == pieces;
  }

  method BuildEmployeeMentionTokens(e: Employee, lower: Lower) returns (values: set<string>)
    ensures values == Tokens(e, lower)
  {
    values := AddTokens({}, e.alias, lower);
    values := AddTokens(values, e.id, lower);
    values := AddTokens(values, e.accountId, lower);
    values := AddTokens(values, e.title, lower);
  }

  // ----- one employee's base decision -----

  datatype Reason =
    | NotCompanySim | DirectMessage | Mentioned | SummaryThread | SummaryTopic | SpecialistThread | OwnedChannel
    | SilentReason | NotMentioned | NotOwnedChannel | ThreadsOnly | AwaitingSummarySignal | TaskOwnerReason
    | NotTaskOwner | HandoffTargetReason | NotHandoffTarget | ThreadAssignee | NotThreadAssignee | SuppressedByPeer

  datatype Reply = Channel | Thread

  datatype Decision = Decision(shouldRespond: bool, reason: Reason, preferredReply: Reply)

  /** Where a message was posted, and to whom its thread is assigned. */
  datatype Params = Params(
    direct: bool, channel: Option<string>, message: Message, thread: Option<string>, assignedTo: Option<string>)

  predicate Given(s: Option<string>) {
    s.Some? && s.value != ""
  }

  /** The trimmed assignee, if any. */
  function Assignee(p: Params): Option<string> {
    if p.assignedTo.Some? && Trim(p.assignedTo.value) != "" then Some(Trim(p.assignedTo.value)) else None
  }

  predicate IsMentioned(m: Message, e: Employee, lower: Lower) {
    exists t :: t in m.mentions && t in Tokens(e, lower)
  }

  predicate IsAssignedChannel(e: Employee, channel: Option<string>, lower: Lower) {
    Given(channel) && exists c :: c in e.channels && Normalize(c, lower) == Normalize(channel.value, lower)
  }

  predicate Contains(text: string, part: string) {
    exists i :: 0 <= i <= |text| - |part| && text[i..][..|part|] == part
  }

  predicate MatchesTopic(m: Message, topics: seq<string>, lower: Lower) {
    exists t :: t in topics && Contains(Normalize(m.text, lower), Normalize(t, lower))
  }

  function Base(p: Params, e: Employee, lower: Lower): Decision {
    var m, how := p.message, e.participation;
    var inThread, owns := Given(p.thread), IsAssignedChannel(e, p.channel, lower);
    var owner, target, assignee := TaskOwner(m), HandoffTarget(m), Assignee(p);
    var ownerMatch := owner.Some? && owner.value in Tokens(e, lower);
    var targetMatch := target.Some? && target.value in Tokens(e, lower);
    if p.direct then Decision(true, DirectMessage, Channel)
    else if IsMentioned(m, e, lower) && how.respondWhenMentioned != Some(false) then Decision(true, Mentioned, Thread)
    else if ownerMatch then Decision(true, TaskOwnerReason, Thread)
    else if targetMatch then Decision(true, HandoffTargetReason, Thread)
    else match how.mode
      case MentionOnly => Decision(false, NotMentioned, Thread)
      case SilentUnlessRouted =>
        if owner.Some? then Decision(false, NotTaskOwner, Thread)
        else if target.Some? then Decision(false, NotHandoffTarget, Thread)
        else if assignee.Some? && assignee.value != e.id then Decision(false, NotThreadAssignee, Thread)
        else if assignee.Some? then Decision(true, ThreadAssignee, Thread)
        else if inThread && owns then Decision(true, SpecialistThread, Thread)
        else Decision(false, SilentReason, Thread)
      case Specialist =>
        if !owns then Decision(false, NotOwnedChannel, Thread)
        else if owner.Some? then Decision(false, NotTaskOwner, Thread)
        else if target.Some? then Decision(false, NotHandoffTarget, Thread)
        else if assignee.Some? && assignee.value != e.id then Decision(false, NotThreadAssignee, Thread)
        else if assignee.Some? then Decision(true, ThreadAssignee, Thread)
        else if how.replyInThreadsOnly && !inThread then Decision(false, ThreadsOnly, Thread)
        else Decision(true, SpecialistThread, Thread)
      case SummaryFirst =>
        if inThread && owns && HasSummaryTrigger(m) then Decision(true, SummaryThread, Thread)
        else if inThread && owns then Decision(false, AwaitingSummarySignal, Thread)
        else if owns && MatchesTopic(m, how.topics, lower) then Decision(true, SummaryTopic, Channel)
        else Decision(false, if owns then NotMentioned else NotOwnedChannel, Channel)
      case ProactiveOnOwnedChannel =>
        if owns then Decision(true, OwnedChannel, if inThread then Thread else Channel)
        else Decision(false, NotOwnedChannel, if inThread then Thread else Channel)
  }

  // ----- the election -----

  /** A response that yields to a peer: of at most one employee it should remain. */
  predicate Suppressible(d: Decision) {
    d.shouldRespond && d.reason in {SpecialistThread, OwnedChannel}
  }

  /** The first employee, in manifest order, with such a base decision. */
  function Winner(p: Params, es: seq<Employee>, lower: Lower): Option<nat> {
    if es == [] then None
    else if Suppressible(Base(p, es[0], lower)) then Some(0)
    else
      var later := Winner(p, es[1..], lower);
      if later.None? then None else Some(later.value + 1)
  }

  /** The employee for whom a bot runs, and the manifest it loaded. */
  datatype Context = Context(employees: seq<Employee>, employee: Employee)

  predicate ShouldSuppress(p: Params, context: Option<Context>, d: Decision, lower: Lower)
    requires context.Some?
    ensures ShouldSuppress(p, context, d, lower) ==> Suppressible(d)
  {
    Suppressible(d) &&
    var es := context.value.employees;
    WinnerFacts(p, es, lower);
    var winner := Winner(p, es, lower);
    winner.Some? && es[winner.value].id != context.value.employee.id
  }

  function Decide(p: Params, context: Option<Context>, lower: Lower): Decision {
    if context.None? then Decision(true, NotCompanySim, if Given(p.thread) then Thread else Channel)
    else
      var base := Base(p, context.value.employee, lower);
      if ShouldSuppress(p, context, base, lower) then Decision(false, SuppressedByPeer, base.preferredReply) else base
  }

  /** What the bot of employee `i` decides on its own. */
  function DecisionOf(p: Params, es: seq<Employee>, i: nat, lower: Lower): Decision
    requires i < |es|
  {
    Decide(p, Some(Context(es, es[i])), lower)
  }

  lemma {:induction false} WinnerFacts(p: Params, es: seq<Employee>, lower: Lower)
    ensures var w := Winner(p, es, lower);
            && (w.Some? ==> w.value < |es| && Suppressible(Base(p, es[w.value], lower)))
            && (forall i | 0 <= i < |es| && Suppressible(Base(p, es[i], lower)) :: w.Some? && w.value <= i)
  {
    hide Base, Suppressible;
    if es != [] {
      WinnerFacts(p, es[1..], lower);
      assert forall i | 1 <= i < |es| :: es[i] == es[1..][i - 1];
    }
  }

  /** For every manifest: a yielding response remains exactly for those with such a base decision who
      carry the winner's id; everyone else of that kind is suppressed, and no other decision changes. */
  lemma ElectionOutcome(p: Params, es: seq<Employee>, i: nat, lower: Lower)
    requires i < |es|
    ensures var base, d, w := Base(p, es[i], lower), DecisionOf(p, es, i, lower), Winner(p, es, lower);
            && (!Suppressible(base) ==> d == base)
            && (Suppressible(base) ==> w.Some? && w.value <= i)
            && (Suppressible(base) ==>
                  d == if es[i].id == es[w.value].id then base
                       else Decision(false, SuppressedByPeer, base.preferredReply))
  {
    hide Base;
    WinnerFacts(p, es, lower);
  }

  ghost predicate DistinctIds(es: seq<Employee>) {
    forall i, j | 0 <= i < j < |es| :: es[i].id != es[j].id
  }

  /** With unique ids the independent decisions fit together: the winner, and nobody else, gives a
      yielding response, and there is one iff some base decision is of that kind. */
  lemma OneResponder(p: Params, es: seq<Employee>, lower: Lower)
    requires DistinctIds(es)
    ensures forall i | 0 <= i < |es| :: Suppressible(DecisionOf(p, es, i, lower)) <==> Winner(p, es, lower) == Some(i)
    ensures Winner(p, es, lower).Some? <==> exists i :: 0 <= i < |es| && Suppressible(Base(p, es[i], lower))
    ensures forall i | 0 <= i < |es| :: DecisionOf(p, es, i, lower) ==
              var base := Base(p, es[i], lower);
              if Suppressible(base) && Winner(p, es, lower) != Some(i)
              then Decision(false, SuppressedByPeer, base.preferredReply) else base
  {
    hide Base;
    WinnerFacts(p, es, lower);
    forall i | 0 <= i < |es|
      ensures DecisionOf(p, es, i, lower) ==
              var base := Base(p, es[i], lower);
              if Suppressible(base) && Winner(p, es, lower) != Some(i)
              then Decision(false, SuppressedByPeer, base.preferredReply) else base
    {
      ElectionOutcome(p, es, i, lower);
    }
  }

  // ----- who answers, and why -----

  /** `t` is the text `raw`, or one of the words it is split into, trimmed and in lower case. */
  ghost predicate NameIn(t: string, raw: string, lower: Lower) {
    && raw != "" && t != ""
    && (t == lower(Trim(raw)) || exists k :: 0 <= k < |Split(raw, "")| && t == lower(Trim(Split(raw, "")[k])))
  }

  /** The names an employee goes by are those in its alias, id, account and title. */
  lemma TokensAre(e: Employee, lower: Lower, t: string)
    ensures t in Tokens(e, lower) <==>
              || NameIn(t, e.alias, lower) || NameIn(t, e.id, lower)
              || NameIn(t, e.accountId, lower) || NameIn(t, e.title, lower)
  {
    hide Split, Trim;
    forall raw: string ensures t in TokensOf(raw, lower) <==> NameIn(t, raw, lower) {
      assert forall k | 0 <= k < |Split(raw, "")| :: Split(raw, "")[k] in Split(raw, "");
    }
  }

  /** One text is a part of another. */
  lemma ContainsIff(text: string, part: string)
    ensures Contains(text, part) <==> exists pre: string, post: string :: text == pre + part + post
  {
    if Contains(text, part) {
      var i :| 0 <= i <= |text| - |part| && text[i..][..|part|] == part;
      assert text == text[..i] + part + text[i + |part|..];
    }
    if exists pre: string, post: string :: text == pre + part + post {
      var pre: string, post: string :| text == pre + part + post;
      assert text[|pre|..] == part + post;
      assert text[|pre|..][..|part|] == part;
    }
  }

  /** The message names an owner (of a task) or a target (of a handoff). */
  ghost predicate Addressed(m: Message) {
    (m.tag == "task" && m.owner != "") || (m.tag == "handoff" && m.target != "")
  }

  ghost predicate Mentions(p: Params, e: Employee, lower: Lower) {
    && e.participation.respondWhenMentioned != Some(false)
    && exists t :: t in p.message.mentions && t in Tokens(e, lower)
  }

  /** The message mentions `e`, or `e` is the owner or target it names. */
  ghost predicate Named(p: Params, e: Employee, lower: Lower) {
    || Mentions(p, e, lower)
    || (p.message.tag == "task" && p.message.owner != "" && p.message.owner in Tokens(e, lower))
    || (p.message.tag == "handoff" && p.message.target != "" && p.message.target in Tokens(e, lower))
  }

  /** A mention counts first, then an owner, then a target. */
  ghost function NameReason(p: Params, e: Employee, lower: Lower): Reason {
    if Mentions(p, e, lower) then Mentioned
    else if p.message.tag == "task" then TaskOwnerReason else HandoffTargetReason
  }

  /** The channel is one of the employee's own, up to case and white space around it. */
  ghost predicate Owns(e: Employee, p: Params, lower: Lower) {
    && p.channel.Some? && p.channel.value != ""
    && exists c :: c in e.channels && Normalize(c, lower) == Normalize(p.channel.value, lower)
  }

  ghost predicate InThread(p: Params) {
    p.thread.Some? && p.thread.value != ""
  }

  ghost predicate Assigned(p: Params) {
    p.assignedTo.Some? && Trim(p.assignedTo.value) != ""
  }

  /** `e` would answer a message of its channel that is for nobody in particular. */
  ghost predicate Offers(p: Params, e: Employee, lower: Lower) {
    && !p.direct && !Named(p, e, lower) && Owns(e, p, lower)
    && match e.participation.mode
       case SilentUnlessRouted => InThread(p) && !Addressed(p.message) && !Assigned(p)
       case Specialist =>
         !Addressed(p.message) && !Assigned(p) && (e.participation.replyInThreadsOnly ==> InThread(p))
       case ProactiveOnOwnedChannel => true
       case _ => false
  }

  /** `e` is the assignee of the thread. */
  ghost predicate Follows(p: Params, e: Employee, lower: Lower) {
    && !p.direct && !Named(p, e, lower) && !Addressed(p.message)
    && Assigned(p) && e.id == Trim(p.assignedTo.value)
    && (e.participation.mode == SilentUnlessRouted || (e.participation.mode == Specialist && Owns(e, p, lower)))
  }

  /** `e` sums up: a thread of its channel on a tag, and its channel on a topic. */
  ghost predicate SumsUp(p: Params, e: Employee, lower: Lower) {
    && !p.direct && !Named(p, e, lower) && e.participation.mode == SummaryFirst && Owns(e, p, lower)
    && if InThread(p) then p.message.tag in {"blocked", "handoff", "done"}
       else exists t :: t in e.participation.topics && Contains(Normalize(p.message.text, lower), Normalize(t, lower))
  }

  /** Whether an employee offers is what its base decision says. */
  lemma OffersIff(p: Params, e: Employee, lower: Lower)
    ensures Suppressible(Base(p, e, lower)) <==> Offers(p, e, lower)
  {
    hide Tokens, Normalize, Contains;
  }

  /** What an employee decides before it looks at its peers. */
  lemma BaseIs(p: Params, e: Employee, lower: Lower)
    ensures var b := Base(p, e, lower);
            && (p.direct ==> b == Decision(true, DirectMessage, Channel))
            && (!p.direct && Named(p, e, lower) ==>
                  b == Decision(true, NameReason(p, e, lower), Thread))
            && (Follows(p, e, lower) ==> b == Decision(true, ThreadAssignee, Thread))
            && (SumsUp(p, e, lower) ==>
                  b == Decision(true, if InThread(p) then SummaryThread else SummaryTopic,
                                if InThread(p) then Thread else Channel))
            && (Offers(p, e, lower) ==>
                  var proactive := e.participation.mode == ProactiveOnOwnedChannel;
                  b == Decision(true, if proactive then OwnedChannel else SpecialistThread,
                                if proactive && !InThread(p) then Channel else Thread))
            && (b.shouldRespond ==>
                  p.direct || Named(p, e, lower) || Follows(p, e, lower) || SumsUp(p, e, lower) || Offers(p, e, lower))
  {
    hide Tokens, Normalize, Contains, Trim;
  }

  /** Why an employee that does not even offer stays silent. */
  lemma SilencesAre(p: Params, es: seq<Employee>, i: nat, lower: Lower)
    requires i < |es| && !DecisionOf(p, es, i, lower).shouldRespond && !Offers(p, es[i], lower)
    ensures var e, d := es[i], DecisionOf(p, es, i, lower);
            var m, mode, owns := p.message, e.participation.mode, Owns(e, p, lower);
            match mode
            case MentionOnly => d.reason == NotMentioned && d.preferredReply == Thread
            case ProactiveOnOwnedChannel =>
              d.reason == NotOwnedChannel && d.preferredReply == if InThread(p) then Thread else Channel
            case SummaryFirst =>
              && d.reason == (if !owns then NotOwnedChannel
                              else if InThread(p) then AwaitingSummarySignal else NotMentioned)
              && d.preferredReply == if owns && InThread(p) then Thread else Channel
            case _ =>
              && d.preferredReply == Thread
              && d.reason == if mode == Specialist && !owns then NotOwnedChannel
                             else if m.tag == "task" && m.owner != "" then NotTaskOwner
                             else if m.tag == "handoff" && m.target != "" then NotHandoffTarget
                             else if Assigned(p) then NotThreadAssignee
                             else if mode == Specialist then ThreadsOnly else SilentReason
  {
    OffersIff(p, es[i], lower);
    ElectionOutcome(p, es, i, lower);
    hide Tokens, Normalize, Contains, Trim, DecisionOf;
  }

  /** Outside a company simulation everything is answered. */
  lemma WithoutCompanyAnswers(p: Params, lower: Lower)
    ensures Decide(p, None, lower) == Decision(true, NotCompanySim, if InThread(p) then Thread else Channel)
  {}

  /** A channel message that mentions and addresses nobody gets exactly one offered answer when a proactive
      employee owns the channel. */
  lemma ProactiveOwnerAnswers(p: Params, es: seq<Employee>, k: nat, lower: Lower) returns (i: nat)
    requires DistinctIds(es) && k < |es| && es[k].participation.mode == ProactiveOnOwnedChannel
    requires !p.direct && p.message.mentions == [] && !Addressed(p.message) && Owns(es[k], p, lower)
    ensures i <= k && Offers(p, es[i], lower) && DecisionOf(p, es, i, lower).shouldRespond
    ensures forall j | 0 <= j < |es| && Offers(p, es[j], lower) :: DecisionOf(p, es, j, lower).shouldRespond <==> j == i
  {
    hide Owns, DecisionOf, Tokens;
    i := 0;
    while !Offers(p, es[i], lower)
      invariant i <= k && forall j | 0 <= j < i :: !Offers(p, es[j], lower)
      decreases k - i
    {
      i := i + 1;
    }
    forall j | 0 <= j < |es| && Offers(p, es[j], lower) ensures DecisionOf(p, es, j, lower).shouldRespond <==> j == i {
      DecisionsAre(p, es, j, lower);
    }
    DecisionsAre(p, es, i, lower);
  }

  /** With unique ids, exactly these employees answer a message, each for this reason: everyone a direct
      one; everyone it names; the assignee; whoever sums up; and of those that offer, the first in the
      manifest. */
  lemma DecisionsAre(p: Params, es: seq<Employee>, i: nat, lower: Lower)
    requires DistinctIds(es) && i < |es|
    ensures var e, d := es[i], DecisionOf(p, es, i, lower);
            && (p.direct ==> d == Decision(true, DirectMessage, Channel))
            && (!p.direct && Named(p, e, lower) ==>
                  d == Decision(true, NameReason(p, e, lower), Thread))
            && (Follows(p, e, lower) ==> d == Decision(true, ThreadAssignee, Thread))
            && (SumsUp(p, e, lower) ==>
                  d == Decision(true, if InThread(p) then SummaryThread else SummaryTopic,
                                if InThread(p) then Thread else Channel))
            && (Offers(p, e, lower) ==>
                  var proactive := e.participation.mode == ProactiveOnOwnedChannel;
                  var first := forall j | 0 <= j < i :: !Offers(p, es[j], lower);
                  d == Decision(first, if !first then SuppressedByPeer
                                       else if proactive then OwnedChannel else SpecialistThread,
                                if proactive && !InThread(p) then Channel else Thread))
            && (d.shouldRespond ==>
                  p.direct || Named(p, e, lower) || Follows(p, e, lower) || SumsUp(p, e, lower) || Offers(p, e, lower))
  {
    FirstOfferWins(p, es, i, lower);
    OffersIff(p, es[i], lower);
    ElectionOutcome(p, es, i, lower);
    hide Tokens, Normalize, Contains, Winner, DecisionOf, Offers;
    BaseIs(p, es[i], lower);
  }

  lemma FirstOfferWins(p: Params, es: seq<Employee>, i: nat, lower: Lower)
    requires i < |es|
    ensures Winner(p, es, lower) == Some(i) <==>
              Offers(p, es[i], lower) && forall j | 0 <= j < i :: !Offers(p, es[j], lower)
  {
    hide Base, Offers, Suppressible;
    WinnerFacts(p, es, lower);
    forall j | 0 <= j < |es| ensures Suppressible(Base(p, es[j], lower)) <==> Offers(p, es[j], lower) {
      OffersIff(p, es[j], lower);
    }
  }
}
