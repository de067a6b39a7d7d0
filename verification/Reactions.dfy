/** Emoji reactions on messages: replicas that saw the same last action for every message, emoji and
    user hold the same reactions. */
module Reactions {

  datatype Reaction = Reaction(emoji: string, userId: string, timestamp: int)
  datatype Action = Add | Remove
  datatype Event = Event(messageId: string, emoji: string, userId: string, action: Action)
  datatype Triple = Triple(messageId: string, emoji: string, userId: string)

  function TripleOf(e: Event): Triple {
    Triple(e.messageId, e.emoji, e.userId)
  }

  predicate Matches(r: Reaction, emoji: string, userId: string) {
    r.emoji == emoji && r.userId == userId
  }

  predicate Has(list: seq<Reaction>, emoji: string, userId: string) {
    exists i :: 0 <= i < |list| && Matches(list[i], emoji, userId)
  }

  /** No emoji and user twice. */
  ghost predicate NoRepeats(list: seq<Reaction>) {
    forall i, j | 0 <= i < j < |list| :: !Matches(list[j], list[i].emoji, list[i].userId)
  }

  // ----- grouping -----

  /** The users that reacted with `emoji`, in order. */
  function Users(list: seq<Reaction>, emoji: string): seq<string> {
    if list == [] then []
    else
      var before, last := Users(list[..|list| - 1], emoji), list[|list| - 1];
      if last.emoji == emoji then before + [last.userId] else before
  }

  /** The number of reactions whose emoji is among `emojis`. */
  ghost function CountOf(list: seq<Reaction>, emojis: set<string>): nat {
    if list == [] then 0
    else CountOf(list[..|list| - 1], emojis) + (if list[|list| - 1].emoji in emojis then 1 else 0)
  }

  /** The sum of the group sizes over `emojis`. */
  ghost function GroupSizes(grouped: map<string, seq<string>>, emojis: set<string>): nat
    requires emojis <= grouped.Keys
  {
    if emojis == {} then 0
    else
      var e :| e in emojis;
      |grouped[e]| + GroupSizes(grouped, emojis - {e})
  }

  lemma {:induction false} CountSplits(list: seq<Reaction>, emojis: set<string>, e: string)
    requires e in emojis
    ensures CountOf(list, emojis) == CountOf(list, emojis - {e}) + |Users(list, e)|
  {
    if list != [] { CountSplits(list[..|list| - 1], emojis, e); }
  }

  lemma {:induction false} CountNone(list: seq<Reaction>)
    ensures CountOf(list, {}) == 0
  {
    if list != [] { CountNone(list[..|list| - 1]); }
  }

  lemma {:induction false} CountAll(list: seq<Reaction>, emojis: set<string>)
    requires forall i | 0 <= i < |list| :: list[i].emoji in emojis
    ensures CountOf(list, emojis) == |list|
  {
    if list != [] { CountAll(list[..|list| - 1], emojis); }
  }

  /** `grouped` has one group for each emoji in use, holding the users of that emoji in order. */
  ghost predicate IsGrouping(grouped: map<string, seq<string>>, list: seq<Reaction>) {
    && (forall e :: e in grouped <==> exists i :: 0 <= i < |list| && list[i].emoji == e)
    && (forall e | e in grouped :: grouped[e] == Users(list, e))
  }

  lemma {:induction false} GroupSizesCount(grouped: map<string, seq<string>>, list: seq<Reaction>, emojis: set<string>)
    requires emojis <= grouped.Keys && forall e | e in grouped :: grouped[e] == Users(list, e)
    ensures GroupSizes(grouped, emojis) == CountOf(list, emojis)
  {
    if emojis == {} {
      CountNone(list);
    } else {
      var e :| e in emojis && GroupSizes(grouped, emojis) == |grouped[e]| + GroupSizes(grouped, emojis - {e});
      GroupSizesCount(grouped, list, emojis - {e});
      CountSplits(list, emojis, e);
    }
  }

  /** The group sizes add up to the number of reactions. */
  lemma GroupsAddUp(grouped: map<string, seq<string>>, list: seq<Reaction>)
    requires IsGrouping(grouped, list)
    ensures GroupSizes(grouped, grouped.Keys) == |list|
  {
    GroupSizesCount(grouped, list, grouped.Keys);
    CountAll(list, grouped.Keys);
  }

  // ----- the manager -----

  class Manager {
    var reactions: map<string, seq<Reaction>>

    constructor ()
      ensures Valid() && reactions == map[]
    {
      reactions := map[];
    }

    /** No empty list is kept, and no triple is stored twice. */
    ghost predicate Valid()
      reads this
    {
      forall m | m in reactions :: reactions[m] != [] && NoRepeats(reactions[m])
    }

    ghost predicate Holds(t: Triple)
      reads this
    {
      t.messageId in reactions && Has(reactions[t.messageId], t.emoji, t.userId)
    }

    /** Adds unless present; returns whether an event is to be sent. */
    method AddReaction(messageId: string, emoji: string, userId: string, now: int) returns (changed: bool)
      requires Valid()
      modifies this
      ensures Valid() && changed == !old(Holds(Triple(messageId, emoji, userId)))
      ensures forall t: Triple :: Holds(t) <==> t == Triple(messageId, emoji, userId) || old(Holds(t))
      ensures reactions == if changed then
                old(reactions)[messageId := (if messageId in old(reactions) then old(reactions)[messageId] else [])
                                            + [Reaction(emoji, userId, now)]]
                else old(reactions)
    {
      var list := if messageId in reactions then reactions[messageId] else [];
      if Has(list, emoji, userId) { return false; }
      reactions := reactions[messageId := list + [Reaction(emoji, userId, now)]];
      HasAppended(list, Reaction(emoji, userId, now));
      forall t: Triple ensures Holds(t) <==> t == Triple(messageId, emoji, userId) || old(Holds(t)) {}
      return true;
    }

    /** Removes if present, and drops a list that becomes empty. */
    method RemoveReaction(messageId: string, emoji: string, userId: string) returns (changed: bool)
      requires Valid()
      modifies this
      ensures Valid() && changed == old(Holds(Triple(messageId, emoji, userId)))
      ensures forall t: Triple :: Holds(t) <==> t != Triple(messageId, emoji, userId) && old(Holds(t))
      ensures !changed ==> reactions == old(reactions)
      ensures changed ==>
                && messageId in old(reactions)
                && var list := old(reactions)[messageId];
                   exists k :: 0 <= k < |list| && Matches(list[k], emoji, userId) &&
                     reactions == if |list| == 1 then old(reactions) - {messageId}
                                  else old(reactions)[messageId := list[..k] + list[k + 1..]]
    {
      if messageId !in reactions { return false; }
      var list := reactions[messageId];
      var idx := 0;
      while idx < |list| && !Matches(list[idx], emoji, userId)
        invariant 0 <= idx <= |list|
        invariant forall k | 0 <= k < idx :: !Matches(list[k], emoji, userId)
      {
        idx := idx + 1;
      }
      if idx == |list| { return false; }
      var rest := list[..idx] + list[idx + 1..];
      HasSpliced(list, idx);
      reactions := if |rest| == 0 then reactions - {messageId} else reactions[messageId := rest];
      forall t: Triple ensures Holds(t) <==> t != Triple(messageId, emoji, userId) && old(Holds(t)) {}
      return true;
    }

    /** Removes if present and adds otherwise; returns the event for the other replicas. */
    method ToggleReaction(messageId: string, emoji: string, userId: string, now: int) returns (event: Event)
      requires Valid()
      modifies this
      ensures Valid()
      ensures var held := old(Holds(Triple(messageId, emoji, userId)));
              event == Event(messageId, emoji, userId, if held then Remove else Add)
      ensures forall t: Triple :: Holds(t) <==> old(Holds(t)) != (t == Triple(messageId, emoji, userId))
    {
      if messageId in reactions && Has(reactions[messageId], emoji, userId) {
        var _ := RemoveReaction(messageId, emoji, userId);
        event := Event(messageId, emoji, userId, Remove);
      } else {
        var _ := AddReaction(messageId, emoji, userId, now);
        event := Event(messageId, emoji, userId, Add);
      }
    }

    method HandleReactionEvent(e: Event, now: int)
      requires Valid()
      modifies this
      ensures Valid()
      ensures forall t: Triple :: Holds(t) <==> if t == TripleOf(e) then e.action == Add else old(Holds(t))
    {
      if e.action == Add {
        var _ := AddReaction(e.messageId, e.emoji, e.userId, now);
      } else {
        var _ := RemoveReaction(e.messageId, e.emoji, e.userId);
      }
    }

    method GetReactions(messageId: string) returns (grouped: map<string, seq<string>>)
      ensures IsGrouping(grouped, if messageId in reactions then reactions[messageId] else [])
    {
      hide Users;
      grouped := map[];
      var list := if messageId in reactions then reactions[messageId] else [];
      for i := 0 to |list|
        invariant IsGrouping(grouped, list[..i])
      {
        var r := list[i];
        ghost var before := grouped;
        if r.emoji !in grouped { grouped := grouped[r.emoji := []]; }
        grouped := grouped[r.emoji := grouped[r.emoji] + [r.userId]];
        GroupingExtends(before, grouped, list[..i], r);
        assert list[..i + 1] == list[..i] + [r];
      }
      assert list[..|list|] == list;
    }

    /** The sum of the group sizes of what `GetReactions` returns. */
    method GetReactionCount(messageId: string) returns (count: nat)
      ensures forall grouped ::
                IsGrouping(grouped, if messageId in reactions then reactions[messageId] else []) ==>
                  GroupSizes(grouped, grouped.Keys) == count
    {
      hide IsGrouping, GroupSizes;
      ghost var list := if messageId in reactions then reactions[messageId] else [];
      forall grouped | IsGrouping(grouped, list) ensures GroupSizes(grouped, grouped.Keys) == |list| {
        GroupsAddUp(grouped, list);
      }
      count := if messageId in reactions then |reactions[messageId]| else 0;
    }
  }

  /** `k` is one of the positions. */
  ghost predicate IsAt(at: seq<nat>, k: nat) {
    exists i :: 0 <= i < |at| && at[i] == k
  }

  lemma OneMoreAt(at: seq<nat>, n: nat)
    ensures IsAt(at + [n], n) && forall k: nat | IsAt(at, k) :: IsAt(at + [n], k)
  {
    assert (at + [n])[|at|] == n;
    forall k: nat | IsAt(at, k) ensures IsAt(at + [n], k) {
      var i :| 0 <= i < |at| && at[i] == k;
      assert (at + [n])[i] == k;
    }
  }

  /** A group is the users of one emoji's reactions, in the order of the list. */
  lemma {:induction false} UsersInOrder(list: seq<Reaction>, emoji: string) returns (at: seq<nat>)
    ensures |at| == |Users(list, emoji)| && forall i, j | 0 <= i < j < |at| :: at[i] < at[j]
    ensures forall i | 0 <= i < |at| ::
              at[i] < |list| && list[at[i]].emoji == emoji && Users(list, emoji)[i] == list[at[i]].userId
    ensures forall k: nat | k < |list| && list[k].emoji == emoji :: IsAt(at, k)
  {
    at := [];
    if list != [] {
      var n := |list| - 1;
      at := UsersInOrder(list[..n], emoji);
      OneMoreAt(at, n);
      hide IsAt;
      if list[n].emoji == emoji { at := at + [n]; }
    }
  }

  lemma {:induction false} UsersOfUnused(list: seq<Reaction>, emoji: string)
    requires forall i | 0 <= i < |list| :: list[i].emoji != emoji
    ensures Users(list, emoji) == []
  {
    if list != [] { UsersOfUnused(list[..|list| - 1], emoji); }
  }

  lemma GroupingExtends(before: map<string, seq<string>>, grouped: map<string, seq<string>>,
                         list: seq<Reaction>, r: Reaction)
    requires IsGrouping(before, list)
    requires grouped == before[r.emoji := (if r.emoji in before then before[r.emoji] else []) + [r.userId]]
    ensures IsGrouping(grouped, list + [r])
  {
    var longer := list + [r];
    assert longer[..|list|] == list && longer[|list|] == r;
    if r.emoji !in before { UsersOfUnused(list, r.emoji); }
    forall e ensures e in grouped <==> exists i :: 0 <= i < |longer| && longer[i].emoji == e {
      if e in before { var i :| 0 <= i < |list| && list[i].emoji == e; assert longer[i].emoji == e; }
    }
  }

  lemma HasAppended(list: seq<Reaction>, r: Reaction)
    requires NoRepeats(list) && !Has(list, r.emoji, r.userId)
    ensures NoRepeats(list + [r])
    ensures forall e: string, u: string :: Has(list + [r], e, u) <==> Matches(r, e, u) || Has(list, e, u)
  {
    forall e: string, u: string ensures Has(list + [r], e, u) <==> Matches(r, e, u) || Has(list, e, u) {
      assert (list + [r])[|list|] == r;
      if Has(list, e, u) {
        var i :| 0 <= i < |list| && Matches(list[i], e, u);
        assert (list + [r])[i] == list[i];
      }
    }
  }

  lemma SplicedAt(list: seq<Reaction>, idx: nat)
    requires idx < |list|
    ensures var rest := list[..idx] + list[idx + 1..];
            |rest| == |list| - 1 && forall k | 0 <= k < |rest| :: rest[k] == list[if k < idx then k else k + 1]
  {}

  lemma HasSpliced(list: seq<Reaction>, idx: nat)
    requires NoRepeats(list) && idx < |list|
    ensures var rest := list[..idx] + list[idx + 1..];
            && NoRepeats(rest)
            && forall e: string, u: string :: Has(rest, e, u) <==> Has(list, e, u) && !Matches(list[idx], e, u)
  {
    var rest := list[..idx] + list[idx + 1..];
    SplicedAt(list, idx);
    SplicedHas(list, idx, rest);
    forall i, j | 0 <= i < j < |rest| ensures !Matches(rest[j], rest[i].emoji, rest[i].userId) {
      var x, y := if i < idx then i else i + 1, if j < idx then j else j + 1;
      assert !Matches(list[y], list[x].emoji, list[x].userId);
    }
  }

  lemma SplicedHas(list: seq<Reaction>, idx: nat, rest: seq<Reaction>)
    requires NoRepeats(list) && idx < |list| && |rest| == |list| - 1
    requires forall k | 0 <= k < |rest| :: rest[k] == list[if k < idx then k else k + 1]
    ensures forall e: string, u: string :: Has(rest, e, u) <==> Has(list, e, u) && !Matches(list[idx], e, u)
  {
    forall e: string, u: string ensures Has(rest, e, u) <==> Has(list, e, u) && !Matches(list[idx], e, u) {
      if Has(rest, e, u) {
        var k :| 0 <= k < |rest| && Matches(rest[k], e, u);
        assert Matches(list[if k < idx then k else k + 1], e, u);
      }
      if Has(list, e, u) && !Matches(list[idx], e, u) {
        var k :| 0 <= k < |list| && Matches(list[k], e, u);
        assert Matches(rest[if k < idx then k else k - 1], e, u);
      }
    }
  }

  // ----- convergence -----

  /** The action of the last event about `t`, or `Remove` if there is none. */
  ghost function LastAction(events: seq<Event>, t: Triple): Action {
    if events == [] then Remove
    else if TripleOf(events[|events| - 1]) == t then events[|events| - 1].action
    else LastAction(events[..|events| - 1], t)
  }

  /** Event `i` adds `t`, and no later event is about it. */
  ghost predicate AddsLast(events: seq<Event>, t: Triple, i: nat) {
    && i < |events| && TripleOf(events[i]) == t && events[i].action == Add
    && forall j | i < j < |events| :: TripleOf(events[j]) != t
  }

  lemma {:induction false} LastActionIsLast(events: seq<Event>, t: Triple)
    ensures LastAction(events, t) == Add <==> exists i: nat :: AddsLast(events, t, i)
  {
    if events != [] {
      var n := |events| - 1;
      LastActionIsLast(events[..n], t);
      assert AddsLast(events, t, n) <==> TripleOf(events[n]) == t && events[n].action == Add;
      forall i: nat | i < n
        ensures AddsLast(events, t, i) <==> TripleOf(events[n]) != t && AddsLast(events[..n], t, i)
      {
        assert forall j | i < j < n :: events[..n][j] == events[j];
      }
    }
  }

  /** A replica that starts empty and handles `events`: it holds a triple iff its last action was `Add`. */
  method Replay(events: seq<Event>, clock: seq<int>) returns (m: Manager)
    requires |clock| == |events|
    ensures fresh(m) && m.Valid()
    ensures forall t: Triple :: m.Holds(t) <==> LastAction(events, t) == Add
    ensures forall t: Triple :: m.Holds(t) <==> exists i: nat :: AddsLast(events, t, i)
  {
    m := new Manager();
    for i := 0 to |events|
      invariant fresh(m) && m.Valid()
      invariant forall t: Triple :: m.Holds(t) <==> LastAction(events[..i], t) == Add
    {
      m.HandleReactionEvent(events[i], clock[i]);
      assert events[..i + 1][..i] == events[..i];
    }
    assert events[..|events|] == events;
    forall t: Triple ensures m.Holds(t) <==> exists i: nat :: AddsLast(events, t, i) { LastActionIsLast(events, t); }
  }

  /** Two replicas converge when they saw the same last action for every triple, in whatever order and
      however often the events were delivered. */
  method Converge(a: seq<Event>, b: seq<Event>, clockA: seq<int>, clockB: seq<int>) returns (x: Manager, y: Manager)
    requires |clockA| == |a| && |clockB| == |b|
    requires forall t: Triple :: LastAction(a, t) == LastAction(b, t)
    ensures x.Valid() && y.Valid() && forall t: Triple :: x.Holds(t) <==> y.Holds(t)
  {
    x := Replay(a, clockA);
    y := Replay(b, clockB);
  }
}
