/** Dropping workspace-state messages that were accepted a moment ago. Old entries are pruned when the
    table grows; pruning is not observable. */
module SyncDeduper {

  datatype Entry = Entry(fingerprint: string, seenAt: int)
  datatype Call = Call(key: string, fingerprint: string, now: int)

  const LIMIT: nat := 2048

  /** Whether the table answers that `c` is a repetition. */
  predicate Repeats(seen: map<string, Entry>, c: Call, cooldown: int) {
    c.key in seen && seen[c.key].fingerprint == c.fingerprint && c.now - seen[c.key].seenAt < cooldown
  }

  function Pruned(seen: map<string, Entry>, now: int, cooldown: int): map<string, Entry> {
    map k | k in seen && now - seen[k].seenAt < cooldown * 4 :: seen[k]
  }

  /** The table after a call. */
  function Next(seen: map<string, Entry>, c: Call, cooldown: int, prunes: bool): map<string, Entry> {
    if Repeats(seen, c, cooldown) then seen
    else
      var added := seen[c.key := Entry(c.fingerprint, c.now)];
      if prunes && |added| > LIMIT then Pruned(added, c.now, cooldown) else added
  }

  class Deduper {
    var seen: map<string, Entry>
    const cooldownMs: int

    constructor (cooldownMs: int)
      ensures seen == map[] && this.cooldownMs == cooldownMs
    {
      this.cooldownMs := cooldownMs;
      seen := map[];
    }

    method Prune(now: int)
      modifies this
      ensures seen == Pruned(old(seen), now, cooldownMs)
      ensures forall k :: k in seen <==> k in old(seen) && now - old(seen)[k].seenAt < 4 * cooldownMs
      ensures forall k | k in seen :: seen[k] == old(seen)[k]
    {
      var keys := seen.Keys;
      ghost var start := seen;
      while keys != {}
        invariant keys <= start.Keys && keys <= seen.Keys <= start.Keys
        invariant forall k | k in seen :: seen[k] == start[k]
        invariant forall k | k in start && k !in keys :: k in seen <==> now - start[k].seenAt < cooldownMs * 4
        decreases keys
      {
        var k :| k in keys;
        if now - seen[k].seenAt >= cooldownMs * 4 {
          seen := seen - {k};
        }
        keys := keys - {k};
      }
    }

    method ShouldProcess(key: string, fingerprint: string, now: int) returns (process: bool)
      modifies this
      ensures var c := Call(key, fingerprint, now);
              process == !Repeats(old(seen), c, cooldownMs) && seen == Next(old(seen), c, cooldownMs, true)
      ensures !process ==> seen == old(seen)
      ensures process ==>
                var added := old(seen)[key := Entry(fingerprint, now)];
                if |added| <= 2048 then seen == added
                else forall k ::
                       && (k in seen <==> k in added && now - added[k].seenAt < 4 * cooldownMs)
                       && (k in seen ==> seen[k] == added[k])
    {
      if key in seen && seen[key].fingerprint == fingerprint && now - seen[key].seenAt < cooldownMs {
        return false;
      }
      seen := seen[key := Entry(fingerprint, now)];
      if |seen| > LIMIT { Prune(now); }
      return true;
    }
  }

  // ----- pruning is not observable -----

  /** The answers to a sequence of calls. */
  ghost function Answers(seen: map<string, Entry>, calls: seq<Call>, cooldown: int, prunes: bool): seq<bool>
    decreases |calls|
  {
    if calls == [] then []
    else [!Repeats(seen, calls[0], cooldown)] +
         Answers(Next(seen, calls[0], cooldown, prunes), calls[1..], cooldown, prunes)
  }

  /** The clock does not go back, starting at `now`. */
  ghost predicate Ordered(calls: seq<Call>, now: int)
    decreases |calls|
  {
    calls == [] || (now <= calls[0].now && Ordered(calls[1..], calls[0].now))
  }

  /** What is missing from the pruned table has cooled down. */
  ghost predicate Similar(pruned: map<string, Entry>, full: map<string, Entry>, now: int, cooldown: int) {
    && (forall k | k in pruned :: k in full && pruned[k] == full[k])
    && (forall k | k in full :: full[k].seenAt <= now && (k !in pruned ==> now - full[k].seenAt >= cooldown))
  }

  lemma {:induction false} PruningIsInvisible(pruned: map<string, Entry>, full: map<string, Entry>,
                                              calls: seq<Call>, now: int, cooldown: int)
    requires Similar(pruned, full, now, cooldown) && Ordered(calls, now)
    ensures Answers(pruned, calls, cooldown, true) == Answers(full, calls, cooldown, false)
    decreases |calls|
  {
    if calls != [] {
      var c := calls[0];
      var p, f := Next(pruned, c, cooldown, true), Next(full, c, cooldown, false);
      assert Similar(p, f, c.now, cooldown);
      PruningIsInvisible(p, f, calls[1..], c.now, cooldown);
    }
  }

  /** With a clock that does not go back, the deduper answers every sequence of calls exactly as one
      that never prunes. */
  lemma DeduperIsExact(calls: seq<Call>, start: int, cooldown: int)
    requires Ordered(calls, start)
    ensures Answers(map[], calls, cooldown, true) == Answers(map[], calls, cooldown, false)
  {
    PruningIsInvisible(map[], map[], calls, start, cooldown);
  }

  // ----- what a refusal means -----

  /** The last accepted call for `key` among the first `n`. */
  ghost function LastAccepted(calls: seq<Call>, answers: seq<bool>, n: nat, key: string): (i: int)
    requires n <= |calls| == |answers|
    ensures -1 <= i < n
  {
    if n == 0 then -1
    else if calls[n - 1].key == key && answers[n - 1] then n - 1
    else LastAccepted(calls, answers, n - 1, key)
  }

  ghost function TableAt(calls: seq<Call>, n: nat, cooldown: int): map<string, Entry>
    requires n <= |calls|
  {
    if n == 0 then map[] else Next(TableAt(calls, n - 1, cooldown), calls[n - 1], cooldown, false)
  }

  lemma {:induction false} AnswersFrom(calls: seq<Call>, n: nat, i: nat, cooldown: int)
    requires n <= i < |calls|
    ensures |Answers(TableAt(calls, n, cooldown), calls[n..], cooldown, false)| == |calls| - n
    ensures Answers(TableAt(calls, n, cooldown), calls[n..], cooldown, false)[i - n] ==
                !Repeats(TableAt(calls, i, cooldown), calls[i], cooldown)
    decreases |calls| - n
  {
    var now, rest := calls[n..][0], calls[n..][1..];
    assert rest == calls[n + 1..];
    if n + 1 < |calls| {
      AnswersFrom(calls, n + 1, if i == n then i + 1 else i, cooldown);
    } else {
      assert rest == [];
    }
  }

  ghost predicate AreAnswers(calls: seq<Call>, answers: seq<bool>, cooldown: int) {
    |answers| == |calls| &&
      forall i | 0 <= i < |calls| :: answers[i] == !Repeats(TableAt(calls, i, cooldown), calls[i], cooldown)
  }

  lemma {:induction false} TableIsLastAccepted(calls: seq<Call>, answers: seq<bool>, n: nat, cooldown: int, key: string)
    requires n <= |calls| && AreAnswers(calls, answers, cooldown)
    ensures var i, table := LastAccepted(calls, answers, n, key), TableAt(calls, n, cooldown);
            (i == -1 <==> key !in table) && (i >= 0 ==> table[key] == Entry(calls[i].fingerprint, calls[i].now))
  {
    if n > 0 { TableIsLastAccepted(calls, answers, n - 1, cooldown, key); }
  }

  /** A call is refused exactly when the last accepted call for its key had the same fingerprint and was
      less than the cooldown earlier. */
  lemma RefusedIffJustAccepted(calls: seq<Call>, start: int, cooldown: int, n: nat)
    requires Ordered(calls, start) && n < |calls|
    ensures var answers := Answers(map[], calls, cooldown, true);
            && |answers| == |calls|
            && var i := LastAccepted(calls, answers, n, calls[n].key);
               !answers[n] <==>
                 i >= 0 && calls[i].fingerprint == calls[n].fingerprint && calls[n].now - calls[i].now < cooldown
  {
    DeduperIsExact(calls, start, cooldown);
    var answers := Answers(map[], calls, cooldown, true);
    assert calls[0..] == calls;
    AnswersFrom(calls, 0, 0, cooldown);
    forall i | 0 <= i < |calls| ensures answers[i] == !Repeats(TableAt(calls, i, cooldown), calls[i], cooldown) {
      AnswersFrom(calls, 0, i, cooldown);
    }
    TableIsLastAccepted(calls, answers, n, cooldown, calls[n].key);
  }
}
