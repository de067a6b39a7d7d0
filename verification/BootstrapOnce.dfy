/** Running a bootstrap task at most once per key, with callers, successes and failures interleaved at
    the awaits. */
module BootstrapOnce {

  datatype Option<+T> = None | Some(value: T)

  datatype Status = Running | Succeeded | Failed

  /** A started task. `stuck`: calling it threw, so that there is no promise to await. An async task never
      does this: when it fails, however early, it returns a promise that is rejected, and its run ends by a
      `TaskEnds` without success. */
  datatype Run = Run(key: string, status: Status, stuck: bool)

  datatype Outcome = Pending | Returned | Threw

  /** A call: the run it waits for, none if the key was completed already. */
  datatype Caller = Caller(key: string, waitsFor: Option<nat>, outcome: Outcome)

  /** `throwsAtOnce`: a task started by the call throws when it is called. */
  datatype Event = Call(key: string, throwsAtOnce: bool) | TaskEnds(run: nat, success: bool) | CallerGoesOn(caller: nat)

  class Bootstrap {
    var inFlight: map<string, nat>
    var completed: set<string>
    var runs: seq<Run>
    var callers: seq<Caller>

    /** Run `r` is of `key` and has the given status. */
    ghost predicate Is(r: nat, key: string, status: Status)
      reads this
    {
      r < |runs| && runs[r].key == key && runs[r].status == status
    }

    /** The latest run of each key. */
    ghost var latest: map<string, nat>

    /** Earlier runs of a key have failed, and not at once. */
    ghost predicate EarlierFailed(r: nat)
      requires r < |runs|
      reads `runs, `latest
    {
      && runs[r].key in latest && r <= latest[runs[r].key]
      && (r < latest[runs[r].key] ==> runs[r].status == Failed && !runs[r].stuck)
      && (runs[r].stuck ==> runs[r].status == Failed)
    }

    /** A key is in flight iff its latest run is running or stuck, and completed iff it succeeded. */
    ghost predicate LatestOk(k: string)
      requires k in latest
      reads `runs, `latest, `inFlight, `completed
    {
      && latest[k] < |runs| && runs[latest[k]].key == k
      && (k in inFlight <==> runs[latest[k]].status == Running || runs[latest[k]].stuck)
      && (k in inFlight ==> inFlight[k] == latest[k])
      && (k in completed <==> runs[latest[k]].status == Succeeded)
    }

    ghost predicate Valid()
      reads this
    {
      && inFlight.Keys <= latest.Keys && completed <= latest.Keys
      && (forall r | 0 <= r < |runs| :: EarlierFailed(r))
      && (forall k | k in latest :: LatestOk(k))
      && (forall c | 0 <= c < |callers| :: CallerOk(callers[c]))
    }

    /** A caller waits for a run of its key; once it has returned, the key is completed. */
    ghost predicate CallerOk(c: Caller)
      reads `runs, `completed
    {
      && (c.waitsFor.Some? ==> c.waitsFor.value < |runs| && runs[c.waitsFor.value].key == c.key)
      && (c.waitsFor.None? ==> c.outcome == Returned)
      && (c.outcome == Returned ==> c.key in completed)
      && (c.outcome == Threw ==> c.waitsFor.Some? && runs[c.waitsFor.value].status == Failed)
    }

    constructor ()
      ensures Valid() && runs == [] && callers == [] && completed == {} && inFlight == map[]
    {
      inFlight, completed, runs, callers, latest := map[], {}, [], [], map[];
    }

    method StartsRun(key: string, throwsAtOnce: bool) returns (run: nat)
      requires Valid() && key !in completed && key !in inFlight
      modifies `runs, `inFlight, `latest
      ensures Valid() && run == |old(runs)| && inFlight == old(inFlight)[key := run]
      ensures runs == old(runs) + [Run(key, if throwsAtOnce then Failed else Running, throwsAtOnce)]
    {
      run := |runs|;
      runs := runs + [Run(key, if throwsAtOnce then Failed else Running, throwsAtOnce)];
      inFlight := inFlight[key := run];
      latest := latest[key := run];
      assert old(key in latest ==> LatestOk(key));
      forall q | 0 <= q < |old(runs)| ensures EarlierFailed(q) { assert old(EarlierFailed(q)); }
      forall k | k in latest && k != key ensures LatestOk(k) { assert old(LatestOk(k)); }
      forall c | 0 <= c < |callers| ensures CallerOk(callers[c]) { assert old(CallerOk(callers[c])); }
    }

    /** A call, up to its first await. When calling the task throws, the run is taken out of `inFlight`
        before it is put in. */
    method Calls(key: string, throwsAtOnce: bool)
      requires Valid()
      modifies this
      ensures Valid() && completed == old(completed)
      ensures if key in old(completed) then
                && runs == old(runs) && inFlight == old(inFlight)
                && callers == old(callers) + [Caller(key, None, Returned)]
              else if key in old(inFlight) then
                && runs == old(runs) && inFlight == old(inFlight)
                && callers == old(callers) + [Caller(key, Some(old(inFlight)[key]), Pending)]
              else
                && runs == old(runs) + [Run(key, if throwsAtOnce then Failed else Running, throwsAtOnce)]
                && inFlight == old(inFlight)[key := |old(runs)|]
                && callers == old(callers) + [Caller(key, Some(|old(runs)|), Pending)]
    {
      if key in completed {
        callers := callers + [Caller(key, None, Returned)];
        return;
      }
      if key in inFlight {
        callers := callers + [Caller(key, Some(inFlight[key]), Pending)];
        return;
      }
      var run := StartsRun(key, throwsAtOnce);
      callers := callers + [Caller(key, Some(run), Pending)];
    }

    /** The promise of a running run's task is settled. */
    method TaskDone(r: nat, success: bool)
      requires Valid() && r < |runs| && runs[r].status == Running
      modifies this
      ensures Valid() && callers == old(callers)
      ensures runs == old(runs)[r := old(runs)[r].(status := if success then Succeeded else Failed)]
      ensures completed == if success then old(completed) + {runs[r].key} else old(completed)
      ensures inFlight == old(inFlight) - {runs[r].key}
    {
      var key := runs[r].key;
      assert EarlierFailed(r) && LatestOk(key);
      runs := runs[r := runs[r].(status := if success then Succeeded else Failed)];
      if success { completed := completed + {key}; }
      inFlight := inFlight - {key};
      forall q | 0 <= q < |runs| ensures EarlierFailed(q) { assert old(EarlierFailed(q)); }
      forall k | k in latest ensures LatestOk(k) { assert old(LatestOk(k)); }
      forall c | 0 <= c < |callers| ensures CallerOk(callers[c]) { assert old(CallerOk(callers[c])); }
    }

    /** A waiting caller goes on after its run has ended. */
    method GoesOn(c: nat)
      requires Valid() && c < |callers| && callers[c].outcome == Pending
      requires callers[c].waitsFor.Some? && runs[callers[c].waitsFor.value].status != Running
      modifies `callers
      ensures Valid()
      ensures callers == old(callers)[c := old(callers)[c].(outcome :=
                if runs[old(callers)[c].waitsFor.value].status == Succeeded then Returned else Threw)]
    {
      assert CallerOk(callers[c]) && EarlierFailed(callers[c].waitsFor.value) && LatestOk(callers[c].key);
      var status := runs[callers[c].waitsFor.value].status;
      callers := callers[c := callers[c].(outcome := if status == Succeeded then Returned else Threw)];
    }

    method Perform(e: Event)
      requires Valid()
      modifies this
      ensures Valid() && |runs| >= |old(runs)|
      ensures forall r | 0 <= r < |old(runs)| && old(runs)[r].status == Failed :: runs[r] == old(runs)[r]
      ensures match e
              case Call(key, _) => |callers| == |old(callers)| + 1 && callers[|old(callers)|].key == key
              case TaskEnds(r, success) =>
                r < |old(runs)| && old(runs)[r].status == Running ==>
                  runs[r].status == if success then Succeeded else Failed
              case CallerGoesOn(c) =>
                c < |old(callers)| && old(callers)[c].waitsFor.Some? ==>
                  |callers| == |old(callers)| && callers[c].waitsFor == old(callers)[c].waitsFor &&
                  (runs[callers[c].waitsFor.value].status != Running ==> callers[c].outcome != Pending)
    {
      assert forall c | 0 <= c < |callers| :: CallerOk(callers[c]);
      match e
      case Call(key, throwsAtOnce) => Calls(key, throwsAtOnce);
      case TaskEnds(r, success) => if r < |runs| && runs[r].status == Running { TaskDone(r, success); }
      case CallerGoesOn(c) =>
        if c < |callers| && callers[c].outcome == Pending {
          assert CallerOk(callers[c]);
          if runs[callers[c].waitsFor.value].status != Running { GoesOn(c); }
        }
    }

    /** In every valid state a key has at most one running task and at most one successful run, never
        both, and every caller that returned did so after that success. */
    lemma OncePerKey(key: string, q: nat, r: nat)
      requires Valid()
      ensures Is(q, key, Running) && Is(r, key, Running) ==> q == r
      ensures Is(q, key, Succeeded) && Is(r, key, Succeeded) ==> q == r
      ensures Is(q, key, Succeeded) ==> !Is(r, key, Running)
      ensures forall c | 0 <= c < |callers| && callers[c].outcome == Returned ::
                exists s: nat :: Is(s, callers[c].key, Succeeded)
    {
      assert q < |runs| ==> EarlierFailed(q);
      assert r < |runs| ==> EarlierFailed(r);
      forall c | 0 <= c < |callers| && callers[c].outcome == Returned
        ensures exists s: nat :: Is(s, callers[c].key, Succeeded)
      {
        var k := callers[c].key;
        assert CallerOk(callers[c]) && LatestOk(k);
        assert Is(latest[k], k, Succeeded);
      }
    }

    /** A key without success can be retried exactly when no run of it is at work and no call of its tasks
        threw: such a run stays in `inFlight` for good, while a task whose promise is rejected frees its
        key. */
    lemma RetryableIff(key: string)
      requires Valid() && key !in completed
      ensures key !in inFlight <==>
                forall r | 0 <= r < |runs| && runs[r].key == key :: runs[r].status == Failed && !runs[r].stuck
    {
      forall r | 0 <= r < |runs| && runs[r].key == key
        ensures key in latest && (r == latest[key] || (runs[r].status == Failed && !runs[r].stuck))
      {
        assert EarlierFailed(r);
      }
      if key in latest { assert LatestOk(key) && runs[latest[key]].key == key; }
    }

    /** A run whose task threw when it was called keeps its key in flight: no later run of the key exists, and
        its callers, except those of earlier runs, all wait for this one. */
    lemma StuckRunHoldsKey(r: nat)
      requires Valid() && r < |runs| && runs[r].stuck
      ensures var key := runs[r].key;
              && key !in completed && key in inFlight && inFlight[key] == r
              && (forall q | 0 <= q < |runs| && runs[q].key == key :: q <= r)
              && (forall c | 0 <= c < |callers| && callers[c].key == key ::
                    callers[c].waitsFor.Some? && callers[c].waitsFor.value <= r && callers[c].outcome != Returned)
    {
      var key := runs[r].key;
      assert EarlierFailed(r) && LatestOk(key);
      forall q | 0 <= q < |runs| && runs[q].key == key ensures q <= r { assert EarlierFailed(q); }
      forall c | 0 <= c < |callers| && callers[c].key == key
        ensures callers[c].waitsFor.Some? && callers[c].waitsFor.value <= r && callers[c].outcome != Returned
      {
        assert CallerOk(callers[c]);
      }
    }
  }

  /** A key whose first task throws when it is called, instead of returning a promise, is stuck: whatever
      happens afterwards, no other task is ever run for it, and every caller waits for the dead run and
      returns from none. */
  method SynchronousThrowIsFinal(key: string, events: seq<Event>) returns (b: Bootstrap)
    ensures fresh(b) && b.Valid() && key in b.inFlight && key !in b.completed
    ensures |b.runs| > 0 && b.runs[0] == Run(key, Failed, true)
    ensures forall r | 1 <= r < |b.runs| :: b.runs[r].key != key
    ensures forall c | 0 <= c < |b.callers| && b.callers[c].key == key ::
              b.callers[c].waitsFor == Some(0) && b.callers[c].outcome != Returned
  {
    b := new Bootstrap();
    b.Calls(key, true);
    for i := 0 to |events|
      invariant fresh(b) && b.Valid() && |b.runs| > 0 && b.runs[0] == Run(key, Failed, true)
    {
      b.Perform(events[i]);
    }
    b.StuckRunHoldsKey(0);
  }

  /** Every run of callers, successes and failures. */
  method RunAll(events: seq<Event>) returns (b: Bootstrap)
    ensures fresh(b) && b.Valid()
    ensures forall q, r | 0 <= q < r < |b.runs| && b.runs[q].key == b.runs[r].key ::
              b.runs[q].status == Failed && !b.runs[q].stuck
  {
    b := new Bootstrap();
    for i := 0 to |events|
      invariant fresh(b) && b.Valid()
    {
      b.Perform(events[i]);
    }
    forall q, r | 0 <= q < r < |b.runs| && b.runs[q].key == b.runs[r].key
      ensures b.runs[q].status == Failed && !b.runs[q].stuck
    {
      assert b.EarlierFailed(q) && b.EarlierFailed(r);
    }
  }
}
