/** Ids of local one-time pre-keys. Inline and background generators take an id, await the key pair and
    then store it, so other generators and deletions run in between. One key generation only. */
module PreKeys {

  /** A generator that is suspended at an await: yielding, or holding the id whose key is generated. */
  datatype Generator = Generator(background: bool, left: nat, holding: Held)
  datatype Held = Nothing | Id(id: nat)

  datatype Event =
    | StartInline(count: nat)
    | StartBackground(count: nat)
    | Resume(g: nat)       // the await of generator `g` is over
    | Fail(g: nat)         // or its key generation failed
    | Delete(id: nat)      // a key was consumed or has expired

  /** Two generators never hold the same id, and are not both in the background. */
  predicate Apart(a: Generator, b: Generator) {
    && !(a.background && b.background)
    && (a.holding.Id? ==> a.holding != b.holding)
  }

  class Store {
    var stored: set<nat>
    var next: nat
    var backgroundScheduled: bool
    /** The suspended generators, by number. */
    var generators: map<nat, Generator>
    var started: nat

    ghost var issued: seq<nat>
    ghost var removed: set<nat>

    ghost predicate Valid()
      reads this
    {
      && (forall i, j | 0 <= i < j < |issued| :: issued[i] < issued[j])
      && (forall i | 0 <= i < |issued| :: issued[i] < next)
      && (forall id | id in stored || id in removed :: id < next)
      && stored !! removed
      && (forall g | g in generators :: GeneratorOk(generators[g], g))
      && (forall g, h | g in generators && h in generators && g != h :: Apart(generators[g], generators[h]))
    }

    /** A held id is below the counter and neither stored nor removed. */
    ghost predicate GeneratorOk(gen: Generator, g: nat)
      reads this
    {
      && g < started && gen.left > 0 && (gen.background ==> backgroundScheduled)
      && (gen.holding.Id? ==> gen.holding.id < next && gen.holding.id !in stored && gen.holding.id !in removed)
    }

    /** Removed keys never come back, and an id is never issued twice: ids issued later are greater. */
    twostate predicate Extends()
      reads this
    {
      old(removed) <= removed && old(issued) <= issued && old(next) <= next
    }

    /** `loadLocalPreKeyState` on a fresh instance: the counter is above every restored id and at least
        the saved one, and no greater than it has to be. */
    constructor Load(ids: seq<nat>, savedNext: nat)
      ensures Valid() && stored == (set id | id in ids) && generators == map[] && issued == [] && removed == {}
      ensures next >= savedNext && next >= 1 && forall id | id in ids :: id < next
      ensures next == savedNext || next == 1 || exists k :: 0 <= k < |ids| && next == ids[k] + 1
    {
      stored := set id | id in ids;
      backgroundScheduled, generators, started, issued, removed := false, map[], 0, [], {};
      next := if savedNext >= 1 then savedNext else 1;
      new;
      for i := 0 to |ids|
        invariant next >= savedNext && next >= 1 && forall k | 0 <= k < i :: ids[k] < next
        invariant next == savedNext || next == 1 || exists k :: 0 <= k < |ids| && next == ids[k] + 1
        invariant stored == (set id | id in ids) && generators == map[] && issued == [] && removed == {} && started == 0
      {
        if ids[i] + 1 > next { next := ids[i] + 1; }
      }
    }

    /** `keyId = next++` for a generator. */
    method TakeId(g: nat, background: bool, left: nat) returns (id: nat)
      requires Valid() && left > 0 && g < started
      requires g in generators ==> generators[g].holding == Nothing && generators[g].background == background
      requires background ==> backgroundScheduled && forall h | h in generators && generators[h].background :: h == g
      modifies `next, `generators, `issued
      ensures Valid() && Extends() && id == old(next) && next == old(next) + 1 && id !in old(issued)
      ensures issued == old(issued) + [id] && generators == old(generators)[g := Generator(background, left, Id(id))]
    {
      id := next;
      next := next + 1;
      issued := issued + [id];
      generators := generators[g := Generator(background, left, Id(id))];
    }

    /** `generateMoreOneTimePreKeys`, up to its first await. */
    method StartsInline(count: nat)
      requires Valid()
      modifies this
      ensures Valid() && Extends() && stored == old(stored) && removed == old(removed)
      ensures backgroundScheduled == old(backgroundScheduled)
      ensures if count == 0 then Unmoved()
              else Holds(old(started), Generator(false, count, Id(old(next)))) && started == old(started) + 1
    {
      if count == 0 { return; }
      var g := started;
      started := started + 1;
      var _ := TakeId(g, false, count);
    }

    /** `scheduleBackgroundPreKeyGeneration`, up to its first yield; at most one runs at a time. */
    method StartsBackground(count: nat)
      requires Valid()
      modifies this
      ensures Valid() && Extends() && stored == old(stored) && removed == old(removed) && issued == old(issued)
      ensures next == old(next)
      ensures if old(backgroundScheduled) || count == 0 then
                generators == old(generators) && backgroundScheduled == old(backgroundScheduled)
              else
                && generators == old(generators)[old(started) := Generator(true, count, Nothing)]
                && backgroundScheduled && started == old(started) + 1
    {
      if backgroundScheduled { return; }
      if count == 0 { return; }
      backgroundScheduled := true;
      generators := generators[started := Generator(true, count, Nothing)];
      started := started + 1;
    }

    /** The stored key's generator goes on to its next await, or ends. */
    method NextRound(g: nat, background: bool, left: nat)
      requires Valid() && g !in generators && g < started
      requires background ==> backgroundScheduled && forall h | h in generators :: !generators[h].background
      modifies this
      ensures Valid() && Extends() && removed == old(removed) && stored == old(stored) && started == old(started)
      ensures backgroundScheduled == (old(backgroundScheduled) && !(background && left == 0))
      ensures if left == 0 then Unmoved()
              else if background then
                && generators == old(generators)[g := Generator(true, left, Nothing)]
                && issued == old(issued) && next == old(next)
              else Holds(g, Generator(false, left, Id(old(next))))
    {
      if left == 0 {
        if background { backgroundScheduled := false; }
      } else if background {
        generators := generators[g := Generator(true, left, Nothing)];
      } else {
        var _ := TakeId(g, false, left);
      }
    }

    /** No id is issued and no generator moves. */
    twostate predicate Unmoved()
      reads `generators, `issued, `next
    {
      generators == old(generators) && issued == old(issued) && next == old(next)
    }

    /** Generator `g` has taken the next id. */
    twostate predicate Holds(g: nat, gen: Generator)
      reads `generators, `issued, `next
    {
      && gen.holding == Id(old(next)) && generators == old(generators)[g := gen]
      && issued == old(issued) + [old(next)] && next == old(next) + 1
    }

    /** After its await a generator stores the key it holds and goes on: one that held none takes an id; one
        that has stored its last key ends; and of the others, a background one yields and an inline one takes
        its next id. */
    method Resumes(g: nat)
      requires Valid() && g in generators
      modifies this
      ensures Valid() && Extends() && removed == old(removed)
      ensures stored == match old(generators)[g].holding case Nothing => old(stored) case Id(id) => old(stored) + {id}
      ensures var Generator(background, left, holding) := old(generators)[g];
              && backgroundScheduled == (old(backgroundScheduled) && !(background && left == 1 && holding.Id?))
              && if holding == Nothing then Holds(g, Generator(background, left, Id(old(next))))
                 else if left == 1 then
                   generators == old(generators) - {g} && issued == old(issued) && next == old(next)
                 else if background then
                   && generators == old(generators)[g := Generator(true, left - 1, Nothing)]
                   && issued == old(issued) && next == old(next)
                 else Holds(g, Generator(false, left - 1, Id(old(next))))
    {
      var Generator(background, left, holding) := generators[g];
      if holding == Nothing {
        var _ := TakeId(g, background, left);
        return;
      }
      stored := stored + {holding.id};
      generators := generators - {g};
      NextRound(g, background, left - 1);
    }

    /** A failed key generation ends its generator; the id it held is lost. */
    method Fails(g: nat)
      requires Valid() && g in generators
      modifies this
      ensures Valid() && Extends() && stored == old(stored) && removed == old(removed) && issued == old(issued)
      ensures generators == old(generators) - {g} && next == old(next)
      ensures backgroundScheduled == (old(backgroundScheduled) && !old(generators)[g].background)
    {
      if generators[g].background { backgroundScheduled := false; }
      generators := generators - {g};
    }

    method Deletes(id: nat)
      requires Valid()
      modifies `stored, `removed
      ensures Valid() && Extends() && stored == old(stored) - {id} && issued == old(issued)
      ensures removed == if id in old(stored) then old(removed) + {id} else old(removed)
    {
      if id in stored { removed := removed + {id}; }
      stored := stored - {id};
    }

    method Perform(e: Event)
      requires Valid()
      modifies this
      ensures Valid() && Extends()
      ensures match e
              case StartInline(count) =>
                stored == old(stored) && |issued| == |old(issued)| + (if count > 0 then 1 else 0)
              case StartBackground(count) =>
                stored == old(stored) && issued == old(issued) && (count > 0 ==> backgroundScheduled)
              case Resume(g) =>
                g in old(generators) ==>
                  var held := old(generators)[g].holding;
                  if held.Id? then stored == old(stored) + {held.id}
                  else stored == old(stored) && issued == old(issued) + [old(next)]
              case Fail(g) => stored == old(stored) && g !in generators
              case Delete(id) => stored == old(stored) - {id}
    {
      hide Valid;
      match e
      case StartInline(count) => StartsInline(count);
      case StartBackground(count) => StartsBackground(count);
      case Resume(g) => if g in generators { Resumes(g); }
      case Fail(g) => if g in generators { Fails(g); }
      case Delete(id) => Deletes(id);
    }

    /** Any interleaving, from any valid state: issued ids are pairwise distinct, everything stored or
        held is below the counter, and nothing that was ever removed is stored again. */
    method Run(events: seq<Event>)
      requires Valid()
      modifies this
      ensures Valid() && Extends()
      ensures forall i, j | 0 <= i < j < |issued| :: issued[i] != issued[j]
      ensures forall id | id in stored :: id < next && id !in old(removed)
      ensures forall g, h | g in generators && h in generators && g != h :: Apart(generators[g], generators[h])
    {
      for i := 0 to |events|
        invariant Valid() && Extends()
      {
        Perform(events[i]);
      }
    }
  }
}
