/** The pool of pre-generated key pairs for handshakes. Pairs are numbered in the order in which they
    are generated; a filler is suspended at its yield or at the key generation. */
module DhKeyPool {

  datatype Option<+T> = None | Some(value: T)

  datatype Filler = Yielding | Generating

  datatype Event = Take | OnDemandDone | OnDemandFails | FillerResumes(f: nat) | FillerFails(f: nat) | Schedule

  const TARGET: nat := 4

  class Pool {
    var pool: seq<nat>
    var refillInFlight: bool
    /** The suspended fillers and the callers that wait for a pair of their own. */
    var fillers: seq<Filler>
    var waiting: nat

    /** The number of the next pair that `generateKey` yields. */
    var generated: nat
    ghost var handedOut: seq<nat>

    ghost predicate Valid()
      reads this
    {
      && |pool| <= TARGET
      && |fillers| == (if refillInFlight then 1 else 0)
      && (refillInFlight ==> |pool| < TARGET)
      && (forall i | 0 <= i < |pool| :: pool[i] < generated)
      && (forall i | 0 <= i < |handedOut| :: handedOut[i] < generated)
      && (forall i, j | 0 <= i < j < |pool| :: pool[i] != pool[j])
      && (forall i, j | 0 <= i < j < |handedOut| :: handedOut[i] != handedOut[j])
      && (forall i, j | 0 <= i < |pool| && 0 <= j < |handedOut| :: pool[i] != handedOut[j])
    }

    constructor ()
      ensures Valid() && pool == [] && handedOut == [] && fillers == [] && waiting == 0
    {
      pool, refillInFlight, fillers, waiting, generated, handedOut := [], false, [], 0, 0, [];
    }

    /** `scheduleDHKeyPairPoolRefill`: starts a filler unless one is at work or the pool is full. */
    method ScheduleRefill()
      requires Valid()
      modifies `refillInFlight, `fillers
      ensures Valid() && (refillInFlight <==> old(refillInFlight) || |pool| < TARGET)
      ensures fillers == if refillInFlight && !old(refillInFlight) then [Yielding] else old(fillers)
    {
      if refillInFlight { return; }
      if |pool| >= TARGET { return; }
      refillInFlight := true;
      fillers := fillers + [Yielding];
    }

    /** `takeDHKeyPair`, up to its await: the oldest pair of the pool, or a wait for a new one. */
    method TakePair() returns (pooled: Option<nat>)
      requires Valid()
      modifies `pool, `refillInFlight, `fillers, `waiting, `handedOut
      ensures Valid() && (refillInFlight <==> old(refillInFlight) || |pool| < 2)
      ensures fillers == if refillInFlight && !old(refillInFlight) then [Yielding] else old(fillers)
      ensures if old(pool) == [] then
                pooled == None && pool == [] && waiting == old(waiting) + 1 && handedOut == old(handedOut)
              else
                && pooled == Some(old(pool)[0]) && pool == old(pool)[1..] && waiting == old(waiting)
                && handedOut == old(handedOut) + [old(pool)[0]]
    {
      if |pool| > 0 {
        pooled := Some(pool[0]);
        handedOut := handedOut + [pool[0]];
        pool := pool[1..];
      } else {
        pooled := None;
        waiting := waiting + 1;
      }
      if |pool| < 2 {
        ScheduleRefill();
      }
    }

    /** The key generation of a waiting caller ends: it gets the new pair, or the error. */
    method OnDemandEnds(success: bool)
      requires Valid() && waiting > 0
      modifies `waiting, `generated, `handedOut
      ensures Valid() && waiting == old(waiting) - 1
      ensures handedOut == if success then old(handedOut) + [old(generated)] else old(handedOut)
      ensures generated == if success then old(generated) + 1 else old(generated)
    {
      waiting := waiting - 1;
      if success {
        handedOut := handedOut + [generated];
        generated := generated + 1;
      }
    }

    /** A filler's await is over: it starts generating, or adds its pair and checks the pool again. */
    method FillerGoesOn(f: nat)
      requires Valid() && f < |fillers|
      modifies `pool, `refillInFlight, `fillers, `generated
      ensures Valid()
      ensures pool == if old(fillers)[f] == Yielding then old(pool) else old(pool) + [old(generated)]
      ensures generated == if old(fillers)[f] == Yielding then old(generated) else old(generated) + 1
      ensures refillInFlight <==> |pool| < TARGET
      ensures fillers == if old(fillers)[f] == Yielding then [Generating]
                         else if |pool| < TARGET then [Yielding] else []
    {
      if fillers[f] == Yielding {
        fillers := fillers[f := Generating];
        return;
      }
      pool := pool + [generated];
      generated := generated + 1;
      if |pool| < TARGET {
        fillers := fillers[f := Yielding];
      } else {
        fillers := fillers[..f] + fillers[f + 1..];
        refillInFlight := false;
      }
    }

    method FillerStops(f: nat)
      requires Valid() && f < |fillers|
      modifies `refillInFlight, `fillers
      ensures Valid() && !refillInFlight && fillers == []
    {
      fillers := fillers[..f] + fillers[f + 1..];
      refillInFlight := false;
    }

    method Perform(e: Event)
      requires Valid()
      modifies this
      ensures Valid() && old(handedOut) <= handedOut
      ensures match e
              case Take =>
                if old(pool) == [] then waiting == old(waiting) + 1 else handedOut == old(handedOut) + [old(pool)[0]]
              case OnDemandDone => old(waiting) > 0 ==> handedOut == old(handedOut) + [old(generated)]
              case OnDemandFails => old(waiting) > 0 ==> waiting == old(waiting) - 1 && handedOut == old(handedOut)
              case FillerResumes(f) =>
                f < |old(fillers)| && old(fillers)[f] == Generating ==> pool == old(pool) + [old(generated)]
              case FillerFails(f) => f < |old(fillers)| ==> fillers == []
              case Schedule => |pool| < TARGET ==> |fillers| == 1
    {
      match e
      case Take => var _ := TakePair();
      case OnDemandDone => if waiting > 0 { OnDemandEnds(true); }
      case OnDemandFails => if waiting > 0 { OnDemandEnds(false); }
      case FillerResumes(f) => if f < |fillers| { FillerGoesOn(f); }
      case FillerFails(f) => if f < |fillers| { FillerStops(f); }
      case Schedule => ScheduleRefill();
    }

    /** Any interleaving: the pool never exceeds its target, at most one filler is at work, and no pair
        is handed out twice. */
    method Run(events: seq<Event>)
      requires Valid()
      modifies this
      ensures Valid() && old(handedOut) <= handedOut
      ensures |pool| <= 4 && |fillers| <= 1
      ensures forall i, j | 0 <= i < j < |handedOut| :: handedOut[i] != handedOut[j]
    {
      for i := 0 to |events|
        invariant Valid() && old(handedOut) <= handedOut
      {
        Perform(events[i]);
      }
    }
  }
}
