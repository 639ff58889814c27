/** The counter state machine behind the bus stop's semaphores.
  *
  * Each public operation of the stop is one atomic step on four counters:
  * the number of riders counted as waiting and the permit counts of the
  * three semaphores `mutex`, `waitingRiders` and `allAboard`. A blocking
  * `acquire` becomes the condition that the step can complete at all.
  * Three ghost tallies (arrivals, boardings, subtracted) record history,
  * from which the invariant `waitingRiderCount >= 0` is proved.
  */
module BusStopProtocol {

  /** Largest number of riders one bus takes. */
  const BusCapacity := 50

  datatype Option<T> = None | Some(value: T)

  /** The counters of a stop, followed by the ghost tallies. */
  datatype StopState = StopState(
    waitingRiderCount: int,  // riders counted as waiting
    mutex: nat,              // permits of the lock around the count
    waitingRiders: nat,      // permits that let one rider board
    allAboard: nat,          // acknowledgements of riders that boarded
    arrivals: nat,           // completed riderArrives calls
    boardings: nat,          // completed boardBus calls
    subtracted: int          // total subtracted from the count by busDeparts
  )

  /** A fresh stop: nobody waiting, the lock free, no permits outstanding. */
  const Initial := StopState(0, 1, 0, 0, 0, 0, 0)

  /** What busArrives leaves behind, and the batch size it returns. */
  datatype BusArrival = BusArrival(after: StopState, boarding: int)

  function Min(a: int, b: int): int { if a < b then a else b }

  /** riderArrives: take the lock, count one more waiting rider, give the lock back. */
  function RiderArrivesStep(s: StopState): (r: StopState)
    requires s.mutex > 0
    ensures r.waitingRiderCount == s.waitingRiderCount + 1
    ensures r.mutex == s.mutex
    ensures r.waitingRiders == s.waitingRiders && r.allAboard == s.allAboard
    ensures r.arrivals == s.arrivals + 1
    ensures r.boardings == s.boardings && r.subtracted == s.subtracted
  {
    var locked := s.(mutex := s.mutex - 1);
    var counted := locked.(waitingRiderCount := locked.waitingRiderCount + 1,
                           arrivals := locked.arrivals + 1);
    counted.(mutex := counted.mutex + 1)
  }

  /** boardBus: consume one boarding permit and produce one acknowledgement. */
  function BoardBusStep(s: StopState): (r: StopState)
    requires s.waitingRiders > 0
    ensures r.waitingRiders + 1 == s.waitingRiders
    ensures r.allAboard == s.allAboard + 1
    ensures r.boardings == s.boardings + 1
    ensures r.waitingRiderCount == s.waitingRiderCount && r.mutex == s.mutex
    ensures r.arrivals == s.arrivals && r.subtracted == s.subtracted
  {
    var permitTaken := s.(waitingRiders := s.waitingRiders - 1);
    permitTaken.(allAboard := permitTaken.allAboard + 1,
                 boardings := permitTaken.boardings + 1)
  }

  /** busArrives: under the lock, snapshot the count, cap it at the capacity,
    * and release that many boarding permits when it is positive. */
  function BusArrivesStep(s: StopState): (r: BusArrival)
    requires s.mutex > 0
    ensures r.boarding <= BusCapacity && r.boarding <= s.waitingRiderCount
    ensures r.boarding == BusCapacity || r.boarding == s.waitingRiderCount
    ensures r.after.waitingRiders == s.waitingRiders + (if r.boarding > 0 then r.boarding else 0)
    ensures r.after.waitingRiderCount == s.waitingRiderCount && r.after.mutex == s.mutex
    ensures r.after.allAboard == s.allAboard
    ensures r.after.arrivals == s.arrivals && r.after.boardings == s.boardings
    ensures r.after.subtracted == s.subtracted
  {
    var locked := s.(mutex := s.mutex - 1);
    var boarding := Min(locked.waitingRiderCount, BusCapacity);
    var released := if boarding > 0
                    then locked.(waitingRiders := locked.waitingRiders + boarding)
                    else locked;
    BusArrival(released.(mutex := released.mutex + 1), boarding)
  }

  /** The number of iterations of a Java loop `for (i = 0; i < n; i++)`. */
  function Iterations(n: int): nat { if n > 0 then n else 0 }

  /** busDeparts(boarded): wait for `boarded` acknowledgements, then subtract
    * `boarded` from the count under the lock. */
  function BusDepartsStep(s: StopState, boarded: int): (r: StopState)
    requires s.allAboard >= boarded && s.mutex > 0
    ensures r.allAboard + Iterations(boarded) == s.allAboard
    ensures r.waitingRiderCount == s.waitingRiderCount - boarded
    ensures r.subtracted == s.subtracted + boarded
    ensures r.mutex == s.mutex && r.waitingRiders == s.waitingRiders
    ensures r.arrivals == s.arrivals && r.boardings == s.boardings
  {
    var acked := s.(allAboard := s.allAboard - Iterations(boarded));
    var locked := acked.(mutex := acked.mutex - 1);
    var counted := locked.(waitingRiderCount := locked.waitingRiderCount - boarded,
                           subtracted := locked.subtracted + boarded);
    counted.(mutex := counted.mutex + 1)
  }

  /** One call into the stop, as made by a rider thread or a bus thread. */
  datatype Event = Arrive | Board | BusArrive | BusDepart(boarded: int)

  /** No semaphore the call acquires is at zero, so the call completes. */
  predicate CanComplete(s: StopState, e: Event) {
    match e
    case Arrive => s.mutex > 0
    case Board => s.waitingRiders > 0
    case BusArrive => s.mutex > 0
    case BusDepart(b) => s.allAboard >= b && s.mutex > 0
  }

  /** A rider thread calls riderArrives and then boardBus, once each: a
    * boardBus call belongs to a rider whose arrival has not yet been matched
    * by a boarding. */
  predicate FollowsRiderProtocol(s: StopState, e: Event) {
    e.Board? ==> s.boardings < s.arrivals
  }

  function Apply(s: StopState, e: Event): StopState
    requires CanComplete(s, e)
  {
    match e
    case Arrive => RiderArrivesStep(s)
    case Board => BoardBusStep(s)
    case BusArrive => BusArrivesStep(s).after
    case BusDepart(b) => BusDepartsStep(s, b)
  }

  /** Replays an interleaving of completed calls; None when some call cannot
    * complete at that point or breaks the rider protocol. */
  function Run(s: StopState, trace: seq<Event>): Option<StopState>
    decreases |trace|
  {
    if trace == [] then Some(s)
    else if CanComplete(s, trace[0]) && FollowsRiderProtocol(s, trace[0])
    then Run(Apply(s, trace[0]), trace[1..])
    else None
  }

  /** The invariant between calls: the lock is free, every boarding belongs
    * to an arrival, every subtracted rider was acknowledged, and the count
    * is arrivals minus subtracted. */
  ghost predicate Inv(s: StopState) {
    s.mutex == 1 &&
    s.boardings <= s.arrivals &&
    s.subtracted + s.allAboard <= s.boardings &&
    s.waitingRiderCount == s.arrivals - s.subtracted
  }

  lemma InvBounds(s: StopState)
    requires Inv(s)
    ensures 0 <= s.allAboard <= s.waitingRiderCount
    ensures 0 <= BusArrivesStep(s).boarding <= BusCapacity
  {
  }

  lemma StepPreservesInv(s: StopState, e: Event)
    requires Inv(s) && CanComplete(s, e) && FollowsRiderProtocol(s, e)
    ensures Inv(Apply(s, e))
  {
  }

  lemma {:induction false} RunPreservesInv(s: StopState, trace: seq<Event>)
    requires Inv(s) && Run(s, trace).Some?
    ensures Inv(Run(s, trace).value)
    decreases |trace|
  {
    if trace != [] {
      StepPreservesInv(s, trace[0]);
      RunPreservesInv(Apply(s, trace[0]), trace[1..]);
    }
  }

  /** Every state reachable from a fresh stop, under the rider protocol, has
    * a non-negative count, at least as many waiting riders as unconsumed
    * acknowledgements, a free lock, and a batch size between 0 and the
    * capacity. */
  lemma ReachableStateIsSafe(trace: seq<Event>)
    requires Run(Initial, trace).Some?
    ensures Run(Initial, trace).value.waitingRiderCount >= 0
    ensures Run(Initial, trace).value.allAboard <= Run(Initial, trace).value.waitingRiderCount
    ensures Run(Initial, trace).value.mutex == 1
    ensures 0 <= BusArrivesStep(Run(Initial, trace).value).boarding <= BusCapacity
  {
    RunPreservesInv(Initial, trace);
    InvBounds(Run(Initial, trace).value);
  }

  /** `n` riders each completing boardBus. */
  function BoardMany(s: StopState, n: nat): (r: StopState)
    requires s.waitingRiders >= n
    ensures r == s.(waitingRiders := s.waitingRiders - n,
                    allAboard := s.allAboard + n,
                    boardings := s.boardings + n)
    decreases n
  {
    if n == 0 then s else BoardMany(BoardBusStep(s), n - 1)
  }

  /** A bus visit that no other bus overlaps: busArrives, then every released
    * permit used by a rider, then busDeparts with the returned batch. The
    * batch is taken off the count and both semaphores end where they began. */
  lemma SerialVisit(s: StopState)
    requires s.mutex > 0 && s.waitingRiderCount >= 0
    ensures var a := BusArrivesStep(s);
            var t := BusDepartsStep(BoardMany(a.after, a.boarding), a.boarding);
            a.boarding == Min(s.waitingRiderCount, BusCapacity) &&
            t.waitingRiderCount == s.waitingRiderCount - a.boarding &&
            t.waitingRiders == s.waitingRiders && t.allAboard == s.allAboard &&
            t.mutex == s.mutex
  {
  }

  /** With 79 riders waiting, a bus takes 50 and leaves 29. */
  lemma FullBusLeavesRemainder(s: StopState)
    requires s.mutex > 0 && s.waitingRiderCount == 79
    ensures BusArrivesStep(s).boarding == 50
    ensures BusDepartsStep(BoardMany(BusArrivesStep(s).after, 50), 50).waitingRiderCount == 29
  {
  }

  /** With nobody waiting, busArrives returns 0 and changes nothing, and
    * busDeparts(0) changes nothing either. */
  lemma EmptyStopVisit(s: StopState)
    requires s.mutex > 0 && s.waitingRiderCount == 0
    ensures BusArrivesStep(s) == BusArrival(s, 0)
    ensures BusDepartsStep(s, 0) == s
  {
  }

  /** One rider arrives, then two buses arrive before either departs: both
    * snapshot the same single waiting rider and each releases a permit, so
    * the permits outnumber the waiting riders. */
  lemma OverlappingBusesOverIssue()
    ensures var first := BusArrivesStep(RiderArrivesStep(Initial));
            var second := BusArrivesStep(first.after);
            first.boarding == 1 && second.boarding == 1 &&
            second.after.waitingRiders == 2 && second.after.waitingRiderCount == 1
  {
  }

  /** The state the two overlapping buses leave behind. */
  const TwoPermitsOneRider := StopState(1, 1, 2, 0, 1, 0, 0)

  /** From there the rider boards (under the rider protocol) and the first bus
    * departs; the second bus then cannot depart, since no acknowledgement is
    * left. A rider arriving after both snapshots finds the leftover permit,
    * boards the second bus, and that bus departs. */
  lemma LateRiderUsesLeftoverPermit()
    ensures TwoPermitsOneRider == BusArrivesStep(BusArrivesStep(RiderArrivesStep(Initial)).after).after
    ensures FollowsRiderProtocol(TwoPermitsOneRider, Board)
    ensures var oneBusGone := BusDepartsStep(BoardBusStep(TwoPermitsOneRider), 1);
            !CanComplete(oneBusGone, BusDepart(1)) &&
            oneBusGone.waitingRiders == 1 &&
            var lateArrived := RiderArrivesStep(oneBusGone);
            FollowsRiderProtocol(lateArrived, Board) &&
            BusDepartsStep(BoardBusStep(lateArrived), 1) == StopState(0, 1, 0, 0, 2, 2, 2)
  {
  }

  /** The rider protocol is needed: if a thread boards without having arrived,
    * the same overlapping buses drive the count below zero. */
  lemma BoardingWithoutArrivalGoesNegative()
    ensures var s1 := BusArrivesStep(RiderArrivesStep(Initial)).after;
            var s2 := BusArrivesStep(s1).after;
            var s3 := BoardBusStep(BoardBusStep(s2));
            BusDepartsStep(BusDepartsStep(s3, 1), 1).waitingRiderCount == -1
  {
  }

  /** The bus stop object. Each method performs one call as an atomic step;
    * the state it leaves is the step function applied to the state before. */
  class BusStop {
    var waitingRiderCount: int
    var mutex: nat
    var waitingRiders: nat
    var allAboard: nat
    ghost var arrivals: nat
    ghost var boardings: nat
    ghost var subtracted: int

    ghost function State(): StopState
      reads this
    {
      StopState(waitingRiderCount, mutex, waitingRiders, allAboard,
                arrivals, boardings, subtracted)
    }

    ghost predicate Valid()
      reads this
    {
      Inv(State())
    }

    constructor ()
      ensures Valid() && State() == Initial
    {
      waitingRiderCount := 0;
      mutex := 1;
      waitingRiders := 0;
      allAboard := 0;
      arrivals := 0;
      boardings := 0;
      subtracted := 0;
    }

    method RiderArrives(id: int)
      requires Valid()
      modifies this
      ensures Valid() && State() == RiderArrivesStep(old(State()))
    {
      mutex := mutex - 1;
      waitingRiderCount := waitingRiderCount + 1;
      arrivals := arrivals + 1;
      mutex := mutex + 1;
      StepPreservesInv(old(State()), Arrive);
    }

    /** Completes only once a boarding permit is available; called by a
      * rider that has already arrived. */
    method BoardBus(id: int)
      requires Valid() && waitingRiders > 0
      requires boardings < arrivals
      modifies this
      ensures Valid() && State() == BoardBusStep(old(State()))
    {
      waitingRiders := waitingRiders - 1;
      allAboard := allAboard + 1;
      boardings := boardings + 1;
      StepPreservesInv(old(State()), Board);
    }

    method BusArrives(id: int) returns (boarding: int)
      requires Valid()
      modifies this
      ensures Valid() && BusArrival(State(), boarding) == BusArrivesStep(old(State()))
      ensures 0 <= boarding <= BusCapacity
    {
      mutex := mutex - 1;
      boarding := if waitingRiderCount < BusCapacity then waitingRiderCount else BusCapacity;
      if boarding > 0 {
        for i := 0 to boarding
          invariant State() == old(State()).(mutex := 0, waitingRiders := old(waitingRiders) + i)
        {
          waitingRiders := waitingRiders + 1;
        }
      }
      mutex := mutex + 1;
      StepPreservesInv(old(State()), BusArrive);
      InvBounds(old(State()));
    }

    /** Completes only once `boarded` acknowledgements are available. */
    method BusDeparts(id: int, boarded: int)
      requires Valid() && allAboard >= boarded
      modifies this
      ensures Valid() && State() == BusDepartsStep(old(State()), boarded)
    {
      var i := 0;
      while i < boarded
        invariant 0 <= i <= Iterations(boarded)
        invariant State() == old(State()).(allAboard := old(allAboard) - i)
      {
        allAboard := allAboard - 1;
        i := i + 1;
      }
      mutex := mutex - 1;
      waitingRiderCount := waitingRiderCount - boarded;
      subtracted := subtracted + boarded;
      mutex := mutex + 1;
      StepPreservesInv(old(State()), BusDepart(boarded));
    }
  }
}
