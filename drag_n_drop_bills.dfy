/**
 * The DragNDropBills controller: the state hooks of the component as the
 * fields of one object, and its handlers as methods that update them in
 * place. Each method states its new fields outright and ties the whole
 * state to the matching transition of GameLogic, where sessions of events
 * are reasoned about.
 */
module DragNDropBills {
  import opened Wrappers
  import opened DropZone
  import opened GameLogic

  class Game {
    var billCount: int
    var startTime: Option<int>
    var elapsedTime: int
    var gameCompleted: bool
    var confettiInstances: seq<Confetti>

    /** The controller's state as a value. */
    function State(): GameState
      reads this
    {
      GameState(billCount, startTime, elapsedTime, gameCompleted, confettiInstances)
    }

    predicate Valid()
      reads this
    {
      GameLogic.Valid(State())
    }

    /** The initial values of the state hooks. */
    constructor ()
      ensures Valid()
      ensures State() == Initial()
    {
      billCount := 0;
      startTime := None;
      elapsedTime := 0;
      gameCompleted := false;
      confettiInstances := [];
    }

    /** handleDrop, with `now` standing for the clock reading of the drop. */
    method HandleDrop(now: int, pos: Point)
      requires Valid()
      modifies this
      ensures Valid()
      ensures billCount == old(billCount) + 1
      ensures startTime == if billCount == 1 then Some(now) else old(startTime)
      ensures gameCompleted == (old(gameCompleted) || billCount == Target)
      ensures elapsedTime == old(elapsedTime)
      ensures confettiInstances == old(confettiInstances) + [Confetti(now, pos.x, pos.y)]
      ensures State() == AfterDrop(old(State()), now, pos)
    {
      var newCount := billCount + 1;
      if newCount == 1 {
        startTime := Some(now);
      } else if newCount == Target {
        gameCompleted := true;
      }
      billCount := newCount;
      confettiInstances := confettiInstances + [Confetti(now, pos.x, pos.y)];
    }

    /** The drop zone's callback wired to handleDrop: without a client offset nothing changes. */
    method ZoneDrop(now: int, item: DragItem, clientOffset: Option<Point>) returns (result: DropResult)
      requires Valid()
      modifies this
      ensures Valid()
      ensures result == DropResult(ZoneName)
      ensures clientOffset.None? ==> unchanged(this)
      ensures State() == Step(old(State()), Dropped(now, item, clientOffset))
    {
      var outcome := OnZoneDrop(item, clientOffset);
      if outcome.forwarded.Some? {
        HandleDrop(now, outcome.forwarded.value.1);
      }
      result := outcome.result;
    }

    /** handleReset: the game fields return to their initial values; the burst list is kept. */
    method HandleReset()
      requires Valid()
      modifies this
      ensures Valid()
      ensures billCount == 0 && startTime == None && elapsedTime == 0 && !gameCompleted
      ensures confettiInstances == old(confettiInstances)
      ensures State() == AfterReset(old(State()))
    {
      billCount := 0;
      startTime := None;
      elapsedTime := 0;
      gameCompleted := false;
    }

    /** One firing of the elapsed-time interval at clock reading `now`. */
    method Tick(now: int)
      requires Valid()
      modifies this
      ensures Valid()
      ensures Ticking(old(State())) ==> elapsedTime == (now - old(startTime).value) / MillisPerSecond
      ensures !Ticking(old(State())) ==> elapsedTime == old(elapsedTime)
      ensures billCount == old(billCount) && startTime == old(startTime)
      ensures gameCompleted == old(gameCompleted) && confettiInstances == old(confettiInstances)
      ensures State() == AfterTick(old(State()), now)
    {
      if Ticking(State()) {
        elapsedTime := (now - startTime.value) / MillisPerSecond;
      }
    }
  }
}
