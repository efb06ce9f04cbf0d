/**
 * The game's state as a value, the three transitions the controller
 * applies to it (a drop, a reset, a timer tick), sessions of events
 * replayed from a state, and what is proved about them.
 */
module GameLogic {
  import opened Wrappers
  import opened DropZone
  import TimeFormat

  /** The number of bills that completes the game. */
  const Target: int := 20
  const MillisPerSecond: int := 1000

  /** One particle-burst record: its id is the drop's timestamp, its anchor the drop point. */
  datatype Confetti = Confetti(id: int, x: real, y: real)

  datatype GameState = GameState(
    billCount: int,
    startTime: Option<int>,
    elapsedTime: int,
    gameCompleted: bool,
    confettiInstances: seq<Confetti>)

  /** The initial values of the controller's state hooks. */
  function Initial(): GameState {
    GameState(0, None, 0, false, [])
  }

  /** JavaScript truthiness of the nullable start timestamp: both null and 0 are false. */
  predicate Truthy(t: Option<int>): (b: bool)
    ensures !b <==> t == None || t == Some(0)
  {
    t.Some? && t.value != 0
  }

  /** The condition under which the controller keeps an elapsed-time interval running. */
  predicate Ticking(s: GameState): (b: bool)
    ensures b && Valid(s) ==> 1 <= s.billCount < Target && !s.gameCompleted
    ensures s.billCount >= Target ==> !b
  {
    Truthy(s.startTime) && s.billCount < Target
  }

  /** handleDrop: count the bill, start the clock on the first one, complete on exactly the 20th, add a burst. */
  function AfterDrop(s: GameState, now: int, pos: Point): (r: GameState)
    ensures Valid(s) ==> Valid(r)
  {
    var newCount := s.billCount + 1;
    s.(billCount := newCount,
       startTime := if newCount == 1 then Some(now) else s.startTime,
       gameCompleted := if newCount != 1 && newCount == Target then true else s.gameCompleted,
       confettiInstances := s.confettiInstances + [Confetti(now, pos.x, pos.y)])
  }

  /** handleReset: the four game fields go back to their initial values; the bursts stay. */
  function AfterReset(s: GameState): (r: GameState)
    ensures Valid(r)
  {
    s.(billCount := 0, startTime := None, elapsedTime := 0, gameCompleted := false)
  }

  /** One firing of the elapsed-time interval, which exists only while the game is ticking. */
  function AfterTick(s: GameState, now: int): (r: GameState)
    ensures Valid(s) ==> Valid(r)
  {
    if Ticking(s) then s.(elapsedTime := TimeFormat.FloorDiv(now - s.startTime.value, MillisPerSecond))
    else s
  }

  /** What can happen to the controller: a drop on the zone, a click on reset, an interval firing. */
  datatype Event =
    | Dropped(now: int, item: DragItem, offset: Option<Point>)
    | ResetClicked
    | Ticked(now: int)

  function Step(s: GameState, e: Event): GameState {
    match e
    case Dropped(now, item, offset) =>
      (match OnZoneDrop(item, offset).forwarded
       case Some((_, pos)) => AfterDrop(s, now, pos)
       case None => s)
    case ResetClicked => AfterReset(s)
    case Ticked(now) => AfterTick(s, now)
  }

  /** The state after a session of events, applied in order. */
  function Run(s: GameState, evs: seq<Event>): GameState
    decreases |evs|
  {
    if evs == [] then s else Step(Run(s, evs[..|evs| - 1]), evs[|evs| - 1])
  }

  /**
   * What every reachable state satisfies: a non-negative count, completed
   * exactly from 20 bills on, a start time exactly from the first bill on,
   * and no elapsed time before the first bill.
   */
  predicate Valid(s: GameState) {
    s.billCount >= 0
    && (s.gameCompleted <==> s.billCount >= Target)
    && (s.startTime.Some? <==> s.billCount >= 1)
    && (s.billCount == 0 ==> s.elapsedTime == 0)
  }

  // Reference definitions over a session, independent of the transitions.

  /** A drop that reached the game: the zone had a client offset. */
  predicate Accepted(e: Event) {
    e.Dropped? && e.offset.Some?
  }

  /** The number of accepted drops after the last reset. */
  function DropsSinceReset(evs: seq<Event>): nat
    decreases |evs|
  {
    if evs == [] then 0
    else
      var e, before := evs[|evs| - 1], DropsSinceReset(evs[..|evs| - 1]);
      if e.ResetClicked? then 0 else if Accepted(e) then before + 1 else before
  }

  /** The time of the first accepted drop after the last reset, if there is one. */
  function FirstDropSinceReset(evs: seq<Event>): Option<int>
    decreases |evs|
  {
    if evs == [] then None
    else
      var e, before := evs[|evs| - 1], FirstDropSinceReset(evs[..|evs| - 1]);
      if e.ResetClicked? then None
      else if Accepted(e) && before.None? then Some(e.now)
      else before
  }

  /** One burst record per accepted drop of the whole session, in order. */
  function DropLog(evs: seq<Event>): seq<Confetti>
    decreases |evs|
  {
    if evs == [] then []
    else
      var e := evs[|evs| - 1];
      DropLog(evs[..|evs| - 1])
      + if Accepted(e) then [Confetti(e.now, e.offset.value.x, e.offset.value.y)] else []
  }

  /** A drop counts one more bill, sets the start time only on the first bill, and completes on exactly the 20th. */
  lemma DropTransition(s: GameState, now: int, pos: Point)
    ensures AfterDrop(s, now, pos).billCount == s.billCount + 1
    ensures AfterDrop(s, now, pos).startTime == if s.billCount == 0 then Some(now) else s.startTime
    ensures !s.gameCompleted ==> (AfterDrop(s, now, pos).gameCompleted <==> s.billCount + 1 == Target)
    ensures s.gameCompleted ==> AfterDrop(s, now, pos).gameCompleted
    ensures AfterDrop(s, now, pos).elapsedTime == s.elapsedTime
    ensures AfterDrop(s, now, pos).confettiInstances == s.confettiInstances + [Confetti(now, pos.x, pos.y)]
  {
  }

  /** Reset is the initial state except for the bursts, and resetting twice is resetting once. */
  lemma ResetTransition(s: GameState)
    ensures AfterReset(s) == Initial().(confettiInstances := s.confettiInstances)
    ensures AfterReset(AfterReset(s)) == AfterReset(s)
    ensures Valid(AfterReset(s))
  {
  }

  /** A tick changes only the elapsed time, and only while ticking. */
  lemma TickTransition(s: GameState, now: int)
    ensures Ticking(s) ==> AfterTick(s, now) == s.(elapsedTime := (now - s.startTime.value) / MillisPerSecond)
    ensures !Ticking(s) ==> AfterTick(s, now) == s
  {
  }

  /** The drop zone without a client offset changes nothing. */
  lemma DropWithoutOffsetIsIgnored(s: GameState, now: int, item: DragItem)
    ensures Step(s, Dropped(now, item, None)) == s
  {
  }

  lemma StepPreservesValid(s: GameState, e: Event)
    requires Valid(s)
    ensures Valid(Step(s, e))
  {
  }

  lemma {:induction false} RunPreservesValid(s: GameState, evs: seq<Event>)
    requires Valid(s)
    ensures Valid(Run(s, evs))
    decreases |evs|
  {
    if evs != [] {
      RunPreservesValid(s, evs[..|evs| - 1]);
      StepPreservesValid(Run(s, evs[..|evs| - 1]), evs[|evs| - 1]);
    }
  }

  /** The burst list only grows: one record per accepted drop, and a reset removes none. */
  lemma {:induction false} EffectsAppendOnly(s: GameState, evs: seq<Event>)
    ensures Run(s, evs).confettiInstances == s.confettiInstances + DropLog(evs)
    decreases |evs|
  {
    if evs != [] {
      EffectsAppendOnly(s, evs[..|evs| - 1]);
    }
  }

  /** The bursts never influence the game: the game fields after any session do not depend on them. */
  lemma {:induction false} GameFieldsIgnoreBursts(s: GameState, c: seq<Confetti>, evs: seq<Event>)
    ensures Run(s, evs).(confettiInstances := []) == Run(s.(confettiInstances := c), evs).(confettiInstances := [])
    decreases |evs|
  {
    if evs != [] {
      GameFieldsIgnoreBursts(s, c, evs[..|evs| - 1]);
    }
  }

  /**
   * From the initial state, the count is the number of accepted drops since
   * the last reset, the start time is the time of the first of them, and the
   * game is completed exactly when there were at least 20 of them.
   */
  lemma {:induction false} RunFromInitial(evs: seq<Event>)
    ensures Valid(Run(Initial(), evs))
    ensures Run(Initial(), evs).billCount == DropsSinceReset(evs)
    ensures Run(Initial(), evs).startTime == FirstDropSinceReset(evs)
    ensures Run(Initial(), evs).gameCompleted <==> DropsSinceReset(evs) >= Target
    decreases |evs|
  {
    if evs != [] {
      var prefix := evs[..|evs| - 1];
      RunFromInitial(prefix);
      StepPreservesValid(Run(Initial(), prefix), evs[|evs| - 1]);
    }
  }

  /** Once completed, the elapsed time is frozen and the game stays completed until a reset. */
  lemma {:induction false} ElapsedFrozenAfterCompletion(s: GameState, evs: seq<Event>)
    requires Valid(s) && s.gameCompleted
    requires forall i :: 0 <= i < |evs| ==> !evs[i].ResetClicked?
    ensures Run(s, evs).gameCompleted
    ensures Run(s, evs).elapsedTime == s.elapsedTime
    ensures Run(s, evs).billCount >= s.billCount
    decreases |evs|
  {
    if evs != [] {
      var prefix := evs[..|evs| - 1];
      assert forall i :: 0 <= i < |prefix| ==> prefix[i] == evs[i];
      ElapsedFrozenAfterCompletion(s, prefix);
      RunPreservesValid(s, prefix);
    }
  }

  /** In a session made only of accepted drops, every drop counts and the first one starts the clock. */
  lemma {:induction false} OnlyDrops(evs: seq<Event>)
    requires forall i :: 0 <= i < |evs| ==> evs[i].Dropped? && evs[i].offset.Some?
    ensures DropsSinceReset(evs) == |evs|
    ensures FirstDropSinceReset(evs) == if evs == [] then None else Some(evs[0].now)
    decreases |evs|
  {
    if evs != [] {
      var prefix := evs[..|evs| - 1];
      assert forall i :: 0 <= i < |prefix| ==> prefix[i] == evs[i];
      OnlyDrops(prefix);
      if prefix != [] {
        assert prefix[0] == evs[0];
      }
    }
  }

  /**
   * The walk-through of one game: after n accepted drops from the initial
   * state there are n bills and n bursts, the clock started at the first
   * drop, and the game is completed exactly when n is at least 20.
   */
  lemma PlaySession(evs: seq<Event>)
    requires |evs| >= 1
    requires forall i :: 0 <= i < |evs| ==> evs[i].Dropped? && evs[i].offset.Some?
    ensures Run(Initial(), evs).billCount == |evs|
    ensures Run(Initial(), evs).startTime == Some(evs[0].now)
    ensures Run(Initial(), evs).gameCompleted <==> |evs| >= Target
    ensures |Run(Initial(), evs).confettiInstances| == |evs|
  {
    RunFromInitial(evs);
    OnlyDrops(evs);
    EffectsAppendOnly(Initial(), evs);
    DropLogLength(evs);
  }

  lemma {:induction false} DropLogLength(evs: seq<Event>)
    requires forall i :: 0 <= i < |evs| ==> evs[i].Dropped? && evs[i].offset.Some?
    ensures |DropLog(evs)| == |evs|
    decreases |evs|
  {
    if evs != [] {
      var prefix := evs[..|evs| - 1];
      assert forall i :: 0 <= i < |prefix| ==> prefix[i] == evs[i];
      DropLogLength(prefix);
    }
  }

  /** The three status panels, in the order the controller renders them. */
  datatype StatusMessage = Congratulations(time: string) | TimerRunning | ReadyToStart

  /** The elapsed-time display. */
  function TimeDisplay(s: GameState): string {
    TimeFormat.FormatTime(s.elapsedTime)
  }

  function StatusMessages(s: GameState): (r: seq<StatusMessage>)
    ensures Valid(s) ==> |r| == 1
  {
    (if s.gameCompleted then [Congratulations(TimeDisplay(s))] else [])
    + (if 0 < s.billCount < Target then [TimerRunning] else [])
    + (if s.billCount == 0 then [ReadyToStart] else [])
  }

  /** In every reachable state exactly one panel shows, chosen by the count alone. */
  lemma ExactlyOneStatus(s: GameState)
    requires Valid(s)
    ensures StatusMessages(s) == [if s.billCount == 0 then ReadyToStart
                                  else if s.billCount < Target then TimerRunning
                                  else Congratulations(TimeDisplay(s))]
  {
  }

  /** Before the first bill the display reads "0:00". */
  lemma IdleDisplay(s: GameState)
    requires Valid(s) && s.billCount == 0
    ensures TimeDisplay(s) == "0:00"
  {
    TimeFormat.FormatTimeExamples();
  }
}
