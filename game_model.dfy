/**
 * The turn-based game of app/page.tsx as pure functions over a snapshot of the component's
 * state. Each source operation is one function; an event is one of tap, tick and
 * "call audio started", and after every event the countdown effect settles the phase.
 */
module GameModel {
  import opened Options
  import opened Calls
  import opened Quadrant

  /** `GameState`: waiting for the first tap, playing a shift, or the shift is over. */
  datatype GameState = Waiting | Playing | Ended

  /** Which one-shot tutorial clips have been played. */
  datatype TutorialPlayed = TutorialPlayed(success: bool, failure: bool)

  /** Length of a shift in seconds (`useState(300)`, `setTimeLeft(300)`). */
  const ShiftSeconds: int := 300

  /** Incorrect answers in a row after which the hint shows. */
  const HintStreak: int := 3

  const CallConnect: string := "call-connect.mp3"
  const SuccessSound: string := "success-sound.mp3"
  const SuccessTutorial: string := "success-tutorial.mp3"
  const FailureSound: string := "failure-sound.mp3"
  const FailureTutorial: string := "failure-tutorial.mp3"

  /**
   * The component's state. Beside the eight `useState` fields it keeps `pending`, the calls whose
   * one-second "play the call audio" timeout is scheduled (oldest first), and `played`, the clips
   * handed to `playAudio` in the order of the calls.
   */
  datatype State = State(
    gameState: GameState,
    score: int,
    timeLeft: int,
    currentCall: Option<CallScenario>,
    tutorialPlayed: TutorialPlayed,
    incorrectStreak: int,
    hint: Option<Dispatch>,
    isDispatching: bool,
    pending: seq<CallScenario>,
    played: seq<string>)

  /** The facts every reachable state keeps. */
  predicate Inv(s: State) {
    && 0 <= s.timeLeft <= ShiftSeconds
    && (s.gameState == Ended <==> s.timeLeft == 0)
    && s.incorrectStreak >= 0
    && (s.hint.Some? ==> s.incorrectStreak >= HintStreak)
    && (s.gameState == Playing ==> s.currentCall.Some?)
    && (s.currentCall.Some? ==> InCatalogue(s.currentCall.value))
    && (forall c :: c in s.pending ==> InCatalogue(c))
    && (s.isDispatching ==> |s.pending| > 0)
    && (s.currentCall.Some? && |s.pending| > 0 ==> s.pending[|s.pending| - 1] == s.currentCall.value)
  }

  /** The state of a freshly mounted component. */
  function Initial(): (s: State)
    ensures Inv(s)
    ensures s.gameState == Waiting && s.score == 0 && s.timeLeft == ShiftSeconds
    ensures s.currentCall == None && s.hint == None && s.incorrectStreak == 0
    ensures s.tutorialPlayed == TutorialPlayed(false, false) && !s.isDispatching
    ensures s.pending == [] && s.played == []
  {
    State(Waiting, 0, ShiftSeconds, None, TutorialPlayed(false, false), 0, None, false, [], [])
  }

  /**
   * `startNextCall`: a catalogue call other than the current one becomes current, and the
   * timeout that will play its audio is scheduled. Nothing else changes.
   */
  function StartNextCall(s: State, pick: nat): (r: State)
    requires pick < |Available(s.currentCall)|
    ensures r.currentCall.Some? && InCatalogue(r.currentCall.value)
    ensures s.currentCall.Some? ==> r.currentCall.value.id != s.currentCall.value.id
    ensures r.pending == s.pending + [r.currentCall.value]
    ensures r.gameState == s.gameState && r.score == s.score && r.timeLeft == s.timeLeft
    ensures r.tutorialPlayed == s.tutorialPlayed && r.incorrectStreak == s.incorrectStreak
    ensures r.hint == s.hint && r.isDispatching == s.isDispatching && r.played == s.played
  {
    var nextCall := PickNext(s.currentCall, pick);
    s.(currentCall := Some(nextCall), pending := s.pending + [nextCall])
  }

  /**
   * `startGame`: a new shift starts with score 0 and the full time, the connect clip plays and
   * a call is chosen. The streak, the hint, the tutorial flags and the debounce are kept.
   */
  function StartGame(s: State, pick: nat): (r: State)
    requires pick < |Available(s.currentCall)|
    ensures r.gameState == Playing && r.score == 0 && r.timeLeft == ShiftSeconds
    ensures r.currentCall.Some? && InCatalogue(r.currentCall.value)
    ensures s.currentCall.Some? ==> r.currentCall.value.id != s.currentCall.value.id
    ensures r.incorrectStreak == s.incorrectStreak && r.hint == s.hint
    ensures r.tutorialPlayed == s.tutorialPlayed && r.isDispatching == s.isDispatching
    ensures r.played == s.played + [CallConnect]
    ensures r.pending == s.pending + [r.currentCall.value]
  {
    StartNextCall(BeginShift(s), pick)
  }

  /** The setters of `startGame` before it calls `startNextCall`. */
  function BeginShift(s: State): (r: State)
    ensures r.gameState == Playing && r.score == 0 && r.timeLeft == ShiftSeconds
    ensures r.played == s.played + [CallConnect]
    ensures r.currentCall == s.currentCall && r.pending == s.pending
    ensures r.tutorialPlayed == s.tutorialPlayed && r.incorrectStreak == s.incorrectStreak
    ensures r.hint == s.hint && r.isDispatching == s.isDispatching
  {
    s.(gameState := Playing, score := 0, timeLeft := ShiftSeconds, played := s.played + [CallConnect])
  }

  /** Whether `handleDispatch` goes past its guard. */
  predicate Accepts(s: State) {
    s.currentCall.Some? && !s.isDispatching
  }

  /** The correct-answer branch of `handleDispatch`. */
  function Reward(s: State): (r: State)
    ensures r.score == s.score + 1 && r.incorrectStreak == 0 && r.hint == None
    ensures r.tutorialPlayed == s.tutorialPlayed.(success := true)
    ensures r.played == s.played + [SuccessSound]
                       + (if s.tutorialPlayed.success then [] else [SuccessTutorial])
    ensures r.gameState == s.gameState && r.timeLeft == s.timeLeft
    ensures r.currentCall == s.currentCall && r.pending == s.pending
    ensures r.isDispatching == s.isDispatching
  {
    var scored := s.(score := s.score + 1, incorrectStreak := 0, hint := None,
                     played := s.played + [SuccessSound]);
    if !s.tutorialPlayed.success then
      scored.(played := scored.played + [SuccessTutorial],
              tutorialPlayed := scored.tutorialPlayed.(success := true))
    else scored
  }

  /** The incorrect-answer branch of `handleDispatch`, for the call that was answered. */
  function Penalise(s: State, call: CallScenario): (r: State)
    ensures r.score == s.score - 1 && r.incorrectStreak == s.incorrectStreak + 1
    ensures r.hint == (if r.incorrectStreak >= HintStreak then Some(call.correctDispatch) else s.hint)
    ensures r.tutorialPlayed == s.tutorialPlayed.(failure := true)
    ensures r.played == s.played + [FailureSound]
                       + (if s.tutorialPlayed.failure then [] else [FailureTutorial])
    ensures r.gameState == s.gameState && r.timeLeft == s.timeLeft
    ensures r.currentCall == s.currentCall && r.pending == s.pending
    ensures r.isDispatching == s.isDispatching
  {
    var newStreak := s.incorrectStreak + 1;
    var scored := s.(score := s.score - 1, incorrectStreak := newStreak,
                     played := s.played + [FailureSound]);
    var tutored :=
      if !s.tutorialPlayed.failure then
        scored.(played := scored.played + [FailureTutorial],
                tutorialPlayed := scored.tutorialPlayed.(failure := true))
      else scored;
    if newStreak >= HintStreak then tutored.(hint := Some(call.correctDispatch)) else tutored
  }

  /**
   * `handleDispatch`: with no current call or while a dispatch is in flight nothing happens.
   * Otherwise the debounce is set, the answer is scored +1 or -1, the streak and the hint follow
   * it, the matching feedback (and, the first time, tutorial) clip plays, and the next call starts.
   */
  function HandleDispatch(s: State, dispatch: Dispatch, pick: nat): (r: State)
    requires pick < |Available(s.currentCall)|
    ensures !Accepts(s) ==> r == s
    ensures Accepts(s) ==>
      var call := s.currentCall.value;
      var isCorrect := dispatch == call.correctDispatch;
      && r.isDispatching
      && r.score == (if isCorrect then s.score + 1 else s.score - 1)
      && (isCorrect ==> r.incorrectStreak == 0 && r.hint == None)
      && (!isCorrect ==> r.incorrectStreak == s.incorrectStreak + 1)
      && (!isCorrect && r.incorrectStreak >= HintStreak ==> r.hint == Some(call.correctDispatch))
      && (!isCorrect && r.incorrectStreak < HintStreak ==> r.hint == s.hint)
      && r.tutorialPlayed.success == (s.tutorialPlayed.success || isCorrect)
      && r.tutorialPlayed.failure == (s.tutorialPlayed.failure || !isCorrect)
      && r.played == s.played
           + (if isCorrect then [SuccessSound] else [FailureSound])
           + (if isCorrect && !s.tutorialPlayed.success then [SuccessTutorial]
              else if !isCorrect && !s.tutorialPlayed.failure then [FailureTutorial]
              else [])
      && r.gameState == s.gameState && r.timeLeft == s.timeLeft
      && r.currentCall.Some? && InCatalogue(r.currentCall.value)
      && r.currentCall.value.id != call.id
      && r.pending == s.pending + [r.currentCall.value]
  {
    if s.currentCall.None? || s.isDispatching then s
    else
      var call := s.currentCall.value;
      var isCorrect := dispatch == call.correctDispatch;
      var dispatching := s.(isDispatching := true);
      var judged := if isCorrect then Reward(dispatching) else Penalise(dispatching, call);
      StartNextCall(judged, pick)
  }

  /**
   * `handleScreenTap`: a tap starts the shift while waiting, dispatches by the tapped quadrant
   * while playing, and goes back to waiting once the shift is over.
   */
  function HandleScreenTap(s: State, p: Pointer, w: int, h: int, pick: nat): (r: State)
    requires pick < |Available(s.currentCall)|
    ensures s.gameState == Waiting ==> r == StartGame(s, pick)
    ensures s.gameState == Playing ==> r == HandleDispatch(s, TapDispatch(p, w, h), pick)
    ensures s.gameState == Ended ==> r == s.(gameState := Waiting)
  {
    match s.gameState
    case Waiting => StartGame(s, pick)
    case Playing => HandleDispatch(s, TapDispatch(p, w, h), pick)
    case Ended => s.(gameState := Waiting)
  }

  /** One firing of the countdown interval, which only runs while playing with time left. */
  function Tick(s: State): (r: State)
    ensures s.gameState == Playing && s.timeLeft > 0 ==> r == s.(timeLeft := s.timeLeft - 1)
    ensures !(s.gameState == Playing && s.timeLeft > 0) ==> r == s
  {
    if s.gameState == Playing && s.timeLeft > 0 then s.(timeLeft := s.timeLeft - 1) else s
  }

  /**
   * The oldest timeout scheduled by `startNextCall` fires: it plays the call it captured and
   * lifts the debounce.
   */
  function CallAudioStarted(s: State): (r: State)
    requires |s.pending| > 0
    ensures r.played == s.played + [s.pending[0].audioFile]
    ensures !r.isDispatching && r.pending == s.pending[1..]
    ensures r == s.(isDispatching := false, pending := r.pending, played := r.played)
  {
    s.(played := s.played + [s.pending[0].audioFile], isDispatching := false,
       pending := s.pending[1..])
  }

  /**
   * The countdown effect, run after every change: while playing with time left it only keeps the
   * interval going; otherwise, once the time is 0, it ends the shift, whatever the phase.
   */
  function Settle(s: State): (r: State)
    ensures r.gameState == (if s.timeLeft == 0 then Ended else s.gameState)
    ensures r == s.(gameState := r.gameState)
  {
    if s.gameState == Playing && s.timeLeft > 0 then s
    else if s.timeLeft == 0 then s.(gameState := Ended)
    else s
  }

  /** What can happen to the component: a tap (with the random draw it would use), a tick, a timeout. */
  datatype Event =
    | Tap(pointer: Pointer, width: int, height: int, pick: nat)
    | TimerTick
    | CallAudio

  /** Whether an event can occur: the draw is an index of the available calls, a timeout must be scheduled. */
  predicate Enabled(s: State, e: Event) {
    match e
    case Tap(_, _, _, pick) => pick < |Available(s.currentCall)|
    case TimerTick => true
    case CallAudio => |s.pending| > 0
  }

  /**
   * One event followed by the countdown effect. Only a tap can change the score, the streak, the
   * hint or the tutorial flags; clips are only ever appended; a state with no time left is ended.
   */
  function Step(s: State, e: Event): (r: State)
    requires Enabled(s, e)
    ensures r.timeLeft == 0 ==> r.gameState == Ended
    ensures s.played <= r.played
    ensures !e.Tap? ==> r.score == s.score && r.incorrectStreak == s.incorrectStreak
    ensures !e.Tap? ==> r.hint == s.hint && r.tutorialPlayed == s.tutorialPlayed
    ensures e.TimerTick? ==> r.isDispatching == s.isDispatching && r.played == s.played
  {
    match e
    case Tap(p, w, h, pick) => Settle(HandleScreenTap(s, p, w, h, pick))
    case TimerTick => Settle(Tick(s))
    case CallAudio => Settle(CallAudioStarted(s))
  }

  /**
   * A run of events; an event that cannot occur in the state it meets does not happen. Over a
   * run the log of clips handed to `playAudio` only grows.
   */
  function Run(s: State, events: seq<Event>): (r: State)
    ensures s.played <= r.played
    decreases |events|
  {
    if events == [] then s
    else
      var next := if Enabled(s, events[0]) then Step(s, events[0]) else s;
      Run(next, events[1..])
  }

  /** `n` ticks of the countdown. */
  function Ticks(n: nat): (r: seq<Event>)
    ensures |r| == n
    ensures forall i :: 0 <= i < n ==> r[i] == TimerTick
  {
    if n == 0 then [] else [TimerTick] + Ticks(n - 1)
  }
}
