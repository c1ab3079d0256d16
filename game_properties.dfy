/** Properties of the game of app/page.tsx over single events and over whole runs. */
module GameProperties {
  import opened Calls
  import opened Quadrant
  import opened GameModel

  /** Starting a shift keeps the invariant. */
  lemma StartGamePreservesInv(s: State, pick: nat)
    requires Inv(s) && s.gameState == Waiting
    requires pick < |Available(s.currentCall)|
    ensures Inv(Settle(StartGame(s, pick)))
  {
  }

  /** A dispatch keeps the invariant: a correct one clears the hint, a miss shows it only from the third. */
  lemma DispatchPreservesInv(s: State, d: Dispatch, pick: nat)
    requires Inv(s) && s.gameState == Playing
    requires pick < |Available(s.currentCall)|
    ensures Inv(Settle(HandleDispatch(s, d, pick)))
  {
    if Accepts(s) {
      var r := HandleDispatch(s, d, pick);
      assert r.hint.Some? ==> r.incorrectStreak >= HintStreak;
    }
  }

  /** Every event keeps the invariant; in particular a hint never shows before three misses in a row. */
  lemma StepPreservesInv(s: State, e: Event)
    requires Inv(s) && Enabled(s, e)
    ensures Inv(Step(s, e))
  {
    if e.Tap? {
      if s.gameState == Waiting {
        StartGamePreservesInv(s, e.pick);
      } else if s.gameState == Playing {
        DispatchPreservesInv(s, TapDispatch(e.pointer, e.width, e.height), e.pick);
      }
    }
  }

  /** Any run from a state satisfying the invariant keeps it. */
  lemma {:induction false} RunPreservesInv(s: State, events: seq<Event>)
    requires Inv(s)
    ensures Inv(Run(s, events))
    decreases |events|
  {
    if events != [] {
      var next := if Enabled(s, events[0]) then Step(s, events[0]) else s;
      if Enabled(s, events[0]) {
        StepPreservesInv(s, events[0]);
      }
      RunPreservesInv(next, events[1..]);
    }
  }

  /**
   * Every state the component can reach keeps the invariant: time within 0..300, ended exactly
   * when the time is up, hint only after three misses in a row, a current call while playing,
   * and a scheduled call-audio timeout whenever the debounce is set.
   */
  lemma ReachableInv(events: seq<Event>)
    ensures Inv(Run(Initial(), events))
  {
    RunPreservesInv(Initial(), events);
  }

  /** No event clears a tutorial flag. */
  lemma StepKeepsTutorialFlags(s: State, e: Event)
    requires Enabled(s, e)
    ensures s.tutorialPlayed.success ==> Step(s, e).tutorialPlayed.success
    ensures s.tutorialPlayed.failure ==> Step(s, e).tutorialPlayed.failure
  {
  }

  /** The tutorial flags only ever go from false to true, over any run. */
  lemma {:induction false} TutorialFlagsNeverReset(s: State, events: seq<Event>)
    ensures s.tutorialPlayed.success ==> Run(s, events).tutorialPlayed.success
    ensures s.tutorialPlayed.failure ==> Run(s, events).tutorialPlayed.failure
    decreases |events|
  {
    if events != [] {
      var next := if Enabled(s, events[0]) then Step(s, events[0]) else s;
      if Enabled(s, events[0]) {
        StepKeepsTutorialFlags(s, events[0]);
      }
      TutorialFlagsNeverReset(next, events[1..]);
    }
  }

  /**
   * The restart tap moves an ended shift back to waiting, but the countdown effect sees the time
   * still at 0 (only `startGame` resets it) and ends the shift again.
   */
  lemma RestartTapEndsAgain(s: State, p: Pointer, w: int, h: int, pick: nat)
    requires Inv(s) && s.gameState == Ended
    requires pick < |Available(s.currentCall)|
    ensures HandleScreenTap(s, p, w, h, pick).gameState == Waiting
    ensures Step(s, Tap(p, w, h, pick)) == s
  {
  }

  /** Once a shift is over no run of events starts another one, and the final score stays as it is. */
  lemma {:induction false} EndedIsFinal(s: State, events: seq<Event>)
    requires Inv(s) && s.gameState == Ended
    ensures Run(s, events).gameState == Ended
    ensures Run(s, events).score == s.score
    decreases |events|
  {
    if events != [] {
      var next := if Enabled(s, events[0]) then Step(s, events[0]) else s;
      if Enabled(s, events[0]) {
        StepPreservesInv(s, events[0]);
      }
      EndedIsFinal(next, events[1..]);
    }
  }

  /** While playing with time left, a tick takes exactly one second off and ends the shift at 0. */
  lemma TickCountsDown(s: State)
    requires Inv(s) && s.gameState == Playing && s.timeLeft > 0
    ensures Step(s, TimerTick).timeLeft == s.timeLeft - 1
    ensures Step(s, TimerTick).gameState == (if s.timeLeft == 1 then Ended else Playing)
    ensures Step(s, TimerTick) == s.(timeLeft := s.timeLeft - 1, gameState := Step(s, TimerTick).gameState)
  {
  }

  /** `n` ticks take `n` seconds off a running shift, which ends exactly when the time reaches 0. */
  lemma {:induction false} CountdownTicks(s: State, n: nat)
    requires Inv(s) && s.gameState == Playing && n <= s.timeLeft
    ensures Run(s, Ticks(n)) ==
      s.(timeLeft := s.timeLeft - n, gameState := if n == s.timeLeft then Ended else Playing)
    decreases n
  {
    if n > 0 {
      var evs := Ticks(n);
      assert evs[0] == TimerTick;
      assert evs[1..] == Ticks(n - 1);
      var next := Step(s, TimerTick);
      TickCountsDown(s);
      if n == 1 {
        assert Run(next, Ticks(0)) == next;
      } else {
        CountdownTicks(next, n - 1);
      }
    }
  }

  /** A shift started by a tap lasts exactly 300 ticks. */
  lemma ShiftLastsItsSeconds(s: State, p: Pointer, w: int, h: int, pick: nat)
    requires Inv(s) && s.gameState == Waiting
    requires pick < |Available(s.currentCall)|
    ensures Step(s, Tap(p, w, h, pick)).gameState == Playing
    ensures Run(Step(s, Tap(p, w, h, pick)), Ticks(ShiftSeconds - 1)).gameState == Playing
    ensures Run(Step(s, Tap(p, w, h, pick)), Ticks(ShiftSeconds)).gameState == Ended
  {
    var started := Step(s, Tap(p, w, h, pick));
    StepPreservesInv(s, Tap(p, w, h, pick));
    CountdownTicks(started, ShiftSeconds - 1);
    CountdownTicks(started, ShiftSeconds);
  }

  /** While a dispatch is in flight, a tap during play changes nothing at all. */
  lemma TapWhileDispatchingIgnored(s: State, p: Pointer, w: int, h: int, pick: nat)
    requires Inv(s) && s.gameState == Playing && s.isDispatching
    requires pick < |Available(s.currentCall)|
    ensures Step(s, Tap(p, w, h, pick)) == s
  {
  }

  /** Only the call-audio timeout lifts the debounce. */
  lemma OnlyCallAudioLiftsDebounce(s: State, e: Event)
    requires Enabled(s, e) && s.isDispatching && !Step(s, e).isDispatching
    ensures e.CallAudio?
  {
  }

  /** While the debounce is set a call-audio timeout is always scheduled, and its firing lifts the debounce. */
  lemma DebounceIsLifted(s: State)
    requires Inv(s) && s.isDispatching
    ensures Enabled(s, CallAudio)
    ensures !Step(s, CallAudio).isDispatching
  {
  }

  /**
   * The score changes only on a tap: a tap that starts a shift sets it to 0, an accepted dispatch
   * moves it by exactly one; ticks and timeouts never touch it.
   */
  lemma ScoreChangesOnlyByTaps(s: State, e: Event)
    requires Inv(s) && Enabled(s, e)
    ensures var r := Step(s, e);
      r.score != s.score ==>
        e.Tap? &&
        ((s.gameState == Waiting && r.score == 0) ||
         (s.gameState == Playing && Accepts(s) && (r.score == s.score + 1 || r.score == s.score - 1)))
  {
  }
}
