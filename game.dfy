/**
 * The `BlindDispatch` component of app/page.tsx as an object: one field per piece of component
 * state, one method per handler, and the three events tap, tick and "call audio started", each
 * followed by the countdown effect. Every method is tied to its function in GameModel.
 */
module GameMachine {
  import opened Options
  import opened Calls
  import opened Quadrant
  import opened GameModel
  import GameProperties

  class Game {
    var gameState: GameState
    var score: int
    var timeLeft: int
    var currentCall: Option<CallScenario>
    var tutorialPlayed: TutorialPlayed
    var incorrectStreak: int
    var hint: Option<Dispatch>
    var isDispatching: bool
    /** Calls whose one-second "play the call audio" timeout is scheduled, oldest first. */
    var pending: seq<CallScenario>
    /** Clips handed to `playAudio`, in order. */
    var played: seq<string>

    /** The object's fields as a GameModel state. */
    function View(): State
      reads this
    {
      State(gameState, score, timeLeft, currentCall, tutorialPlayed, incorrectStreak, hint,
            isDispatching, pending, played)
    }

    predicate Valid()
      reads this
    {
      Inv(View())
    }

    /** The component as first mounted. */
    constructor ()
      ensures View() == Initial() && Valid()
    {
      gameState := Waiting;
      score := 0;
      timeLeft := ShiftSeconds;
      currentCall := None;
      tutorialPlayed := TutorialPlayed(false, false);
      incorrectStreak := 0;
      hint := None;
      isDispatching := false;
      pending := [];
      played := [];
    }

    /** `startNextCall`, with the random draw given as `pick`. */
    method StartNextCall(pick: nat)
      requires pick < |Available(currentCall)|
      modifies this`currentCall, this`pending
      ensures currentCall == Some(PickNext(old(currentCall), pick))
      ensures pending == old(pending) + [PickNext(old(currentCall), pick)]
      ensures View() == GameModel.StartNextCall(old(View()), pick)
    {
      var availableCalls := Available(currentCall);
      var nextCall := availableCalls[pick];
      currentCall, pending := Some(nextCall), pending + [nextCall];
    }

    /** `startGame`, without the audio-context set-up. */
    method StartGame(pick: nat)
      requires pick < |Available(currentCall)|
      modifies this
      ensures View() == GameModel.StartGame(old(View()), pick)
    {
      // React batches the setters of one handler, so they take effect together.
      ghost var before := View();
      gameState, score, timeLeft, played := Playing, 0, ShiftSeconds, played + [CallConnect];
      assert View() == BeginShift(before);
      StartNextCall(pick);
      assert View() == GameModel.StartNextCall(BeginShift(before), pick);
    }

    /** The correct-answer branch of `handleDispatch`. */
    method Reward()
      modifies this
      ensures View() == GameModel.Reward(old(View()))
    {
      var clips := played + [SuccessSound];
      var tutorial := tutorialPlayed;
      if !tutorialPlayed.success {
        clips := clips + [SuccessTutorial];
        tutorial := tutorial.(success := true);
      }
      score, incorrectStreak, hint, played, tutorialPlayed := score + 1, 0, None, clips, tutorial;
    }

    /** The incorrect-answer branch of `handleDispatch`, for the call that was answered. */
    method Penalise(call: CallScenario)
      modifies this
      ensures View() == GameModel.Penalise(old(View()), call)
    {
      var newStreak := incorrectStreak + 1;
      var clips := played + [FailureSound];
      var tutorial := tutorialPlayed;
      if !tutorialPlayed.failure {
        clips := clips + [FailureTutorial];
        tutorial := tutorial.(failure := true);
      }
      score, incorrectStreak, played, tutorialPlayed := score - 1, newStreak, clips, tutorial;
      if newStreak >= HintStreak {
        hint := Some(call.correctDispatch);
      }
    }

    /** `handleDispatch`, with every feedback clip taken to play to its end. */
    method HandleDispatch(dispatch: Dispatch, pick: nat)
      requires pick < |Available(currentCall)|
      modifies this
      ensures View() == GameModel.HandleDispatch(old(View()), dispatch, pick)
    {
      if currentCall.None? || isDispatching {
        return;
      }
      ghost var before := View();
      var call := currentCall.value;
      isDispatching := true;
      var isCorrect := dispatch == call.correctDispatch;
      if isCorrect {
        Reward();
      } else {
        Penalise(call);
      }
      ghost var judged := View();
      assert judged == if isCorrect then GameModel.Reward(before.(isDispatching := true))
                       else GameModel.Penalise(before.(isDispatching := true), call);
      StartNextCall(pick);
      assert View() == GameModel.StartNextCall(judged, pick);
    }

    /** `handleScreenTap` on a `w` by `h` screen. */
    method HandleScreenTap(p: Pointer, w: int, h: int, pick: nat)
      requires pick < |Available(currentCall)|
      modifies this
      ensures View() == GameModel.HandleScreenTap(old(View()), p, w, h, pick)
    {
      if gameState == Waiting {
        StartGame(pick);
        return;
      }
      if gameState == Playing {
        var dispatch := TapDispatch(p, w, h);
        HandleDispatch(dispatch, pick);
      } else {
        gameState := Waiting;
      }
    }

    /** The countdown effect, run after every change of phase or time. */
    method Settle()
      modifies this
      ensures View() == GameModel.Settle(old(View()))
    {
      if gameState == Playing && timeLeft > 0 {
        // the interval keeps running; see Tick
      } else if timeLeft == 0 {
        gameState := Ended;
      }
    }

    /** A tap or click anywhere on the page. */
    method Tap(p: Pointer, w: int, h: int, pick: nat)
      requires Valid()
      requires pick < |Available(currentCall)|
      modifies this
      ensures Valid()
      ensures View() == Step(old(View()), GameModel.Tap(p, w, h, pick))
    {
      GameProperties.StepPreservesInv(View(), GameModel.Tap(p, w, h, pick));
      HandleScreenTap(p, w, h, pick);
      Settle();
    }

    /** One second of the countdown interval. */
    method Tick()
      requires Valid()
      modifies this
      ensures Valid()
      ensures View() == Step(old(View()), TimerTick)
      ensures old(gameState) == Playing && old(timeLeft) > 0 ==> timeLeft == old(timeLeft) - 1
      ensures gameState == Ended <==> timeLeft == 0
    {
      GameProperties.StepPreservesInv(View(), TimerTick);
      if gameState == Playing && timeLeft > 0 {
        timeLeft := timeLeft - 1;
      }
      Settle();
    }

    /** The oldest scheduled timeout of `startNextCall` fires: its call's audio starts. */
    method CallAudioStarted()
      requires Valid()
      requires |pending| > 0
      modifies this
      ensures Valid()
      ensures View() == Step(old(View()), CallAudio)
      ensures !isDispatching && played == old(played) + [old(pending)[0].audioFile]
    {
      GameProperties.StepPreservesInv(View(), CallAudio);
      var nextCall := pending[0];
      pending := pending[1..];
      played := played + [nextCall.audioFile];
      isDispatching := false;
      Settle();
    }
  }

  /** A caller's view: the first tap starts a shift, an answer moves the score by one and sets the debounce. */
  method FirstAnswer(p: Pointer, w: int, h: int, first: nat, second: nat)
    requires first < |AllCalls| && second < |AllCalls| - 1
  {
    var game := new Game();
    game.Tap(Mouse(0, 0), w, h, first);
    assert game.gameState == Playing && game.score == 0 && game.timeLeft == ShiftSeconds;
    assert game.currentCall == Some(AllCalls[first]);
    var call := game.currentCall.value;
    game.HandleScreenTap(p, w, h, second);
    assert game.isDispatching;
    assert game.score == if TapDispatch(p, w, h) == call.correctDispatch then 1 else -1;
  }
}
