# Blind Dispatch: the turn-based game of `app/page.tsx`

Blind Dispatch is an audio game. The player hears an emergency call and taps one of the four
quadrants of the screen to answer it: police (top-left), fire (top-right), ems (bottom-left) or
prank (bottom-right). A shift lasts 300 seconds. A correct answer scores +1 and a wrong one −1;
the score has no lower bound. Three wrong answers in a row show a hint. The first correct answer
and the first wrong answer each play a one-off tutorial clip. After every answer another call
from a fixed catalogue of eight is chosen, and it is never the same call twice in a row.

The model is a sequential state machine with three events:

- **tap**: `handleScreenTap`. It starts a shift while waiting, dispatches while playing, and goes
  back to waiting once the shift is over.
- **tick**: one firing of the one-second countdown interval.
- **call audio started**: the one-second timeout scheduled by `startNextCall` fires. It plays the
  call's audio and lifts the `isDispatching` debounce.

After every event a *settle* step runs. It is the countdown `useEffect`: a state whose time is 0
is forced to `ended`, whatever its phase.

The files:

- `calls.dfy` (module `Calls`): the catalogue, the source's `filter` by id, and the choice of the
  next call. The random draw is an index parameter `pick` below the number of available calls.
- `quadrant.dfy` (module `Quadrant`): the map from a tap to an answer.
- `game_model.dfy` (module `GameModel`): the component's state as a datatype, with one function
  per source operation, plus `Step` (an event, then settle) and `Run` (a sequence of events).
- `game_properties.dfy` (module `GameProperties`): lemmas about single steps and whole runs.
- `game.dfy` (module `GameMachine`): class `Game`. Every piece of component state is a mutable
  field, and there is one method per handler. Each method ensures that its new state is the
  `GameModel` function applied to the old state.

Two pieces of state are not `useState` fields but are needed to model the code:

- `pending` is the queue of scheduled call-audio timeouts. Each entry is the call that its closure
  captured.
- `played` is the list of clips passed to `playAudio`, in call order.

Two behaviours of the code as written are proved, not corrected:

- **A shift can never restart.** `RestartTapEndsAgain` and `EndedIsFinal` prove it. The restart tap
  sets the phase to waiting. But `timeLeft` is still 0, because only `startGame` resets it, so the
  effect ends the shift again at once. "Tap to play again" therefore never starts a new shift.
- **Every touch answers prank.** `Quadrant.TapDispatch` models this. For a touch, the handler reads
  `event.touches.clientX` and `event.touches.clientY`. `touches` is a list, so both reads are
  `undefined`, and any comparison with `undefined` is false.

`app/page.tsx` has no districts and no vehicles. Its answers are police, fire, ems and prank, and
its score is a single counter.

## Model

| member | source | states |
|---|---|---|
| Calls.CatalogueIdsUnique | app/page.tsx:16-25 | the catalogue's ids are 1..8 in order, so no two calls share an id |
| Calls.Filter | app/page.tsx:116 | `filter` by id keeps a call exactly when it was in the list and its id is not the excluded one, and never grows the list |
| Calls.FilterNothing | app/page.tsx:116 | with no current call (`currentCall?.id` undefined) the filter keeps every call |
| Calls.FilterKeepsAll | app/page.tsx:116 | a filter that every call passes returns the list unchanged |
| Calls.FilterRemovesAt | app/page.tsx:116 | in a list with unique ids, excluding the id of the call at index k removes exactly that call and keeps the order of the rest |
| Calls.FilterRemovesFirst | app/page.tsx:116 | in a list with unique ids, excluding the first call's id leaves exactly the rest of the list |
| Calls.FilterMembers | app/page.tsx:116 | the filter of the catalogue by the current call keeps exactly the catalogue calls whose id differs from the current call's |
| Calls.AvailableIsFilter | app/page.tsx:116 | the available calls the model uses are exactly `allCalls.filter(call => call.id !== currentCall?.id)` |
| Calls.Available | app/page.tsx:116 | a call is available iff it is in the catalogue and its id differs from the current call's; all 8 are available with no current call and 7 with one, so the list is never empty |
| Calls.PickNext | app/page.tsx:117 | the chosen next call is in the catalogue and its id differs from the current call's |
| Quadrant.FromHalves | app/page.tsx:178-186 | the if-chain maps (top, left) to police, (top, right) to fire, (bottom, left) to ems and (bottom, right) to prank, each iff |
| Quadrant.Classify | app/page.tsx:173-186 | a point is police iff 2y < h and 2x < w, fire iff 2y < h and 2x ≥ w, ems iff 2y ≥ h and 2x < w, prank iff 2y ≥ h and 2x ≥ w; a point on a midline counts as bottom or right |
| Quadrant.ReadTap | app/page.tsx:164-171 | a click yields its coordinates; a touch yields `undefined` for both coordinates, whatever point was touched |
| Quadrant.TapDispatch | app/page.tsx:164-186 | a click answers by its quadrant; a touch always answers prank |
| GameModel.Initial | app/page.tsx:28-35 | the mounted component is waiting, with score 0, 300 seconds, no call, no hint, streak 0, both tutorial flags false and no debounce; it satisfies the invariant |
| GameModel.StartNextCall | app/page.tsx:115-123 | the new current call is a catalogue call whose id differs from the old one's; its audio timeout is appended to the queue; no other field changes |
| GameModel.BeginShift | app/page.tsx:108-111 | the setters of `startGame`: playing, score 0, 300 seconds, the connect clip appended; every other field unchanged |
| GameModel.StartGame | app/page.tsx:97-113 | a shift starts playing with score 0 and 300 seconds; the connect clip plays; a new call is chosen and scheduled; streak, hint, tutorial flags and debounce are unchanged |
| GameModel.Reward | app/page.tsx:131-139 | a correct answer: score +1, streak 0, hint cleared, success flag set; the success clip is appended, then the success tutorial clip if it had not played; nothing else changes |
| GameModel.Penalise | app/page.tsx:140-152 | a wrong answer: score −1, streak +1, hint set to the call's answer once the streak reaches 3 (else kept), failure flag set; the failure clip is appended, then the failure tutorial clip if it had not played; nothing else changes |
| GameModel.HandleDispatch | app/page.tsx:125-155 | with no current call or with the debounce set nothing changes. Otherwise: the debounce is set; the score moves by exactly +1 (correct) or −1 (wrong); a correct answer zeroes the streak and clears the hint; a wrong one increments the streak and sets the hint to the call's answer once the streak reaches 3 (else keeps it); the tutorial flags only become true, each on its first matching answer; the feedback clip, and the tutorial clip on its first time, is played; phase and time are unchanged; a different next call is scheduled |
| GameModel.HandleScreenTap | app/page.tsx:157-191 | a tap starts the game while waiting, dispatches the tapped answer while playing, and sets the phase to waiting when ended |
| GameModel.Tick | app/page.tsx:40-43 | while playing with time left, a tick takes exactly one second off and changes nothing else; otherwise no interval runs and nothing changes |
| GameModel.CallAudioStarted | app/page.tsx:119-122 | the oldest scheduled timeout plays the audio of the call it captured, leaves the queue and lifts the debounce; nothing else changes |
| GameModel.Settle | app/page.tsx:39-57 | after the effect the phase is ended iff the time is 0 (whatever the phase was), and it is unchanged otherwise; no other field changes |
| GameModel.Step | app/page.tsx:39-191 | one event followed by the effect: a state with no time left is ended; clips are only appended; a tick or timeout leaves score, streak, hint and tutorial flags unchanged; a tick leaves the debounce and the clips unchanged |
| GameModel.Run | app/page.tsx:39-191 | over any sequence of events the log of clips passed to `playAudio` only grows |
| GameProperties.StartGamePreservesInv | app/page.tsx:97-113 | starting a shift keeps the invariant |
| GameProperties.DispatchPreservesInv | app/page.tsx:125-155 | a dispatch keeps the invariant, in particular "hint shown ⟹ streak ≥ 3" |
| GameProperties.StepPreservesInv | app/page.tsx:39-191 | every event, followed by settle, keeps the invariant |
| GameProperties.RunPreservesInv | app/page.tsx:39-191 | every sequence of events keeps the invariant |
| GameProperties.ReachableInv | app/page.tsx:28-191 | every reachable state has: time in 0..300; ended iff the time is 0; a hint only when the streak is at least 3; a current catalogue call while playing; a scheduled timeout whenever the debounce is set; the newest scheduled timeout is the current call's |
| GameProperties.StepKeepsTutorialFlags | app/page.tsx:136-147 | no event clears a tutorial flag |
| GameProperties.TutorialFlagsNeverReset | app/page.tsx:136-147 | over any run the tutorial flags only go from false to true |
| GameProperties.RestartTapEndsAgain | app/page.tsx:187-190 | the restart tap sets the phase to waiting, but after the effect the ended state is exactly as before |
| GameProperties.EndedIsFinal | app/page.tsx:51-52 | once ended, no sequence of events leaves the ended phase or changes the final score |
| GameProperties.TickCountsDown | app/page.tsx:40-52 | while playing with time left, a tick takes exactly one second off, ends the shift exactly when the time reaches 0, and changes nothing else |
| GameProperties.CountdownTicks | app/page.tsx:40-52 | n ≤ timeLeft ticks from a playing state take exactly n seconds off; the shift is ended iff n equals the time that was left |
| GameProperties.ShiftLastsItsSeconds | app/page.tsx:108-110 | a shift started by a tap is still playing after 299 ticks and is ended after 300 |
| GameProperties.TapWhileDispatchingIgnored | app/page.tsx:126 | a tap during play while the debounce is set changes nothing |
| GameProperties.OnlyCallAudioLiftsDebounce | app/page.tsx:119-122 | only the call-audio timeout clears `isDispatching` |
| GameProperties.DebounceIsLifted | app/page.tsx:119-122 | whenever the debounce is set, a call-audio timeout is scheduled, and its firing clears the debounce |
| GameProperties.ScoreChangesOnlyByTaps | app/page.tsx:109-141 | the score changes only on a tap: starting a shift sets it to 0, and an accepted dispatch moves it by exactly ±1 |
| GameMachine.Game.constructor | app/page.tsx:28-35 | the new object's state is the initial state, which satisfies the invariant |
| GameMachine.Game.StartNextCall | app/page.tsx:115-123 | changes only the current call and the timeout queue, as `GameModel.StartNextCall` does |
| GameMachine.Game.StartGame | app/page.tsx:97-113 | the new state is `GameModel.StartGame` of the old one |
| GameMachine.Game.Reward | app/page.tsx:131-139 | the new state is the correct-answer branch of `GameModel.HandleDispatch` |
| GameMachine.Game.Penalise | app/page.tsx:140-152 | the new state is the wrong-answer branch of `GameModel.HandleDispatch` |
| GameMachine.Game.HandleDispatch | app/page.tsx:125-155 | the new state is `GameModel.HandleDispatch` of the old one |
| GameMachine.Game.HandleScreenTap | app/page.tsx:157-191 | the new state is `GameModel.HandleScreenTap` of the old one |
| GameMachine.Game.Settle | app/page.tsx:39-57 | the new state is `GameModel.Settle` of the old one |
| GameMachine.Game.Tap | app/page.tsx:157-191 | keeps the invariant; the new state is the tap event followed by settle |
| GameMachine.Game.Tick | app/page.tsx:39-57 | keeps the invariant; the time drops by one while playing with time left; ended iff the time is 0 |
| GameMachine.Game.CallAudioStarted | app/page.tsx:119-122 | keeps the invariant; lifts the debounce; appends the oldest scheduled call's audio to the played clips |

## Left out

- `playAudio` and `playRadioChatter` (app/page.tsx:59-95) are not modelled. They use Web Audio, `fetch` and audio decoding. Each call to `playAudio` is recorded in `played` and is taken to complete.
- GameModel.HandleDispatch: models `handleDispatch` as one atomic step. A `playAudio` rejection (no audio context, a failed fetch, a decode error) aborts the handler before `startNextCall`; that path is not modelled. Ticks and timeouts that fire while its feedback clips play are not interleaved with it either.
- The audio context's creation and resumption (app/page.tsx:98-105) are not modelled; they are browser plumbing.
- Reading coordinates from the DOM (app/page.tsx:164-174) is reduced to integer inputs `x`, `y`, `w` and `h`. Browsers report fractional coordinates, which are not modelled. The double binding of `onClick` and `onTouchStart` is not modelled either.
- `setInterval`, `setTimeout` and real time (app/page.tsx:41-43, 119) are not modelled. They appear as tick and call-audio events. Event order is the caller's choice; the one-second delays are not modelled.
- `Math.random` is not modelled (app/page.tsx:117). It becomes the index parameter `pick`.
- JSX rendering, the hint emoji and `console.log` (app/page.tsx:193-243) are not modelled; they are UI only.
- The score is an unbounded integer, because JavaScript numbers are exact integers far beyond any reachable score.
- `next.config.prod.js` is not part of this model: it is build configuration with no logic. `app/page copy.tsx` is not part of this model either: it is an alternative version of the page.
