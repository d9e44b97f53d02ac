# Reels feed controller, verified model

This project models `ReelsComponent`, the controller behind a vertical
short-video feed. The controller does four things:

- It loads pages of video URLs, with an in-flight guard on the request and a paging cursor (`offset`, `limit`).
- It picks one video to play from each batch of intersection-observer readings. A reading counts when it intersects with a ratio of at least 0.75. The greatest ratio wins, and on a tie the later reading wins. When no reading counts, the current video stays.
- It sets each player's play, pause and mute state from that choice. A scroll leaves the current player unmuted and playing and every other player muted and paused.
- It turns wheel events (700 ms cooldown) and touch swipes (more than 50 px) into clamped steps of the current index.

Files and modules:

- `navigation.dfy` (`Navigation`): the wheel and swipe rules, the clamped index step, and the stream of accepted wheel events with its spacing lemmas.
- `arbiter.dfy` (`Arbiter`): the intersection reading, the 0.75 filter, and the `reduce` that picks the best reading, with a full characterisation of its choice.
- `playback.dfy` (`Playback`): the player record `{paused, muted}`, the shapes a scroll pass and an intersection pass leave behind, and lemmas counting the playing and unmuted players.
- `reels.dfy` (`Reels`): the class `ReelsComponent`. It holds the source's fields and one method per handler. `Valid()` is its invariant.
- `scenarios.dfy` (`Scenarios`): client methods that drive event sequences through the class's contracts, verified rather than executed. They cover the first-page scenario, the in-flight guard, short pages, the range observed after a short page, a failed fetch, the wheel debounce, swipes, toggling, and a reading whose element is no longer rendered.

Abstractions:

- `Date.now()` becomes the `now` parameter of `HandleWheel`. `deltaY` and `clientY` become integer parameters.
- An intersection ratio is a `real`.
- A reading's target is the player's position in the current player list. A position outside that list means an element that is no longer rendered, and `findIndex` then gives -1.
- `play()` is modelled as "play requested": it clears `paused`.
- The asynchronous fetch is split into steps. `BeginLoad` is the guard. `CompleteLoad(urls)` is the response, and its input is the URL list the service returns. `FetchFailed` is an error response.
- The ghost counter `inFlight` counts requests not yet answered. `Valid()` keeps it at most 1.
- `RenderPlayers` stands for the view rendering players for loaded videos. `ObserveNewVideos` is the callback that runs once the view is stable.
- Each handler is one atomic step, and the steps may come in any order.

Where the code does something other than what a reader of the feature would expect, the model follows the code:

- `offset` advances by `limit` whatever the page size, so a short page makes `offset` and the list length differ. One would expect the cursor to count the videos actually loaded.
- The page request has no error handler. After a failed fetch `isLoading` stays true and no further page is ever requested (`FetchFailed`). One would expect the flag to be cleared so that a later request can retry.
- After a short page, the players that `observeNewVideos` watches are those in `[offset - limit, offset)`, not the ones just appended. A first page of 3 followed by a page of 5 leaves players 3 and 4 never observed (`Scenarios.ShortPageObserveScenario`).
- The intersection pass pauses the other players but does not mute them, where one would expect them muted as well. Only a scroll mutes.
- A tie on the greatest ratio goes to the later reading, where one might expect the first.
- `togglePlay` can leave two players playing, where one would expect at most one at any time, so "at most one playing" holds after each scroll and intersection pass, not at all times.
- When the best reading's element is no longer rendered, its index is -1. With two videos loaded, -1 equals `length - 3`, so a page is requested.

## Model

| member | source | states |
|---|---|---|
| `Navigation.WheelNav` | src/app/reels/reels.component.ts:139-146 | no step when `now` is less than 700 after the last accepted time; otherwise forward iff `deltaY > 0` and back iff `deltaY <= 0`, zero included |
| `Navigation.SwipeNav` | src/app/reels/reels.component.ts:152-157 | forward iff the touch moved up more than 50, back iff down more than 50, nothing within 50 either way |
| `Navigation.SwipeReversed` | src/app/reels/reels.component.ts:153-155 | reversing a touch turns forward into back, and no step stays no step |
| `Navigation.StepIndex` | src/app/reels/reels.component.ts:159-171 | forward adds exactly 1 iff the index is below the last; back subtracts exactly 1 iff it is above 0; otherwise the index is unchanged; an index in `[0, n)` stays in it |
| `Navigation.StepUndone` | src/app/reels/reels.component.ts:159-171 | a forward step that moved is undone by a back step, and a back step by a forward step |
| `Navigation.AcceptedTimes` | src/app/reels/reels.component.ts:140-142 | the accepted events of a wheel stream are drawn from that stream and are no more than it |
| `Navigation.AcceptedTimesSpaced` | src/app/reels/reels.component.ts:141-142 | accepted wheel events are at least 700 apart, and the first is at least 700 after the starting time |
| `Navigation.AcceptedTimesSnoc` | src/app/reels/reels.component.ts:141-142 | one more event is accepted exactly when it passes the cooldown against the last accepted time so far |
| `Navigation.DebounceScenario` | src/app/reels/reels.component.ts:141-142 | starting from time 0, events at t, t+100 and t+800 with t >= 700 are accepted at t and t+800 only |
| `Arbiter.Visible` | src/app/reels/reels.component.ts:80 | a reading is kept iff it intersects with a ratio of at least 0.75 |
| `Arbiter.BestIndex` | src/app/reels/reels.component.ts:84 | the reduction ends on a reading whose ratio is at least every other ratio, and every later reading's ratio is strictly smaller (a tie goes to the later one) |
| `Arbiter.BestIndexUnique` | src/app/reels/reels.component.ts:84 | those two properties single out the reduction's choice: the last reading of greatest ratio |
| `Arbiter.Best` | src/app/reels/reels.component.ts:80-85 | none iff no reading is considered; otherwise a considered reading of the batch whose ratio is at least every considered ratio |
| `Arbiter.VisibleSnoc` | src/app/reels/reels.component.ts:80 | the filter keeps the readings in their order: one more reading is appended exactly when it is considered |
| `Arbiter.BestSnoc` | src/app/reels/reels.component.ts:80-84 | the choice over a batch is the reduction step `a.ratio > b.ratio ? a : b` taken reading by reading over the considered ones |
| `Arbiter.BestLastOfGreatest` | src/app/reels/reels.component.ts:84 | the chosen reading stands in the batch at a position after which no considered reading reaches its ratio: a tie goes to the later reading |
| `Playback.FocusedCounts` | src/app/reels/reels.component.ts:182-193 | after a scroll, exactly one player plays and exactly one is unmuted when the current one is rendered, and none otherwise |
| `Playback.PlayOnlyCount` | src/app/reels/reels.component.ts:95-100 | after an intersection pass, exactly one player plays when the kept one is rendered and none otherwise, and the number of unmuted players is unchanged |
| `Reels.ReelsComponent.constructor` | src/app/reels/reels.component.ts:23-34 | empty list, index 0, offset 0, not loading, touch start and last scroll time 0, nothing rendered or observed |
| `Reels.ReelsComponent.AfterViewInit` | src/app/reels/reels.component.ts:38-47 | requests the first page through the guard and starts an observer that watches nothing |
| `Reels.ReelsComponent.BeginLoad` | src/app/reels/reels.component.ts:49-51 | nothing while loading; otherwise sets the flag and issues a request, only when none is outstanding, so at most one is ever in flight |
| `Reels.ReelsComponent.CompleteLoad` | src/app/reels/reels.component.ts:53-57 | the list becomes the old list followed by the returned URLs in order; `offset` grows by exactly `limit`; loading clears |
| `Reels.ReelsComponent.FetchFailed` | src/app/reels/reels.component.ts:53 | a failed request is answered but the loading flag stays set |
| `Reels.ReelsComponent.RenderPlayers` | src/app/reels/reels.component.ts:22 | rendered players are appended, never more than there are videos |
| `Reels.ReelsComponent.ObserveNewVideos` | src/app/reels/reels.component.ts:65-73 | the observer additionally watches exactly the rendered players with indices in `[max(0, offset - limit), offset)` |
| `Reels.ReelsComponent.PauseOthers` | src/app/reels/reels.component.ts:95-100 | every player but the kept one is paused; nothing else changes |
| `Reels.ReelsComponent.OnIntersection` | src/app/reels/reels.component.ts:78-126 | with a considered reading: the best one's player has play requested, every other is paused, it becomes current iff rendered, and a page is requested iff the index found is `length - 3`; without one: the index stays, a rendered current player plays and every other pauses, an unrendered one changes nothing |
| `Reels.ReelsComponent.OnDestroy` | src/app/reels/reels.component.ts:130-137 | the observer watches nothing any more |
| `Reels.ReelsComponent.HandleWheel` | src/app/reels/reels.component.ts:139-146 | inside the cooldown nothing changes; otherwise records `now` and takes the wheel command's clamped step, scrolling iff the index moved |
| `Reels.ReelsComponent.HandleTouchStart` | src/app/reels/reels.component.ts:148-150 | records the touch's start position |
| `Reels.ReelsComponent.HandleTouchEnd` | src/app/reels/reels.component.ts:152-157 | takes the swipe command's clamped step, scrolling iff the index moved |
| `Reels.ReelsComponent.NextVideo` | src/app/reels/reels.component.ts:159-164 | the index grows by exactly 1 iff below the last, and the players are focused on it then; otherwise nothing changes |
| `Reels.ReelsComponent.PrevVideo` | src/app/reels/reels.component.ts:166-171 | the index shrinks by exactly 1 iff above 0, and the players are focused on it then; otherwise nothing changes |
| `Reels.ReelsComponent.ScrollToCurrentVideo` | src/app/reels/reels.component.ts:182-199 | the current player is unmuted with play requested; every other is muted and paused |
| `Reels.ReelsComponent.SetCurrentIndex` | src/app/reels/reels.component.ts:202-206 | the index becomes `index` iff `0 <= index < length`; otherwise, -1 included, it is unchanged |
| `Reels.ReelsComponent.TogglePlay` | src/app/reels/reels.component.ts:208-217 | flips the paused state of the player at `index` when it is rendered; otherwise nothing changes |

## Left out

- `src/app/reels.service.ts` builds the request URL over an HTTP client. It is not modelled; `CompleteLoad` receives the returned URL list directly.
- `api/index.ts` (the server bootstrap) and `src/app/app.component.ts` (the shell) hold no controller logic.
- Constructing and disconnecting the intersection observer is not modelled beyond the `observed` set.
- `OnIntersection` does not consult the `observed` set: a batch may name players that were never observed, and may arrive after `OnDestroy`. This over-approximates what the browser delivers, so every property proved of it also holds of the batches that actually arrive.
- Adding and removing event listeners, `ngZone.onStable` and `scrollIntoView` are DOM and framework calls with no state the model keeps.
- `preventDefault` is not modelled. It is reached only for accepted wheel events and changes no state the model keeps.
- The view template is not part of this model. How players are rendered, and their initial paused and muted state, are the arbitrary input of `RenderPlayers`.
- A `play()` that the platform rejects is not modelled: play always clears `paused`. The rejection is swallowed in the source and has no other effect.
- Floating-point detail of the ratio is not modelled; it is a `real` compared with 0.75.
- The order in which fetch completions, renders and observer callbacks arrive is not fixed. Every handler is an atomic step, and the model places no constraint on their order.
- `Navigation.AcceptedTimes`: its own contract states only that accepted events come from the stream. Its spacing and its acceptance rule are stated by `AcceptedTimesSpaced` and `AcceptedTimesSnoc`.
