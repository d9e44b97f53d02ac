/** Gesture policy of the reels viewer: the wheel cooldown, the swipe
    threshold, and the clamped index step that nextVideo/prevVideo take. */
module Navigation {

  /** A navigation command produced by a gesture. */
  datatype Nav = Stay | Forward | Back

  /** Milliseconds a wheel event must follow the last accepted one. */
  const WheelCooldown: int := 700

  /** Pixels a touch must travel before it counts as a swipe. */
  const SwipeThreshold: int := 50

  function Abs(x: int): (r: int)
    ensures r >= 0 && (r == x || r == -x)
  {
    if x < 0 then -x else x
  }

  /** A wheel event at `now` is taken unless it comes less than the cooldown
      after the last accepted one. */
  predicate WheelAccepts(lastScrollTime: int, now: int)
  {
    !(now - lastScrollTime < WheelCooldown)
  }

  /** The command a wheel event gives: nothing inside the cooldown, otherwise
      forward for a positive vertical delta and back for any other delta,
      zero included. */
  function WheelNav(lastScrollTime: int, now: int, deltaY: int): (n: Nav)
    ensures n == Stay <==> now < lastScrollTime + WheelCooldown
    ensures n == Forward <==> now >= lastScrollTime + WheelCooldown && deltaY > 0
    ensures n == Back <==> now >= lastScrollTime + WheelCooldown && deltaY <= 0
  {
    if !WheelAccepts(lastScrollTime, now) then Stay
    else if deltaY > 0 then Forward
    else Back
  }

  /** The command a touch gives, from where it started to where it ended:
      an upward travel of more than the threshold goes forward, a downward
      one goes back, anything shorter does nothing. */
  function SwipeNav(startY: int, endY: int): (n: Nav)
    ensures n == Stay <==> -SwipeThreshold <= endY - startY <= SwipeThreshold
    ensures n == Forward <==> endY - startY < -SwipeThreshold
    ensures n == Back <==> endY - startY > SwipeThreshold
  {
    var deltaY := endY - startY;
    if Abs(deltaY) > SwipeThreshold then
      (if deltaY < 0 then Forward else Back)
    else Stay
  }

  /** Reversing a swipe reverses its command. */
  lemma SwipeReversed(startY: int, endY: int)
    ensures SwipeNav(startY, endY) == Forward <==> SwipeNav(endY, startY) == Back
    ensures SwipeNav(startY, endY) == Stay <==> SwipeNav(endY, startY) == Stay
  {
  }

  /** The index after a command over a list of `n` videos: one step at most,
      clamped at both ends, no wrap-around. */
  function StepIndex(i: int, n: int, nav: Nav): (j: int)
    ensures nav == Forward ==> (j == i + 1 <==> i < n - 1) && (j == i <==> i >= n - 1)
    ensures nav == Back ==> (j == i - 1 <==> i > 0) && (j == i <==> i <= 0)
    ensures nav == Stay ==> j == i
    ensures 0 <= i < n ==> 0 <= j < n
  {
    match nav
    case Stay => i
    case Forward => if i < n - 1 then i + 1 else i
    case Back => if i > 0 then i - 1 else i
  }

  /** A step forward that moved is undone by a step back, and conversely. */
  lemma StepUndone(i: int, n: int)
    requires 0 <= i < n
    ensures StepIndex(i, n, Forward) != i ==> StepIndex(StepIndex(i, n, Forward), n, Back) == i
    ensures StepIndex(i, n, Back) != i ==> StepIndex(StepIndex(i, n, Back), n, Forward) == i
  {
  }

  /** The timestamps of a stream of wheel events that pass the cooldown,
      starting from the last accepted time `last`. */
  function AcceptedTimes(last: int, times: seq<int>): (r: seq<int>)
    ensures |r| <= |times|
    ensures forall t :: t in r ==> t in times
    decreases |times|
  {
    if times == [] then []
    else if WheelAccepts(last, times[0]) then [times[0]] + AcceptedTimes(times[0], times[1..])
    else AcceptedTimes(last, times[1..])
  }

  /** The time that the last accepted event leaves behind. */
  function LastScrollAfter(last: int, times: seq<int>): int
  {
    var r := AcceptedTimes(last, times);
    if r == [] then last else r[|r| - 1]
  }

  /** Accepted wheel events lie at least the cooldown apart, the first one
      at least the cooldown after `last`: one gesture cannot take two steps
      within 700 ms. */
  lemma {:induction false} AcceptedTimesSpaced(last: int, times: seq<int>)
    ensures var r := AcceptedTimes(last, times);
      (r != [] ==> r[0] >= last + WheelCooldown) &&
      forall k :: 0 < k < |r| ==> r[k] >= r[k - 1] + WheelCooldown
    decreases |times|
  {
    if times != [] {
      AcceptedTimesSpaced(times[0], times[1..]);
      if !WheelAccepts(last, times[0]) {
        AcceptedTimesSpaced(last, times[1..]);
      }
    }
  }

  /** Running the stream one event further takes the new event exactly when
      it passes the cooldown against the last accepted time so far, which is
      the rule the wheel handler applies to its `lastScrollTime`. */
  lemma {:induction false} AcceptedTimesSnoc(last: int, times: seq<int>, t: int)
    ensures AcceptedTimes(last, times + [t]) ==
      AcceptedTimes(last, times) + (if WheelAccepts(LastScrollAfter(last, times), t) then [t] else [])
    decreases |times|
  {
    if times == [] {
      assert [t][1..] == [];
    } else {
      assert (times + [t])[0] == times[0];
      assert (times + [t])[1..] == times[1..] + [t];
      if WheelAccepts(last, times[0]) {
        AcceptedTimesSnoc(times[0], times[1..], t);
      } else {
        AcceptedTimesSnoc(last, times[1..], t);
      }
    }
  }

  /** Events at t, t + 100 and t + 800 after a first accepted time of 0,
      with t at least the cooldown, produce exactly two steps. */
  lemma DebounceScenario(t: int)
    requires t >= WheelCooldown
    ensures AcceptedTimes(0, [t, t + 100, t + 800]) == [t, t + 800]
  {
    assert [t, t + 100, t + 800][1..] == [t + 100, t + 800];
    assert [t + 100, t + 800][1..] == [t + 800];
    assert AcceptedTimes(t + 800, []) == [];
    assert AcceptedTimes(t, [t + 800]) == [t + 800];
    assert AcceptedTimes(t, [t + 100, t + 800]) == [t + 800];
  }
}
