/** The state of the rendered video players and the shapes the controller's
    passes over them leave behind. */
module Playback {

  /** One rendered video element. Requesting playback clears `paused`. */
  datatype Player = Player(paused: bool, muted: bool)

  /** Playing and unmuted, as scrolling leaves the current player. */
  const Active: Player := Player(false, false)

  /** Paused and muted, as scrolling leaves every other player. */
  const Silenced: Player := Player(true, true)

  /** What a scroll to `k` leaves: `k` active, every other player silenced. */
  ghost predicate Focused(ps: seq<Player>, k: int)
  {
    forall i :: 0 <= i < |ps| ==> ps[i] == (if i == k then Active else Silenced)
  }

  /** What an intersection pass that keeps `k` leaves: `k` has play
      requested, every other player is paused, and no mute flag changes. */
  ghost predicate PlayOnly(before: seq<Player>, after: seq<Player>, k: int)
  {
    |after| == |before| &&
    forall i :: 0 <= i < |before| ==>
      after[i] == (if i == k then before[i].(paused := false) else before[i].(paused := true))
  }

  /** The number of players that are not paused. */
  function CountPlaying(ps: seq<Player>): (c: nat)
    ensures c <= |ps|
  {
    if ps == [] then 0
    else CountPlaying(ps[..|ps| - 1]) + (if ps[|ps| - 1].paused then 0 else 1)
  }

  /** The number of players that are not muted. */
  function CountUnmuted(ps: seq<Player>): (c: nat)
    ensures c <= |ps|
  {
    if ps == [] then 0
    else CountUnmuted(ps[..|ps| - 1]) + (if ps[|ps| - 1].muted then 0 else 1)
  }

  /** After a scroll exactly one player plays and exactly one is unmuted,
      the current one, when it is rendered; otherwise none. */
  lemma {:induction false} FocusedCounts(ps: seq<Player>, k: int)
    requires Focused(ps, k)
    ensures CountPlaying(ps) == (if 0 <= k < |ps| then 1 else 0)
    ensures CountUnmuted(ps) == (if 0 <= k < |ps| then 1 else 0)
    decreases |ps|
  {
    if ps != [] {
      var init := ps[..|ps| - 1];
      assert Focused(init, k) by {
        forall i | 0 <= i < |init| ensures init[i] == (if i == k then Active else Silenced) {
          assert init[i] == ps[i];
        }
      }
      FocusedCounts(init, k);
    }
  }

  /** After an intersection pass exactly one player plays, the kept one,
      when it is rendered; otherwise none. */
  lemma {:induction false} PlayOnlyCount(before: seq<Player>, after: seq<Player>, k: int)
    requires PlayOnly(before, after, k)
    ensures CountPlaying(after) == (if 0 <= k < |after| then 1 else 0)
    ensures CountUnmuted(after) == CountUnmuted(before)
    decreases |before|
  {
    if before != [] {
      var n := |before| - 1;
      assert PlayOnly(before[..n], after[..n], k) by {
        forall i | 0 <= i < n
          ensures after[..n][i] == (if i == k then before[..n][i].(paused := false) else before[..n][i].(paused := true))
        {
          assert after[..n][i] == after[i] && before[..n][i] == before[i];
        }
      }
      PlayOnlyCount(before[..n], after[..n], k);
    }
  }
}
