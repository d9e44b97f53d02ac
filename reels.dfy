/** The reels feed controller: the loaded video list and its paging cursor,
    the current index, the wheel and touch gesture state, and the rendered
    players whose play, pause and mute state it drives. */
module Reels {
  import opened Arbiter
  import opened Navigation
  import opened Playback

  /** A navigation that moved the index scrolls to the new one; one that did
      not leaves the players alone. */
  ghost predicate ScrolledIfMoved(oldIndex: int, newIndex: int, before: seq<Player>, after: seq<Player>)
  {
    if newIndex != oldIndex then |after| == |before| && Focused(after, newIndex)
    else after == before
  }

  class ReelsComponent {
    /** The loaded video URLs, in feed order. */
    var videos: seq<string>
    var currentIndex: int
    /** The paging cursor and the page size asked of the server. */
    var offset: int
    const limit: int := 5
    /** Set while a page request is outstanding. */
    var isLoading: bool
    var touchStartY: int
    var lastScrollTime: int
    /** The rendered players; rendering may lag behind `videos`. */
    var players: seq<Player>
    /** Indices of the players the intersection observer watches. */
    var observed: set<int>
    /** Page requests issued and not yet answered. */
    ghost var inFlight: nat

    ghost predicate Valid()
      reads this
    {
      0 <= offset &&
      0 <= currentIndex && (currentIndex < |videos| || currentIndex == 0) &&
      |players| <= |videos| &&
      inFlight <= 1 && (inFlight == 1 ==> isLoading)
    }

    constructor ()
      ensures Valid()
      ensures videos == [] && currentIndex == 0 && offset == 0 && !isLoading
      ensures touchStartY == 0 && lastScrollTime == 0
      ensures players == [] && observed == {} && inFlight == 0
    {
      videos := [];
      currentIndex := 0;
      offset := 0;
      isLoading := false;
      touchStartY := 0;
      lastScrollTime := 0;
      players := [];
      observed := {};
      inFlight := 0;
    }

    /** The view is ready: ask for the first page and start a fresh observer
        that watches nothing yet. */
    method AfterViewInit() returns (started: bool)
      requires Valid()
      modifies this`isLoading, this`inFlight, this`observed
      ensures Valid()
      ensures started == !old(isLoading) && isLoading
      ensures inFlight == if started then 1 else old(inFlight)
      ensures observed == {}
    {
      started := BeginLoad();
      observed := {};
    }

    /** The request half of loading a page: nothing while a request is
        outstanding, otherwise mark one outstanding. The request asks for
        `limit` videos from `offset`. */
    method BeginLoad() returns (started: bool)
      requires Valid()
      modifies this`isLoading, this`inFlight
      ensures Valid()
      ensures started == !old(isLoading)
      ensures isLoading
      ensures started ==> old(inFlight) == 0 && inFlight == 1
      ensures !started ==> inFlight == old(inFlight)
    {
      if isLoading {
        return false;
      }
      isLoading := true;
      inFlight := 1;
      started := true;
    }

    /** The response half of loading a page: append the returned URLs in
        order and advance the cursor by the page size, however many came. */
    method CompleteLoad(newVideos: seq<string>)
      requires Valid() && inFlight == 1
      modifies this`videos, this`offset, this`isLoading, this`inFlight
      ensures Valid()
      ensures videos == old(videos) + newVideos
      ensures offset == old(offset) + limit
      ensures !isLoading && inFlight == 0
    {
      videos := videos + newVideos;
      offset := offset + limit;
      isLoading := false;
      inFlight := 0;
    }

    /** A page request that fails: nothing handles the error, so the loading
        flag stays set and no later request is ever issued. */
    method FetchFailed()
      requires Valid() && inFlight == 1
      modifies this`inFlight
      ensures Valid()
      ensures inFlight == 0 && isLoading
    {
      inFlight := 0;
    }

    /** The view renders players for videos that have none yet. */
    method RenderPlayers(added: seq<Player>)
      requires Valid() && |players| + |added| <= |videos|
      modifies this`players
      ensures Valid()
      ensures players == old(players) + added
    {
      players := players + added;
    }

    /** After a page has rendered: watch the players of the last page's index
        range, those that exist, and nothing else. */
    method ObserveNewVideos()
      requires Valid()
      modifies this`observed
      ensures Valid()
      ensures forall j :: j in observed <==>
        j in old(observed) || (0 <= j && offset - limit <= j < offset && j < |players|)
    {
      var lo := if offset - limit > 0 then offset - limit else 0;
      var i := lo;
      while i < offset
        invariant lo <= i <= offset
        invariant forall j :: j in observed <==>
          j in old(observed) || (lo <= j < i && j < |players|)
      {
        if i < |players| {
          observed := observed + {i};
        }
        i := i + 1;
      }
    }

    /** Pause every player other than `keep`. */
    method PauseOthers(keep: int)
      requires Valid()
      modifies this`players
      ensures Valid()
      ensures |players| == |old(players)|
      ensures forall i :: 0 <= i < |players| ==>
        players[i] == (if i == keep then old(players)[i] else old(players)[i].(paused := true))
    {
      var i := 0;
      while i < |players|
        invariant 0 <= i <= |players| == |old(players)|
        invariant forall j :: 0 <= j < i ==>
          players[j] == (if j == keep then old(players)[j] else old(players)[j].(paused := true))
        invariant forall j :: i <= j < |players| ==> players[j] == old(players)[j]
      {
        if i != keep {
          players := players[i := players[i].(paused := true)];
        }
        i := i + 1;
      }
    }

    /** One intersection-observer callback. With a considered reading, the
        best one's player plays, becomes current if it is rendered, every
        other player pauses, and a page is requested when the index found is
        three from the end. Without one, the current player, if rendered,
        plays and every other pauses. */
    method OnIntersection(entries: seq<Entry>)
      requires Valid()
      modifies this`currentIndex, this`players, this`isLoading, this`inFlight
      ensures Valid()
      ensures Best(entries).Some? ==>
        var t := Best(entries).value.target;
        var index := if 0 <= t < |old(players)| then t else -1;
        var load := index == |videos| - 3;
        && currentIndex == (if 0 <= index < |videos| then index else old(currentIndex))
        && PlayOnly(old(players), players, t)
        && isLoading == (old(isLoading) || load)
        && inFlight == (if load && !old(isLoading) then 1 else old(inFlight))
      ensures Best(entries).None? ==>
        && currentIndex == old(currentIndex)
        && isLoading == old(isLoading) && inFlight == old(inFlight)
        && if currentIndex < |old(players)| then PlayOnly(old(players), players, currentIndex)
           else players == old(players)
    {
      var best := Best(entries);
      if best.Some? {
        var t := best.value.target;
        if 0 <= t < |players| {
          players := players[t := players[t].(paused := false)];
        }
        var index := if 0 <= t < |players| then t else -1;
        SetCurrentIndex(index);
        PauseOthers(t);
        if index == |videos| - 3 {
          var started := BeginLoad();
        }
      } else if currentIndex < |players| {
        if players[currentIndex].paused {
          players := players[currentIndex := players[currentIndex].(paused := false)];
        }
        PauseOthers(currentIndex);
      }
    }

    /** Stop watching every player. */
    method OnDestroy()
      requires Valid()
      modifies this`observed
      ensures Valid() && observed == {}
    {
      observed := {};
    }

    /** A wheel event at time `now`: ignored inside the cooldown, otherwise
        it records the time and steps forward for a positive delta, back for
        any other. */
    method HandleWheel(now: int, deltaY: int)
      requires Valid()
      modifies this`lastScrollTime, this`currentIndex, this`players
      ensures Valid()
      ensures lastScrollTime == if WheelAccepts(old(lastScrollTime), now) then now else old(lastScrollTime)
      ensures currentIndex == StepIndex(old(currentIndex), |videos|, WheelNav(old(lastScrollTime), now, deltaY))
      ensures ScrolledIfMoved(old(currentIndex), currentIndex, old(players), players)
    {
      if now - lastScrollTime < WheelCooldown {
        return;
      }
      lastScrollTime := now;
      if deltaY > 0 {
        NextVideo();
      } else {
        PrevVideo();
      }
    }

    method HandleTouchStart(clientY: int)
      requires Valid()
      modifies this`touchStartY
      ensures Valid() && touchStartY == clientY
    {
      touchStartY := clientY;
    }

    /** A touch ending at `clientY`: a swipe of more than the threshold steps
        forward when upward and back when downward. */
    method HandleTouchEnd(clientY: int)
      requires Valid()
      modifies this`currentIndex, this`players
      ensures Valid()
      ensures currentIndex == StepIndex(old(currentIndex), |videos|, SwipeNav(touchStartY, clientY))
      ensures ScrolledIfMoved(old(currentIndex), currentIndex, old(players), players)
    {
      var deltaY := clientY - touchStartY;
      if Abs(deltaY) > SwipeThreshold {
        if deltaY < 0 {
          NextVideo();
        } else {
          PrevVideo();
        }
      }
    }

    /** Step to the next video unless the current one is the last. */
    method NextVideo()
      requires Valid()
      modifies this`currentIndex, this`players
      ensures Valid()
      ensures currentIndex == StepIndex(old(currentIndex), |videos|, Forward)
      ensures ScrolledIfMoved(old(currentIndex), currentIndex, old(players), players)
    {
      if currentIndex < |videos| - 1 {
        currentIndex := currentIndex + 1;
        ScrollToCurrentVideo();
      }
    }

    /** Step to the previous video unless the current one is the first. */
    method PrevVideo()
      requires Valid()
      modifies this`currentIndex, this`players
      ensures Valid()
      ensures currentIndex == StepIndex(old(currentIndex), |videos|, Back)
      ensures ScrolledIfMoved(old(currentIndex), currentIndex, old(players), players)
    {
      if currentIndex > 0 {
        currentIndex := currentIndex - 1;
        ScrollToCurrentVideo();
      }
    }

    /** Unmute and play the current player, mute and pause every other. */
    method ScrollToCurrentVideo()
      requires Valid()
      modifies this`players
      ensures Valid()
      ensures |players| == |old(players)|
      ensures Focused(players, currentIndex)
    {
      var i := 0;
      while i < |players|
        invariant 0 <= i <= |players| == |old(players)|
        invariant forall j :: 0 <= j < i ==> players[j] == (if j == currentIndex then Active else Silenced)
      {
        if i == currentIndex {
          players := players[i := Active];
        } else {
          players := players[i := Silenced];
        }
        i := i + 1;
      }
    }

    /** Make `index` current when it names a loaded video; otherwise leave
        the current index as it is. */
    method SetCurrentIndex(index: int)
      requires Valid()
      modifies this`currentIndex
      ensures Valid()
      ensures currentIndex == if 0 <= index < |videos| then index else old(currentIndex)
    {
      if index >= 0 && index < |videos| {
        currentIndex := index;
      }
    }

    /** Flip the paused state of the player at `index`, when it is rendered. */
    method TogglePlay(index: int)
      requires Valid()
      modifies this`players
      ensures Valid()
      ensures if 0 <= index < |old(players)|
        then players == old(players)[index := old(players)[index].(paused := !old(players)[index].paused)]
        else players == old(players)
    {
      if !(0 <= index < |players|) {
        return;
      }
      if players[index].paused {
        players := players[index := players[index].(paused := false)];
      } else {
        players := players[index := players[index].(paused := true)];
      }
    }
  }
}
