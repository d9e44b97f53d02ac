/** Event sequences driven through the controller's contracts alone. */
module Scenarios {
  import opened Arbiter
  import opened Navigation
  import opened Playback
  import opened Reels

  /** An empty feed loads a page of five, renders and observes it; a batch
      reporting index 2 at 0.9 and index 3 at 0.5 makes 2 current and
      playing, pauses the rest, and, 2 being three from the end, asks for
      the next page. */
  method FirstPageScenario()
  {
    var c := new ReelsComponent();
    var started := c.AfterViewInit();
    assert started && c.isLoading;
    c.CompleteLoad(["v0", "v1", "v2", "v3", "v4"]);
    assert |c.videos| == 5 && c.offset == 5 && !c.isLoading;
    c.RenderPlayers([Silenced, Silenced, Silenced, Silenced, Silenced]);
    c.ObserveNewVideos();
    assert forall j :: j in c.observed <==> 0 <= j < 5;

    var entries := [Entry(2, true, 0.9), Entry(3, true, 0.5)];
    assert Visible(entries[1..]) == [] by {
      assert entries[1..][1..] == [];
    }
    assert Visible(entries) == [entries[0]];
    assert Best(entries) == Some(entries[0]);
    c.OnIntersection(entries);
    assert c.currentIndex == 2;
    assert !c.players[2].paused;
    assert c.players[0].paused && c.players[1].paused && c.players[3].paused && c.players[4].paused;
    assert c.isLoading && c.inFlight == 1;
  }

  /** While a page is outstanding a second request does nothing; a short
      page still advances the cursor by the full page size. */
  method PagingScenario()
  {
    var c := new ReelsComponent();
    var first := c.BeginLoad();
    var second := c.BeginLoad();
    assert first && !second && c.inFlight == 1;
    c.CompleteLoad(["a", "b", "c"]);
    assert c.offset == 5 && |c.videos| == 3;
    var third := c.BeginLoad();
    assert third;
  }

  /** A failed request leaves the loading flag set, so paging stops. */
  method FailureScenario()
  {
    var c := new ReelsComponent();
    var started := c.BeginLoad();
    c.FetchFailed();
    var again := c.BeginLoad();
    assert started && !again && c.inFlight == 0;
  }

  /** With seven videos, wheel events at t, t + 100 and t + 800 take two
      steps; the middle one falls inside the cooldown. */
  method WheelScenario(t: int)
    requires t >= WheelCooldown
  {
    var c := new ReelsComponent();
    var started := c.BeginLoad();
    c.CompleteLoad(["a", "b", "c", "d", "e", "f", "g"]);
    c.HandleWheel(t, 120);
    assert c.currentIndex == 1;
    c.HandleWheel(t + 100, 120);
    assert c.currentIndex == 1 && c.lastScrollTime == t;
    c.HandleWheel(t + 800, 120);
    assert c.currentIndex == 2;
    c.HandleWheel(t + 1600, 0);
    assert c.currentIndex == 1;
  }

  /** Swipes of 50 px or less do nothing; a longer upward swipe steps
      forward, a longer downward one steps back; no step passes the ends. */
  method TouchScenario()
  {
    var c := new ReelsComponent();
    var started := c.BeginLoad();
    c.CompleteLoad(["a", "b"]);
    c.HandleTouchStart(300);
    c.HandleTouchEnd(250);
    assert c.currentIndex == 0;
    c.HandleTouchEnd(249);
    assert c.currentIndex == 1;
    c.HandleTouchStart(300);
    c.HandleTouchEnd(100);
    assert c.currentIndex == 1;
    c.HandleTouchEnd(351);
    assert c.currentIndex == 0;
    c.PrevVideo();
    assert c.currentIndex == 0;
  }

  /** A step scrolls: one player plays unmuted and the others are silenced.
      Toggling another player afterwards makes two play at once. */
  method ToggleScenario()
  {
    var c := new ReelsComponent();
    var started := c.BeginLoad();
    c.CompleteLoad(["a", "b", "c"]);
    c.RenderPlayers([Active, Active, Active]);
    c.NextVideo();
    assert c.currentIndex == 1;
    FocusedCounts(c.players, c.currentIndex);
    assert CountPlaying(c.players) == 1 && CountUnmuted(c.players) == 1;
    c.TogglePlay(0);
    assert !c.players[0].paused && !c.players[1].paused;
  }

  /** A best reading whose element is no longer rendered is found at -1:
      the current index stays, every rendered player pauses, and with two
      videos loaded -1 is three from the end, so a page is requested. */
  method DetachedTargetScenario()
  {
    var c := new ReelsComponent();
    var started := c.BeginLoad();
    c.CompleteLoad(["a", "b"]);
    c.RenderPlayers([Active]);
    var entries := [Entry(7, true, 1.0)];
    assert Visible(entries) == [entries[0]] by {
      assert entries[1..] == [];
    }
    c.OnIntersection(entries);
    assert c.currentIndex == 0;
    assert c.players[0].paused;
    assert c.isLoading && c.inFlight == 1;
  }

  /** The observed range follows the cursor, not the page just appended: a
      short first page of three and a full second page of five leave
      players 3 and 4 never observed. */
  method ShortPageObserveScenario()
  {
    var c := new ReelsComponent();
    var started := c.BeginLoad();
    c.CompleteLoad(["a", "b", "c"]);
    c.RenderPlayers([Silenced, Silenced, Silenced]);
    c.ObserveNewVideos();
    assert forall j :: j in c.observed <==> 0 <= j < 3;
    started := c.BeginLoad();
    c.CompleteLoad(["d", "e", "f", "g", "h"]);
    c.RenderPlayers([Silenced, Silenced, Silenced, Silenced, Silenced]);
    c.ObserveNewVideos();
    assert c.offset == 10 && |c.players| == 8;
    assert forall j :: j in c.observed <==> (0 <= j < 3 || 5 <= j < 8);
    assert 3 !in c.observed && 4 !in c.observed;
  }
}
