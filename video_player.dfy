/** The video element of the canvas (src/app/videoPlayer.js): the box a video
    is shown in, sized from the window, and whether it is playing. The window
    size and `ReactPlayer.canPlay(url)` are inputs. */
module VideoPlayer {
  import opened Base

  const YouTubeRatio: real := 4.0 / 3.0
  const WideRatio: real := 16.0 / 9.0
  /** Above this window width the video takes the window less a small margin. */
  const WideWindow: real := 700.0
  const WideMargin: real := 30.0
  const NarrowMargin: real := 260.0
  /** The height never comes closer than this to the window's height. */
  const VerticalMargin: real := 200.0

  /** `sub` occurs in `s` starting at index `i`. */
  predicate OccursAt(s: string, sub: string, i: int)
  {
    0 <= i && i + |sub| <= |s| && s[i..i + |sub|] == sub
  }

  /** `s.includes(sub)`: `sub` occurs somewhere in `s`. */
  function Includes(s: string, sub: string): (r: bool)
    decreases |s|
    ensures r <==> exists i :: OccursAt(s, sub, i)
  {
    if |s| < |sub| then false
    else if s[..|sub|] == sub then assert OccursAt(s, sub, 0); true
    else
      var r := Includes(s[1..], sub);
      assert r ==> exists i :: OccursAt(s, sub, i) by {
        if r {
          var i :| OccursAt(s[1..], sub, i);
          assert s[i + 1..i + 1 + |sub|] == s[1..][i..i + |sub|];
          assert OccursAt(s, sub, i + 1);
        }
      }
      assert (exists i :: OccursAt(s, sub, i)) ==> r by {
        if exists i :: OccursAt(s, sub, i) {
          var i :| OccursAt(s, sub, i);
          assert i != 0;
          assert s[1..][i - 1..i - 1 + |sub|] == s[i..i + |sub|];
          assert OccursAt(s[1..], sub, i - 1);
        }
      }
      r
  }

  /** 4:3 for a playable YouTube url, 16:9 for anything else. */
  function AspectRatio(canPlay: bool, url: string): (ratio: real)
    ensures ratio == YouTubeRatio <==> canPlay && Includes(url, "youtube")
    ensures ratio == WideRatio <==> !(canPlay && Includes(url, "youtube"))
    ensures ratio > 1.0
  {
    if canPlay && Includes(url, "youtube") then YouTubeRatio else WideRatio
  }

  /** The video's width: the window less 30 on a wide window, less 260
      otherwise. */
  function VideoWidth(innerWidth: real): (w: real)
    ensures innerWidth > WideWindow ==> w == innerWidth - WideMargin
    ensures !(innerWidth > WideWindow) ==> w == innerWidth - NarrowMargin
  {
    if innerWidth > WideWindow then innerWidth - WideMargin else innerWidth - NarrowMargin
  }

  /** The width the ratio asks for, or the cap, whichever is smaller (on a
      tie, the cap). */
  function VideoHeight(width: real, ratio: real, innerHeight: real): (h: real)
    requires ratio > 0.0
    ensures h <= innerHeight - VerticalMargin && h <= width / ratio
    ensures width / ratio < innerHeight - VerticalMargin ==> h == width / ratio
    ensures !(width / ratio < innerHeight - VerticalMargin) ==> h == innerHeight - VerticalMargin
  {
    if width / ratio < innerHeight - VerticalMargin then width / ratio else innerHeight - VerticalMargin
  }

  /** The height never exceeds the window height less 200; it is the width
      over the ratio exactly when that fits, and the cap otherwise. */
  lemma HeightIsCapped(width: real, ratio: real, innerHeight: real)
    requires ratio > 0.0
    ensures var h := VideoHeight(width, ratio, innerHeight);
      && h <= innerHeight - VerticalMargin
      && h <= width / ratio
      && (width / ratio < innerHeight - VerticalMargin <==> h == width / ratio && h != innerHeight - VerticalMargin)
      && (!(width / ratio < innerHeight - VerticalMargin) <==> h == innerHeight - VerticalMargin)
  {
  }

  /** The box a video of this url is shown in, in a window of this size. */
  function VideoBox(canPlay: bool, url: string, innerWidth: real, innerHeight: real): (box: (real, real))
    ensures box.0 == VideoWidth(innerWidth)
    ensures box.1 <= innerHeight - VerticalMargin
    ensures var ratio := AspectRatio(canPlay, url);
      && (box.0 / ratio < innerHeight - VerticalMargin ==> box.1 == box.0 / ratio)
      && (!(box.0 / ratio < innerHeight - VerticalMargin) ==> box.1 == innerHeight - VerticalMargin)
  {
    var width := VideoWidth(innerWidth);
    (width, VideoHeight(width, AspectRatio(canPlay, url), innerHeight))
  }

  /** The box has the video's own proportions when the height fits, and is
      flatter than the video (so the video is letterboxed at full height)
      when the height is capped. */
  lemma {:induction false} BoxProportions(canPlay: bool, url: string, innerWidth: real, innerHeight: real)
    ensures var ratio := AspectRatio(canPlay, url);
      var box := VideoBox(canPlay, url, innerWidth, innerHeight);
      && box.1 <= innerHeight - VerticalMargin
      && box.1 * ratio <= box.0
      && (box.1 * ratio == box.0 <==> box.0 / ratio <= innerHeight - VerticalMargin)
  {
    var ratio := AspectRatio(canPlay, url);
    var w := VideoWidth(innerWidth);
    var h := VideoHeight(w, ratio, innerHeight);
    var cap := innerHeight - VerticalMargin;
    HeightIsCapped(w, ratio, innerHeight);
    assert (w / ratio) * ratio == w;
    if w / ratio < cap {
      assert h == w / ratio;
    } else {
      assert h == cap && cap <= w / ratio;
      assert h * ratio <= (w / ratio) * ratio;
      assert h * ratio == w <==> cap == w / ratio;
    }
  }

  /** A YouTube video in a 1000 by 800 window is 970 wide; 970 over 4:3
      is 727.5, more than the 600 the window leaves, so it is 600 high. */
  lemma YouTubeExample()
    ensures VideoBox(true, "https://www.youtube.com/watch", 1000.0, 800.0) == (970.0, 600.0)
  {
    var url := "https://www.youtube.com/watch";
    assert OccursAt(url, "youtube", 12);
    assert AspectRatio(true, url) == YouTubeRatio;
    assert 970.0 / YouTubeRatio == 727.5;
  }

  /** The player's play state, driven by the player's own events. */
  class Player {
    var playing: bool

    /** A new player is paused. */
    constructor()
      ensures !playing
    {
      playing := false;
    }

    /** `handlePlay`: playing afterwards, whatever the state before. */
    method HandlePlay()
      modifies this
      ensures playing
    {
      playing := true;
    }

    /** `handlePause`: paused afterwards, whatever the state before. */
    method HandlePause()
      modifies this
      ensures !playing
    {
      playing := false;
    }
  }
}
