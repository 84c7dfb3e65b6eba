/** The one-year windows the rotation playlists cover, counted back from now.

    Instants are whole seconds; a year is a fixed 365 days with no calendar
    or leap-year correction.  A window holds the instants `start <= t < end`.
 */
module Windows {

  const Day := 86400
  const Year := 365 * Day
  /** How many windows one run maintains. */
  const WindowCount := 3

  datatype Window = Window(start: int, end: int)

  predicate Contains(w: Window, t: int) { w.start <= t < w.end }

  /** The window `i` years back: it ends `i` years before `now` and spans a year. */
  function YearBack(now: int, i: nat): Window
  {
    Window(now - Year * (i + 1), now - Year * i)
  }

  /** The first window ends at `now`, each spans a year, and each ends where the one before starts. */
  predicate BackToBack(ws: seq<Window>, now: int)
  {
    && (|ws| > 0 ==> ws[0].end == now)
    && (forall i :: 0 <= i < |ws| ==> ws[i].end - ws[i].start == Year)
    && (forall i :: 0 < i < |ws| ==> ws[i].end == ws[i - 1].start)
  }

  /** Builds the windows by appending one per year, most recent first. */
  method YearWindows(now: int) returns (ws: seq<Window>)
    ensures |ws| == WindowCount
    ensures BackToBack(ws, now)
  {
    ws := [];
    for i := 0 to WindowCount
      invariant |ws| == i
      invariant forall j :: 0 <= j < i ==> ws[j] == YearBack(now, j)
    {
      var end := now - Year * i;
      var start := now - Year * (i + 1);
      ws := ws + [Window(start, end)];
    }
  }

  /** Back-to-back windows are exactly the windows one, two, ... years back. */
  lemma {:induction false} BackToBackYears(ws: seq<Window>, now: int)
    requires BackToBack(ws, now)
    ensures forall i :: 0 <= i < |ws| ==> ws[i] == YearBack(now, i)
  {
    if |ws| > 0 {
      var last := |ws| - 1;
      var init := ws[..last];
      assert BackToBack(init, now);
      BackToBackYears(init, now);
      if last > 0 {
        assert ws[last - 1] == init[last - 1] == YearBack(now, last - 1);
      }
      assert forall i :: 0 <= i < last ==> ws[i] == init[i];
    }
  }

  /** No instant lies in two of the windows. */
  lemma WindowsDisjoint(ws: seq<Window>, now: int, t: int, i: nat, j: nat)
    requires BackToBack(ws, now)
    requires i < |ws| && j < |ws|
    requires Contains(ws[i], t) && Contains(ws[j], t)
    ensures i == j
  {
    BackToBackYears(ws, now);
  }

  /** The windows together hold exactly the instants of the last `|ws|` years before `now`. */
  lemma WindowsCover(ws: seq<Window>, now: int, t: int)
    requires BackToBack(ws, now)
    ensures (exists i :: 0 <= i < |ws| && Contains(ws[i], t))
        <==> now - Year * |ws| <= t < now
  {
    BackToBackYears(ws, now);
    if now - Year * |ws| <= t < now {
      var i := (now - 1 - t) / Year;
      assert Contains(ws[i], t);
    }
  }
}
