/** One run of the rotation: for each of the last three years, the user's liked
    tracks of that year go into the playlist named after it.

    Window `idx` (counted from 1, most recent first) is the playlist
    "Rotation: Year -idx".  The playlist is looked up by name among all the
    playlists the user can see; only when none has the name is a private one
    created.  Its contents are then reconciled with the window's tracks.
 */
module Rotation {
  import opened Remote
  import opened Windows
  import opened Liked
  import opened Playlists
  import opened Reconcile

  /** The decimal digit character of `d`. */
  function Digit(d: nat): char
    requires d < 10
  {
    ('0' as int + d) as char
  }

  /** Every character of `s` is a decimal digit. */
  predicate AllDigits(s: string)
  {
    forall i :: 0 <= i < |s| ==> '0' <= s[i] <= '9'
  }

  /** The decimal numeral of `n`, as Python formats an integer. */
  function Decimal(n: nat): (s: string)
    ensures 1 <= |s|
    ensures AllDigits(s)
    decreases n
  {
    if n < 10 then [Digit(n)] else Decimal(n / 10) + [Digit(n % 10)]
  }

  /** The number a string of decimal digits denotes. */
  function Value(s: string): nat
    requires AllDigits(s)
  {
    if s == [] then 0
    else Value(s[..|s| - 1]) * 10 + (s[|s| - 1] as int - '0' as int)
  }

  /** Reading back a numeral gives the number it was formatted from. */
  lemma {:induction false} DecimalValue(n: nat)
    ensures Value(Decimal(n)) == n
    decreases n
  {
    if n >= 10 {
      var s := Decimal(n);
      assert s[..|s| - 1] == Decimal(n / 10);
      DecimalValue(n / 10);
    }
  }

  /** The name of the playlist of window `idx`. */
  function WindowName(idx: nat): (name: string)
  {
    "Rotation: Year -" + Decimal(idx)
  }

  /** Different windows have differently named playlists. */
  lemma WindowNamesDistinct(i: nat, j: nat)
    ensures WindowName(i) == WindowName(j) ==> i == j
  {
    if WindowName(i) == WindowName(j) {
      var p := |"Rotation: Year -"|;
      assert WindowName(i)[p..] == Decimal(i);
      assert WindowName(j)[p..] == Decimal(j);
      DecimalValue(i);
      DecimalValue(j);
    }
  }

  lemma FirstWindowName()
    ensures WindowName(1) == "Rotation: Year -1"
  {
  }

  /** The name-only lookup of a run and the owner-scoped lookup of find-or-create part ways when
      another user's playlist with the window's name is listed first: the run targets B's
      playlist, while find-or-create would return A's own. */
  lemma NameOnlyLookupDiffers()
    ensures var ps := [Playlist("b1", WindowName(1), "B", false), Playlist("a1", WindowName(1), "A", false)];
      && FirstMatch(ps, WindowName(1), None) == 0
      && ps[0].ownerId != "A"
      && FirstMatch(ps, WindowName(1), Some("A")) == 1
  {
    var ps := [Playlist("b1", WindowName(1), "B", false), Playlist("a1", WindowName(1), "A", false)];
    assert ps[1..] == [Playlist("a1", WindowName(1), "A", false)];
    assert ps[0].ownerId == "B" != "A";
  }

  /** The listing `ps` has a playlist with id `id` and name `name`. */
  ghost predicate Titled(ps: seq<Playlist>, id: PlaylistId, name: string)
  {
    exists i :: 0 <= i < |ps| && ps[i].id == id && ps[i].name == name
  }

  /** Playlist ids are unique in `ps`. */
  ghost predicate UniqueIds(ps: seq<Playlist>)
  {
    forall p, q :: p in ps && q in ps && p.id == q.id ==> p == q
  }

  /** With unique ids, playlists carrying different names have different ids. */
  lemma TitledDistinct(ps: seq<Playlist>, a: PlaylistId, na: string, b: PlaylistId, nb: string)
    requires UniqueIds(ps)
    requires Titled(ps, a, na) && Titled(ps, b, nb)
    ensures a == b ==> na == nb
  {
    var i :| 0 <= i < |ps| && ps[i].id == a && ps[i].name == na;
    var j :| 0 <= j < |ps| && ps[j].id == b && ps[j].name == nb;
    assert ps[i] in ps && ps[j] in ps;
  }

  /** A playlist stays titled as more playlists are listed after it. */
  lemma TitledGrows(ps: seq<Playlist>, more: seq<Playlist>, id: PlaylistId, name: string)
    requires Titled(ps, id, name)
    ensures Titled(ps + more, id, name)
  {
    var i :| 0 <= i < |ps| && ps[i].id == id && ps[i].name == name;
    assert (ps + more)[i] == ps[i];
  }

  /** The playlists `targets` are distinct and hold the tracks of their windows: `targets[j]` is listed under
      the name of window `j + 1` and holds the set of tracks the scan finds in `ws[j]`. */
  ghost predicate Filled(ps: seq<Playlist>, items: map<PlaylistId, seq<Option<TrackId>>>,
                         targets: seq<PlaylistId>, ws: seq<Window>, liked: seq<LikedEntry>)
  {
    && |targets| <= |ws|
    && (forall j, l :: 0 <= j < l < |targets| ==> targets[j] != targets[l])
    && forall j :: 0 <= j < |targets| ==>
      && targets[j] in items
      && Titled(ps, targets[j], WindowName(j + 1))
      && Elements(Present(items[targets[j]])) == Elements(Scan(liked, ws[j].start, ws[j].end))
  }

  /** Filling the next window's playlist keeps the earlier ones filled: its playlist carries a
      different name, so with unique ids it is a different playlist and their items are untouched. */
  lemma FilledNext(ps0: seq<Playlist>, items0: map<PlaylistId, seq<Option<TrackId>>>,
                   ps1: seq<Playlist>, items1: map<PlaylistId, seq<Option<TrackId>>>,
                   targets: seq<PlaylistId>, ws: seq<Window>, liked: seq<LikedEntry>, t: PlaylistId)
    requires Filled(ps0, items0, targets, ws, liked) && |targets| < |ws|
    requires UniqueIds(ps1) && ps0 <= ps1
    requires Titled(ps1, t, WindowName(|targets| + 1)) && t in items1
    requires Elements(Present(items1[t])) == Elements(Scan(liked, ws[|targets|].start, ws[|targets|].end))
    requires forall p :: p in items0 && p != t ==> p in items1 && items1[p] == items0[p]
    ensures forall j :: 0 <= j < |targets| ==> targets[j] != t
    ensures Filled(ps1, items1, targets + [t], ws, liked)
  {
    var i := |targets|;
    assert ps1 == ps0 + ps1[|ps0|..];
    forall j | 0 <= j < i
      ensures targets[j] != t
      ensures Titled(ps1, targets[j], WindowName(j + 1))
    {
      TitledGrows(ps0, ps1[|ps0|..], targets[j], WindowName(j + 1));
      TitledDistinct(ps1, targets[j], WindowName(j + 1), t, WindowName(i + 1));
      WindowNamesDistinct(j + 1, i + 1);
    }
  }

  /** What a run has done after its first `|targets|` windows, against the listing `ps0` and
      the items `items0` it started from: the windows' playlists are filled, no other playlist's
      items changed, and the only listed playlists added are private ones of `user`, at most
      one per window. */
  ghost predicate Progress(ps0: seq<Playlist>, items0: map<PlaylistId, seq<Option<TrackId>>>,
                           ps: seq<Playlist>, items: map<PlaylistId, seq<Option<TrackId>>>,
                           targets: seq<PlaylistId>, ws: seq<Window>, liked: seq<LikedEntry>, user: UserId)
  {
    && Filled(ps, items, targets, ws, liked)
    && (forall p :: p in items0 && p !in targets ==> p in items && items[p] == items0[p])
    && ps0 <= ps
    && |ps| <= |ps0| + |targets|
    && (forall p :: p in ps[|ps0|..] ==> p.ownerId == user && !p.isPublic)
  }

  /** Processing the next window, which rewrote only its own playlist's items and listed at most
      its own new private playlist, keeps the run's progress. */
  lemma ProgressNext(ps0: seq<Playlist>, items0: map<PlaylistId, seq<Option<TrackId>>>,
                     ps1: seq<Playlist>, items1: map<PlaylistId, seq<Option<TrackId>>>,
                     ps2: seq<Playlist>, items2: map<PlaylistId, seq<Option<TrackId>>>,
                     targets: seq<PlaylistId>, ws: seq<Window>, liked: seq<LikedEntry>, user: UserId,
                     t: PlaylistId)
    requires Progress(ps0, items0, ps1, items1, targets, ws, liked, user) && |targets| < |ws|
    requires UniqueIds(ps2)
    requires ps2 == ps1 || ps2 == ps1 + [Playlist(t, WindowName(|targets| + 1), user, false)]
    requires t in items2 && items2 == items1[t := items2[t]]
    requires Titled(ps2, t, WindowName(|targets| + 1))
    requires Elements(Present(items2[t])) == Elements(Scan(liked, ws[|targets|].start, ws[|targets|].end))
    ensures Progress(ps0, items0, ps2, items2, targets + [t], ws, liked, user)
  {
    FilledNext(ps1, items1, ps2, items2, targets, ws, liked, t);
    assert ps2[|ps0|..] == ps1[|ps0|..] || ps2[|ps0|..] == ps1[|ps0|..] + [Playlist(t, WindowName(|targets| + 1), user, false)];
  }

  /** Returns the id of the first listed playlist named `name`, whoever owns it; when no
      playlist has the name, creates a private one for `user`. */
  method WindowPlaylist(sp: Service, user: UserId, name: string) returns (target: PlaylistId)
    requires sp.Valid()
    modifies sp
    ensures sp.Valid()
    ensures sp.liked == old(sp.liked) && sp.currentUser == old(sp.currentUser)
    ensures var k := FirstMatch(old(sp.playlists), name, None);
      k < |old(sp.playlists)| ==>
        && target == old(sp.playlists)[k].id
        && sp.playlists == old(sp.playlists)
        && sp.items == old(sp.items)
        && sp.log == old(sp.log)
    ensures FirstMatch(old(sp.playlists), name, None) == |old(sp.playlists)| ==>
        && target !in old(sp.items)
        && sp.playlists == old(sp.playlists) + [Playlist(target, name, user, false)]
        && sp.items == old(sp.items)[target := []]
        && sp.log == old(sp.log) + [Created(user, name, false)]
    ensures Titled(sp.playlists, target, name)
    ensures target in sp.items
  {
    var playlists := GetAllUserPlaylists(sp);
    var found: Option<PlaylistId> := None;
    var i := 0;
    while i < |playlists|
      invariant i <= |playlists|
      invariant found == None
      invariant forall j :: 0 <= j < i ==> !Matches(playlists[j], name, None)
    {
      if playlists[i].name == name {
        found := Some(playlists[i].id);
        break;
      }
      i := i + 1;
    }
    FirstMatchAt(playlists, name, None, i);
    if found.None? {
      NoNameNoOwned(playlists, name, user);
      target := FindOrCreatePlaylist(sp, user, name);
      assert sp.playlists[|playlists|] == Playlist(target, name, user, false);
    } else {
      target := found.value;
      assert playlists[i] in playlists;
    }
  }

  /** Fills the playlist of window `idx` with the tracks liked in `w`: finds the first playlist
      with the window's name, or creates a private one for `user`, and reconciles its items. */
  method ProcessWindow(sp: Service, user: UserId, idx: nat, w: Window) returns (target: PlaylistId)
    requires sp.Valid()
    modifies sp
    ensures sp.Valid()
    ensures sp.liked == old(sp.liked) && sp.currentUser == old(sp.currentUser)
    ensures var k := FirstMatch(old(sp.playlists), WindowName(idx), None);
      var desired := Scan(old(sp.liked), w.start, w.end);
      k < |old(sp.playlists)| ==>
        && target == old(sp.playlists)[k].id
        && sp.playlists == old(sp.playlists)
        && sp.items == old(sp.items)[target := Reconciled(old(sp.items)[target], desired)]
        && sp.log == old(sp.log) + Writes(old(sp.items)[target], target, desired)
    ensures var desired := Scan(old(sp.liked), w.start, w.end);
      FirstMatch(old(sp.playlists), WindowName(idx), None) == |old(sp.playlists)| ==>
        && target !in old(sp.items)
        && sp.playlists == old(sp.playlists) + [Playlist(target, WindowName(idx), user, false)]
        && sp.items == old(sp.items)[target := Reconciled([], desired)]
        && sp.log == old(sp.log) + [Created(user, WindowName(idx), false)] + Writes([], target, desired)
    ensures Titled(sp.playlists, target, WindowName(idx))
    ensures target in sp.items
    ensures sp.playlists == old(sp.playlists) || sp.playlists == old(sp.playlists) + [Playlist(target, WindowName(idx), user, false)]
    ensures sp.items == old(sp.items)[target := sp.items[target]]
    ensures old(sp.log) <= sp.log
    ensures Elements(Present(sp.items[target])) == Elements(Scan(old(sp.liked), w.start, w.end))
  {
    var name := WindowName(idx);
    var trackIds;
    ghost var lastOffset;
    trackIds, lastOffset := FetchLikedTracksRange(sp, w.start, w.end);
    ghost var created := FirstMatch(sp.playlists, name, None) == |sp.playlists|;
    target := WindowPlaylist(sp, user, name);
    ghost var before: seq<Option<TrackId>> := if created then [] else old(sp.items)[target];
    if !created {
      assert sp.items == old(sp.items)[target := before];
    }
    UpdatePlaylistIfNeeded(sp, target, trackIds);
    UpdateTwice(old(sp.items), target, before, Reconciled(before, trackIds));
    ReconciledContents(before, trackIds);
  }

  /** One pass of a run's loop: processes the window after those already filled and
      keeps the run's progress, now with that window's playlist added; `i` counts the windows done. */
  method RunStep(sp: Service, user: UserId, ws: seq<Window>, i: nat, ghost ps0: seq<Playlist>,
                 ghost items0: map<PlaylistId, seq<Option<TrackId>>>, ghost targets: seq<PlaylistId>)
    returns (t: PlaylistId)
    requires sp.Valid() && i == |targets| < |ws|
    requires Progress(ps0, items0, sp.playlists, sp.items, targets, ws, sp.liked, user)
    modifies sp
    ensures sp.Valid()
    ensures sp.liked == old(sp.liked) && sp.currentUser == old(sp.currentUser)
    ensures Progress(ps0, items0, sp.playlists, sp.items, targets + [t], ws, sp.liked, user)
    ensures old(sp.log) <= sp.log
  {
    ghost var playlistsBefore, itemsBefore := sp.playlists, sp.items;
    t := ProcessWindow(sp, user, i + 1, ws[i]);
    ProgressNext(ps0, items0, playlistsBefore, itemsBefore, sp.playlists, sp.items,
                 targets, ws, sp.liked, user, t);
  }

  /** One run: the three yearly windows back from `now`, each reconciled into its playlist.
      `targets[i]` is the playlist of window `i + 1`. */
  method Run(sp: Service, now: int) returns (ghost targets: seq<PlaylistId>)
    requires sp.Valid()
    modifies sp
    ensures sp.Valid()
    ensures sp.liked == old(sp.liked) && sp.currentUser == old(sp.currentUser)
    ensures |targets| == WindowCount
    ensures forall i :: 0 <= i < WindowCount ==>
      && targets[i] in sp.items
      && Titled(sp.playlists, targets[i], WindowName(i + 1))
      && Elements(Present(sp.items[targets[i]]))
         == Elements(Scan(old(sp.liked), YearBack(now, i).start, YearBack(now, i).end))
    ensures forall i, j :: 0 <= i < j < WindowCount ==> targets[i] != targets[j]
    ensures forall p :: p in old(sp.items) && p !in targets ==> p in sp.items && sp.items[p] == old(sp.items)[p]
    ensures old(sp.playlists) <= sp.playlists
    ensures |sp.playlists| <= |old(sp.playlists)| + WindowCount
    ensures forall p :: p in sp.playlists[|old(sp.playlists)|..] ==> p.ownerId == old(sp.currentUser) && !p.isPublic
    ensures old(sp.log) <= sp.log
  {
    var user := sp.CurrentUser();
    var windows := YearWindows(now);
    BackToBackYears(windows, now);
    targets := [];
    for i := 0 to |windows|
      invariant sp.Valid()
      invariant sp.liked == old(sp.liked) && sp.currentUser == old(sp.currentUser)
      invariant |targets| == i
      invariant Progress(old(sp.playlists), old(sp.items), sp.playlists, sp.items, targets, windows, old(sp.liked), user)
      invariant old(sp.log) <= sp.log
    {
      var t := RunStep(sp, user, windows, i, old(sp.playlists), old(sp.items), targets);
      targets := targets + [t];
    }
  }

  /** Liked tracks at 2024-03-01, 2023-01-01 and 2022-06-01 and a run on 2024-06-01: each
      window's playlist receives exactly the one track liked in that year. */
  lemma EndToEndExample()
    ensures var liked := [LikedEntry("id1", 1709251200), LikedEntry("id2", 1672531200),
                          LikedEntry("id3", 1654041600)];
      && Scan(liked, YearBack(1717200000, 0).start, YearBack(1717200000, 0).end) == ["id1"]
      && Scan(liked, YearBack(1717200000, 1).start, YearBack(1717200000, 1).end) == ["id2"]
      && Scan(liked, YearBack(1717200000, 2).start, YearBack(1717200000, 2).end) == ["id3"]
  {
    var liked := [LikedEntry("id1", 1709251200), LikedEntry("id2", 1672531200),
                  LikedEntry("id3", 1654041600)];
    assert liked[1..] == [LikedEntry("id2", 1672531200), LikedEntry("id3", 1654041600)];
    assert liked[1..][1..] == [LikedEntry("id3", 1654041600)];
    assert liked[1..][1..][1..] == [];
  }
}
