/** Reading the user's playlists and a playlist's tracks, and finding or creating
    the user's own playlist with a given name. */
module Playlists {
  import opened Remote

  /** Page size of the playlist-listing requests. */
  const PlaylistPageSize := 50
  /** Page size of the playlist-items requests. */
  const ItemsPageSize := 100

  /** Reads the playlist listing page by page until a page comes back empty. */
  method GetAllUserPlaylists(sp: Service) returns (playlists: seq<Playlist>)
    ensures playlists == sp.playlists
  {
    playlists := [];
    var offset := 0;
    while true
      invariant offset <= |sp.playlists|
      invariant playlists == sp.playlists[..offset]
      decreases |sp.playlists| - offset
    {
      var items := sp.UserPlaylists(PlaylistPageSize, offset).items;
      if items == [] {
        break;
      }
      assert sp.playlists[..offset + |items|] == sp.playlists[..offset] + items;
      playlists := playlists + items;
      offset := offset + |items|;
    }
  }

  /** `p` has the name `name` and, when `owner` is given, that owner. */
  predicate Matches(p: Playlist, name: string, owner: Option<UserId>)
  {
    p.name == name && (owner.None? || p.ownerId == owner.value)
  }

  /** Index of the first playlist of `ps` that matches, or `|ps|` when none does. */
  function FirstMatch(ps: seq<Playlist>, name: string, owner: Option<UserId>): (k: nat)
    ensures k <= |ps|
    ensures forall j :: 0 <= j < k ==> !Matches(ps[j], name, owner)
    ensures k < |ps| ==> Matches(ps[k], name, owner)
  {
    if ps == [] || Matches(ps[0], name, owner) then 0
    else 1 + FirstMatch(ps[1..], name, owner)
  }

  /** A position with no match before it, and a match at it or the end of the listing there,
      is the first match. */
  lemma FirstMatchAt(ps: seq<Playlist>, name: string, owner: Option<UserId>, k: nat)
    requires k <= |ps|
    requires forall j :: 0 <= j < k ==> !Matches(ps[j], name, owner)
    requires k < |ps| ==> Matches(ps[k], name, owner)
    ensures FirstMatch(ps, name, owner) == k
  {
  }

  /** Returns the id of the first listed playlist with this name owned by `user`; when the
      listing has none, creates a private one and returns its id. */
  method FindOrCreatePlaylist(sp: Service, user: UserId, name: string) returns (id: PlaylistId)
    requires sp.Valid()
    modifies sp
    ensures sp.Valid()
    ensures sp.liked == old(sp.liked) && sp.currentUser == old(sp.currentUser)
    ensures var k := FirstMatch(old(sp.playlists), name, Some(user));
      k < |old(sp.playlists)| ==>
        && id == old(sp.playlists)[k].id
        && sp.playlists == old(sp.playlists)
        && sp.items == old(sp.items)
        && sp.log == old(sp.log)
    ensures FirstMatch(old(sp.playlists), name, Some(user)) == |old(sp.playlists)| ==>
        && id !in old(sp.items)
        && sp.playlists == old(sp.playlists) + [Playlist(id, name, user, false)]
        && sp.items == old(sp.items)[id := []]
        && sp.log == old(sp.log) + [Created(user, name, false)]
  {
    var offset := 0;
    while true
      invariant unchanged(sp)
      invariant offset <= |sp.playlists|
      invariant forall j :: 0 <= j < offset ==> !Matches(sp.playlists[j], name, Some(user))
      decreases |sp.playlists| - offset
    {
      var resp := sp.UserPlaylists(PlaylistPageSize, offset);
      assert resp.items == sp.playlists[offset..offset + |resp.items|];
      for i := 0 to |resp.items|
        invariant forall j :: 0 <= j < offset + i ==> !Matches(sp.playlists[j], name, Some(user))
      {
        var pl := resp.items[i];
        assert pl == sp.playlists[offset + i];
        if pl.name == name && pl.ownerId == user {
          FirstMatchAt(sp.playlists, name, Some(user), offset + i);
          return pl.id;
        }
      }
      if !resp.hasNext {
        break;
      }
      offset := offset + PlaylistPageSize;
    }
    FirstMatchAt(sp.playlists, name, Some(user), |sp.playlists|);
    id := sp.CreatePlaylist(user, name, false);
  }

  /** Reads a playlist's items page by page and keeps the ids of the tracks still present. */
  method GetPlaylistTrackIds(sp: Service, id: PlaylistId) returns (ids: seq<TrackId>)
    requires id in sp.items
    ensures ids == Present(sp.items[id])
  {
    ghost var content := sp.items[id];
    ids := [];
    var offset := 0;
    while true
      invariant offset <= |content|
      invariant ids == Present(content[..offset])
      decreases |content| - offset
    {
      var items := sp.PlaylistItems(id, ItemsPageSize, offset);
      if items == [] {
        assert content[..offset] == content;
        break;
      }
      assert content[..offset + |items|] == content[..offset] + items;
      PresentConcat(content[..offset], items);
      ids := ids + Present(items);
      offset := offset + |items|;
    }
  }

  /** Reading item pages one after another gives the ids of the whole sequence. */
  lemma {:induction false} PresentConcat(a: seq<Option<TrackId>>, b: seq<Option<TrackId>>)
    ensures Present(a + b) == Present(a) + Present(b)
  {
    if a == [] {
      assert a + b == b;
    } else {
      var head := if a[0].Some? then [a[0].value] else [];
      calc {
        Present(a + b);
      == { assert (a + b)[0] == a[0] && (a + b)[1..] == a[1..] + b; }
        head + Present(a[1..] + b);
      == { PresentConcat(a[1..], b); }
        head + (Present(a[1..]) + Present(b));
      ==
        (head + Present(a[1..])) + Present(b);
      }
    }
  }

  /** Reading back what a write stored gives the written ids, in order. */
  lemma {:induction false} PresentWrap(ids: seq<TrackId>)
    ensures Present(Wrap(ids)) == ids
  {
    if ids != [] {
      assert Wrap(ids) == [Some(ids[0])] + Wrap(ids[1..]);
      PresentWrap(ids[1..]);
    }
  }

  /** A track id is read back exactly when some item holds that track. */
  lemma {:induction false} PresentMembers(items: seq<Option<TrackId>>, x: TrackId)
    ensures x in Present(items) <==> Some(x) in items
  {
    if items != [] {
      PresentMembers(items[1..], x);
      assert items == [items[0]] + items[1..];
    }
  }

  /** Exactly the items without a track are dropped. */
  lemma {:induction false} PresentDropsNulls(items: seq<Option<TrackId>>)
    ensures |Present(items)| == |items| - multiset(items)[None]
  {
    if items != [] {
      PresentDropsNulls(items[1..]);
      assert items == [items[0]] + items[1..];
    }
  }

  /** A name-only miss is also an owner-scoped miss. */
  lemma NoNameNoOwned(ps: seq<Playlist>, name: string, user: UserId)
    requires FirstMatch(ps, name, None) == |ps|
    ensures FirstMatch(ps, name, Some(user)) == |ps|
  {
    var k := FirstMatch(ps, name, Some(user));
    if k < |ps| {
      assert Matches(ps[k], name, None);
    }
  }

  /** A playlist with the same name owned by another user, listed first, is passed over. */
  lemma OwnerScopedExample()
    ensures var ps := [Playlist("b1", "Rotation: Year -1", "B", false),
                       Playlist("a1", "Rotation: Year -1", "A", false)];
      FirstMatch(ps, "Rotation: Year -1", Some("A")) == 1
  {
    var ps := [Playlist("b1", "Rotation: Year -1", "B", false),
               Playlist("a1", "Rotation: Year -1", "A", false)];
    assert ps[1..] == [Playlist("a1", "Rotation: Year -1", "A", false)];
  }
}
