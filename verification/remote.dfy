/** The music service the rotation script talks to, as an in-memory model.

    The service keeps the user's liked tracks (newest first, as the service
    lists them), the playlists visible to the user, the items of every
    playlist and, in order, every write request it has received.  Reads are
    pure page reads with a `limit` and an `offset`; writes are methods that
    change the state and record themselves in `log`.
 */
module Remote {

  type TrackId = string
  type PlaylistId = string
  type UserId = string

  datatype Option<+T> = None | Some(value: T)

  /** A liked track and the instant it was liked, in seconds. */
  datatype LikedEntry = LikedEntry(trackId: TrackId, addedAt: int)

  /** A playlist as the listing of the user's playlists shows it. */
  datatype Playlist = Playlist(id: PlaylistId, name: string, ownerId: UserId, isPublic: bool)

  /** One page of the playlist listing; `hasNext` stands for a non-null `next` link. */
  datatype PlaylistPage = PlaylistPage(items: seq<Playlist>, hasNext: bool)

  /** A write request, as the service receives it. */
  datatype Write =
    | Created(owner: UserId, name: string, isPublic: bool)
    | Replaced(playlist: PlaylistId, trackIds: seq<TrackId>)
    | Appended(playlist: PlaylistId, trackIds: seq<TrackId>)

  /** The most track ids one replace or append request may carry. */
  const MaxItemsPerWrite := 100

  function Min(a: int, b: int): int { if a <= b then a else b }

  /** The page a `limit`/`offset` request returns from the collection `s`. */
  function Page<T>(s: seq<T>, limit: nat, offset: nat): (page: seq<T>)
    ensures |page| == if |s| <= offset then 0 else Min(limit, |s| - offset)
    ensures offset <= |s| ==> page == s[offset..offset + |page|]
  {
    if |s| <= offset then [] else s[offset..Min(offset + limit, |s|)]
  }

  /** The playlist items as track ids, as a write stores them. */
  function Wrap(ids: seq<TrackId>): (items: seq<Option<TrackId>>)
  {
    seq(|ids|, i requires 0 <= i < |ids| => Some(ids[i]))
  }

  /** The track ids of the playlist items whose track is present, in order. */
  function Present(items: seq<Option<TrackId>>): seq<TrackId>
  {
    if items == [] then []
    else (if items[0].Some? then [items[0].value] else []) + Present(items[1..])
  }

  /** What a write does to the items of the playlist it names. */
  function Apply(items: seq<Option<TrackId>>, w: Write): seq<Option<TrackId>>
  {
    match w
    case Created(_, _, _) => items
    case Replaced(_, ids) => Wrap(ids)
    case Appended(_, ids) => items + Wrap(ids)
  }

  /** The length of the longest playlist id in `ps`. */
  function LongestId(ps: seq<Playlist>): (n: nat)
    ensures forall p :: p in ps ==> |p.id| <= n
  {
    if ps == [] then 0
    else
      var rest := LongestId(ps[1..]);
      assert forall p :: p in ps ==> p == ps[0] || p in ps[1..];
      if |ps[0].id| <= rest then rest else |ps[0].id|
  }

  class Service {
    var currentUser: UserId
    var liked: seq<LikedEntry>
    var playlists: seq<Playlist>
    var items: map<PlaylistId, seq<Option<TrackId>>>
    var log: seq<Write>

    /** Playlist ids are unique and the items map has exactly the listed playlists. */
    ghost predicate Valid()
      reads this
    {
      && (forall p, q :: p in playlists && q in playlists && p.id == q.id ==> p == q)
      && items.Keys == set p | p in playlists :: p.id
    }

    /** A service for `user` with these liked tracks, no playlists and nothing written yet. */
    constructor (user: UserId, likedTracks: seq<LikedEntry>)
      ensures Valid()
      ensures currentUser == user && liked == likedTracks
      ensures playlists == [] && items == map[] && log == []
    {
      currentUser := user;
      liked := likedTracks;
      playlists := [];
      items := map[];
      log := [];
    }

    function CurrentUser(): UserId
      reads this
    {
      currentUser
    }

    /** A page of the liked tracks, newest first. */
    function SavedTracks(limit: nat, offset: nat): seq<LikedEntry>
      reads this
    {
      Page(liked, limit, offset)
    }

    /** A page of the user's playlists; `next` is null once the page reaches the end. */
    function UserPlaylists(limit: nat, offset: nat): PlaylistPage
      reads this
    {
      PlaylistPage(Page(playlists, limit, offset), offset + limit < |playlists|)
    }

    /** A page of a playlist's items; an item whose track is gone is `None`. */
    function PlaylistItems(id: PlaylistId, limit: nat, offset: nat): seq<Option<TrackId>>
      requires id in items
      reads this
    {
      Page(items[id], limit, offset)
    }

    method CreatePlaylist(user: UserId, name: string, isPublic: bool) returns (id: PlaylistId)
      requires Valid()
      modifies this
      ensures Valid()
      ensures id !in old(items)
      ensures playlists == old(playlists) + [Playlist(id, name, user, isPublic)]
      ensures items == old(items)[id := []]
      ensures log == old(log) + [Created(user, name, isPublic)]
      ensures liked == old(liked) && currentUser == old(currentUser)
    {
      id := seq(LongestId(playlists) + 1, _ => '#');
      var p := Playlist(id, name, user, isPublic);
      assert forall q :: q in playlists ==> q.id != id;
      playlists := playlists + [p];
      items := items[id := []];
      log := log + [Created(user, name, isPublic)];
    }

    method ReplaceItems(id: PlaylistId, ids: seq<TrackId>)
      requires id in items && |ids| <= MaxItemsPerWrite
      modifies this
      ensures items == old(items)[id := Apply(old(items)[id], Replaced(id, ids))]
      ensures log == old(log) + [Replaced(id, ids)]
      ensures playlists == old(playlists) && liked == old(liked) && currentUser == old(currentUser)
    {
      items := items[id := Wrap(ids)];
      log := log + [Replaced(id, ids)];
    }

    method AddItems(id: PlaylistId, ids: seq<TrackId>)
      requires id in items && |ids| <= MaxItemsPerWrite
      modifies this
      ensures items == old(items)[id := Apply(old(items)[id], Appended(id, ids))]
      ensures log == old(log) + [Appended(id, ids)]
      ensures playlists == old(playlists) && liked == old(liked) && currentUser == old(currentUser)
    {
      items := items[id := items[id] + Wrap(ids)];
      log := log + [Appended(id, ids)];
    }
  }
}
