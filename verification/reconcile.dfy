/** Bringing one playlist in line with the desired track ids.

    The current and desired ids are compared as sets.  When they agree nothing
    is written.  Otherwise the playlist is replaced by the first hundred ids
    and the rest are appended a hundred at a time, in order.
 */
module Reconcile {
  import opened Remote
  import opened Playlists

  function Elements<T>(s: seq<T>): set<T>
  {
    set x | x in s
  }

  /** The playlist's present tracks differ from the desired ones as sets. */
  predicate NeedsWrite(current: seq<Option<TrackId>>, desired: seq<TrackId>)
  {
    Elements(Present(current)) != Elements(desired)
  }

  /** The playlist's items after reconciliation. */
  function Reconciled(current: seq<Option<TrackId>>, desired: seq<TrackId>): seq<Option<TrackId>>
  {
    if NeedsWrite(current, desired) then Wrap(desired) else current
  }

  /** The append requests that carry `ids[from..]`, a hundred ids at a time. */
  function AppendsFrom(id: PlaylistId, ids: seq<TrackId>, from: nat): seq<Write>
    decreases |ids| - from
  {
    if |ids| <= from then []
    else [Appended(id, ids[from..Min(from + MaxItemsPerWrite, |ids|)])]
         + AppendsFrom(id, ids, from + MaxItemsPerWrite)
  }

  /** The write requests that store `ids`: one replace, then the appends. */
  function Batches(id: PlaylistId, ids: seq<TrackId>): seq<Write>
  {
    [Replaced(id, ids[..Min(MaxItemsPerWrite, |ids|)])] + AppendsFrom(id, ids, MaxItemsPerWrite)
  }

  /** The write requests reconciliation sends. */
  function Writes(current: seq<Option<TrackId>>, id: PlaylistId, desired: seq<TrackId>): seq<Write>
  {
    if NeedsWrite(current, desired) then Batches(id, desired) else []
  }

  /** The playlist's items after the writes `ws`, applied in order. */
  function ApplyAll(items: seq<Option<TrackId>>, ws: seq<Write>): seq<Option<TrackId>>
    decreases |ws|
  {
    if ws == [] then items else ApplyAll(Apply(items, ws[0]), ws[1..])
  }

  /** The track ids the writes `ws` carry, one request after another. */
  function Carried(ws: seq<Write>): seq<TrackId>
  {
    if ws == [] then []
    else (if ws[0].Created? then [] else ws[0].trackIds) + Carried(ws[1..])
  }

  /** Number of append requests for `n` desired ids: ceil((n - 100) / 100) when n > 100. */
  function AppendCount(n: nat): nat
  {
    if n <= MaxItemsPerWrite then 0 else (n - MaxItemsPerWrite + MaxItemsPerWrite - 1) / MaxItemsPerWrite
  }

  /** Reads the playlist and, unless it already holds the desired set, rewrites it in batches. */
  method UpdatePlaylistIfNeeded(sp: Service, id: PlaylistId, newIds: seq<TrackId>)
    requires sp.Valid() && id in sp.items
    modifies sp
    ensures sp.Valid()
    ensures sp.items == old(sp.items)[id := Reconciled(old(sp.items)[id], newIds)]
    ensures sp.log == old(sp.log) + Writes(old(sp.items)[id], id, newIds)
    ensures sp.playlists == old(sp.playlists)
    ensures sp.liked == old(sp.liked) && sp.currentUser == old(sp.currentUser)
  {
    var existing := GetPlaylistTrackIds(sp, id);
    if Elements(existing) == Elements(newIds) {
      assert sp.items == sp.items[id := sp.items[id]];
      return;
    }
    WriteBatches(sp, id, newIds);
  }

  /** Replaces the playlist's items by the first hundred ids and appends the rest a hundred at a time. */
  method WriteBatches(sp: Service, id: PlaylistId, newIds: seq<TrackId>)
    requires id in sp.items
    modifies sp
    ensures sp.items == old(sp.items)[id := Wrap(newIds)]
    ensures sp.log == old(sp.log) + Batches(id, newIds)
    ensures sp.playlists == old(sp.playlists)
    ensures sp.liked == old(sp.liked) && sp.currentUser == old(sp.currentUser)
  {
    ghost var items0, log0 := sp.items, sp.log;
    var first := newIds[..Min(MaxItemsPerWrite, |newIds|)];
    sp.ReplaceItems(id, first);
    UpdateTwice(items0, id, items0[id], Wrap(first));
    var i := MaxItemsPerWrite;
    assert Batches(id, newIds) == [Replaced(id, first)] + AppendsFrom(id, newIds, i);
    while i < |newIds|
      invariant MaxItemsPerWrite <= i
      invariant sp.items == items0[id := Wrap(newIds[..Min(i, |newIds|)])]
      invariant sp.log + AppendsFrom(id, newIds, i) == log0 + Batches(id, newIds)
      invariant sp.playlists == old(sp.playlists)
      invariant sp.liked == old(sp.liked) && sp.currentUser == old(sp.currentUser)
      decreases |newIds| - i
    {
      var next := Min(i + MaxItemsPerWrite, |newIds|);
      var chunk := newIds[i..next];
      ghost var rest := AppendsFrom(id, newIds, i + MaxItemsPerWrite);
      ghost var logBefore := sp.log;
      assert AppendsFrom(id, newIds, i) == [Appended(id, chunk)] + rest;
      WrapConcat(newIds[..i], chunk);
      assert newIds[..i] + chunk == newIds[..next];
      sp.AddItems(id, chunk);
      UpdateTwice(items0, id, Wrap(newIds[..i]), Wrap(newIds[..next]));
      assert sp.log + rest == logBefore + ([Appended(id, chunk)] + rest);
      i := i + MaxItemsPerWrite;
    }
    assert newIds[..Min(i, |newIds|)] == newIds;
  }

  /** Updating a key twice keeps only the second value. */
  lemma UpdateTwice<K, V>(m: map<K, V>, k: K, a: V, b: V)
    ensures m[k := a][k := b] == m[k := b]
  {
  }

  lemma WrapConcat(a: seq<TrackId>, b: seq<TrackId>)
    ensures Wrap(a + b) == Wrap(a) + Wrap(b)
  {
    assert |Wrap(a + b)| == |Wrap(a) + Wrap(b)|;
    forall i | 0 <= i < |a + b|
      ensures Wrap(a + b)[i] == (Wrap(a) + Wrap(b))[i]
    {
      if i >= |a| {
        assert (a + b)[i] == b[i - |a|];
      }
    }
  }

  /** The appends starting at `from` carry `ids[from..]`. */
  lemma {:induction false} AppendsCarry(id: PlaylistId, ids: seq<TrackId>, from: nat)
    requires from <= |ids|
    ensures Carried(AppendsFrom(id, ids, from)) == ids[from..]
    decreases |ids| - from
  {
    if from < |ids| {
      var next := Min(from + MaxItemsPerWrite, |ids|);
      var rest := AppendsFrom(id, ids, from + MaxItemsPerWrite);
      assert ([Appended(id, ids[from..next])] + rest)[1..] == rest;
      if from + MaxItemsPerWrite <= |ids| {
        AppendsCarry(id, ids, from + MaxItemsPerWrite);
        assert ids[from..] == ids[from..next] + ids[next..];
      } else {
        assert ids[from..] == ids[from..next] + [];
      }
    }
  }

  /** The batches, concatenated, are exactly the desired ids in order. */
  lemma BatchesCarry(id: PlaylistId, ids: seq<TrackId>)
    ensures Carried(Batches(id, ids)) == ids
  {
    var first := ids[..Min(MaxItemsPerWrite, |ids|)];
    var rest := AppendsFrom(id, ids, MaxItemsPerWrite);
    assert ([Replaced(id, first)] + rest)[1..] == rest;
    if MaxItemsPerWrite <= |ids| {
      AppendsCarry(id, ids, MaxItemsPerWrite);
      assert ids == first + ids[MaxItemsPerWrite..];
    } else {
      assert ids == first + [];
    }
  }

  /** Shape of the appends from `from`: each targets the playlist and carries 1 to 100 ids. */
  lemma {:induction false} AppendsShape(id: PlaylistId, ids: seq<TrackId>, from: nat)
    ensures |AppendsFrom(id, ids, from)| ==
      if |ids| <= from then 0 else (|ids| - from + MaxItemsPerWrite - 1) / MaxItemsPerWrite
    ensures forall w :: w in AppendsFrom(id, ids, from) ==>
      w.Appended? && w.playlist == id && 0 < |w.trackIds| <= MaxItemsPerWrite
    decreases |ids| - from
  {
    if from < |ids| {
      AppendsShape(id, ids, from + MaxItemsPerWrite);
    }
  }

  /** One replace of at most 100 ids, then ceil((n - 100) / 100) appends of 1 to 100 ids. */
  lemma BatchesShape(id: PlaylistId, ids: seq<TrackId>)
    ensures var bs := Batches(id, ids);
      && |bs| == 1 + AppendCount(|ids|)
      && bs[0] == Replaced(id, ids[..Min(MaxItemsPerWrite, |ids|)])
      && (forall i :: 1 <= i < |bs| ==>
            bs[i].Appended? && bs[i].playlist == id && 0 < |bs[i].trackIds| <= MaxItemsPerWrite)
  {
    var bs := Batches(id, ids);
    AppendsShape(id, ids, MaxItemsPerWrite);
    forall i | 1 <= i < |bs|
      ensures bs[i].Appended? && bs[i].playlist == id && 0 < |bs[i].trackIds| <= MaxItemsPerWrite
    {
      assert bs[i] in AppendsFrom(id, ids, MaxItemsPerWrite);
    }
  }

  /** Applying the appends from `from` to a playlist holding `ids[..from]` leaves it holding `ids`. */
  lemma {:induction false} AppendsRebuild(id: PlaylistId, ids: seq<TrackId>, from: nat)
    requires from <= |ids|
    ensures ApplyAll(Wrap(ids[..from]), AppendsFrom(id, ids, from)) == Wrap(ids)
    decreases |ids| - from
  {
    if from == |ids| {
      assert ids[..from] == ids;
    } else {
      var next := Min(from + MaxItemsPerWrite, |ids|);
      var rest := AppendsFrom(id, ids, from + MaxItemsPerWrite);
      assert ([Appended(id, ids[from..next])] + rest)[1..] == rest;
      WrapConcat(ids[..from], ids[from..next]);
      assert ids[..from] + ids[from..next] == ids[..next];
      if from + MaxItemsPerWrite <= |ids| {
        AppendsRebuild(id, ids, from + MaxItemsPerWrite);
      } else {
        assert ids[..next] == ids;
      }
    }
  }

  /** Whatever the playlist held, the batches leave it holding exactly the desired ids. */
  lemma BatchesRebuild(id: PlaylistId, ids: seq<TrackId>, items: seq<Option<TrackId>>)
    ensures ApplyAll(items, Batches(id, ids)) == Wrap(ids)
  {
    var first := ids[..Min(MaxItemsPerWrite, |ids|)];
    var rest := AppendsFrom(id, ids, MaxItemsPerWrite);
    assert ([Replaced(id, first)] + rest)[1..] == rest;
    if MaxItemsPerWrite <= |ids| {
      AppendsRebuild(id, ids, MaxItemsPerWrite);
    } else {
      assert first == ids;
    }
  }

  /** The writes sent are what turns the current items into the reconciled ones. */
  lemma WritesReconcile(current: seq<Option<TrackId>>, id: PlaylistId, desired: seq<TrackId>)
    ensures ApplyAll(current, Writes(current, id, desired)) == Reconciled(current, desired)
  {
    if NeedsWrite(current, desired) {
      BatchesRebuild(id, desired, current);
    }
  }

  /** After reconciliation the playlist holds the desired set; after a write, the desired ids in order. */
  lemma ReconciledContents(current: seq<Option<TrackId>>, desired: seq<TrackId>)
    ensures Elements(Present(Reconciled(current, desired))) == Elements(desired)
    ensures NeedsWrite(current, desired) ==> Present(Reconciled(current, desired)) == desired
  {
    PresentWrap(desired);
  }

  /** Reconciling a second time with the same desired ids writes nothing and changes nothing. */
  lemma ReconcileIdempotent(current: seq<Option<TrackId>>, id: PlaylistId, desired: seq<TrackId>)
    ensures var once := Reconciled(current, desired);
      Writes(once, id, desired) == [] && Reconciled(once, desired) == once
  {
    ReconciledContents(current, desired);
  }

  /** 250 desired ids go out as a replace of the first 100 and appends of the next 100 and the last 50. */
  lemma Batches250(id: PlaylistId, ids: seq<TrackId>)
    requires |ids| == 250
    ensures Batches(id, ids) == [Replaced(id, ids[..100]), Appended(id, ids[100..200]), Appended(id, ids[200..250])]
  {
    assert AppendsFrom(id, ids, 300) == [];
    assert AppendsFrom(id, ids, 200) == [Appended(id, ids[200..250])];
  }
}
