/** Extracting the liked tracks of one time window.

    The liked-tracks collection is listed newest first.  The scan walks it
    page by page, keeps the tracks liked inside the window, skips the ones
    liked after the window and stops at the first one liked before it.
 */
module Liked {
  import opened Remote

  /** Page size of the liked-tracks requests. */
  const SavedPageSize := 50

  /** Index of the first entry liked before `start`, or `|liked|` when there is none. */
  function FirstOlder(liked: seq<LikedEntry>, start: int): (k: nat)
    ensures k <= |liked|
    ensures forall j :: 0 <= j < k ==> liked[j].addedAt >= start
    ensures k < |liked| ==> liked[k].addedAt < start
  {
    if liked == [] || liked[0].addedAt < start then 0
    else 1 + FirstOlder(liked[1..], start)
  }

  /** What the scan returns: the ids liked in `[start, end)`, stopping at the first entry before `start`. */
  function Scan(liked: seq<LikedEntry>, start: int, end: int): seq<TrackId>
  {
    if liked == [] || liked[0].addedAt < start then []
    else (if liked[0].addedAt < end then [liked[0].trackId] else []) + Scan(liked[1..], start, end)
  }

  /** The ids of all entries liked in `[start, end)`, in collection order. */
  function InWindow(liked: seq<LikedEntry>, start: int, end: int): seq<TrackId>
  {
    if liked == [] then []
    else (if start <= liked[0].addedAt < end then [liked[0].trackId] else []) + InWindow(liked[1..], start, end)
  }

  /** The collection is ordered newest first. */
  predicate NewestFirst(liked: seq<LikedEntry>)
  {
    forall i, j :: 0 <= i < j < |liked| ==> liked[j].addedAt <= liked[i].addedAt
  }

  /** The ids the scan has kept after reading the first `p` entries without stopping. */
  function Kept(liked: seq<LikedEntry>, p: nat, start: int, end: int): seq<TrackId>
    requires p <= |liked|
  {
    if p == 0 then []
    else Kept(liked, p - 1, start, end)
         + (if start <= liked[p - 1].addedAt < end then [liked[p - 1].trackId] else [])
  }

  /** Reads the liked tracks page by page and keeps those liked in `[start, end)`.
      `lastOffset` is the offset of the last page requested: the page that holds the
      first entry older than the window, or the empty page just past the end. */
  method FetchLikedTracksRange(sp: Service, start: int, end: int)
    returns (results: seq<TrackId>, ghost lastOffset: nat)
    ensures results == Scan(sp.liked, start, end)
    ensures var k := FirstOlder(sp.liked, start);
      k < |sp.liked| ==> lastOffset <= k < lastOffset + SavedPageSize
    ensures FirstOlder(sp.liked, start) == |sp.liked| ==> lastOffset == |sp.liked|
  {
    ghost var liked := sp.liked;
    results := [];
    lastOffset := 0;
    var offset := 0;
    while true
      invariant offset <= FirstOlder(liked, start)
      invariant results == Kept(liked, offset, start, end)
      decreases |liked| - offset
    {
      var items := sp.SavedTracks(SavedPageSize, offset);
      lastOffset := offset;
      if items == [] {
        assert FirstOlder(liked, start) == |liked|;
        KeptIsScan(liked, start, end);
        break;
      }
      for j := 0 to |items|
        invariant offset + j <= FirstOlder(liked, start)
        invariant results == Kept(liked, offset + j, start, end)
      {
        var item := items[j];
        assert item == liked[offset + j];
        FirstOlderStep(liked, offset + j, start);
        if item.addedAt < start {
          KeptIsScan(liked, start, end);
          return;
        }
        if start <= item.addedAt < end {
          results := results + [item.trackId];
        }
      }
      offset := offset + |items|;
    }
  }

  /** Below the first older entry, an entry either is that entry or is followed by it. */
  lemma FirstOlderStep(liked: seq<LikedEntry>, p: nat, start: int)
    requires p < |liked| && p <= FirstOlder(liked, start)
    ensures liked[p].addedAt < start ==> FirstOlder(liked, start) == p
    ensures liked[p].addedAt >= start ==> p + 1 <= FirstOlder(liked, start)
  {
  }

  /** What the scan has kept when it stops, or runs out of entries, is the whole scan. */
  lemma KeptIsScan(liked: seq<LikedEntry>, start: int, end: int)
    ensures Kept(liked, FirstOlder(liked, start), start, end) == Scan(liked, start, end)
  {
    var k := FirstOlder(liked, start);
    KeptIsFiltered(liked, k, start, end);
    ScanIsFilteredPrefix(liked, start, end);
  }

  /** The ids kept from the first `p` entries are the in-window ids among them. */
  lemma {:induction false} KeptIsFiltered(liked: seq<LikedEntry>, p: nat, start: int, end: int)
    requires p <= |liked|
    ensures Kept(liked, p, start, end) == InWindow(liked[..p], start, end)
  {
    if p > 0 {
      KeptIsFiltered(liked, p - 1, start, end);
      assert liked[..p] == liked[..p - 1] + [liked[p - 1]];
      InWindowConcat(liked[..p - 1], [liked[p - 1]], start, end);
      assert InWindow([liked[p - 1]], start, end)
          == (if start <= liked[p - 1].addedAt < end then [liked[p - 1].trackId] else []) + InWindow([], start, end);
    }
  }

  /** The scan keeps, in order, the in-window entries of the part before the first older entry. */
  lemma {:induction false} ScanIsFilteredPrefix(liked: seq<LikedEntry>, start: int, end: int)
    ensures Scan(liked, start, end) == InWindow(liked[..FirstOlder(liked, start)], start, end)
  {
    if liked != [] && liked[0].addedAt >= start {
      var k := FirstOlder(liked, start);
      ScanIsFilteredPrefix(liked[1..], start, end);
      assert liked[..k][1..] == liked[1..][..k - 1];
    }
  }

  /** The filter keeps exactly the ids of the entries liked in `[start, end)`. */
  lemma {:induction false} InWindowMembers(liked: seq<LikedEntry>, start: int, end: int, x: TrackId)
    ensures x in InWindow(liked, start, end) <==>
      exists i :: 0 <= i < |liked| && liked[i].trackId == x && start <= liked[i].addedAt < end
  {
    if liked != [] {
      InWindowMembers(liked[1..], start, end, x);
      if x in InWindow(liked[1..], start, end) {
        var i :| 0 <= i < |liked| - 1 && liked[1..][i].trackId == x && start <= liked[1..][i].addedAt < end;
        assert liked[i + 1] == liked[1..][i];
      }
      if exists i :: 0 <= i < |liked| && liked[i].trackId == x && start <= liked[i].addedAt < end {
        var i :| 0 <= i < |liked| && liked[i].trackId == x && start <= liked[i].addedAt < end;
        if i > 0 {
          assert liked[1..][i - 1] == liked[i];
        }
      }
    }
  }

  /** The filter of a concatenation is the concatenation of the filters. */
  lemma {:induction false} InWindowConcat(a: seq<LikedEntry>, b: seq<LikedEntry>, start: int, end: int)
    ensures InWindow(a + b, start, end) == InWindow(a, start, end) + InWindow(b, start, end)
  {
    if a == [] {
      assert a + b == b;
    } else {
      var head := if start <= a[0].addedAt < end then [a[0].trackId] else [];
      calc {
        InWindow(a + b, start, end);
      == { assert (a + b)[0] == a[0] && (a + b)[1..] == a[1..] + b; }
        head + InWindow(a[1..] + b, start, end);
      == { InWindowConcat(a[1..], b, start, end); }
        head + (InWindow(a[1..], start, end) + InWindow(b, start, end));
      ==
        (head + InWindow(a[1..], start, end)) + InWindow(b, start, end);
      }
    }
  }

  /** Every entry was liked before `start`. */
  predicate AllOlder(liked: seq<LikedEntry>, start: int)
  {
    forall i :: 0 <= i < |liked| ==> liked[i].addedAt < start
  }

  lemma {:induction false} InWindowAllOlder(liked: seq<LikedEntry>, start: int, end: int)
    requires AllOlder(liked, start)
    ensures InWindow(liked, start, end) == []
  {
    if liked != [] {
      InWindowAllOlder(liked[1..], start, end);
    }
  }

  /** On a newest-first collection every entry from the first older one on is older too. */
  lemma SortedTailOlder(liked: seq<LikedEntry>, start: int)
    requires NewestFirst(liked)
    ensures AllOlder(liked[FirstOlder(liked, start)..], start)
  {
    var k := FirstOlder(liked, start);
    var tail := liked[k..];
    forall i | 0 <= i < |tail|
      ensures tail[i].addedAt < start
    {
      assert tail[i] == liked[k + i];
      assert liked[k + i].addedAt <= liked[k].addedAt;
    }
  }

  /** When every entry from the first older one on is older than `start`, the early stop loses
      nothing. */
  lemma {:induction false} OlderTailScan(liked: seq<LikedEntry>, start: int, end: int)
    requires AllOlder(liked[FirstOlder(liked, start)..], start)
    ensures Scan(liked, start, end) == InWindow(liked, start, end)
  {
    var k := FirstOlder(liked, start);
    var head, tail := liked[..k], liked[k..];
    ScanIsFilteredPrefix(liked, start, end);
    InWindowAllOlder(tail, start, end);
    InWindowConcat(head, tail, start, end);
    assert head + tail == liked;
  }

  /** On a newest-first collection the early stop loses nothing: the scan equals the filter over all entries. */
  lemma {:induction false} SortedScanMissesNothing(liked: seq<LikedEntry>, start: int, end: int)
    requires NewestFirst(liked)
    ensures Scan(liked, start, end) == InWindow(liked, start, end)
  {
    SortedTailOlder(liked, start);
    OlderTailScan(liked, start, end);
  }

  /** Nothing after the first older entry affects the scan. */
  lemma {:induction false} ScanIgnoresRest(a: seq<LikedEntry>, b: seq<LikedEntry>, start: int, end: int)
    requires FirstOlder(a, start) < |a| <= |b|
    requires a[..FirstOlder(a, start) + 1] == b[..FirstOlder(a, start) + 1]
    ensures Scan(a, start, end) == Scan(b, start, end)
  {
    var k := FirstOlder(a, start);
    ScanPrefixDetermines(a, b, k, start, end);
  }

  lemma {:induction false} ScanPrefixDetermines(a: seq<LikedEntry>, b: seq<LikedEntry>, k: nat, start: int, end: int)
    requires k < |a| && k < |b| && a[..k + 1] == b[..k + 1]
    requires a[k].addedAt < start
    ensures Scan(a, start, end) == Scan(b, start, end)
  {
    assert a[0] == b[0];
    if k > 0 && a[0].addedAt >= start {
      assert a[1..][..k] == b[1..][..k];
      ScanPrefixDetermines(a[1..], b[1..], k - 1, start, end);
    }
  }

  /** Entries liked at T, T-1, T-5 and T-10 against the window [T-3, T): the entry at T is
      skipped as newer than the window, the one at T-1 is kept, and the scan stops at T-5,
      inside the first page. */
  lemma EarlyStopExample(t: int)
    ensures var liked := [LikedEntry("a", t), LikedEntry("b", t - 1), LikedEntry("c", t - 5), LikedEntry("d", t - 10)];
      && Scan(liked, t - 3, t) == ["b"]
      && FirstOlder(liked, t - 3) == 2
  {
    var liked := [LikedEntry("a", t), LikedEntry("b", t - 1), LikedEntry("c", t - 5), LikedEntry("d", t - 10)];
    assert liked[1..] == [LikedEntry("b", t - 1), LikedEntry("c", t - 5), LikedEntry("d", t - 10)];
    assert liked[1..][1..] == [LikedEntry("c", t - 5), LikedEntry("d", t - 10)];
    assert Scan(liked[1..][1..], t - 3, t) == [];
    assert FirstOlder(liked[1..][1..], t - 3) == 0;
  }
}
