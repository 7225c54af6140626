/**
 * The album-detail read model: the album's tracks stable-sorted by track
 * number, grouped by disc with the discs in ascending order, and the flat
 * list obtained by reading the groups in disc order.
 */
module AlbumAggregate {

  /** A track as the album screen sees it (the fields of the track record). */
  datatype Track = Track(
    trackHash: string,
    title: string,
    albumHash: string,
    filepath: string,
    duration: int,
    bitrate: int,
    disc: int,
    trackNumber: int,
    isFavorite: bool)

  /** One entry of the sorted map from disc number to that disc's tracks. */
  datatype DiscGroup = DiscGroup(disc: int, tracks: seq<Track>)

  // ---------------------------------------------------------------------------
  // Selecting the tracks with a given key
  // ---------------------------------------------------------------------------

  /** The keys the ordering works on: a disc, a track number, or both. */
  datatype Selector = OnDisc(disc: int) | Numbered(trackNumber: int) | OnDiscNumbered(disc: int, trackNumber: int)

  predicate Selects(sel: Selector, t: Track) {
    match sel
    case OnDisc(d) => t.disc == d
    case Numbered(n) => t.trackNumber == n
    case OnDiscNumbered(d, n) => t.disc == d && t.trackNumber == n
  }

  /** The subsequence of `ts` whose tracks carry the selected key, in their order in `ts`. */
  function Select(ts: seq<Track>, sel: Selector): (r: seq<Track>)
    ensures forall t :: t in r ==> t in ts && Selects(sel, t)
  {
    if ts == [] then [] else (if Selects(sel, ts[0]) then [ts[0]] else []) + Select(ts[1..], sel)
  }

  lemma {:induction false} SelectAppend(a: seq<Track>, b: seq<Track>, sel: Selector)
    ensures Select(a + b, sel) == Select(a, sel) + Select(b, sel)
  {
    if a == [] {
      assert a + b == b;
    } else {
      assert (a + b)[1..] == a[1..] + b;
      SelectAppend(a[1..], b, sel);
    }
  }

  lemma {:induction false} SelectAll(ts: seq<Track>, sel: Selector)
    requires forall t :: t in ts ==> Selects(sel, t)
    ensures Select(ts, sel) == ts
  {
    if ts != [] {
      SelectAll(ts[1..], sel);
    }
  }

  lemma {:induction false} SelectNone(ts: seq<Track>, sel: Selector)
    requires forall t :: t in ts ==> !Selects(sel, t)
    ensures Select(ts, sel) == []
  {
    if ts != [] {
      SelectNone(ts[1..], sel);
    }
  }

  /** Selecting by one key and then by another is selecting by both. */
  lemma {:induction false} SelectSelect(ts: seq<Track>, a: Selector, b: Selector, c: Selector)
    requires forall t :: Selects(c, t) == (Selects(a, t) && Selects(b, t))
    ensures Select(Select(ts, a), b) == Select(ts, c)
  {
    if ts != [] {
      var head := if Selects(a, ts[0]) then [ts[0]] else [];
      SelectAppend(head, Select(ts[1..], a), b);
      SelectSelect(ts[1..], a, b, c);
      assert Select(head, b) == (if Selects(c, ts[0]) then [ts[0]] else []) by {
        if head != [] {
          assert head[1..] == [];
        }
      }
    }
  }

  // ---------------------------------------------------------------------------
  // Stable sort by track number
  // ---------------------------------------------------------------------------

  ghost predicate SortedByNumber(ts: seq<Track>) {
    forall i, j :: 0 <= i < j < |ts| ==> ts[i].trackNumber <= ts[j].trackNumber
  }

  /** Puts `t` in front of the first track whose number is not smaller than its own. */
  function InsertByNumber(t: Track, ts: seq<Track>): seq<Track> {
    if ts == [] || t.trackNumber <= ts[0].trackNumber then [t] + ts
    else [ts[0]] + InsertByNumber(t, ts[1..])
  }

  /**
   * `sortedBy { it.trackNumber }`. A stable sort by a key has exactly one
   * possible result, so insertion sort gives the same list as the library sort.
   */
  function SortByTrackNumber(ts: seq<Track>): seq<Track> {
    if ts == [] then [] else InsertByNumber(ts[0], SortByTrackNumber(ts[1..]))
  }

  lemma SelectCons(x: Track, rest: seq<Track>, sel: Selector)
    ensures Select([x] + rest, sel) == (if Selects(sel, x) then [x] else []) + Select(rest, sel)
  {
    assert ([x] + rest)[1..] == rest;
  }

  lemma SortedTail(ts: seq<Track>)
    requires SortedByNumber(ts) && ts != []
    ensures SortedByNumber(ts[1..])
    ensures forall x :: x in ts[1..] ==> ts[0].trackNumber <= x.trackNumber
  {
    forall i, j | 0 <= i < j < |ts[1..]|
      ensures ts[1..][i].trackNumber <= ts[1..][j].trackNumber
    {
      assert ts[1..][i] == ts[i + 1] && ts[1..][j] == ts[j + 1];
    }
    forall x | x in ts[1..] ensures ts[0].trackNumber <= x.trackNumber {
      var k :| 0 <= k < |ts[1..]| && ts[1..][k] == x;
      assert ts[k + 1] == x;
    }
  }

  lemma {:induction false} InsertByNumberElements(t: Track, ts: seq<Track>)
    ensures multiset(InsertByNumber(t, ts)) == multiset(ts) + multiset{t}
  {
    if !(ts == [] || t.trackNumber <= ts[0].trackNumber) {
      InsertByNumberElements(t, ts[1..]);
      assert ts == [ts[0]] + ts[1..];
    }
  }

  lemma {:induction false} InsertByNumberSorted(t: Track, ts: seq<Track>)
    requires SortedByNumber(ts)
    ensures SortedByNumber(InsertByNumber(t, ts))
  {
    if ts != [] && ts[0].trackNumber < t.trackNumber {
      SortedTail(ts);
      InsertByNumberSorted(t, ts[1..]);
      var rest := InsertByNumber(t, ts[1..]);
      InsertByNumberElements(t, ts[1..]);
      var r := [ts[0]] + rest;
      forall i, j | 0 <= i < j < |r| ensures r[i].trackNumber <= r[j].trackNumber {
        assert r[j] == rest[j - 1];
        if i > 0 {
          assert r[i] == rest[i - 1];
        } else {
          assert r[j] in multiset(rest);
        }
      }
    }
  }

  /** Tracks with equal numbers stay in the order they had before the insertion. */
  lemma {:induction false} InsertByNumberStable(t: Track, ts: seq<Track>, n: int)
    ensures Select(InsertByNumber(t, ts), Numbered(n)) == Select([t] + ts, Numbered(n))
  {
    if ts != [] && ts[0].trackNumber < t.trackNumber {
      var sel := Numbered(n);
      var head, rest := ts[0], ts[1..];
      var h := if Selects(sel, head) then [head] else [];
      var k := if Selects(sel, t) then [t] else [];
      assert Select(InsertByNumber(t, ts), sel) == h + (k + Select(rest, sel)) by {
        assert InsertByNumber(t, ts) == [head] + InsertByNumber(t, rest);
        SelectCons(head, InsertByNumber(t, rest), sel);
        InsertByNumberStable(t, rest, n);
        SelectCons(t, rest, sel);
      }
      assert Select([t] + ts, sel) == k + (h + Select(rest, sel)) by {
        SelectCons(t, ts, sel);
        assert ts == [head] + rest;
        SelectCons(head, rest, sel);
      }
      assert h == [] || k == [];
    }
  }

  /** `sortedBy { it.trackNumber }` is a stable sort: sorted, a permutation, equal numbers kept in input order. */
  lemma {:induction false} SortByTrackNumberIsStableSort(ts: seq<Track>)
    ensures SortedByNumber(SortByTrackNumber(ts))
    ensures multiset(SortByTrackNumber(ts)) == multiset(ts)
    ensures forall n :: Select(SortByTrackNumber(ts), Numbered(n)) == Select(ts, Numbered(n))
  {
    if ts != [] {
      SortByTrackNumberIsStableSort(ts[1..]);
      var rest := SortByTrackNumber(ts[1..]);
      InsertByNumberSorted(ts[0], rest);
      InsertByNumberElements(ts[0], rest);
      assert ts == [ts[0]] + ts[1..];
      forall n ensures Select(SortByTrackNumber(ts), Numbered(n)) == Select(ts, Numbered(n)) {
        InsertByNumberStable(ts[0], rest, n);
        SelectCons(ts[0], rest, Numbered(n));
        SelectCons(ts[0], ts[1..], Numbered(n));
      }
    }
  }

  // ---------------------------------------------------------------------------
  // Grouping by disc into a map sorted by disc
  // ---------------------------------------------------------------------------

  /**
   * The groups form a sorted map: discs strictly ascending, and every group is
   * non-empty and holds only tracks of its own disc.
   */
  ghost predicate ValidGroups(gs: seq<DiscGroup>) {
    && (forall i, j :: 0 <= i < j < |gs| ==> gs[i].disc < gs[j].disc)
    && (forall i :: 0 <= i < |gs| ==> gs[i].tracks != [])
    && (forall i, t :: 0 <= i < |gs| && t in gs[i].tracks ==> t.disc == gs[i].disc)
  }

  ghost function Discs(gs: seq<DiscGroup>): set<int> {
    set i | 0 <= i < |gs| :: gs[i].disc
  }

  /** The value the map holds for disc `d`, or the empty list when `d` is not a key. */
  function GroupOf(gs: seq<DiscGroup>, d: int): seq<Track> {
    if gs == [] then [] else if gs[0].disc == d then gs[0].tracks else GroupOf(gs[1..], d)
  }

  /** Appends `t` to the list of its disc, creating that key in sorted position when new. */
  function AddToGroups(gs: seq<DiscGroup>, t: Track): seq<DiscGroup> {
    if gs == [] then [DiscGroup(t.disc, [t])]
    else if t.disc == gs[0].disc then [gs[0].(tracks := gs[0].tracks + [t])] + gs[1..]
    else if t.disc < gs[0].disc then [DiscGroup(t.disc, [t])] + gs
    else [gs[0]] + AddToGroups(gs[1..], t)
  }

  /**
   * `groupBy { it.disc }.toSortedMap()`: `groupBy` appends each track to the
   * list of its key in input order, and `toSortedMap` orders the keys; building
   * the sorted map directly gives the same keys and the same lists.
   */
  function GroupByDisc(ts: seq<Track>): seq<DiscGroup> {
    if ts == [] then [] else AddToGroups(GroupByDisc(ts[..|ts| - 1]), ts[|ts| - 1])
  }

  /** `values.flatten()`: the groups' lists concatenated in key order. */
  function Flatten(gs: seq<DiscGroup>): seq<Track> {
    if gs == [] then [] else gs[0].tracks + Flatten(gs[1..])
  }

  lemma ValidGroupsTail(gs: seq<DiscGroup>)
    requires ValidGroups(gs) && gs != []
    ensures ValidGroups(gs[1..])
  {
    forall i, j | 0 <= i < j < |gs[1..]| ensures gs[1..][i].disc < gs[1..][j].disc {
      assert gs[1..][i] == gs[i + 1] && gs[1..][j] == gs[j + 1];
    }
    forall i | 0 <= i < |gs[1..]| ensures gs[1..][i] == gs[i + 1] { }
  }

  lemma {:induction false} DiscsTail(gs: seq<DiscGroup>)
    requires gs != []
    ensures Discs(gs) == {gs[0].disc} + Discs(gs[1..])
  {
    forall d | d in Discs(gs) ensures d in {gs[0].disc} + Discs(gs[1..]) {
      var i :| 0 <= i < |gs| && gs[i].disc == d;
      if i > 0 {
        assert gs[1..][i - 1] == gs[i];
      }
    }
    forall d | d in Discs(gs[1..]) ensures d in Discs(gs) {
      var i :| 0 <= i < |gs[1..]| && gs[1..][i].disc == d;
      assert gs[i + 1].disc == d;
    }
  }

  lemma {:induction false} AddToGroupsDiscs(gs: seq<DiscGroup>, t: Track)
    ensures Discs(AddToGroups(gs, t)) == Discs(gs) + {t.disc}
  {
    var r := AddToGroups(gs, t);
    DiscsTail(r);
    if gs == [] {
      assert Discs(r[1..]) == {};
    } else if t.disc == gs[0].disc {
      assert r[1..] == gs[1..];
      DiscsTail(gs);
    } else if t.disc < gs[0].disc {
      assert r[1..] == gs;
    } else {
      assert r[1..] == AddToGroups(gs[1..], t);
      AddToGroupsDiscs(gs[1..], t);
      DiscsTail(gs);
    }
  }

  /** A valid map with a valid first entry in front whose key is below every other key is valid. */
  lemma ValidGroupsCons(g: DiscGroup, rest: seq<DiscGroup>)
    requires ValidGroups(rest)
    requires g.tracks != [] && forall x :: x in g.tracks ==> x.disc == g.disc
    requires forall i :: 0 <= i < |rest| ==> g.disc < rest[i].disc
    ensures ValidGroups([g] + rest)
  {
    var r := [g] + rest;
    forall i | 0 < i < |r| ensures r[i] == rest[i - 1] { }
  }

  lemma {:induction false} AddToGroupsValid(gs: seq<DiscGroup>, t: Track)
    requires ValidGroups(gs)
    ensures ValidGroups(AddToGroups(gs, t))
  {
    if gs == [] {
    } else {
      ValidGroupsTail(gs);
      assert gs == [gs[0]] + gs[1..];
      if t.disc == gs[0].disc {
        var g := gs[0].(tracks := gs[0].tracks + [t]);
        assert forall x :: x in g.tracks ==> x == t || x in gs[0].tracks;
        forall i | 0 <= i < |gs[1..]| ensures g.disc < gs[1..][i].disc {
          assert gs[1..][i] == gs[i + 1];
        }
        ValidGroupsCons(g, gs[1..]);
      } else if t.disc < gs[0].disc {
        ValidGroupsCons(DiscGroup(t.disc, [t]), gs);
      } else {
        AddToGroupsValid(gs[1..], t);
        var rest := AddToGroups(gs[1..], t);
        AddToGroupsDiscs(gs[1..], t);
        forall i | 0 <= i < |rest| ensures gs[0].disc < rest[i].disc {
          assert rest[i].disc in Discs(rest);
          if rest[i].disc != t.disc {
            var k :| 0 <= k < |gs[1..]| && gs[1..][k].disc == rest[i].disc;
            assert gs[k + 1].disc == rest[i].disc;
          }
        }
        ValidGroupsCons(gs[0], rest);
      }
    }
  }

  lemma {:induction false} AddToGroupsAppends(gs: seq<DiscGroup>, t: Track, d: int)
    requires ValidGroups(gs)
    ensures GroupOf(AddToGroups(gs, t), d) == GroupOf(gs, d) + Select([t], OnDisc(d))
  {
    assert [t][1..] == [];
    if gs == [] {
    } else if t.disc == gs[0].disc {
    } else if t.disc < gs[0].disc {
      if d == t.disc {
        GroupOfMissing(gs, d);
      }
    } else {
      ValidGroupsTail(gs);
      AddToGroupsAppends(gs[1..], t, d);
    }
  }

  lemma {:induction false} AddToGroupsElements(gs: seq<DiscGroup>, t: Track)
    ensures multiset(Flatten(AddToGroups(gs, t))) == multiset(Flatten(gs)) + multiset{t}
  {
    var r := AddToGroups(gs, t);
    if gs == [] {
      assert Flatten(r) == [t] + Flatten([]);
    } else if t.disc == gs[0].disc {
      assert r[1..] == gs[1..];
      assert Flatten(r) == (gs[0].tracks + [t]) + Flatten(gs[1..]);
    } else if t.disc < gs[0].disc {
      assert r[1..] == gs;
      assert Flatten(r) == [t] + Flatten(gs);
    } else {
      AddToGroupsElements(gs[1..], t);
      assert r[1..] == AddToGroups(gs[1..], t);
      assert Flatten(r) == gs[0].tracks + Flatten(AddToGroups(gs[1..], t));
    }
  }

  lemma {:induction false} GroupOfMissing(gs: seq<DiscGroup>, d: int)
    requires ValidGroups(gs)
    requires gs == [] || d < gs[0].disc
    ensures GroupOf(gs, d) == []
  {
    if gs != [] {
      ValidGroupsTail(gs);
      if |gs| > 1 {
        assert gs[1..][0] == gs[1];
      }
      GroupOfMissing(gs[1..], d);
    }
  }

  lemma {:induction false} GroupByDiscLast(ts: seq<Track>)
    requires ts != []
    ensures GroupByDisc(ts) == AddToGroups(GroupByDisc(ts[..|ts| - 1]), ts[|ts| - 1])
    ensures ts == ts[..|ts| - 1] + [ts[|ts| - 1]]
  {
    assert ts == ts[..|ts| - 1] + [ts[|ts| - 1]];
  }

  lemma {:induction false} GroupByDiscValid(ts: seq<Track>)
    ensures ValidGroups(GroupByDisc(ts))
  {
    if ts != [] {
      GroupByDiscLast(ts);
      GroupByDiscValid(ts[..|ts| - 1]);
      AddToGroupsValid(GroupByDisc(ts[..|ts| - 1]), ts[|ts| - 1]);
    }
  }

  lemma {:induction false} GroupByDiscKeys(ts: seq<Track>)
    ensures Discs(GroupByDisc(ts)) == set t | t in ts :: t.disc
  {
    if ts != [] {
      var init, last := ts[..|ts| - 1], ts[|ts| - 1];
      GroupByDiscLast(ts);
      GroupByDiscKeys(init);
      AddToGroupsDiscs(GroupByDisc(init), last);
      assert (set t | t in ts :: t.disc) == (set t | t in init :: t.disc) + {last.disc} by {
        forall x | x in ts ensures x in init || x == last { }
      }
    }
  }

  lemma {:induction false} GroupByDiscLists(ts: seq<Track>, d: int)
    ensures GroupOf(GroupByDisc(ts), d) == Select(ts, OnDisc(d))
  {
    if ts != [] {
      var init, last := ts[..|ts| - 1], ts[|ts| - 1];
      GroupByDiscLast(ts);
      GroupByDiscLists(init, d);
      GroupByDiscValid(init);
      AddToGroupsAppends(GroupByDisc(init), last, d);
      SelectAppend(init, [last], OnDisc(d));
    }
  }

  lemma {:induction false} GroupByDiscElements(ts: seq<Track>)
    ensures multiset(Flatten(GroupByDisc(ts))) == multiset(ts)
  {
    if ts != [] {
      var init, last := ts[..|ts| - 1], ts[|ts| - 1];
      GroupByDiscLast(ts);
      GroupByDiscElements(init);
      AddToGroupsElements(GroupByDisc(init), last);
      assert multiset(ts) == multiset(init) + multiset{last};
    }
  }

  /**
   * `groupBy { it.disc }.toSortedMap()` builds a sorted map whose keys are
   * exactly the discs of the input and whose list for each disc holds exactly
   * the tracks of that disc in their input order.
   */
  lemma GroupByDiscIsSortedGrouping(ts: seq<Track>)
    ensures ValidGroups(GroupByDisc(ts))
    ensures Discs(GroupByDisc(ts)) == set t | t in ts :: t.disc
    ensures forall d :: GroupOf(GroupByDisc(ts), d) == Select(ts, OnDisc(d))
    ensures multiset(Flatten(GroupByDisc(ts))) == multiset(ts)
  {
    GroupByDiscValid(ts);
    GroupByDiscKeys(ts);
    GroupByDiscElements(ts);
    forall d ensures GroupOf(GroupByDisc(ts), d) == Select(ts, OnDisc(d)) {
      GroupByDiscLists(ts, d);
    }
  }

  /** Reading the groups in key order: each disc's tracks are exactly that disc's group. */
  lemma {:induction false} FlattenSelectsGroup(gs: seq<DiscGroup>, d: int)
    requires ValidGroups(gs)
    ensures Select(Flatten(gs), OnDisc(d)) == GroupOf(gs, d)
  {
    if gs != [] {
      ValidGroupsTail(gs);
      FlattenSelectsGroup(gs[1..], d);
      SelectAppend(gs[0].tracks, Flatten(gs[1..]), OnDisc(d));
      if gs[0].disc == d {
        SelectAll(gs[0].tracks, OnDisc(d));
        FlattenAfter(gs[1..], d);
        SelectNone(Flatten(gs[1..]), OnDisc(d));
      } else {
        SelectNone(gs[0].tracks, OnDisc(d));
      }
    }
  }

  /** Every track after the first group belongs to a larger disc. */
  lemma {:induction false} FlattenAfter(rest: seq<DiscGroup>, d: int)
    requires ValidGroups(rest)
    requires forall i :: 0 <= i < |rest| ==> d < rest[i].disc
    ensures forall t :: t in Flatten(rest) ==> d < t.disc
  {
    if rest != [] {
      ValidGroupsTail(rest);
      forall i | 0 <= i < |rest[1..]| ensures d < rest[1..][i].disc {
        assert rest[1..][i] == rest[i + 1];
      }
      FlattenAfter(rest[1..], d);
    }
  }

  lemma GroupOfAt(gs: seq<DiscGroup>, i: nat)
    requires ValidGroups(gs) && i < |gs|
    ensures GroupOf(gs, gs[i].disc) == gs[i].tracks
  {
    if i > 0 {
      ValidGroupsTail(gs);
      assert gs[1..][i - 1] == gs[i];
      GroupOfAt(gs[1..], i - 1);
    }
  }

  /** Ordered by disc first and by track number within a disc. */
  ghost predicate SortedByDiscThenNumber(ts: seq<Track>) {
    forall i, j :: 0 <= i < j < |ts| ==>
      ts[i].disc < ts[j].disc || (ts[i].disc == ts[j].disc && ts[i].trackNumber <= ts[j].trackNumber)
  }

  lemma {:induction false} FlattenSorted(gs: seq<DiscGroup>)
    requires ValidGroups(gs)
    requires forall i :: 0 <= i < |gs| ==> SortedByNumber(gs[i].tracks)
    ensures SortedByDiscThenNumber(Flatten(gs))
  {
    if gs != [] {
      ValidGroupsTail(gs);
      forall i | 0 <= i < |gs[1..]| ensures SortedByNumber(gs[1..][i].tracks) {
        assert gs[1..][i] == gs[i + 1];
      }
      FlattenSorted(gs[1..]);
      forall i | 0 <= i < |gs[1..]| ensures gs[0].disc < gs[1..][i].disc {
        assert gs[1..][i] == gs[i + 1];
      }
      FlattenAfter(gs[1..], gs[0].disc);
      var a, b := gs[0].tracks, Flatten(gs[1..]);
      var f := a + b;
      forall i, j | 0 <= i < j < |f|
        ensures f[i].disc < f[j].disc || (f[i].disc == f[j].disc && f[i].trackNumber <= f[j].trackNumber)
      {
        if j < |a| {
          assert f[i] == a[i] && f[j] == a[j];
        } else if i < |a| {
          assert f[i] == a[i] && f[i] in a;
          assert f[j] == b[j - |a|] && f[j] in b;
        } else {
          assert f[i] == b[i - |a|] && f[j] == b[j - |a|];
        }
      }
    }
  }

  lemma {:induction false} SelectKeepsSorted(ts: seq<Track>, sel: Selector)
    requires SortedByNumber(ts)
    ensures SortedByNumber(Select(ts, sel))
  {
    if ts != [] {
      SortedTail(ts);
      SelectKeepsSorted(ts[1..], sel);
      var rest := Select(ts[1..], sel);
      if Selects(sel, ts[0]) {
        var r := [ts[0]] + rest;
        forall i, j | 0 <= i < j < |r| ensures r[i].trackNumber <= r[j].trackNumber {
          assert r[j] == rest[j - 1];
          assert r[j] in ts[1..];
          if i > 0 {
            assert r[i] == rest[i - 1];
          }
        }
      }
    }
  }

  // ---------------------------------------------------------------------------
  // The aggregate built on a successful load
  // ---------------------------------------------------------------------------

  /** `tracks.sortedBy { it.trackNumber }.groupBy { it.disc }.toSortedMap()`. */
  function GroupedTracks(tracks: seq<Track>): seq<DiscGroup> {
    GroupByDisc(SortByTrackNumber(tracks))
  }

  /**
   * The grouped view is a map sorted by disc whose keys are exactly the input's
   * discs, each group sorted by track number; its flattening is the input
   * stably sorted by (disc, track number): a permutation of the input, ordered,
   * and tracks with the same disc and number keep their input order.
   */
  lemma AggregateIsStableSortByDiscThenNumber(tracks: seq<Track>)
    ensures ValidGroups(GroupedTracks(tracks))
    ensures Discs(GroupedTracks(tracks)) == set t | t in tracks :: t.disc
    ensures forall i :: 0 <= i < |GroupedTracks(tracks)| ==> SortedByNumber(GroupedTracks(tracks)[i].tracks)
    ensures multiset(Flatten(GroupedTracks(tracks))) == multiset(tracks)
    ensures SortedByDiscThenNumber(Flatten(GroupedTracks(tracks)))
    ensures forall d, n :: Select(Flatten(GroupedTracks(tracks)), OnDiscNumbered(d, n)) == Select(tracks, OnDiscNumbered(d, n))
  {
    var sorted := SortByTrackNumber(tracks);
    var gs := GroupByDisc(sorted);
    SortByTrackNumberIsStableSort(tracks);
    GroupByDiscIsSortedGrouping(sorted);
    assert (set t | t in sorted :: t.disc) == (set t | t in tracks :: t.disc) by {
      forall t ensures t in sorted <==> t in tracks {
        assert t in sorted <==> t in multiset(sorted);
      }
    }
    forall i | 0 <= i < |gs| ensures SortedByNumber(gs[i].tracks) {
      GroupOfAt(gs, i);
      SelectKeepsSorted(sorted, OnDisc(gs[i].disc));
    }
    FlattenSorted(gs);
    forall d, n ensures Select(Flatten(gs), OnDiscNumbered(d, n)) == Select(tracks, OnDiscNumbered(d, n)) {
      var both := OnDiscNumbered(d, n);
      SelectSelect(Flatten(gs), OnDisc(d), Numbered(n), both);
      FlattenSelectsGroup(gs, d);
      SelectSelect(sorted, OnDisc(d), Numbered(n), both);
      SelectSelect(sorted, Numbered(n), OnDisc(d), both);
      SelectSelect(tracks, Numbered(n), OnDisc(d), both);
    }
  }
}
