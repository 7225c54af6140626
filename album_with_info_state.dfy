/**
 * The album-detail screen state and its transitions, one per response or
 * event, as pure functions; the view model applies them step by step.
 */
module AlbumWithInfoModel {
  import opened ResourceState
  import opened AlbumAggregate

  /** The album header (the fields the screen rewrites). */
  datatype AlbumInfo = AlbumInfo(albumHash: string, title: string, isFavorite: bool)

  /** What the repository returns for one album. */
  datatype AlbumWithInfo = AlbumWithInfo(albumInfo: AlbumInfo, tracks: seq<Track>, copyright: Option<string>)

  /** The data of the screen's resource: the header, the disc map and the copyright line. */
  datatype AlbumInfoWithGroupedTracks = AlbumInfoWithGroupedTracks(
    albumInfo: Option<AlbumInfo>,
    groupedTracks: seq<DiscGroup>,
    copyright: Option<string>)

  /** The screen state record. */
  datatype AlbumWithInfoState = AlbumWithInfoState(
    albumHash: Option<string>,
    reloadRequired: bool,
    orderedTracks: seq<Track>,
    infoResource: Resource<AlbumInfoWithGroupedTracks>)

  /** The events the view model receives; `OtherEvent` stands for those it ignores. */
  datatype AlbumWithInfoUiEvent =
    | ResetState
    | OnUpdateAlbumHash(albumHash: string)
    | OnLoadAlbumWithInfo(albumHash: string)
    | OnRefreshAlbumInfo
    | OnToggleAlbumFavorite(albumHash: string, isFavorite: bool)
    | OnToggleAlbumTrackFavorite(trackHash: string, favorite: bool)
    | OtherEvent

  /** The repository call an event starts; its emissions come back as responses. */
  datatype RemoteCall =
    | GetAlbumWithInfo(albumHash: string)
    | AddAlbumToFavorite(albumHash: string)
    | RemoveAlbumFromFavorite(albumHash: string)
    | AddTrackToFavorite(trackHash: string)
    | RemoveTrackFromFavorite(trackHash: string)

  type FavoriteResponse = Resource<bool>

  function DefaultState(): AlbumWithInfoState {
    AlbumWithInfoState(None, false, [], Loading)
  }

  /** The disc map held by the resource, or none when it holds no data. */
  function InfoOf(s: AlbumWithInfoState): Option<AlbumInfoWithGroupedTracks> {
    s.infoResource.Data()
  }

  /** The flat list and the disc map never disagree while the resource holds data. */
  ghost predicate ViewsAgree(s: AlbumWithInfoState) {
    InfoOf(s).Some? ==> Flatten(InfoOf(s).value.groupedTracks) == s.orderedTracks
  }

  // ---------------------------------------------------------------------------
  // Album responses
  // ---------------------------------------------------------------------------

  /** `updateAlbumInfoState`: a success rebuilds both views, anything else only replaces the resource. */
  function ApplyAlbumResponse(s: AlbumWithInfoState, resource: Resource<AlbumWithInfo>): AlbumWithInfoState {
    match resource
    case Success(data) =>
      var grouped := if data.Some? then GroupedTracks(data.value.tracks) else [];
      s.(reloadRequired := false,
         orderedTracks := Flatten(grouped),
         infoResource := Success(Some(AlbumInfoWithGroupedTracks(
           if data.Some? then Some(data.value.albumInfo) else None,
           grouped,
           Some(if data.Some? then data.value.copyright.GetOr("") else "")))))
    case Loading => s.(infoResource := Loading)
    case Error(message) => s.(infoResource := Error(message))
  }

  /** The state after the repository flow emitted `responses`, in order. */
  function AfterAlbumResponses(s: AlbumWithInfoState, responses: seq<Resource<AlbumWithInfo>>): AlbumWithInfoState {
    if responses == [] then s
    else ApplyAlbumResponse(AfterAlbumResponses(s, responses[..|responses| - 1]), responses[|responses| - 1])
  }

  /**
   * A success with data: the album hash is kept, a reload is no longer
   * required, the copyright defaults to "", and the two views are the input
   * tracks stably sorted by (disc, track number), the map keyed by exactly the
   * input's discs, each disc's list sorted by track number.
   */
  lemma SuccessRebuildsViews(s: AlbumWithInfoState, data: AlbumWithInfo)
    ensures var s' := ApplyAlbumResponse(s, Success(Some(data)));
      && s'.albumHash == s.albumHash && !s'.reloadRequired
      && InfoOf(s').Some?
      && InfoOf(s').value.albumInfo == Some(data.albumInfo)
      && InfoOf(s').value.copyright == Some(data.copyright.GetOr(""))
      && ViewsAgree(s')
      && ValidGroups(InfoOf(s').value.groupedTracks)
      && Discs(InfoOf(s').value.groupedTracks) == (set t | t in data.tracks :: t.disc)
      && (forall i :: 0 <= i < |InfoOf(s').value.groupedTracks| ==>
            SortedByNumber(InfoOf(s').value.groupedTracks[i].tracks))
      && multiset(s'.orderedTracks) == multiset(data.tracks)
      && SortedByDiscThenNumber(s'.orderedTracks)
      && (forall d, n :: Select(s'.orderedTracks, OnDiscNumbered(d, n)) == Select(data.tracks, OnDiscNumbered(d, n)))
  {
    AggregateIsStableSortByDiscThenNumber(data.tracks);
  }

  /** A success without data empties both views and the header. */
  lemma SuccessWithoutDataEmptiesViews(s: AlbumWithInfoState)
    ensures var s' := ApplyAlbumResponse(s, Success(None));
      && s'.albumHash == s.albumHash && !s'.reloadRequired
      && s'.orderedTracks == []
      && s'.infoResource == Success(Some(AlbumInfoWithGroupedTracks(None, [], Some(""))))
  {
  }

  /** Loading and Error replace only the resource; the error carries the response's message. */
  lemma LoadingOrErrorReplacesOnlyResource(s: AlbumWithInfoState, resource: Resource<AlbumWithInfo>)
    requires !resource.Success?
    ensures var s' := ApplyAlbumResponse(s, resource);
      && s'.albumHash == s.albumHash
      && s'.reloadRequired == s.reloadRequired
      && s'.orderedTracks == s.orderedTracks
      && (resource.Loading? ==> s'.infoResource == Loading)
      && (resource.Error? ==> s'.infoResource == Error(resource.message))
  {
  }

  lemma {:induction false} AlbumResponsesKeepHash(s: AlbumWithInfoState, responses: seq<Resource<AlbumWithInfo>>)
    ensures AfterAlbumResponses(s, responses).albumHash == s.albumHash
  {
    if responses != [] {
      AlbumResponsesKeepHash(s, responses[..|responses| - 1]);
    }
  }

  /** When the flow's last emission is a success, that emission alone decides the state. */
  lemma LastSuccessDecides(s: AlbumWithInfoState, responses: seq<Resource<AlbumWithInfo>>)
    requires responses != [] && responses[|responses| - 1].Success?
    ensures AfterAlbumResponses(s, responses) == ApplyAlbumResponse(s, responses[|responses| - 1])
  {
    AlbumResponsesKeepHash(s, responses[..|responses| - 1]);
  }

  /** Every sequence of album responses keeps the two views in agreement. */
  lemma {:induction false} AlbumResponsesKeepViewsAgree(s: AlbumWithInfoState, responses: seq<Resource<AlbumWithInfo>>)
    requires ViewsAgree(s)
    ensures ViewsAgree(AfterAlbumResponses(s, responses))
  {
    if responses != [] {
      var before := AfterAlbumResponses(s, responses[..|responses| - 1]);
      AlbumResponsesKeepViewsAgree(s, responses[..|responses| - 1]);
      match responses[|responses| - 1]
      case Success(data) =>
        if data.Some? {
          SuccessRebuildsViews(before, data.value);
        }
      case Loading =>
      case Error(_) =>
    }
  }

  // ---------------------------------------------------------------------------
  // The favourite response, shared by both toggles
  // ---------------------------------------------------------------------------

  /**
   * The flag a toggle of `isFavorite` leaves after `responses`: the optimistic
   * `!isFavorite` until a terminal response arrives, then the server's value
   * (false when absent) after a success and `isFavorite` after an error.
   */
  function SettledFavorite(isFavorite: bool, responses: seq<FavoriteResponse>): bool {
    if responses == [] then !isFavorite
    else match responses[|responses| - 1]
      case Loading => SettledFavorite(isFavorite, responses[..|responses| - 1])
      case Success(value) => value.GetOr(false)
      case Error(_) => isFavorite
  }

  /** Only the last terminal response counts; with none, the optimistic value stays. */
  lemma {:induction false} SettledFavoriteIsLastTerminal(isFavorite: bool, responses: seq<FavoriteResponse>, k: int)
    requires k == -1 || (0 <= k < |responses| && responses[k].IsTerminal())
    requires forall i :: k < i < |responses| ==> responses[i].Loading?
    ensures k == -1 ==> SettledFavorite(isFavorite, responses) == !isFavorite
    ensures k != -1 && responses[k].Success? ==> SettledFavorite(isFavorite, responses) == responses[k].data.GetOr(false)
    ensures k != -1 && responses[k].Error? ==> SettledFavorite(isFavorite, responses) == isFavorite
  {
    if responses != [] && k < |responses| - 1 {
      var init := responses[..|responses| - 1];
      forall i | k < i < |init| ensures init[i].Loading? {
        assert init[i] == responses[i];
      }
      if k != -1 {
        assert init[k] == responses[k];
      }
      SettledFavoriteIsLastTerminal(isFavorite, init, k);
    }
  }

  // ---------------------------------------------------------------------------
  // Album favourite toggle
  // ---------------------------------------------------------------------------

  /** The remote call for the album toggle follows the flag before the toggle. */
  function AlbumFavoriteCall(albumHash: string, isFavorite: bool): (call: RemoteCall)
    ensures call.RemoveAlbumFromFavorite? <==> isFavorite
    ensures call.AddAlbumToFavorite? <==> !isFavorite
    ensures call == RemoveAlbumFromFavorite(albumHash) || call == AddAlbumToFavorite(albumHash)
  {
    if isFavorite then RemoveAlbumFromFavorite(albumHash) else AddAlbumToFavorite(albumHash)
  }

  /** One write of the album's flag: the header gets `value`, the rest of the data is carried over. */
  function WithAlbumFavorite(s: AlbumWithInfoState, value: bool): AlbumWithInfoState {
    var data := InfoOf(s);
    s.(infoResource := Success(Some(AlbumInfoWithGroupedTracks(
      if data.Some? && data.value.albumInfo.Some? then Some(data.value.albumInfo.value.(isFavorite := value)) else None,
      if data.Some? then data.value.groupedTracks else [],
      if data.Some? then data.value.copyright else None))))
  }

  function ReconcileAlbumFavorite(s: AlbumWithInfoState, isFavorite: bool, response: FavoriteResponse): AlbumWithInfoState {
    match response
    case Loading => s
    case Success(value) => WithAlbumFavorite(s, value.GetOr(false))
    case Error(_) => WithAlbumFavorite(s, isFavorite)
  }

  function ReconcileAlbumFavorites(s: AlbumWithInfoState, isFavorite: bool, responses: seq<FavoriteResponse>): AlbumWithInfoState {
    if responses == [] then s
    else ReconcileAlbumFavorite(ReconcileAlbumFavorites(s, isFavorite, responses[..|responses| - 1]), isFavorite, responses[|responses| - 1])
  }

  /** `toggleAlbumFavorite`: the optimistic write, then one reconciliation per emission. */
  function AfterAlbumToggle(s: AlbumWithInfoState, isFavorite: bool, responses: seq<FavoriteResponse>): AlbumWithInfoState {
    ReconcileAlbumFavorites(WithAlbumFavorite(s, !isFavorite), isFavorite, responses)
  }

  /**
   * The optimistic album write flips the header's flag to `!isFavorite` and
   * keeps the flat list, the disc map and the copyright; a resource without
   * data becomes a success with no header and an empty map.
   */
  lemma AlbumToggleOptimisticStep(s: AlbumWithInfoState, isFavorite: bool)
    ensures var s' := WithAlbumFavorite(s, !isFavorite);
      && s'.albumHash == s.albumHash && s'.reloadRequired == s.reloadRequired
      && s'.orderedTracks == s.orderedTracks
      && InfoOf(s').Some?
      && (InfoOf(s).Some? ==>
            && InfoOf(s').value.groupedTracks == InfoOf(s).value.groupedTracks
            && InfoOf(s').value.copyright == InfoOf(s).value.copyright
            && InfoOf(s').value.albumInfo.Some? == InfoOf(s).value.albumInfo.Some?)
      && (InfoOf(s').value.albumInfo.Some? ==> InfoOf(s').value.albumInfo.value.isFavorite == !isFavorite)
      && (InfoOf(s).Some? && InfoOf(s).value.albumInfo.Some? ==>
            InfoOf(s').value.albumInfo == Some(InfoOf(s).value.albumInfo.value.(isFavorite := !isFavorite)))
      && (InfoOf(s).None? ==> InfoOf(s').value == AlbumInfoWithGroupedTracks(None, [], None))
  {
  }

  /** A later album write overrides an earlier one. */
  lemma AlbumFavoriteOverwrite(s: AlbumWithInfoState, a: bool, b: bool)
    ensures WithAlbumFavorite(WithAlbumFavorite(s, a), b) == WithAlbumFavorite(s, b)
  {
  }

  /** Writing the flag the header already has changes nothing, once the resource holds data. */
  lemma AlbumFavoriteRestores(s: AlbumWithInfoState, isFavorite: bool)
    requires InfoOf(s).Some?
    requires InfoOf(s).value.albumInfo.Some? ==> InfoOf(s).value.albumInfo.value.isFavorite == isFavorite
    ensures WithAlbumFavorite(s, isFavorite) == s
  {
    var info := InfoOf(s).value;
    if info.albumInfo.Some? {
      assert info.albumInfo.value.(isFavorite := isFavorite) == info.albumInfo.value;
    }
    assert s.infoResource == Success(Some(info));
  }

  /** The whole album toggle amounts to one write of the settled flag. */
  lemma {:induction false} AlbumToggleSettles(s: AlbumWithInfoState, isFavorite: bool, responses: seq<FavoriteResponse>)
    ensures AfterAlbumToggle(s, isFavorite, responses) == WithAlbumFavorite(s, SettledFavorite(isFavorite, responses))
  {
    if responses != [] {
      var init := responses[..|responses| - 1];
      AlbumToggleSettles(s, isFavorite, init);
      match responses[|responses| - 1]
      case Loading =>
      case Success(value) =>
        AlbumFavoriteOverwrite(s, SettledFavorite(isFavorite, init), value.GetOr(false));
      case Error(_) =>
        AlbumFavoriteOverwrite(s, SettledFavorite(isFavorite, init), isFavorite);
    }
  }

  /**
   * A success gives a present header the server's flag (false when absent) and
   * keeps the rest of the header, the disc map, the copyright and the flat list.
   */
  lemma AlbumToggleSuccessTakesServerValue(s: AlbumWithInfoState, isFavorite: bool, value: Option<bool>)
    requires InfoOf(s).Some?
    ensures var s' := AfterAlbumToggle(s, isFavorite, [Success(value)]);
      && s'.albumHash == s.albumHash && s'.reloadRequired == s.reloadRequired
      && s'.orderedTracks == s.orderedTracks
      && InfoOf(s').Some?
      && InfoOf(s').value.groupedTracks == InfoOf(s).value.groupedTracks
      && InfoOf(s').value.copyright == InfoOf(s).value.copyright
      && (InfoOf(s).value.albumInfo.None? ==> InfoOf(s').value.albumInfo.None?)
      && (InfoOf(s).value.albumInfo.Some? ==>
            InfoOf(s').value.albumInfo == Some(InfoOf(s).value.albumInfo.value.(isFavorite := value.GetOr(false))))
  {
    AlbumToggleSettles(s, isFavorite, [Success(value)]);
  }

  /** An error as the last terminal response rolls the album back to where it was. */
  lemma AlbumToggleErrorRollsBack(s: AlbumWithInfoState, isFavorite: bool, message: string)
    requires InfoOf(s).Some?
    requires InfoOf(s).value.albumInfo.Some? ==> InfoOf(s).value.albumInfo.value.isFavorite == isFavorite
    ensures AfterAlbumToggle(s, isFavorite, [Error(message)]) == s
  {
    AlbumToggleSettles(s, isFavorite, [Error(message)]);
    AlbumFavoriteRestores(s, isFavorite);
  }

  // ---------------------------------------------------------------------------
  // Track favourite toggle
  // ---------------------------------------------------------------------------

  function TrackFavoriteCall(trackHash: string, isFavorite: bool): (call: RemoteCall)
    ensures call.RemoveTrackFromFavorite? <==> isFavorite
    ensures call.AddTrackToFavorite? <==> !isFavorite
    ensures call == RemoveTrackFromFavorite(trackHash) || call == AddTrackToFavorite(trackHash)
  {
    if isFavorite then RemoveTrackFromFavorite(trackHash) else AddTrackToFavorite(trackHash)
  }

  /** Gives every track with hash `trackHash` the flag `value`. */
  function SetFavoriteWhere(ts: seq<Track>, trackHash: string, value: bool): seq<Track> {
    seq(|ts|, i requires 0 <= i < |ts| => if ts[i].trackHash == trackHash then ts[i].(isFavorite := value) else ts[i])
  }

  /** `mapValues` over the disc map: the same keys in the same order. */
  function SetFavoriteInGroups(gs: seq<DiscGroup>, trackHash: string, value: bool): seq<DiscGroup> {
    seq(|gs|, i requires 0 <= i < |gs| => gs[i].(tracks := SetFavoriteWhere(gs[i].tracks, trackHash, value)))
  }

  /** The first write of a track toggle: the flat list. */
  function WithTrackFavoriteInList(s: AlbumWithInfoState, trackHash: string, value: bool): AlbumWithInfoState {
    s.(orderedTracks := SetFavoriteWhere(s.orderedTracks, trackHash, value))
  }

  /** The second write of a track toggle: the disc map, header and copyright carried over. */
  function WithTrackFavoriteInGroups(s: AlbumWithInfoState, trackHash: string, value: bool): AlbumWithInfoState {
    var data := InfoOf(s);
    s.(infoResource := Success(Some(AlbumInfoWithGroupedTracks(
      if data.Some? then data.value.albumInfo else None,
      if data.Some? then SetFavoriteInGroups(data.value.groupedTracks, trackHash, value) else [],
      if data.Some? then data.value.copyright else None))))
  }

  /** Both writes, in the order the view model makes them. */
  function WithTrackFavorite(s: AlbumWithInfoState, trackHash: string, value: bool): AlbumWithInfoState {
    WithTrackFavoriteInGroups(WithTrackFavoriteInList(s, trackHash, value), trackHash, value)
  }

  function ReconcileTrackFavorite(s: AlbumWithInfoState, trackHash: string, isFavorite: bool, response: FavoriteResponse): AlbumWithInfoState {
    match response
    case Loading => s
    case Success(value) => WithTrackFavorite(s, trackHash, value.GetOr(false))
    case Error(_) => WithTrackFavorite(s, trackHash, isFavorite)
  }

  function ReconcileTrackFavorites(s: AlbumWithInfoState, trackHash: string, isFavorite: bool, responses: seq<FavoriteResponse>): AlbumWithInfoState {
    if responses == [] then s
    else ReconcileTrackFavorite(ReconcileTrackFavorites(s, trackHash, isFavorite, responses[..|responses| - 1]), trackHash, isFavorite, responses[|responses| - 1])
  }

  /** `toggleAlbumTrackFavorite`: the optimistic writes, then one reconciliation per emission. */
  function AfterTrackToggle(s: AlbumWithInfoState, trackHash: string, isFavorite: bool, responses: seq<FavoriteResponse>): AlbumWithInfoState {
    ReconcileTrackFavorites(WithTrackFavorite(s, trackHash, !isFavorite), trackHash, isFavorite, responses)
  }

  /** No track with the hash in the flat list or in any disc's list. */
  ghost predicate HashAbsent(s: AlbumWithInfoState, trackHash: string) {
    && (forall t :: t in s.orderedTracks ==> t.trackHash != trackHash)
    && (InfoOf(s).Some? ==>
          forall i, t :: 0 <= i < |InfoOf(s).value.groupedTracks| && t in InfoOf(s).value.groupedTracks[i].tracks ==>
            t.trackHash != trackHash)
  }

  /** Every track with the hash, in the flat list and in every disc's list, has flag `value`. */
  ghost predicate HashFlagged(s: AlbumWithInfoState, trackHash: string, value: bool) {
    && (forall t :: t in s.orderedTracks && t.trackHash == trackHash ==> t.isFavorite == value)
    && (InfoOf(s).Some? ==>
          forall i, t :: 0 <= i < |InfoOf(s).value.groupedTracks| && t in InfoOf(s).value.groupedTracks[i].tracks && t.trackHash == trackHash ==>
            t.isFavorite == value)
  }

  lemma SetFavoriteAppend(a: seq<Track>, b: seq<Track>, trackHash: string, value: bool)
    ensures SetFavoriteWhere(a + b, trackHash, value) == SetFavoriteWhere(a, trackHash, value) + SetFavoriteWhere(b, trackHash, value)
  {
  }

  /** Rewriting each disc's list and then reading the map is rewriting the flat reading. */
  lemma {:induction false} FlattenSetFavorite(gs: seq<DiscGroup>, trackHash: string, value: bool)
    ensures Flatten(SetFavoriteInGroups(gs, trackHash, value)) == SetFavoriteWhere(Flatten(gs), trackHash, value)
  {
    if gs != [] {
      var r := SetFavoriteInGroups(gs, trackHash, value);
      assert r[1..] == SetFavoriteInGroups(gs[1..], trackHash, value);
      FlattenSetFavorite(gs[1..], trackHash, value);
      SetFavoriteAppend(gs[0].tracks, Flatten(gs[1..]), trackHash, value);
    }
  }

  lemma SetFavoriteIdentity(ts: seq<Track>, trackHash: string, value: bool)
    requires forall t :: t in ts && t.trackHash == trackHash ==> t.isFavorite == value
    ensures SetFavoriteWhere(ts, trackHash, value) == ts
  {
    forall i | 0 <= i < |ts| ensures SetFavoriteWhere(ts, trackHash, value)[i] == ts[i] {
      assert ts[i] in ts;
    }
  }

  /**
   * The optimistic track writes: every track with the hash gets the flag
   * `!isFavorite` and nothing else about it changes, every other track is
   * unchanged, in the flat list and in each disc's list; the list lengths, the
   * disc keys, the header and the copyright are kept.
   */
  lemma TrackToggleOptimisticStep(s: AlbumWithInfoState, trackHash: string, isFavorite: bool)
    ensures var s' := WithTrackFavorite(s, trackHash, !isFavorite);
      && s'.albumHash == s.albumHash && s'.reloadRequired == s.reloadRequired
      && |s'.orderedTracks| == |s.orderedTracks|
      && (forall i :: 0 <= i < |s.orderedTracks| ==>
            && s'.orderedTracks[i].(isFavorite := false) == s.orderedTracks[i].(isFavorite := false)
            && (s.orderedTracks[i].trackHash == trackHash ==> s'.orderedTracks[i].isFavorite == !isFavorite)
            && (s.orderedTracks[i].trackHash != trackHash ==> s'.orderedTracks[i] == s.orderedTracks[i]))
      && InfoOf(s').Some?
      && (InfoOf(s).Some? ==>
            var gs, gs' := InfoOf(s).value.groupedTracks, InfoOf(s').value.groupedTracks;
            && InfoOf(s').value.albumInfo == InfoOf(s).value.albumInfo
            && InfoOf(s').value.copyright == InfoOf(s).value.copyright
            && |gs'| == |gs|
            && (forall i :: 0 <= i < |gs| ==>
                  && gs'[i].disc == gs[i].disc
                  && |gs'[i].tracks| == |gs[i].tracks|
                  && (forall j :: 0 <= j < |gs[i].tracks| ==>
                        && gs'[i].tracks[j].(isFavorite := false) == gs[i].tracks[j].(isFavorite := false)
                        && (gs[i].tracks[j].trackHash == trackHash ==> gs'[i].tracks[j].isFavorite == !isFavorite)
                        && (gs[i].tracks[j].trackHash != trackHash ==> gs'[i].tracks[j] == gs[i].tracks[j]))))
  {
  }

  /** A hash that matches no track leaves a loaded state exactly as it was. */
  lemma TrackToggleUnknownHashIsIdentity(s: AlbumWithInfoState, trackHash: string, value: bool)
    requires InfoOf(s).Some?
    requires HashAbsent(s, trackHash)
    ensures WithTrackFavorite(s, trackHash, value) == s
  {
    TrackFavoriteRestores(s, trackHash, value);
  }

  /** Writing the flag every matching track already has changes nothing, once the resource holds data. */
  lemma TrackFavoriteRestores(s: AlbumWithInfoState, trackHash: string, value: bool)
    requires InfoOf(s).Some?
    requires HashFlagged(s, trackHash, value)
    ensures WithTrackFavorite(s, trackHash, value) == s
  {
    var info := InfoOf(s).value;
    SetFavoriteIdentity(s.orderedTracks, trackHash, value);
    var gs := info.groupedTracks;
    forall i | 0 <= i < |gs| ensures SetFavoriteInGroups(gs, trackHash, value)[i] == gs[i] {
      SetFavoriteIdentity(gs[i].tracks, trackHash, value);
    }
    assert SetFavoriteInGroups(gs, trackHash, value) == gs;
    assert s.infoResource == Success(Some(info));
  }

  /** A later track write overrides an earlier one. */
  lemma TrackFavoriteOverwrite(s: AlbumWithInfoState, trackHash: string, a: bool, b: bool)
    ensures WithTrackFavorite(WithTrackFavorite(s, trackHash, a), trackHash, b) == WithTrackFavorite(s, trackHash, b)
  {
    var once := WithTrackFavorite(s, trackHash, a);
    var ts' := SetFavoriteWhere(s.orderedTracks, trackHash, b);
    assert SetFavoriteWhere(once.orderedTracks, trackHash, b) == ts';
    if InfoOf(s).Some? {
      var info := InfoOf(s).value;
      var gs := info.groupedTracks;
      var gs1 := SetFavoriteInGroups(gs, trackHash, a);
      assert InfoOf(once) == Some(AlbumInfoWithGroupedTracks(info.albumInfo, gs1, info.copyright));
      forall i | 0 <= i < |gs|
        ensures SetFavoriteInGroups(gs1, trackHash, b)[i] == SetFavoriteInGroups(gs, trackHash, b)[i]
      {
        assert SetFavoriteWhere(gs1[i].tracks, trackHash, b) == SetFavoriteWhere(gs[i].tracks, trackHash, b);
      }
      assert SetFavoriteInGroups(gs1, trackHash, b) == SetFavoriteInGroups(gs, trackHash, b);
    } else {
      assert InfoOf(once) == Some(AlbumInfoWithGroupedTracks(None, [], None));
      assert SetFavoriteInGroups([], trackHash, b) == [];
    }
  }

  /** The whole track toggle amounts to one pair of writes of the settled flag. */
  lemma {:induction false} TrackToggleSettles(s: AlbumWithInfoState, trackHash: string, isFavorite: bool, responses: seq<FavoriteResponse>)
    ensures AfterTrackToggle(s, trackHash, isFavorite, responses) == WithTrackFavorite(s, trackHash, SettledFavorite(isFavorite, responses))
  {
    if responses != [] {
      var init := responses[..|responses| - 1];
      TrackToggleSettles(s, trackHash, isFavorite, init);
      match responses[|responses| - 1]
      case Loading =>
      case Success(value) =>
        TrackFavoriteOverwrite(s, trackHash, SettledFavorite(isFavorite, init), value.GetOr(false));
      case Error(_) =>
        TrackFavoriteOverwrite(s, trackHash, SettledFavorite(isFavorite, init), isFavorite);
    }
  }

  /** An error rolls the track back: the state is what it was before the toggle. */
  lemma TrackToggleErrorRollsBack(s: AlbumWithInfoState, trackHash: string, isFavorite: bool, message: string)
    requires InfoOf(s).Some?
    requires HashFlagged(s, trackHash, isFavorite)
    ensures AfterTrackToggle(s, trackHash, isFavorite, [Error(message)]) == s
  {
    TrackToggleSettles(s, trackHash, isFavorite, [Error(message)]);
    TrackFavoriteRestores(s, trackHash, isFavorite);
  }

  /** A success gives every matching track the server's flag (false when absent). */
  lemma TrackToggleSuccessTakesServerValue(s: AlbumWithInfoState, trackHash: string, isFavorite: bool, value: Option<bool>)
    ensures var s' := AfterTrackToggle(s, trackHash, isFavorite, [Success(value)]);
      && HashFlagged(s', trackHash, value.GetOr(false))
      && |s'.orderedTracks| == |s.orderedTracks|
  {
    TrackToggleSettles(s, trackHash, isFavorite, [Success(value)]);
    var s' := WithTrackFavorite(s, trackHash, value.GetOr(false));
    forall t | t in s'.orderedTracks && t.trackHash == trackHash ensures t.isFavorite == value.GetOr(false) {
      var i :| 0 <= i < |s'.orderedTracks| && s'.orderedTracks[i] == t;
    }
    if InfoOf(s').Some? {
      var gs' := InfoOf(s').value.groupedTracks;
      forall i, t | 0 <= i < |gs'| && t in gs'[i].tracks && t.trackHash == trackHash
        ensures t.isFavorite == value.GetOr(false)
      {
        var j :| 0 <= j < |gs'[i].tracks| && gs'[i].tracks[j] == t;
      }
    }
  }

  /** On a loaded state whose views agree, the track writes keep them in agreement. */
  lemma TrackToggleKeepsViewsAgree(s: AlbumWithInfoState, trackHash: string, value: bool)
    requires ViewsAgree(s) && InfoOf(s).Some?
    ensures ViewsAgree(WithTrackFavorite(s, trackHash, value))
  {
    FlattenSetFavorite(InfoOf(s).value.groupedTracks, trackHash, value);
  }

  /**
   * On a state whose resource holds no data (still loading, or failed), the
   * track writes leave an empty disc map beside the rewritten flat list: the
   * views then agree only when the flat list is empty.
   */
  lemma TrackToggleWithoutDataEmptiesMap(s: AlbumWithInfoState, trackHash: string, value: bool)
    requires InfoOf(s).None?
    ensures var s' := WithTrackFavorite(s, trackHash, value);
      && s'.infoResource == Success(Some(AlbumInfoWithGroupedTracks(None, [], None)))
      && (ViewsAgree(s') <==> s.orderedTracks == [])
  {
    var s' := WithTrackFavorite(s, trackHash, value);
    if s.orderedTracks != [] {
      assert |s'.orderedTracks| > 0;
    }
  }

  // ---------------------------------------------------------------------------
  // Event dispatcher
  // ---------------------------------------------------------------------------

  /** The repository call an event makes, if any. */
  function CallFor(s: AlbumWithInfoState, event: AlbumWithInfoUiEvent): Option<RemoteCall> {
    match event
    case OnLoadAlbumWithInfo(albumHash) => Some(GetAlbumWithInfo(albumHash))
    case OnRefreshAlbumInfo => Some(GetAlbumWithInfo(s.albumHash.GetOr("")))
    case OnToggleAlbumFavorite(albumHash, isFavorite) => Some(AlbumFavoriteCall(albumHash, isFavorite))
    case OnToggleAlbumTrackFavorite(trackHash, favorite) => Some(TrackFavoriteCall(trackHash, favorite))
    case _ => None
  }

  /**
   * `onAlbumWithInfoUiEvent`: the state after the event and after the started
   * call emitted its responses (`albumResponses` for a load or refresh,
   * `favoriteResponses` for a toggle).
   */
  function AfterEvent(s: AlbumWithInfoState, event: AlbumWithInfoUiEvent,
                      albumResponses: seq<Resource<AlbumWithInfo>>, favoriteResponses: seq<FavoriteResponse>): AlbumWithInfoState
  {
    match event
    case ResetState => DefaultState()
    case OnUpdateAlbumHash(albumHash) => s.(albumHash := Some(albumHash), reloadRequired := true)
    case OnLoadAlbumWithInfo(albumHash) => AfterAlbumResponses(s.(albumHash := Some(albumHash)), albumResponses)
    case OnRefreshAlbumInfo => AfterAlbumResponses(s, albumResponses)
    case OnToggleAlbumFavorite(_, isFavorite) => AfterAlbumToggle(s, isFavorite, favoriteResponses)
    case OnToggleAlbumTrackFavorite(trackHash, favorite) => AfterTrackToggle(s, trackHash, favorite, favoriteResponses)
    case OtherEvent => s
  }

  /** Reset yields the default state; updating the hash sets it, requires a reload and changes nothing else. */
  lemma ResetAndHashUpdate(s: AlbumWithInfoState, albumHash: string,
                           albumResponses: seq<Resource<AlbumWithInfo>>, favoriteResponses: seq<FavoriteResponse>)
    ensures AfterEvent(s, ResetState, albumResponses, favoriteResponses) == DefaultState()
    ensures var s' := AfterEvent(s, OnUpdateAlbumHash(albumHash), albumResponses, favoriteResponses);
      && s'.albumHash == Some(albumHash) && s'.reloadRequired
      && s'.orderedTracks == s.orderedTracks && s'.infoResource == s.infoResource
    ensures CallFor(s, ResetState).None? && CallFor(s, OnUpdateAlbumHash(albumHash)).None?
  {
  }

  /**
   * A load asks for the event's album and leaves that hash in the state; a
   * refresh asks for the stored hash ("" when none) and keeps it.
   */
  lemma LoadAndRefreshTargetTheAlbum(s: AlbumWithInfoState, albumHash: string,
                                     albumResponses: seq<Resource<AlbumWithInfo>>, favoriteResponses: seq<FavoriteResponse>)
    ensures CallFor(s, OnLoadAlbumWithInfo(albumHash)) == Some(GetAlbumWithInfo(albumHash))
    ensures AfterEvent(s, OnLoadAlbumWithInfo(albumHash), albumResponses, favoriteResponses).albumHash == Some(albumHash)
    ensures CallFor(s, OnRefreshAlbumInfo) == Some(GetAlbumWithInfo(s.albumHash.GetOr("")))
    ensures AfterEvent(s, OnRefreshAlbumInfo, albumResponses, favoriteResponses).albumHash == s.albumHash
  {
    AlbumResponsesKeepHash(s.(albumHash := Some(albumHash)), albumResponses);
    AlbumResponsesKeepHash(s, albumResponses);
  }

  /**
   * Every event keeps the flat list and the disc map in agreement, except a
   * toggle made while the resource holds no data and the flat list is not empty.
   */
  lemma EventsKeepViewsAgree(s: AlbumWithInfoState, event: AlbumWithInfoUiEvent,
                             albumResponses: seq<Resource<AlbumWithInfo>>, favoriteResponses: seq<FavoriteResponse>)
    requires ViewsAgree(s)
    requires event.OnToggleAlbumFavorite? || event.OnToggleAlbumTrackFavorite? ==> InfoOf(s).Some? || s.orderedTracks == []
    ensures ViewsAgree(AfterEvent(s, event, albumResponses, favoriteResponses))
  {
    match event
    case ResetState =>
    case OnUpdateAlbumHash(_) =>
    case OnLoadAlbumWithInfo(albumHash) =>
      AlbumResponsesKeepViewsAgree(s.(albumHash := Some(albumHash)), albumResponses);
    case OnRefreshAlbumInfo =>
      AlbumResponsesKeepViewsAgree(s, albumResponses);
    case OnToggleAlbumFavorite(_, isFavorite) =>
      AlbumToggleSettles(s, isFavorite, favoriteResponses);
    case OnToggleAlbumTrackFavorite(trackHash, favorite) =>
      TrackToggleSettles(s, trackHash, favorite, favoriteResponses);
      if InfoOf(s).Some? {
        TrackToggleKeepsViewsAgree(s, trackHash, SettledFavorite(favorite, favoriteResponses));
      } else {
        TrackToggleWithoutDataEmptiesMap(s, trackHash, SettledFavorite(favorite, favoriteResponses));
      }
    case OtherEvent =>
  }

  // ---------------------------------------------------------------------------
  // Toggles while the resource holds no data
  // ---------------------------------------------------------------------------

  /**
   * As written, a toggle made while a refresh is loading splits the views: the
   * load leaves a non-empty flat list, the refresh's `Loading` keeps it, and the
   * toggle then stores a success with an empty disc map beside it, whatever
   * the favourite request answers.
   */
  lemma ToggleDuringRefreshSplitsViews(albumHash: string, info: AlbumInfo, t: Track, favoriteResponses: seq<FavoriteResponse>)
    ensures var s1 := AfterEvent(DefaultState(), OnLoadAlbumWithInfo(albumHash),
                                 [Success(Some(AlbumWithInfo(info, [t], None)))], []);
      var s2 := AfterEvent(s1, OnRefreshAlbumInfo, [Loading], []);
      var s3 := AfterEvent(s2, OnToggleAlbumTrackFavorite(t.trackHash, t.isFavorite), [], favoriteResponses);
      && ViewsAgree(s1) && s1.orderedTracks == [t]
      && ViewsAgree(s2)
      && !ViewsAgree(s3)
  {
    var s1 := AfterEvent(DefaultState(), OnLoadAlbumWithInfo(albumHash),
                         [Success(Some(AlbumWithInfo(info, [t], None)))], []);
    LoadOneTrack(albumHash, info, t);
    var s2 := AfterEvent(s1, OnRefreshAlbumInfo, [Loading], []);
    RefreshLoading(s1);
    var settled := SettledFavorite(t.isFavorite, favoriteResponses);
    TrackToggleSettles(s2, t.trackHash, t.isFavorite, favoriteResponses);
    TrackToggleWithoutDataEmptiesMap(s2, t.trackHash, settled);
  }

  /** Loading an album of one track leaves that track as the flat list, in agreement with the map. */
  lemma LoadOneTrack(albumHash: string, info: AlbumInfo, t: Track)
    ensures var s1 := AfterEvent(DefaultState(), OnLoadAlbumWithInfo(albumHash),
                                 [Success(Some(AlbumWithInfo(info, [t], None)))], []);
      ViewsAgree(s1) && s1.orderedTracks == [t] && InfoOf(s1).Some?
  {
    var data := AlbumWithInfo(info, [t], None);
    var s0 := DefaultState().(albumHash := Some(albumHash));
    var responses: seq<Resource<AlbumWithInfo>> := [Success(Some(data))];
    assert responses[..0] == [];
    assert AfterAlbumResponses(s0, responses) == ApplyAlbumResponse(s0, Success(Some(data)));
    assert SortByTrackNumber([t]) == [t] by {
      assert [t][1..] == [];
    }
    assert GroupByDisc([t]) == [DiscGroup(t.disc, [t])] by {
      assert [t][..0] == [];
    }
    assert Flatten([DiscGroup(t.disc, [t])]) == [t] by {
      assert [DiscGroup(t.disc, [t])][1..] == [];
    }
  }

  /** A refresh whose flow emits only `Loading` replaces only the resource. */
  lemma RefreshLoading(s: AlbumWithInfoState)
    ensures AfterEvent(s, OnRefreshAlbumInfo, [Loading], []) == s.(infoResource := Loading)
  {
    var responses: seq<Resource<AlbumWithInfo>> := [Loading];
    assert responses[..0] == [];
    assert AfterAlbumResponses(s, responses[..0]) == s;
    assert AfterAlbumResponses(s, responses) == ApplyAlbumResponse(s, Loading);
  }

  /** The album write, made only where the resource holds data. */
  function GuardedAlbumFavorite(s: AlbumWithInfoState, value: bool): AlbumWithInfoState {
    if InfoOf(s).Some? then WithAlbumFavorite(s, value) else s
  }

  /** The track writes: the flat list always, the disc map only where the resource holds data. */
  function GuardedTrackFavorite(s: AlbumWithInfoState, trackHash: string, value: bool): AlbumWithInfoState {
    if InfoOf(s).Some? then WithTrackFavorite(s, trackHash, value) else WithTrackFavoriteInList(s, trackHash, value)
  }

  /**
   * The dispatcher with the toggles corrected: a toggle amounts to one write of
   * the settled flag (`AlbumToggleSettles`, `TrackToggleSettles`), and the
   * corrected write leaves a resource without data as it is.
   */
  function CorrectedAfterEvent(s: AlbumWithInfoState, event: AlbumWithInfoUiEvent,
                               albumResponses: seq<Resource<AlbumWithInfo>>, favoriteResponses: seq<FavoriteResponse>): AlbumWithInfoState
  {
    match event
    case OnToggleAlbumFavorite(_, isFavorite) => GuardedAlbumFavorite(s, SettledFavorite(isFavorite, favoriteResponses))
    case OnToggleAlbumTrackFavorite(trackHash, favorite) =>
      GuardedTrackFavorite(s, trackHash, SettledFavorite(favorite, favoriteResponses))
    case _ => AfterEvent(s, event, albumResponses, favoriteResponses)
  }

  /**
   * The corrected dispatcher agrees with the one as written on every loaded
   * state, never turns a resource without data into a success on a toggle, and
   * keeps the two views in agreement after every event, with no exception.
   */
  lemma CorrectedEventsKeepViewsAgree(s: AlbumWithInfoState, event: AlbumWithInfoUiEvent,
                                      albumResponses: seq<Resource<AlbumWithInfo>>, favoriteResponses: seq<FavoriteResponse>)
    requires ViewsAgree(s)
    ensures ViewsAgree(CorrectedAfterEvent(s, event, albumResponses, favoriteResponses))
    ensures InfoOf(s).Some? ==>
      CorrectedAfterEvent(s, event, albumResponses, favoriteResponses) == AfterEvent(s, event, albumResponses, favoriteResponses)
    ensures (event.OnToggleAlbumFavorite? || event.OnToggleAlbumTrackFavorite?) && InfoOf(s).None? ==>
      CorrectedAfterEvent(s, event, albumResponses, favoriteResponses).infoResource == s.infoResource
  {
    match event
    case OnToggleAlbumFavorite(_, isFavorite) =>
      AlbumToggleSettles(s, isFavorite, favoriteResponses);
    case OnToggleAlbumTrackFavorite(trackHash, favorite) =>
      TrackToggleSettles(s, trackHash, favorite, favoriteResponses);
      if InfoOf(s).Some? {
        TrackToggleKeepsViewsAgree(s, trackHash, SettledFavorite(favorite, favoriteResponses));
      }
    case _ =>
      EventsKeepViewsAgree(s, event, albumResponses, favoriteResponses);
  }
}
