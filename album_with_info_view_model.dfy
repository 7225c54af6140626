/**
 * The album-detail view model: one mutable state record, rewritten by event
 * handlers and by the emissions of the repository calls they start. Each
 * repository flow is given as the sequence of responses it emits; the handler
 * processes them in order, as `collectLatest` does with a body that never
 * suspends.
 */
module AlbumWithInfoViewModel {
  import opened ResourceState
  import opened AlbumAggregate
  import opened AlbumWithInfoModel

  class AlbumWithInfoViewModel {
    var state: AlbumWithInfoState

    constructor()
      ensures state == DefaultState()
    {
      state := DefaultState();
    }

    /** `updateAlbumInfoState`: rebuilds both views on a success, replaces only the resource otherwise. */
    method UpdateAlbumInfoState(resource: Resource<AlbumWithInfo>)
      modifies this
      ensures state == ApplyAlbumResponse(old(state), resource)
    {
      match resource {
        case Success(data) =>
          var groupedTracks := if data.Some? then GroupedTracks(data.value.tracks) else [];
          var orderedTracks := Flatten(groupedTracks);
          var albumInfo := if data.Some? then Some(data.value.albumInfo) else None;
          var copyright := if data.Some? then data.value.copyright.GetOr("") else "";
          state := state.(
            reloadRequired := false,
            orderedTracks := orderedTracks,
            infoResource := Success(Some(AlbumInfoWithGroupedTracks(albumInfo, groupedTracks, Some(copyright)))));
        case Loading =>
          state := state.(infoResource := Loading);
        case Error(message) =>
          state := state.(infoResource := Error(message));
      }
    }

    /** Feeds the emissions of an album request to `UpdateAlbumInfoState`, in order. */
    method CollectAlbumResponses(responses: seq<Resource<AlbumWithInfo>>)
      modifies this
      ensures state == AfterAlbumResponses(old(state), responses)
    {
      var i := 0;
      while i < |responses|
        invariant 0 <= i <= |responses|
        invariant state == AfterAlbumResponses(old(state), responses[..i])
      {
        assert responses[..i + 1][..i] == responses[..i];
        UpdateAlbumInfoState(responses[i]);
        i := i + 1;
      }
      assert responses[..i] == responses;
    }

    /**
     * `toggleAlbumFavorite`: writes `!isFavorite` into the header at once,
     * calls remove when the album was a favourite and add otherwise, then takes
     * the server's flag on a success and restores `isFavorite` on an error.
     */
    method ToggleAlbumFavorite(albumHash: string, isFavorite: bool, responses: seq<FavoriteResponse>)
      returns (call: RemoteCall)
      modifies this
      ensures call == AlbumFavoriteCall(albumHash, isFavorite)
      ensures state == AfterAlbumToggle(old(state), isFavorite, responses)
    {
      state := WithAlbumFavorite(state, !isFavorite);
      ghost var optimistic := state;
      call := if isFavorite then RemoveAlbumFromFavorite(albumHash) else AddAlbumToFavorite(albumHash);
      var i := 0;
      while i < |responses|
        invariant 0 <= i <= |responses|
        invariant state == ReconcileAlbumFavorites(optimistic, isFavorite, responses[..i])
      {
        assert responses[..i + 1][..i] == responses[..i];
        match responses[i] {
          case Loading =>
          case Success(value) =>
            state := WithAlbumFavorite(state, value.GetOr(false));
          case Error(_) =>
            state := WithAlbumFavorite(state, isFavorite);
        }
        i := i + 1;
      }
      assert responses[..i] == responses;
    }

    /**
     * `toggleAlbumTrackFavorite`: two separate writes (the flat list, then the
     * disc map) give every track with the hash the flag `!isFavorite`; each
     * success or error then repeats both writes with the server's flag or with
     * `isFavorite`.
     */
    method ToggleAlbumTrackFavorite(trackHash: string, isFavorite: bool, responses: seq<FavoriteResponse>)
      returns (call: RemoteCall)
      modifies this
      ensures call == TrackFavoriteCall(trackHash, isFavorite)
      ensures state == AfterTrackToggle(old(state), trackHash, isFavorite, responses)
    {
      state := WithTrackFavoriteInList(state, trackHash, !isFavorite);
      state := WithTrackFavoriteInGroups(state, trackHash, !isFavorite);
      ghost var optimistic := state;
      call := if isFavorite then RemoveTrackFromFavorite(trackHash) else AddTrackToFavorite(trackHash);
      var i := 0;
      while i < |responses|
        invariant 0 <= i <= |responses|
        invariant state == ReconcileTrackFavorites(optimistic, trackHash, isFavorite, responses[..i])
      {
        assert responses[..i + 1][..i] == responses[..i];
        match responses[i] {
          case Loading =>
          case Success(value) =>
            state := WithTrackFavoriteInList(state, trackHash, value.GetOr(false));
            state := WithTrackFavoriteInGroups(state, trackHash, value.GetOr(false));
          case Error(_) =>
            state := WithTrackFavoriteInList(state, trackHash, isFavorite);
            state := WithTrackFavoriteInGroups(state, trackHash, isFavorite);
        }
        i := i + 1;
      }
      assert responses[..i] == responses;
    }

    /**
     * `onAlbumWithInfoUiEvent`: dispatches one event; `albumResponses` are the
     * emissions of the album request a load or refresh starts, and
     * `favoriteResponses` those of the favourite request a toggle starts.
     */
    method OnAlbumWithInfoUiEvent(event: AlbumWithInfoUiEvent,
                                  albumResponses: seq<Resource<AlbumWithInfo>>,
                                  favoriteResponses: seq<FavoriteResponse>)
      returns (call: Option<RemoteCall>)
      modifies this
      ensures call == CallFor(old(state), event)
      ensures state == AfterEvent(old(state), event, albumResponses, favoriteResponses)
    {
      call := None;
      match event {
        case ResetState =>
          state := DefaultState();
        case OnUpdateAlbumHash(albumHash) =>
          state := state.(albumHash := Some(albumHash), reloadRequired := true);
        case OnLoadAlbumWithInfo(albumHash) =>
          state := state.(albumHash := Some(albumHash));
          call := Some(GetAlbumWithInfo(albumHash));
          CollectAlbumResponses(albumResponses);
        case OnRefreshAlbumInfo =>
          call := Some(GetAlbumWithInfo(state.albumHash.GetOr("")));
          CollectAlbumResponses(albumResponses);
        case OnToggleAlbumFavorite(albumHash, isFavorite) =>
          var c := ToggleAlbumFavorite(albumHash, isFavorite, favoriteResponses);
          call := Some(c);
        case OnToggleAlbumTrackFavorite(trackHash, favorite) =>
          var c := ToggleAlbumTrackFavorite(trackHash, favorite, favoriteResponses);
          call := Some(c);
        case OtherEvent =>
      }
    }
  }
}
