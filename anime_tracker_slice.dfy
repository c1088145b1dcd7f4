/** The anime-tracker store (src/app/features/animeTracker/animeTrackerSlice.ts):
    the user's media trackers, the one being viewed, statistics, the default
    statuses, the status filter, and a request status with an error. Each
    asynchronous operation is modelled through its pending, fulfilled and
    rejected cases only, the payload being a parameter. */
module AnimeTrackerSlice {
  import opened Wrappers
  import opened Seqs

  /** One entry of a tracker's watch log. */
  datatype LogEntry = LogEntry(time: string, event: Option<string>, status: string)

  /** A tracked show or film (src/services/animeTracker/_models.ts). Durations
      and positions are whole seconds here. */
  datatype MediaTracker = MediaTracker(
    id: string,
    title: string,
    description: Option<string>,
    imageUrl: Option<string>,
    mediaUrl: Option<string>,
    defaultStatuses: seq<string>,
    customStatusSupport: bool,
    customStatuses: seq<string>,
    currentStatus: string,
    duration: int,
    currentPosition: int,
    log: seq<LogEntry>,
    createdAt: int,
    updatedAt: int,
    createdBy: string)

  datatype TrackerStats = TrackerStats(total: int, byStatus: map<string, int>)

  datatype RequestStatus = Idle | Loading | Failed | Succeeded

  /** The asynchronous operations the store reacts to. */
  datatype Thunk =
    | FetchTrackers | FetchTracker | AddTracker | EditTracker | RemoveTracker
    | AddStatus | DeleteStatus | FetchStats | FetchDefaultStatuses
    | UpdateTracker | DeleteTracker

  /** The operations that have pending and rejected cases at all; the other
      four only have a fulfilled case, so their pending and rejected actions
      leave the state as it is. */
  predicate HasPendingAndRejected(t: Thunk) {
    !(t.AddStatus? || t.DeleteStatus? || t.FetchStats? || t.FetchDefaultStatuses?)
  }

  /** The operations whose pending case also clears the error. */
  predicate PendingClearsError(t: Thunk) {
    t.AddTracker? || t.UpdateTracker? || t.DeleteTracker?
  }

  /** The test `tracker.id === id`. */
  function HasId(id: string): MediaTracker -> bool {
    (t: MediaTracker) => t.id == id
  }

  /** The test `tracker.id !== id`. */
  function LacksId(id: string): MediaTracker -> bool {
    (t: MediaTracker) => t.id != id
  }

  /** `currentTracker?.id === id`. */
  predicate IsCurrent(current: Option<MediaTracker>, id: string) {
    current.Some? && current.value.id == id
  }

  /** The tracker with `status` taken out of its custom statuses (every
      occurrence, the others in order) and every other field as it was. */
  function WithoutStatus(t: MediaTracker, status: string): (r: MediaTracker)
    ensures r.(customStatuses := t.customStatuses) == t
    ensures status !in r.customStatuses
    ensures forall s :: s in r.customStatuses <==> s in t.customStatuses && s != status
    ensures IsSubsequence(r.customStatuses, t.customStatuses)
  {
    t.(customStatuses := Filter(t.customStatuses, (s: string) => s != status))
  }

  class TrackerStore {
    var trackers: seq<MediaTracker>
    var currentTracker: Option<MediaTracker>
    var stats: Option<TrackerStats>
    var defaultStatuses: seq<string>
    var currentStatus: string
    var status: RequestStatus
    var error: Option<string>

    /** `initialState`: nothing loaded, the "watching" filter, idle. */
    constructor ()
      ensures trackers == [] && currentTracker == None && stats == None && defaultStatuses == []
      ensures currentStatus == "watching" && status == Idle && error == None
    {
      trackers := [];
      currentTracker := None;
      stats := None;
      defaultStatuses := [];
      currentStatus := "watching";
      status := Idle;
      error := None;
    }

    /** `setCurrentStatus`. */
    method SetCurrentStatus(s: string)
      modifies this`currentStatus
      ensures currentStatus == s
    {
      currentStatus := s;
    }

    /** `clearError`. */
    method ClearError()
      modifies this`error
      ensures error == None
    {
      error := None;
    }

    /** `setError`. */
    method SetError(message: string)
      modifies this`error
      ensures error == Some(message)
    {
      error := Some(message);
    }

    /** The pending case of operation `t`: loading, and for adding, updating
        and deleting trackers the error cleared as well. */
    method Pending(t: Thunk)
      modifies this`status, this`error
      ensures status == if HasPendingAndRejected(t) then Loading else old(status)
      ensures error == if PendingClearsError(t) then None else old(error)
    {
      if HasPendingAndRejected(t) {
        status := Loading;
        if PendingClearsError(t) {
          error := None;
        }
      }
    }

    /** The rejected case of operation `t`: failed, with the message of
        `rejectWithValue` as the error. The trackers are not touched. */
    method Rejected(t: Thunk, message: string)
      modifies this`status, this`error
      ensures HasPendingAndRejected(t) ==> status == Failed && error == Some(message)
      ensures !HasPendingAndRejected(t) ==> status == old(status) && error == old(error)
    {
      if HasPendingAndRejected(t) {
        status := Failed;
        error := Some(message);
      }
    }

    /** `fetchTrackers.fulfilled`: the list becomes the payload. */
    method FetchTrackersFulfilled(payload: seq<MediaTracker>)
      modifies this`status, this`trackers
      ensures status == Succeeded && trackers == payload
    {
      status := Succeeded;
      trackers := payload;
    }

    /** `fetchTracker.fulfilled`: the payload becomes the current tracker. */
    method FetchTrackerFulfilled(payload: MediaTracker)
      modifies this`status, this`currentTracker
      ensures status == Succeeded && currentTracker == Some(payload)
    {
      status := Succeeded;
      currentTracker := Some(payload);
    }

    /** `addTracker.fulfilled`: the new tracker is appended at the end. */
    method AddTrackerFulfilled(payload: MediaTracker)
      modifies this`status, this`trackers
      ensures status == Succeeded && trackers == old(trackers) + [payload]
    {
      status := Succeeded;
      trackers := trackers + [payload];
    }

    /** The shared body of `editTracker.fulfilled` and `addStatus.fulfilled`:
        the first tracker with the payload's id is replaced, and so is the
        current tracker when it has that id. */
    method ReplaceTracker(payload: MediaTracker)
      modifies this`trackers, this`currentTracker
      ensures trackers == ReplaceFirstWhere(old(trackers), HasId(payload.id), payload)
      ensures currentTracker == if IsCurrent(old(currentTracker), payload.id) then Some(payload)
                                else old(currentTracker)
    {
      var index := FindIndex(trackers, HasId(payload.id));
      if index != -1 {
        trackers := trackers[index := payload];
      }
      if currentTracker.Some? && currentTracker.value.id == payload.id {
        currentTracker := Some(payload);
      }
    }

    /** `editTracker.fulfilled`. */
    method EditTrackerFulfilled(payload: MediaTracker)
      modifies this`status, this`trackers, this`currentTracker
      ensures status == Succeeded
      ensures trackers == ReplaceFirstWhere(old(trackers), HasId(payload.id), payload)
      ensures currentTracker == if IsCurrent(old(currentTracker), payload.id) then Some(payload)
                                else old(currentTracker)
    {
      status := Succeeded;
      ReplaceTracker(payload);
    }

    /** `addStatus.fulfilled`: as an edit, but the request status is left as
        it was. */
    method AddStatusFulfilled(payload: MediaTracker)
      modifies this`trackers, this`currentTracker
      ensures trackers == ReplaceFirstWhere(old(trackers), HasId(payload.id), payload)
      ensures currentTracker == if IsCurrent(old(currentTracker), payload.id) then Some(payload)
                                else old(currentTracker)
    {
      ReplaceTracker(payload);
    }

    /** `updateTracker.fulfilled`: the list entry is replaced, the current
        tracker is not. */
    method UpdateTrackerFulfilled(payload: MediaTracker)
      modifies this`status, this`trackers
      ensures status == Succeeded
      ensures trackers == ReplaceFirstWhere(old(trackers), HasId(payload.id), payload)
    {
      var index := FindIndex(trackers, HasId(payload.id));
      if index != -1 {
        trackers := trackers[index := payload];
      }
      status := Succeeded;
    }

    /** `removeTracker.fulfilled` and `deleteTracker.fulfilled`, which are
        identical: every tracker with the id is removed, and the current
        tracker is dropped when it has that id. */
    method RemoveFulfilled(id: string)
      modifies this`status, this`trackers, this`currentTracker
      ensures status == Succeeded
      ensures trackers == Filter(old(trackers), LacksId(id))
      ensures currentTracker == if IsCurrent(old(currentTracker), id) then None else old(currentTracker)
    {
      status := Succeeded;
      trackers := Filter(trackers, LacksId(id));
      if currentTracker.Some? && currentTracker.value.id == id {
        currentTracker := None;
      }
    }

    /** `deleteStatus.fulfilled`: the status leaves the custom statuses of the
        first tracker with the id and of the current tracker when it has that
        id; every other tracker and field is kept. */
    method DeleteStatusFulfilled(id: string, s: string)
      modifies this`trackers, this`currentTracker
      ensures |trackers| == |old(trackers)|
      ensures forall i :: 0 <= i < |trackers| ==>
                trackers[i] == if i == FindIndex(old(trackers), HasId(id)) then WithoutStatus(old(trackers[i]), s)
                               else old(trackers[i])
      ensures currentTracker == if IsCurrent(old(currentTracker), id) then Some(WithoutStatus(old(currentTracker).value, s))
                                else old(currentTracker)
    {
      var index := FindIndex(trackers, HasId(id));
      if index != -1 {
        var t := trackers[index];
        trackers := trackers[index := t.(customStatuses := Filter(t.customStatuses, (x: string) => x != s))];
      }
      if currentTracker.Some? && currentTracker.value.id == id {
        var t := currentTracker.value;
        currentTracker := Some(t.(customStatuses := Filter(t.customStatuses, (x: string) => x != s)));
      }
    }

    /** `fetchStats.fulfilled`. */
    method FetchStatsFulfilled(payload: TrackerStats)
      modifies this`stats
      ensures stats == Some(payload)
    {
      stats := Some(payload);
    }

    /** `fetchDefaultStatuses.fulfilled`. */
    method FetchDefaultStatusesFulfilled(payload: seq<string>)
      modifies this`defaultStatuses
      ensures defaultStatuses == payload
    {
      defaultStatuses := payload;
    }
  }

  /** After a remove no tracker carries the id, and the others are all
      still listed, in their order. */
  lemma RemoveLeavesNoTrackerWithId(trackers: seq<MediaTracker>, id: string)
    ensures var r := Filter(trackers, LacksId(id));
            (forall i :: 0 <= i < |r| ==> r[i].id != id) &&
            (forall t :: t in trackers && t.id != id ==> t in r) &&
            IsSubsequence(r, trackers)
  {
    var r := Filter(trackers, LacksId(id));
    forall i | 0 <= i < |r|
      ensures r[i].id != id
    {
      assert r[i] in r;
    }
  }

  /** Replacing by id keeps the length and, when a tracker has the payload's
      id, makes the payload part of the list. */
  lemma ReplaceKeepsLength(trackers: seq<MediaTracker>, payload: MediaTracker)
    ensures var r := ReplaceFirstWhere(trackers, HasId(payload.id), payload);
            |r| == |trackers| &&
            ((exists i :: 0 <= i < |trackers| && trackers[i].id == payload.id) ==> payload in r)
  {
    var k := FindIndex(trackers, HasId(payload.id));
    if k != -1 {
      assert ReplaceFirstWhere(trackers, HasId(payload.id), payload)[k] == payload;
    }
  }
}
