/**
 * Expanding a listed place and loading its details
 * (app/components/RestaurantList.tsx:27-29, 47-78, 195-268): one expanded
 * place id at a time, a cache of fetched detail records keyed by place id,
 * and one `isLoadingDetails` flag shared by every place. A click either
 * collapses the expanded place or expands another one, starting a
 * `getDetails` request when the cache has no entry for it; the request's
 * callback runs later as a separate event.
 */
module DetailLoader {
  import opened Wrappers
  import opened Places
  import opened ReviewOrder

  /** The component's state, plus the place ids whose `getDetails` callback
      is still to run (a request may be outstanding twice for one id). */
  datatype LoaderState = LoaderState(
    expanded: Option<string>,
    cache: map<string, PlaceDetails>,
    loading: bool,
    inFlight: multiset<string>)

  /** The state on mount: nothing expanded, nothing cached, not loading. */
  const Initial := LoaderState(None, map[], false, multiset{})

  /** What the expanded panel shows. */
  datatype Panel = Loading | Details(detail: PlaceDetails) | LoadError

  /** A user click on a place card, or the callback of a details request. */
  datatype Event =
    | Toggle(id: string)
    | Reply(id: string, status: ServiceStatus, reply: Option<PlaceDetails>)

  /** A click on `id` starts a request: `id` is not the expanded place and
      the cache has no entry for it. */
  predicate StartsFetch(s: LoaderState, id: string) {
    s.expanded != Some(id) && id !in s.cache
  }

  /** `handlePlaceClick(id)`. */
  function Click(s: LoaderState, id: string): (t: LoaderState) {
    if s.expanded == Some(id) then s.(expanded := None)
    else if id in s.cache then s.(expanded := Some(id))
    else s.(expanded := Some(id), loading := true, inFlight := s.inFlight + multiset{id})
  }

  /** The record the callback caches: the reply with its reviews reordered. */
  function Stored(d: PlaceDetails): PlaceDetails {
    if d.reviews.Some? then d.(reviews := Some(ZhFirst(d.reviews.value))) else d
  }

  /** The `getDetails` callback for `id`: the shared flag is cleared, and a
      reply with status OK and a record is cached under `id`. */
  function Arrive(s: LoaderState, id: string, status: ServiceStatus, reply: Option<PlaceDetails>): (t: LoaderState)
    requires id in s.inFlight
  {
    var s' := s.(loading := false, inFlight := s.inFlight - multiset{id});
    if status == Ok && reply.Some? then s'.(cache := s.cache[id := Stored(reply.value)]) else s'
  }

  /** The expanded-panel branch: loading while the shared flag is set and
      nothing is cached, the details once cached, the error text otherwise. */
  function PanelView(loading: bool, cached: Option<PlaceDetails>): (p: Panel) {
    if loading && cached.None? then Loading
    else if cached.Some? then Details(cached.value)
    else LoadError
  }

  /** The panel under the card of `id`, shown only while `id` is expanded. */
  function PanelOf(s: LoaderState, id: string): Option<Panel> {
    if s.expanded == Some(id) then Some(PanelView(s.loading, if id in s.cache then Some(s.cache[id]) else None))
    else None
  }

  /** One event. A reply can only follow a request; one that has none is
      ignored. */
  function Step(s: LoaderState, e: Event): LoaderState {
    match e
    case Toggle(id) => Click(s, id)
    case Reply(id, status, reply) => if id in s.inFlight then Arrive(s, id, status, reply) else s
  }

  /** A sequence of events, in order. */
  function Run(s: LoaderState, events: seq<Event>): LoaderState
    decreases |events|
  {
    if events == [] then s else Run(Step(s, events[0]), events[1..])
  }

  /** Every cached record keeps its reviews with `zh`/`zh-TW` ones first. */
  ghost predicate CachedReviewsOrdered(s: LoaderState) {
    forall id :: id in s.cache && s.cache[id].reviews.Some? ==> ZhAhead(s.cache[id].reviews.value)
  }

  /** The state the component can reach: the shared flag is set only while
      some request is outstanding; the loading text under the expanded card
      appears only while that place's own request is outstanding; cached
      reviews are reordered. */
  ghost predicate Valid(s: LoaderState) {
    && (s.loading ==> |s.inFlight| > 0)
    && (s.expanded.Some? && s.expanded.value !in s.cache && s.loading ==> s.expanded.value in s.inFlight)
    && CachedReviewsOrdered(s)
  }

  /** A click on the expanded place collapses it and changes nothing else:
      no request, same cache, same flag. A click on any other place makes it
      the one expanded place, keeps the cache, and starts a request (setting
      the flag) exactly when the cache has no entry for it. */
  lemma ClickSpec(s: LoaderState, id: string)
    ensures s.expanded == Some(id) ==> Click(s, id) == s.(expanded := None)
    ensures s.expanded != Some(id) ==>
      && Click(s, id).expanded == Some(id)
      && Click(s, id).cache == s.cache
      && (Click(s, id).inFlight[id] == s.inFlight[id] + 1 <==> id !in s.cache)
      && (Click(s, id).inFlight == s.inFlight <==> id in s.cache)
      && Click(s, id).loading == (s.loading || id !in s.cache)
      && Click(s, id).inFlight == s.inFlight + (if id in s.cache then multiset{} else multiset{id})
  {
  }

  /** The callback always clears the shared flag; the cache gains the
      reordered record under `id` exactly when the status is OK and a record
      came back; entries for other ids are untouched, so no key is lost. */
  lemma ArriveSpec(s: LoaderState, id: string, status: ServiceStatus, reply: Option<PlaceDetails>)
    requires id in s.inFlight
    ensures !Arrive(s, id, status, reply).loading
    ensures Arrive(s, id, status, reply).expanded == s.expanded
    ensures s.cache.Keys <= Arrive(s, id, status, reply).cache.Keys
    ensures forall k :: k in s.cache && k != id ==> Arrive(s, id, status, reply).cache[k] == s.cache[k]
    ensures Arrive(s, id, status, reply).cache.Keys <= s.cache.Keys + {id}
    ensures id in Arrive(s, id, status, reply).cache <==> id in s.cache || (status == Ok && reply.Some?)
    ensures !(status == Ok && reply.Some?) ==> Arrive(s, id, status, reply).cache == s.cache
    ensures status == Ok && reply.Some? ==>
      var stored := Arrive(s, id, status, reply).cache[id];
      && stored.phone == reply.value.phone
      && stored.website == reply.value.website
      && stored.openingHours == reply.value.openingHours
      && stored.reviews == (if reply.value.reviews.Some? then Some(ZhFirst(reply.value.reviews.value)) else None)
      && (reply.value.reviews.Some? <==> stored.reviews.Some?)
      && (stored.reviews.Some? ==>
            && multiset(stored.reviews.value) == multiset(reply.value.reviews.value)
            && ZhAhead(stored.reviews.value))
  {
    if status == Ok && reply.Some? && reply.value.reviews.Some? {
      ZhFirstPermutes(reply.value.reviews.value);
      ZhFirstOrdered(reply.value.reviews.value);
    }
  }

  /** Over any sequence of events the cache only grows: no key is ever
      dropped. */
  lemma {:induction false} CacheOnlyGrows(s: LoaderState, events: seq<Event>)
    ensures s.cache.Keys <= Run(s, events).cache.Keys
    decreases |events|
  {
    if events != [] {
      var t := Step(s, events[0]);
      if events[0].Reply? && events[0].id in s.inFlight {
        ArriveSpec(s, events[0].id, events[0].status, events[0].reply);
      }
      CacheOnlyGrows(t, events[1..]);
    }
  }

  /** Every event keeps the state valid. */
  lemma StepKeepsValid(s: LoaderState, e: Event)
    requires Valid(s)
    ensures Valid(Step(s, e))
  {
    if e.Reply? && e.id in s.inFlight && e.status == Ok && e.reply.Some? {
      var t := Step(s, e);
      forall id | id in t.cache && t.cache[id].reviews.Some?
        ensures ZhAhead(t.cache[id].reviews.value)
      {
        if id == e.id {
          ZhFirstOrdered(e.reply.value.reviews.value);
        }
      }
    }
  }

  /** Every reachable state is valid. */
  lemma {:induction false} RunKeepsValid(s: LoaderState, events: seq<Event>)
    requires Valid(s)
    ensures Valid(Run(s, events))
    decreases |events|
  {
    if events != [] {
      StepKeepsValid(s, events[0]);
      RunKeepsValid(Step(s, events[0]), events[1..]);
    }
  }

  /** Every state reached from mount by any events is valid. */
  lemma ReachableStatesValid(events: seq<Event>)
    ensures Valid(Run(Initial, events))
  {
    RunKeepsValid(Initial, events);
  }

  /** The panel right after a click that expands `id`: the cached details
      when there are some, else the loading text. */
  lemma PanelAfterClick(s: LoaderState, id: string)
    requires s.expanded != Some(id)
    ensures PanelOf(Click(s, id), id) == Some(if id in s.cache then Details(s.cache[id]) else Loading)
  {
  }

  /** The panel of the expanded place right after its own callback: the
      reordered details on success; the error text on failure when nothing
      was cached before. */
  lemma PanelAfterReply(s: LoaderState, id: string, status: ServiceStatus, reply: Option<PlaceDetails>)
    requires s.expanded == Some(id) && id in s.inFlight
    ensures status == Ok && reply.Some? ==>
              PanelOf(Arrive(s, id, status, reply), id) == Some(Details(Stored(reply.value)))
    ensures !(status == Ok && reply.Some?) && id !in s.cache ==>
              PanelOf(Arrive(s, id, status, reply), id) == Some(LoadError)
  {
  }

  /** Clicking a collapsed place twice returns it to collapsed, keeps the
      cache, and starts at most one request in all. */
  lemma ToggleTwice(s: LoaderState, id: string)
    requires s.expanded != Some(id)
    ensures Run(s, [Toggle(id), Toggle(id)]).expanded.None?
    ensures PanelOf(Run(s, [Toggle(id), Toggle(id)]), id).None?
    ensures Run(s, [Toggle(id), Toggle(id)]).cache == s.cache
    ensures |Run(s, [Toggle(id), Toggle(id)]).inFlight| <= |s.inFlight| + 1
  {
    var t := Click(s, id);
    assert [Toggle(id), Toggle(id)][1..] == [Toggle(id)];
    assert Run(s, [Toggle(id), Toggle(id)]) == Run(t, [Toggle(id)]);
    assert Run(t, [Toggle(id)]) == Run(Click(t, id), []);
  }

  /** A failed request caches nothing, so expanding the place again sends a
      second request: one request per place is not guaranteed. */
  lemma FailedFetchRetries(s: LoaderState, id: string, code: string)
    requires s.expanded != Some(id) && id !in s.cache
    ensures
      var afterFailure := Arrive(Click(s, id), id, NotOk(code), None);
      var collapsed := Click(afterFailure, id);
      && StartsFetch(s, id)
      && afterFailure.inFlight == s.inFlight
      && collapsed.expanded.None?
      && StartsFetch(collapsed, id)
      && Click(collapsed, id).inFlight[id] == s.inFlight[id] + 1
  {
  }

  /** The flag is shared: when `a` is expanded, then `b`, and `a`'s reply
      arrives first, the panel of `b` shows the error text although `b`'s
      own request is still outstanding. */
  lemma SharedFlagShowsErrorEarly(s: LoaderState, a: string, b: string, d: PlaceDetails)
    requires a != b && s.expanded.None?
    requires a !in s.cache && b !in s.cache
    ensures
      var t := Arrive(Click(Click(s, a), b), a, Ok, Some(d));
      && b in t.inFlight
      && PanelOf(t, b) == Some(LoadError)
  {
  }

  /** The callback's `place.reviews.sort(...)` on the array it received. */
  method SortedReviews(reviews: seq<Review>) returns (sorted: seq<Review>)
    ensures sorted == ZhFirst(reviews)
  {
    var a := new Review[|reviews|](i requires 0 <= i < |reviews| => reviews[i]);
    assert a[..] == reviews;
    SortReviews(a);
    sorted := a[..];
  }

  /** The component's state as it changes in place. `pending` follows the
      `getDetails` requests whose callback has not run yet. */
  class RestaurantList {
    var expandedPlaceId: Option<string>
    var placeDetails: map<string, PlaceDetails>
    var isLoadingDetails: bool
    ghost var pending: multiset<string>

    ghost function State(): LoaderState
      reads this
    {
      LoaderState(expandedPlaceId, placeDetails, isLoadingDetails, pending)
    }

    constructor ()
      ensures State() == Initial
      ensures Valid(State())
    {
      expandedPlaceId := None;
      placeDetails := map[];
      isLoadingDetails := false;
      pending := multiset{};
    }

    /** `handlePlaceClick`; `fetchStarted` tells whether `getDetails` was called. */
    method HandlePlaceClick(placeId: string) returns (fetchStarted: bool)
      requires Valid(State())
      modifies this
      ensures fetchStarted == StartsFetch(old(State()), placeId)
      ensures State() == Click(old(State()), placeId)
      ensures Valid(State())
    {
      StepKeepsValid(State(), Toggle(placeId));
      if expandedPlaceId == Some(placeId) {
        expandedPlaceId := None;
        return false;
      }
      expandedPlaceId := Some(placeId);
      fetchStarted := placeId !in placeDetails;
      if fetchStarted {
        isLoadingDetails := true;
        pending := pending + multiset{placeId};
      }
    }

    /** The `getDetails` callback for `placeId`; the reviews of a good reply
        are sorted in place before the record is cached. */
    method OnDetailsArrived(placeId: string, status: ServiceStatus, place: Option<PlaceDetails>)
      requires placeId in pending
      requires Valid(State())
      modifies this
      ensures State() == Arrive(old(State()), placeId, status, place)
      ensures Valid(State())
    {
      StepKeepsValid(State(), Reply(placeId, status, place));
      isLoadingDetails := false;
      pending := pending - multiset{placeId};
      if status == Ok && place.Some? {
        var detail := place.value;
        if detail.reviews.Some? {
          var sorted := SortedReviews(detail.reviews.value);
          detail := detail.(reviews := Some(sorted));
        }
        placeDetails := placeDetails[placeId := detail];
      }
    }

    /** The expanded-panel branch for the card of `placeId`. */
    method ExpandedPanel(placeId: string) returns (p: Option<Panel>)
      ensures p == PanelOf(State(), placeId)
      ensures p.Some? <==> expandedPlaceId == Some(placeId)
      ensures p == Some(Loading) ==> isLoadingDetails && placeId !in placeDetails
    {
      if expandedPlaceId != Some(placeId) {
        return None;
      }
      var details := if placeId in placeDetails then Some(placeDetails[placeId]) else None;
      p := Some(PanelView(isLoadingDetails, details));
    }
  }
}
