/**
 * The page component's decision logic (app/page.tsx) as transitions on one
 * state value: the random food selector driven by an interval that fires
 * every 100 ms, the user location with its cookie, and the location modal.
 * Timers, randomness, the cookie library, JSON and the geocoder are
 * replaced by explicit events and parameters.
 */
module HomeState {
  import opened Wrappers

  /** An entry of the food catalog. */
  datatype Food = Food(name: string, category: string, query: string)

  /** The search origin the page keeps and persists. */
  datatype Location = Location(lat: real, lng: real, address: string)

  /** The selector's interval: stopped, or running with the closure's
      `count` of ticks so far. */
  datatype Timer = Stopped | Running(count: nat)

  /** `JSON.parse` of the cookie: it throws, or it yields a value. A value
      that is the JSON literal `null` is `Parsed(None)`. */
  datatype ParseOutcome = Malformed | Parsed(value: Option<Location>)

  /** One result of reverse geocoding. */
  datatype GeocoderResult = GeocoderResult(formattedAddress: Option<string>)

  /** The geocoder callback's arguments. */
  datatype GeocodeReply = GeocodeReply(status: string, results: Option<seq<GeocoderResult>>)

  /** What `autocomplete.getPlace()` returns, reduced to what is read. */
  datatype AutocompletePlace = AutocompletePlace(
    location: Option<(real, real)>,
    formattedAddress: Option<string>,
    name: Option<string>)

  /** The page's state; `cookie` is the browser's `user_location` entry. */
  datatype PageState = PageState(
    displayFood: Option<Food>,
    selectedFood: Option<Food>,
    isSearching: bool,
    timer: Timer,
    userLocation: Option<Location>,
    isLocationModalOpen: bool,
    cookie: Option<string>)

  /** The address used when none is given. */
  const DefaultAddress: string := "地圖選定位置"

  /** The address given to a position from the device's geolocation. */
  const CurrentPositionAddress: string := "目前位置"

  /** The interval stops once its counter exceeds this. */
  const LastCount: nat := 10

  /** The state on mount, before the restore effect runs. */
  function Mounted(cookie: Option<string>): (h: PageState)
    ensures Valid(h) && h.userLocation.None? && !h.isLocationModalOpen
    ensures !h.isSearching && h.timer == Stopped && h.displayFood.None? && h.selectedFood.None?
  {
    PageState(None, None, false, Stopped, None, false, cookie)
  }

  /** The selector's running flag and its interval go together, and a
      running interval has not passed its last tick. */
  ghost predicate Valid(h: PageState) {
    && (h.isSearching <==> h.timer.Running?)
    && (h.timer.Running? ==> h.timer.count <= LastCount)
  }

  /** `Math.floor(Math.random() * n)` for a draw `r` in [0, 1). */
  function RandomIndex(r: real, n: nat): (i: nat)
    requires 0.0 <= r < 1.0 && 0 < n
    ensures i < n
  {
    var x := r * n as real;
    assert 0.0 <= x < n as real;
    x.Floor as nat
  }

  /** A click on the random-select button. The button is disabled while a
      draw is running, so such a click does nothing; without a location the
      modal opens and no draw starts; else the draw starts. */
  function PressRandom(h: PageState): (h': PageState) {
    if h.isSearching then h
    else if h.userLocation.None? then h.(isLocationModalOpen := true)
    else h.(isSearching := true, timer := Running(0))
  }

  /** One firing of the interval with the catalog index `idx` drawn. */
  function TickNext(h: PageState, catalog: seq<Food>, idx: nat): (h': PageState)
    requires h.timer.Running? && idx < |catalog|
  {
    var food := catalog[idx];
    var count := h.timer.count + 1;
    if count > LastCount then
      h.(displayFood := Some(food), selectedFood := Some(food), isSearching := false, timer := Stopped)
    else
      h.(displayFood := Some(food), timer := Running(count))
  }

  /** The interval firing with the draws `draws` in turn; once it is cleared
      further draws have no effect. */
  function Ticks(h: PageState, catalog: seq<Food>, draws: seq<nat>): (h': PageState)
    requires forall k :: 0 <= k < |draws| ==> draws[k] < |catalog|
    decreases |draws|
  {
    if draws == [] || h.timer.Stopped? then h
    else Ticks(TickNext(h, catalog, draws[0]), catalog, draws[1..])
  }

  /** `{ lat, lng, address: address || "地圖選定位置" }`. */
  function NewLocation(lat: real, lng: real, address: Option<string>): (loc: Location)
    ensures loc.address != ""
    ensures Truthy(address) ==> loc.address == address.value
  {
    Location(lat, lng, if Truthy(address) then address.value else DefaultAddress)
  }

  /** `updateLocation`: the whole location is replaced and written to the
      cookie as `encode` (`JSON.stringify`) renders it. */
  function UpdateLocation(h: PageState, lat: real, lng: real, address: Option<string>, encode: Location -> string): (h': PageState) {
    var loc := NewLocation(lat, lng, address);
    h.(userLocation := Some(loc), cookie := Some(encode(loc)))
  }

  /** The restore effect on mount: no cookie (or an empty one) and a cookie
      that does not parse both open the modal; a parsed value becomes the
      location as it is. */
  function RestoreSaved(h: PageState, parse: string -> ParseOutcome): (h': PageState) {
    if !Truthy(h.cookie) then h.(isLocationModalOpen := true)
    else
      match parse(h.cookie.value)
      case Malformed => h.(isLocationModalOpen := true)
      case Parsed(v) => h.(userLocation := v)
  }

  /** The address a map click passes on: the first geocoder result's
      address when the status is OK and there is a first result. */
  function GeocodedAddress(reply: GeocodeReply): Option<string> {
    if reply.status == "OK" && reply.results.Some? && |reply.results.value| > 0 then
      reply.results.value[0].formattedAddress
    else None
  }

  /** `handleMapClick` followed by its geocoder callback; a click without a
      position does nothing. */
  function MapClick(h: PageState, latLng: Option<(real, real)>, reply: GeocodeReply, encode: Location -> string): (h': PageState) {
    if latLng.None? then h
    else UpdateLocation(h, latLng.value.0, latLng.value.1, GeocodedAddress(reply), encode)
  }

  /** `handlePlaceChanged`: an autocomplete choice with a position sets the
      location, addressed by `formatted_address || name`. */
  function PlaceChanged(h: PageState, place: Option<AutocompletePlace>, encode: Location -> string): (h': PageState) {
    if place.None? || place.value.location.None? then h
    else
      var p := place.value;
      UpdateLocation(h, p.location.value.0, p.location.value.1,
                     if Truthy(p.formattedAddress) then p.formattedAddress else p.name, encode)
  }

  /** `handleUseCurrentLocation` with the device's answer; no answer (no
      geolocation, or a failure, which has no handler) changes nothing. */
  function UseCurrentLocation(h: PageState, position: Option<(real, real)>, encode: Location -> string): (h': PageState) {
    if position.None? then h
    else UpdateLocation(h, position.value.0, position.value.1, Some(CurrentPositionAddress), encode)
  }

  /** A click on the button: ignored while a draw runs, so two draws never
      overlap; without a location it opens the modal and starts no draw;
      with one it starts the interval from zero and touches neither food. */
  lemma PressRandomSpec(h: PageState)
    ensures h.isSearching ==> PressRandom(h) == h
    ensures !h.isSearching && h.userLocation.None? ==>
              PressRandom(h) == h.(isLocationModalOpen := true)
    ensures !h.isSearching && h.userLocation.Some? ==>
              && PressRandom(h).isSearching
              && PressRandom(h).timer == Running(0)
              && PressRandom(h).displayFood == h.displayFood
              && PressRandom(h).selectedFood == h.selectedFood
              && PressRandom(h).userLocation == h.userLocation
  {
  }

  /** From a running interval at count `c`: while fewer than `11 - c` more
      draws have come, the interval runs on, each draw is displayed and
      nothing is selected; the draw that brings the count to 11 is displayed
      and selected, the interval stops and searching ends; later draws have
      no effect. */
  lemma {:induction false} TicksFrom(h: PageState, catalog: seq<Food>, draws: seq<nat>)
    requires h.timer.Running? && h.timer.count <= LastCount && h.isSearching
    requires forall k :: 0 <= k < |draws| ==> draws[k] < |catalog|
    ensures |draws| <= LastCount - h.timer.count ==>
      Ticks(h, catalog, draws)
      == h.(timer := Running(h.timer.count + |draws|),
            displayFood := if draws == [] then h.displayFood else Some(catalog[draws[|draws| - 1]]))
    ensures |draws| > LastCount - h.timer.count ==>
      var food := Some(catalog[draws[LastCount - h.timer.count]]);
      Ticks(h, catalog, draws)
      == h.(timer := Stopped, isSearching := false, displayFood := food, selectedFood := food)
    decreases |draws|
  {
    if draws != [] {
      var next := TickNext(h, catalog, draws[0]);
      if h.timer.count == LastCount {
        assert Ticks(next, catalog, draws[1..]) == next;
      } else {
        TicksFrom(next, catalog, draws[1..]);
        if |draws| > 1 {
          assert draws[1..][|draws| - 2] == draws[|draws| - 1];
        }
      }
    }
  }

  /** A draw started with a location: exactly 11 ticks are displayed, only
      the 11th is selected, searching ends with it, and the interval is
      stopped afterwards. */
  lemma ElevenDraws(h: PageState, catalog: seq<Food>, draws: seq<nat>)
    requires Valid(h) && !h.isSearching && h.userLocation.Some?
    requires forall k :: 0 <= k < |draws| ==> draws[k] < |catalog|
    ensures |draws| <= LastCount ==>
      && Ticks(PressRandom(h), catalog, draws).isSearching
      && Ticks(PressRandom(h), catalog, draws).selectedFood == h.selectedFood
    ensures |draws| > LastCount ==>
      && Ticks(PressRandom(h), catalog, draws) == Ticks(PressRandom(h), catalog, draws[..LastCount + 1])
      && Ticks(PressRandom(h), catalog, draws).selectedFood == Some(catalog[draws[LastCount]])
      && Ticks(PressRandom(h), catalog, draws).displayFood == Some(catalog[draws[LastCount]])
      && !Ticks(PressRandom(h), catalog, draws).isSearching
      && Ticks(PressRandom(h), catalog, draws).timer.Stopped?
  {
    var start := PressRandom(h);
    TicksFrom(start, catalog, draws);
    if |draws| > LastCount {
      TicksFrom(start, catalog, draws[..LastCount + 1]);
    }
  }

  /** Every transition keeps the selector's flag and interval in step. */
  lemma TransitionsKeepValid(h: PageState, catalog: seq<Food>, idx: nat, parse: string -> ParseOutcome)
    requires Valid(h)
    ensures Valid(PressRandom(h))
    ensures h.timer.Running? && idx < |catalog| ==> Valid(TickNext(h, catalog, idx))
    ensures Valid(RestoreSaved(h, parse))
    ensures forall lat, lng, a, e :: Valid(UpdateLocation(h, lat, lng, a, e))
    ensures forall latLng, reply, e :: Valid(MapClick(h, latLng, reply, e))
    ensures forall place, e :: Valid(PlaceChanged(h, place, e))
    ensures forall position, e :: Valid(UseCurrentLocation(h, position, e))
  {
  }

  /** `updateLocation` replaces the whole location: the new coordinates, the
      given address unless it is missing or empty, the default address
      otherwise; the cookie holds the new location; the selector and the
      modal are untouched. */
  lemma UpdateLocationSpec(h: PageState, lat: real, lng: real, address: Option<string>, encode: Location -> string)
    ensures
      var h' := UpdateLocation(h, lat, lng, address, encode);
      && h'.userLocation.Some?
      && h'.userLocation.value.lat == lat && h'.userLocation.value.lng == lng
      && h'.userLocation.value.address == (if Truthy(address) then address.value else DefaultAddress)
      && h'.cookie == Some(encode(h'.userLocation.value))
      && h' == h.(userLocation := h'.userLocation, cookie := h'.cookie)
  {
  }

  /** The three outcomes of the restore effect, and what it leaves alone. */
  lemma RestoreSavedSpec(h: PageState, parse: string -> ParseOutcome)
    ensures !Truthy(h.cookie) ==>
              RestoreSaved(h, parse) == h.(isLocationModalOpen := true)
    ensures Truthy(h.cookie) && parse(h.cookie.value).Malformed? ==>
              RestoreSaved(h, parse) == h.(isLocationModalOpen := true)
    ensures Truthy(h.cookie) && parse(h.cookie.value).Parsed? ==>
              RestoreSaved(h, parse) == h.(userLocation := parse(h.cookie.value).value)
  {
  }

  /** On mount: without a cookie, or with one that does not parse, the
      modal opens and there is still no location; a cookie that parses to a
      location restores it and the modal stays closed. A cookie holding
      `null` restores no location and opens no modal. */
  lemma StartupRestore(cookie: Option<string>, parse: string -> ParseOutcome)
    ensures !Truthy(cookie) ==>
              RestoreSaved(Mounted(cookie), parse).isLocationModalOpen
              && RestoreSaved(Mounted(cookie), parse).userLocation.None?
    ensures Truthy(cookie) && parse(cookie.value).Malformed? ==>
              RestoreSaved(Mounted(cookie), parse).isLocationModalOpen
              && RestoreSaved(Mounted(cookie), parse).userLocation.None?
    ensures Truthy(cookie) && parse(cookie.value).Parsed? ==>
              !RestoreSaved(Mounted(cookie), parse).isLocationModalOpen
              && RestoreSaved(Mounted(cookie), parse).userLocation == parse(cookie.value).value
  {
  }

  /** A location written by `updateLocation` is the one the next mount
      restores, provided the JSON encoding reads back as written. */
  lemma PersistedLocationRestores(h: PageState, lat: real, lng: real, address: Option<string>,
                                  encode: Location -> string, parse: string -> ParseOutcome)
    requires encode(NewLocation(lat, lng, address)) != ""
    requires parse(encode(NewLocation(lat, lng, address))) == Parsed(Some(NewLocation(lat, lng, address)))
    ensures
      var saved := UpdateLocation(h, lat, lng, address, encode).cookie;
      && RestoreSaved(Mounted(saved), parse).userLocation == Some(NewLocation(lat, lng, address))
      && !RestoreSaved(Mounted(saved), parse).isLocationModalOpen
  {
  }

  /** A map click takes the first geocoder result's address when the
      status is OK and that result has a non-empty address, and the default
      address otherwise. */
  lemma MapClickAddress(h: PageState, lat: real, lng: real, reply: GeocodeReply, encode: Location -> string)
    ensures
      var loc := MapClick(h, Some((lat, lng)), reply, encode).userLocation;
      var first := if reply.status == "OK" && reply.results.Some? && |reply.results.value| > 0
                   then reply.results.value[0].formattedAddress else None;
      && loc.Some? && loc.value.lat == lat && loc.value.lng == lng
      && loc.value.address == (if Truthy(first) then first.value else DefaultAddress)
    ensures MapClick(h, None, reply, encode) == h
  {
  }

  /** An autocomplete choice with a position is addressed by the first
      non-empty of its formatted address, its name and the default. */
  lemma PlaceChangedAddress(h: PageState, p: AutocompletePlace, encode: Location -> string)
    requires p.location.Some?
    ensures
      var loc := PlaceChanged(h, Some(p), encode).userLocation;
      && loc.Some?
      && loc.value.address == (if Truthy(p.formattedAddress) then p.formattedAddress.value
                               else if Truthy(p.name) then p.name.value
                               else DefaultAddress)
  {
  }

  /** The device's position sets the location at those coordinates with
      the address 目前位置; without an answer nothing changes. */
  lemma UseCurrentLocationSpec(h: PageState, position: Option<(real, real)>, encode: Location -> string)
    ensures position.None? ==> UseCurrentLocation(h, position, encode) == h
    ensures position.Some? ==>
      var loc := Location(position.value.0, position.value.1, CurrentPositionAddress);
      UseCurrentLocation(h, position, encode) == h.(userLocation := Some(loc), cookie := Some(encode(loc)))
  {
  }
}
