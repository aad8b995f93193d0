/**
 * The page component `Home` (app/page.tsx) as an object whose fields are its
 * React state, the `user_location` cookie, and the selector's interval with
 * the counter its closure updates. Each handler updates the fields in place
 * and is tied to the matching transition of `HomeState`.
 */
module HomePage {
  import opened Wrappers
  import opened HomeState

  class Home {
    /** The food catalog the selector draws from. */
    const catalog: seq<Food>
    /** `JSON.stringify` of a location, and `JSON.parse` of the cookie. */
    const encode: Location -> string
    const parse: string -> ParseOutcome

    var displayFood: Option<Food>
    var selectedFood: Option<Food>
    var isSearching: bool
    var userLocation: Option<Location>
    var isLocationModalOpen: bool
    /** The browser's `user_location` cookie. */
    var cookie: Option<string>
    /** Whether the selector's interval is set, and its closure's `count`. */
    var intervalRunning: bool
    var count: nat

    ghost function State(): PageState
      reads this
    {
      PageState(displayFood, selectedFood, isSearching,
                if intervalRunning then Running(count) else Stopped,
                userLocation, isLocationModalOpen, cookie)
    }

    ghost predicate Valid()
      reads this
    {
      |catalog| > 0 && HomeState.Valid(State())
    }

    /** Mounting the page with the cookie the browser holds. */
    constructor (catalog: seq<Food>, encode: Location -> string, parse: string -> ParseOutcome, savedCookie: Option<string>)
      requires |catalog| > 0
      ensures Valid()
      ensures this.catalog == catalog && this.encode == encode && this.parse == parse
      ensures State() == Mounted(savedCookie)
    {
      this.catalog := catalog;
      this.encode := encode;
      this.parse := parse;
      displayFood, selectedFood, isSearching := None, None, false;
      userLocation, isLocationModalOpen := None, false;
      cookie := savedCookie;
      intervalRunning, count := false, 0;
    }

    /** The mount effect that restores the saved location. */
    method LoadSavedLocation()
      requires Valid()
      modifies this
      ensures Valid()
      ensures State() == RestoreSaved(old(State()), parse)
    {
      if cookie.Some? && cookie.value != "" {
        match parse(cookie.value)
        case Malformed =>
          isLocationModalOpen := true;
        case Parsed(v) =>
          userLocation := v;
      } else {
        isLocationModalOpen := true;
      }
    }

    /** A click on the random-select button: dropped while the button is
        disabled, else `handleRandomSelect`. */
    method PressRandomButton()
      requires Valid()
      modifies this
      ensures Valid()
      ensures State() == PressRandom(old(State()))
    {
      if isSearching {
        return;
      }
      if userLocation.None? {
        isLocationModalOpen := true;
        return;
      }
      isSearching := true;
      count := 0;
      intervalRunning := true;
    }

    /** One firing of the interval, with `random` the value of
        `Math.random()`; the drawn index is always inside the catalog. */
    method Tick(random: real)
      requires Valid() && intervalRunning
      requires 0.0 <= random < 1.0
      modifies this
      ensures Valid()
      ensures State() == TickNext(old(State()), catalog, RandomIndex(random, |catalog|))
    {
      var randomIndex := RandomIndex(random, |catalog|);
      var randomFood := catalog[randomIndex];
      displayFood := Some(randomFood);
      count := count + 1;
      if count > LastCount {
        intervalRunning := false;
        selectedFood := Some(randomFood);
        isSearching := false;
      }
    }

    /** `updateLocation`. */
    method UpdateLocation(lat: real, lng: real, address: Option<string>)
      requires Valid()
      modifies this
      ensures Valid()
      ensures State() == HomeState.UpdateLocation(old(State()), lat, lng, address, encode)
    {
      var newLocation := Location(lat, lng, if address.Some? && address.value != "" then address.value else DefaultAddress);
      userLocation := Some(newLocation);
      cookie := Some(encode(newLocation));
    }

    /** `handleMapClick` together with its geocoder callback. */
    method HandleMapClick(latLng: Option<(real, real)>, reply: GeocodeReply)
      requires Valid()
      modifies this
      ensures Valid()
      ensures State() == MapClick(old(State()), latLng, reply, encode)
    {
      if latLng.Some? {
        var (lat, lng) := latLng.value;
        if reply.status == "OK" && reply.results.Some? && |reply.results.value| > 0 {
          UpdateLocation(lat, lng, reply.results.value[0].formattedAddress);
        } else {
          UpdateLocation(lat, lng, None);
        }
      }
    }

    /** `handlePlaceChanged`, with `place` absent when the autocomplete
        widget has not loaded. */
    method HandlePlaceChanged(place: Option<AutocompletePlace>)
      requires Valid()
      modifies this
      ensures Valid()
      ensures State() == PlaceChanged(old(State()), place, encode)
    {
      if place.Some? && place.value.location.Some? {
        var p := place.value;
        var address := if p.formattedAddress.Some? && p.formattedAddress.value != "" then p.formattedAddress else p.name;
        UpdateLocation(p.location.value.0, p.location.value.1, address);
      }
    }

    /** The location button in the header opens the modal. */
    method OpenLocationModal()
      requires Valid()
      modifies this
      ensures Valid()
      ensures State() == old(State()).(isLocationModalOpen := true)
    {
      isLocationModalOpen := true;
    }

    /** The modal's close button, and its confirm button, close it. */
    method CloseLocationModal()
      requires Valid()
      modifies this
      ensures Valid()
      ensures State() == old(State()).(isLocationModalOpen := false)
    {
      isLocationModalOpen := false;
    }

    /** `handleUseCurrentLocation` with the device's answer. */
    method HandleUseCurrentLocation(position: Option<(real, real)>)
      requires Valid()
      modifies this
      ensures Valid()
      ensures State() == UseCurrentLocation(old(State()), position, encode)
    {
      if position.Some? {
        UpdateLocation(position.value.0, position.value.1, Some(CurrentPositionAddress));
      }
    }
  }
}
