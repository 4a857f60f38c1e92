/**
 * The navigation session of the map screen: the state `MapView` keeps in `useState`
 * and the event handlers that change it. `Step` specifies one handler run over a value of
 * the state; `MapSession` is the same state as mutable fields, each handler a method
 * proved against `Step`.
 */
module Session {
  import opened Wrappers
  import opened MapStyles
  import opened Facilities
  import opened Narration
  import opened Translation

  /**
   * The session state. `spoken` records every utterance handed to speech synthesis and
   * `alerts` every `alert` shown, oldest first.
   */
  datatype SessionState = SessionState(
    userLocation: Option<LatLng>,
    destination: Option<LatLng>,
    selectedHospital: Option<Facility>,
    selectedBasemap: string,
    voiceLanguage: string,
    isVoiceEnabled: bool,
    spoken: seq<Utterance>,
    alerts: seq<string>)

  /** The `useState` initial values. */
  const Initial: SessionState := SessionState(None, None, None, DefaultBasemap, English, true, [], [])

  /** Where the map puts the user when the first position request fails (Islamabad). */
  const FallbackLocation: LatLng := LatLng(33.6844, 73.0479)

  const LocationAlert: string := "Please enable location services to get directions"

  /** The events the session reacts to. */
  datatype Event =
    | LocationFound(position: LatLng)             // a position from the browser: first fix, watch or button
    | InitialLocationFailed                        // the first position request failed
    | HospitalClick(hospital: Facility, coordinates: LatLng)
    | ClearRoute
    | ToggleVoice
    | SelectBasemap(key: string)
    | SelectVoiceLanguage(language: string)
    | RoutesFound(routes: seq<Route>)              // the router's `routesfound` event

  /**
   * What can actually be delivered in state s: the menus only offer table keys and the two
   * languages, a `routesfound` event carries at least one route, and it can only come from the
   * routing control, which is mounted only while both the user location and a destination are set.
   */
  predicate Deliverable(s: SessionState, e: Event)
  {
    match e
    case SelectBasemap(key) => key in Basemaps
    case SelectVoiceLanguage(language) => language in Languages
    case RoutesFound(routes) => |routes| > 0 && s.userLocation.Some? && s.destination.Some?
    case _ => true
  }

  /** The utterance list `speakInstructions` adds when voice is on. */
  function Say(s: SessionState, text: string): seq<Utterance>
  {
    if s.isVoiceEnabled then [Speak(text, s.voiceLanguage)] else []
  }

  /** One handler run. */
  function Step(s: SessionState, e: Event): SessionState
    requires Deliverable(s, e)
  {
    match e
    case LocationFound(p) => s.(userLocation := Some(p))
    case InitialLocationFailed => s.(userLocation := Some(FallbackLocation))
    case HospitalClick(h, c) =>
      if s.userLocation.None? then s.(alerts := s.alerts + [LocationAlert])
      else s.(destination := Some(c), selectedHospital := Some(h),
              spoken := s.spoken + Say(s, SelectionMessage(s.voiceLanguage, h.name)))
    case ClearRoute =>
      s.(destination := None, selectedHospital := None,
         spoken := s.spoken + Say(s, ClearedMessage(s.voiceLanguage)))
    case ToggleVoice => s.(isVoiceEnabled := !s.isVoiceEnabled)
    case SelectBasemap(key) => s.(selectedBasemap := key)
    case SelectVoiceLanguage(language) => s.(voiceLanguage := language)
    case RoutesFound(routes) =>
      var a := RouteAnnouncement(s.isVoiceEnabled, s.voiceLanguage, routes);
      s.(spoken := s.spoken + if a.Some? then [a.value] else [])
  }

  /**
   * The session invariant: a destination and a selected facility are set and cleared
   * together, a destination exists only once a location is known, and the basemap and
   * language are ones the screen knows.
   */
  predicate Inv(s: SessionState)
  {
    && (s.destination.Some? <==> s.selectedHospital.Some?)
    && (s.destination.Some? ==> s.userLocation.Some?)
    && s.selectedBasemap in Basemaps
    && s.voiceLanguage in Languages
  }

  /** `hasRoute={!!destination}`. */
  predicate HasRoute(s: SessionState)
  {
    s.destination.Some?
  }

  /** The tile layer shown, `basemaps[selectedBasemap]`; under the invariant it always exists. */
  function CurrentBasemap(s: SessionState): Basemap
    requires Inv(s)
  {
    Basemaps[s.selectedBasemap]
  }

  /** Every event of the sequence can be delivered in the state the earlier ones lead to. */
  predicate Admissible(s: SessionState, events: seq<Event>)
    decreases |events|
  {
    events == [] || (Deliverable(s, events[0]) && Admissible(Step(s, events[0]), events[1..]))
  }

  /** The state after handling the events in order. */
  function Run(s: SessionState, events: seq<Event>): SessionState
    requires Admissible(s, events)
    decreases |events|
  {
    if events == [] then s else Run(Step(s, events[0]), events[1..])
  }

  /** The defaults: voice on, English, OpenStreetMap tiles, nothing selected. */
  lemma InitialValid()
    ensures Inv(Initial) && !HasRoute(Initial)
    ensures Initial.isVoiceEnabled && Initial.voiceLanguage == English
    ensures Initial.selectedBasemap == "osm" && "osm" in Basemaps
  {
  }

  lemma StepPreservesInv(s: SessionState, e: Event)
    requires Inv(s) && Deliverable(s, e)
    ensures Inv(Step(s, e))
  {
  }

  /** The invariant holds after every sequence of events from any valid state. */
  lemma {:induction false} RunPreservesInv(s: SessionState, events: seq<Event>)
    requires Inv(s) && Admissible(s, events)
    ensures Inv(Run(s, events))
    decreases |events|
  {
    if events != [] {
      StepPreservesInv(s, events[0]);
      RunPreservesInv(Step(s, events[0]), events[1..]);
    }
  }

  /** Without a known location a click only raises the alert: nothing is selected or spoken. */
  lemma ClickWithoutLocation(s: SessionState, h: Facility, c: LatLng)
    requires s.userLocation.None?
    ensures var t := Step(s, HospitalClick(h, c));
      && t.destination == s.destination && t.selectedHospital == s.selectedHospital
      && t.spoken == s.spoken
      && t.alerts == s.alerts + [LocationAlert]
      && t == s.(alerts := t.alerts)
  {
  }

  /**
   * With a known location a click selects the facility and its position together and, with
   * voice on, announces the route in the current language.
   */
  lemma ClickWithLocation(s: SessionState, h: Facility, c: LatLng)
    requires s.userLocation.Some?
    ensures var t := Step(s, HospitalClick(h, c));
      && t.destination == Some(c) && t.selectedHospital == Some(h)
      && |t.spoken| == |s.spoken| + (if s.isVoiceEnabled then 1 else 0)
      && t.spoken[..|s.spoken|] == s.spoken
      && (s.isVoiceEnabled ==>
            t.spoken[|s.spoken|] == Utterance(SelectionMessage(s.voiceLanguage, h.name), SpeechTag(s.voiceLanguage)))
      && t.alerts == s.alerts
      && t == s.(destination := t.destination, selectedHospital := t.selectedHospital, spoken := t.spoken)
  {
  }

  /**
   * Clearing empties the destination and the selection whatever the state was, and with
   * voice on announces it even when there was no route.
   */
  lemma ClearRouteAlways(s: SessionState)
    ensures var t := Step(s, ClearRoute);
      && t.destination.None? && t.selectedHospital.None? && !HasRoute(t)
      && t.spoken == s.spoken + (if s.isVoiceEnabled then [Speak(ClearedMessage(s.voiceLanguage), s.voiceLanguage)] else [])
      && t == s.(destination := None, selectedHospital := None, spoken := t.spoken)
  {
  }

  /** The toggle flips the flag and nothing else; toggling twice restores the state. */
  lemma ToggleVoiceFlips(s: SessionState)
    ensures Step(s, ToggleVoice) == s.(isVoiceEnabled := !s.isVoiceEnabled)
    ensures Step(Step(s, ToggleVoice), ToggleVoice) == s
  {
  }

  /** The menus change only the field they set. */
  lemma SettersChangeOneField(s: SessionState, key: string, language: string)
    requires key in Basemaps && language in Languages
    ensures Step(s, SelectBasemap(key)) == s.(selectedBasemap := key)
    ensures Step(s, SelectVoiceLanguage(language)) == s.(voiceLanguage := language)
  {
  }

  /** A failed first position request puts the user at the fallback location. */
  lemma InitialFailureFallsBack(s: SessionState)
    ensures Step(s, InitialLocationFailed) == s.(userLocation := Some(LatLng(33.6844, 73.0479)))
  {
  }

  /** Handlers only ever append to the utterance and alert logs. */
  lemma {:induction false} LogsOnlyGrow(s: SessionState, events: seq<Event>)
    requires Admissible(s, events)
    ensures var t := Run(s, events);
      && |s.spoken| <= |t.spoken| && t.spoken[..|s.spoken|] == s.spoken
      && |s.alerts| <= |t.alerts| && t.alerts[..|s.alerts|] == s.alerts
    decreases |events|
  {
    if events != [] {
      var s' := Step(s, events[0]);
      LogsOnlyGrow(s', events[1..]);
      assert s'.spoken[..|s.spoken|] == s.spoken;
      assert s'.alerts[..|s.alerts|] == s.alerts;
    }
  }

  /** Announcements are made only while voice is on: muted, with no toggle, nothing is spoken. */
  lemma {:induction false} SilentWhileMuted(s: SessionState, events: seq<Event>)
    requires Admissible(s, events) && !s.isVoiceEnabled
    requires forall i :: 0 <= i < |events| ==> events[i] != ToggleVoice
    ensures Run(s, events).spoken == s.spoken
    ensures !Run(s, events).isVoiceEnabled
    decreases |events|
  {
    if events != [] {
      assert events[0] != ToggleVoice;
      SilentWhileMuted(Step(s, events[0]), events[1..]);
    }
  }

  /** Once a location is known it stays known, so every later click selects its facility. */
  lemma {:induction false} LocationStaysKnown(s: SessionState, events: seq<Event>)
    requires Admissible(s, events) && s.userLocation.Some?
    ensures Run(s, events).userLocation.Some?
    ensures Run(s, events).alerts == s.alerts
    decreases |events|
  {
    if events != [] {
      LocationStaysKnown(Step(s, events[0]), events[1..]);
    }
  }

  /**
   * The "Get Directions" button of the head-office marker: with a known location and voice on
   * in English, it selects the head office at its fixed position and announces the route to it.
   */
  lemma HeadquartersClick(s: SessionState)
    requires s.userLocation.Some? && s.isVoiceEnabled && s.voiceLanguage == English
    ensures var t := Step(s, HospitalClick(Headquarters, HeadquartersPosition));
      && t.destination == Some(LatLng(33.6844, 73.0479))
      && t.selectedHospital == Some(Headquarters)
      && t.spoken == s.spoken + [Utterance("Calculating route to SehatPlus HQ", "en-US")]
  {
    assert EnglishSelectionPrefix + Headquarters.name == "Calculating route to SehatPlus HQ";
  }

  /**
   * A whole navigation: the first position request fails, the user picks a facility, and
   * the router answers with three instructions. The session then shows the facility and says
   * the route is being calculated and then the first instruction.
   */
  lemma NavigationScenario(h: Facility, c: LatLng, first: string)
    requires first != ""
    ensures
      var i1 := Instruction(Some(first), None);
      var i2 := Instruction(Some("Turn left"), None);
      var i3 := Instruction(None, Some("Arrive at destination"));
      var events := [InitialLocationFailed, HospitalClick(h, c), RoutesFound([Route(Some([i1, i2, i3]))])];
      && Admissible(Initial, events)
      && var t := Run(Initial, events);
      && t.userLocation == Some(FallbackLocation)
      && t.destination == Some(c) && t.selectedHospital == Some(h)
      && t.spoken == [Utterance(EnglishSelectionPrefix + h.name, "en-US"), Utterance(first, "en-US")]
  {
    var i1 := Instruction(Some(first), None);
    var i2 := Instruction(Some("Turn left"), None);
    var i3 := Instruction(None, Some("Arrive at destination"));
    var routes := [Route(Some([i1, i2, i3]))];
    var events := [InitialLocationFailed, HospitalClick(h, c), RoutesFound(routes)];
    var s1 := Step(Initial, events[0]);
    var s2 := Step(s1, events[1]);
    var s3 := Step(s2, events[2]);
    assert events[1..][1..] == [events[2]] && [events[2]][1..] == [];
    assert Admissible(s3, []) && Run(s3, []) == s3;
    assert Run(s2, [events[2]]) == s3;
    assert Run(s1, events[1..]) == s3;
  }

  /** The session as `MapView` holds it: one field per `useState` entry plus the two logs. */
  class MapSession {
    var userLocation: Option<LatLng>
    var destination: Option<LatLng>
    var selectedHospital: Option<Facility>
    var selectedBasemap: string
    var voiceLanguage: string
    var isVoiceEnabled: bool
    var spoken: seq<Utterance>
    var alerts: seq<string>

    function State(): SessionState
      reads this
    {
      SessionState(userLocation, destination, selectedHospital, selectedBasemap,
                   voiceLanguage, isVoiceEnabled, spoken, alerts)
    }

    predicate Valid()
      reads this
    {
      Inv(State())
    }

    constructor ()
      ensures Valid() && State() == Initial
    {
      userLocation := None;
      destination := None;
      selectedHospital := None;
      selectedBasemap := DefaultBasemap;
      voiceLanguage := English;
      isVoiceEnabled := true;
      spoken := [];
      alerts := [];
    }

    /** `basemaps[selectedBasemap]`, defined in every valid state. */
    function CurrentTiles(): (b: Basemap)
      reads this
      requires Valid()
      ensures selectedBasemap in Basemaps && b == Basemaps[selectedBasemap]
      ensures b in Basemaps.Values
    {
      CurrentBasemap(State())
    }

    /** `setUserLocation([lat, lng])` from the first fix, the watch or the location button. */
    method OnLocationFound(position: LatLng)
      requires Valid()
      modifies this
      ensures Valid() && State() == Step(old(State()), LocationFound(position))
      ensures userLocation == Some(position)
    {
      userLocation := Some(position);
    }

    /** The error callback of the first position request. */
    method OnInitialLocationError()
      requires Valid()
      modifies this
      ensures Valid() && State() == Step(old(State()), InitialLocationFailed)
      ensures userLocation == Some(FallbackLocation)
    {
      userLocation := Some(FallbackLocation);
    }

    /** `handleHospitalClick(hospitalData, coordinates)`. */
    method HandleHospitalClick(hospital: Facility, coordinates: LatLng)
      requires Valid()
      modifies this
      ensures Valid() && State() == Step(old(State()), HospitalClick(hospital, coordinates))
      ensures old(userLocation).None? ==>
        destination == old(destination) && selectedHospital == old(selectedHospital) && spoken == old(spoken)
      ensures old(userLocation).Some? ==>
        destination == Some(coordinates) && selectedHospital == Some(hospital)
    {
      if userLocation.None? {
        alerts := alerts + [LocationAlert];
        return;
      }
      destination := Some(coordinates);
      selectedHospital := Some(hospital);
      if isVoiceEnabled {
        var message := SelectionMessage(voiceLanguage, hospital.name);
        spoken := spoken + [Speak(message, voiceLanguage)];
      }
    }

    /** `handleClearRoute()`. */
    method HandleClearRoute()
      requires Valid()
      modifies this
      ensures Valid() && State() == Step(old(State()), ClearRoute)
      ensures destination.None? && selectedHospital.None?
    {
      destination := None;
      selectedHospital := None;
      if isVoiceEnabled {
        var message := ClearedMessage(voiceLanguage);
        spoken := spoken + [Speak(message, voiceLanguage)];
      }
    }

    /** `onToggleVoice`: `setIsVoiceEnabled(!isVoiceEnabled)`. */
    method ToggleVoice()
      requires Valid()
      modifies this
      ensures Valid() && State() == Step(old(State()), Event.ToggleVoice)
      ensures isVoiceEnabled == !old(isVoiceEnabled)
    {
      isVoiceEnabled := !isVoiceEnabled;
    }

    /** `onBasemapChange`: `setSelectedBasemap(key)`. */
    method SetBasemap(key: string)
      requires Valid() && key in Basemaps
      modifies this
      ensures Valid() && State() == Step(old(State()), SelectBasemap(key))
      ensures selectedBasemap == key
    {
      selectedBasemap := key;
    }

    /** `onVoiceLanguageChange`: `setVoiceLanguage(language)`. */
    method SetVoiceLanguage(language: string)
      requires Valid() && language in Languages
      modifies this
      ensures Valid() && State() == Step(old(State()), SelectVoiceLanguage(language))
      ensures voiceLanguage == language
    {
      voiceLanguage := language;
    }

    /** The `routesfound` listener of the routing control. */
    method OnRoutesFound(routes: seq<Route>)
      requires Valid() && |routes| > 0 && userLocation.Some? && destination.Some?
      modifies this
      ensures Valid() && State() == Step(old(State()), RoutesFound(routes))
    {
      if isVoiceEnabled {
        var route := routes[0];
        var instructions := InstructionsOf(route);
        if |instructions| > 0 {
          var instruction := InstructionText(instructions[0]);
          if voiceLanguage == Urdu {
            instruction := TranslateToUrdu(instruction);
          }
          spoken := spoken + [Speak(instruction, voiceLanguage)];
        }
      }
    }
  }
}
