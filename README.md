# Navigation session of the SehatPlus map screen

This project models the part of the SehatPlus web front end that behaves like a state
machine. That part is the navigation session of the map screen (`MapView`). The session
knows where the user is, which healthcare facility is selected and where its route goes. It
also holds the tile style and the voice settings, and it decides what is said aloud.

The model is split into modules:

- `Wrappers` holds `Option`. `Js` gives the meaning of JavaScript's logical or for values
  that may be missing, empty or present.
- `CaseInsensitive` covers the string work `translateToUrdu` does: ASCII
  `toLowerCase`, `includes`, and `replace` with a case-insensitive global regular expression.
  That last one does a left-to-right, non-overlapping replacement of every occurrence.
- `Translation` holds the English-to-Urdu phrase table and `translateToUrdu`.
- `MapStyles` holds the `basemaps` table and the default style.
- `Facilities` holds the conversion of a GeoJSON feature into the `hospitalData` record a
  marker hands to the session, and the fixed head-office record.
- `Narration` covers the speech language tag, the announcements, and the choice of the
  first route instruction.
- `Session` holds the session state and the events that change it. The pure function
  `Step` specifies one handler run, and `Run` a sequence of them. The class `MapSession`
  keeps the same state as mutable fields, with one method per handler. Each method is
  proved to leave exactly the state `Step` describes.

## Model

| member | source | states |
|---|---|---|
| Js.OrElse | frontend/src/pages/map.jsx:469-470 | the logical or of two possibly missing values is one of the two, the first whenever it is present and non-empty, and it is present and non-empty exactly when one of the operands is |
| Js.OrDefault | frontend/src/pages/map.jsx:467-468 | a possibly missing value or'ed with a default is either the default or the value itself, the value whenever it is present and non-empty, and never empty when the default is not |
| CaseInsensitive.LowerStr | frontend/src/pages/map.jsx:88 | lower-casing keeps the length |
| CaseInsensitive.Includes | frontend/src/pages/map.jsx:88 | no contract; `includes` as a left-to-right scan, specified by IncludesIff |
| CaseInsensitive.ContainsCI | frontend/src/pages/map.jsx:88 | no contract; the `toLowerCase().includes(...)` test, specified by ContainsIffMatch and ContainsIffFirstMatch |
| CaseInsensitive.ReplaceAllCI | frontend/src/pages/map.jsx:89 | no contract; the case-insensitive global replacement, specified by ReplaceWithoutMatch and ReplaceAtFirstMatch |
| CaseInsensitive.IncludesIff | frontend/src/pages/map.jsx:88 | the left-to-right `includes` scan succeeds exactly when the pattern occurs at some position |
| CaseInsensitive.EqualsCIIff | frontend/src/pages/map.jsx:89 | two strings are equal up to case exactly when they have the same length and agree at every position after lower-casing |
| CaseInsensitive.LowerStrEqIff | frontend/src/pages/map.jsx:88-89 | comparing lower-cased strings is the same as comparing up to case, so the `includes` test and the regular-expression match see the same occurrences |
| CaseInsensitive.ContainsIffMatch | frontend/src/pages/map.jsx:88-89 | `s.toLowerCase().includes(k.toLowerCase())` holds exactly when k matches s, ignoring case, at some position |
| CaseInsensitive.FirstMatch | frontend/src/pages/map.jsx:89 | a reported first match lies inside the string |
| CaseInsensitive.FirstMatchSpec | frontend/src/pages/map.jsx:89 | the search reports the leftmost case-insensitive match, and reports none only when there is no match anywhere |
| CaseInsensitive.ContainsIffFirstMatch | frontend/src/pages/map.jsx:88-89 | the `includes` test succeeds exactly when the regular expression finds a match |
| CaseInsensitive.ReplaceWithoutMatch | frontend/src/pages/map.jsx:89 | without a case-insensitive occurrence, the replacement returns the string unchanged |
| CaseInsensitive.ReplaceAtFirstMatch | frontend/src/pages/map.jsx:89 | the replacement keeps the text before the first match verbatim, puts the phrase in place of that match, and goes on replacing after it |
| CaseInsensitive.NotContainedWithoutLetter | frontend/src/pages/map.jsx:88 | a key with a letter that the text lacks in either case does not occur in the text |
| Translation.TranslateWith | frontend/src/pages/map.jsx:87-92 | no contract; the table loop as a recursion on the table, specified by TranslateOutsideTable and TranslateFirstKey |
| Translation.TranslateToUrdu | frontend/src/pages/map.jsx:72-93 | no contract; specified by TranslateToUrduFirstKey, TranslateToUrduChangesIff and TableOrderWins |
| Translation.UrduPhrasesWellFormed | frontend/src/pages/map.jsx:74-84 | every English key is non-empty, and every Urdu phrase starts with a character that differs from its key's first letter in either case |
| Translation.TranslateOutsideTable | frontend/src/pages/map.jsx:87-92 | when no key of the table occurs in the instruction, the instruction comes back unchanged |
| Translation.TranslateFirstKey | frontend/src/pages/map.jsx:87-90 | the first key in table order that occurs decides the result: all its occurrences are replaced by its Urdu phrase, and later keys are never tried |
| Translation.FirstKeyExists | frontend/src/pages/map.jsx:87-88 | when some key occurs, one of the keys at or before it is the first key that occurs |
| Translation.TranslateToUrduFirstKey | frontend/src/pages/map.jsx:72-93 | `translateToUrdu` is the replacement of the first occurring key of its own table |
| Translation.TranslateToUrduChangesIff | frontend/src/pages/map.jsx:72-93 | `translateToUrdu` changes the instruction exactly when some English key occurs in it, ignoring case |
| Translation.TableOrderWins | frontend/src/pages/map.jsx:79-90 | table order, not text order, decides: in "Turn right, then turn left" only "turn left" is translated, and "Turn right" stays in English |
| MapStyles.BasemapTableConsistent | frontend/src/pages/map.jsx:26-57 | the style menu lists each of the five keys once, and the default 'osm' is one of them |
| Facilities.MarkerPosition | frontend/src/pages/map.jsx:465-478 | no contract; the `[lat, lng]` of a feature, specified by PositionRoundTrip |
| Facilities.FacilityFromFeature | frontend/src/pages/map.jsx:464-473 | a facility record always has a non-empty name and address and a position |
| Facilities.FacilityFields | frontend/src/pages/map.jsx:466-471 | name and address fall back to 'Healthcare Facility' and 'Medical facility'; phone falls back to contact and type to category; services is copied |
| Facilities.FacilityWithoutProperties | frontend/src/pages/map.jsx:466-472 | a feature without properties gets the default name and address and nothing else |
| Facilities.PositionRoundTrip | frontend/src/pages/map.jsx:465-481 | the record and the marker click use `[lat, lng]`, the feature's `[lng, lat]` turned round; turning it back gives the feature's first two coordinates |
| Narration.Speak | frontend/src/pages/map.jsx:60-70 | no contract; the utterance `speakInstructions` builds: the text and the tag of SpeechTag |
| Narration.SelectionMessage | frontend/src/pages/map.jsx:410-412 | no contract; specified by SelectionMessageUrduIff |
| Narration.ClearedMessage | frontend/src/pages/map.jsx:423 | no contract; specified by ClearedMessageUrduIff |
| Narration.RouteAnnouncement | frontend/src/pages/map.jsx:330-347 | no contract; specified by RouteAnnouncementSpec and RouteAnnouncementTranslatedIff |
| Narration.SpeechTag | frontend/src/pages/map.jsx:64 | the utterance tag is 'ur-PK' exactly when the language is 'ur', and 'en-US' otherwise |
| Narration.SelectionMessageUrduIff | frontend/src/pages/map.jsx:410-412 | the selection announcement uses the Urdu template exactly when the language is 'ur', and it always contains the facility's name |
| Narration.ClearedMessageUrduIff | frontend/src/pages/map.jsx:423 | the cleared announcement is the Urdu one exactly when the language is 'ur' |
| Narration.InstructionText | frontend/src/pages/map.jsx:337 | the first instruction's text is `text`, else `instruction`, else 'Route found', taking only present non-empty values; it is never empty |
| Narration.RouteAnnouncementSpec | frontend/src/pages/map.jsx:330-347 | a found route is announced exactly when voice is on and the first route has an instruction; the tag is 'ur-PK' exactly when the language is 'ur', and the text is the first instruction, translated exactly when the language is 'ur' |
| Narration.RouteAnnouncementTranslatedIff | frontend/src/pages/map.jsx:337-341 | the spoken text differs from the router's instruction exactly when the language is 'ur' and a phrase of the table occurs in the instruction, ignoring case |
| Session.Step | frontend/src/pages/map.jsx:386-442 | no contract; one handler run, specified by StepPreservesInv, ClickWithoutLocation, ClickWithLocation, ClearRouteAlways, ToggleVoiceFlips, SettersChangeOneField and InitialFailureFallsBack, and implemented by the methods of MapSession |
| Session.InitialValid | frontend/src/pages/map.jsx:363-368 | the session starts with voice on, 'en' and 'osm', with nothing selected, and 'osm' is a key of the style table |
| Session.StepPreservesInv | frontend/src/pages/map.jsx:398-442 | every handler keeps the invariant: destination and selected facility are set and cleared together, a destination exists only once a location is known, and the style and language are known ones |
| Session.RunPreservesInv | frontend/src/pages/map.jsx:398-442 | the invariant holds after any sequence of events |
| Session.ClickWithoutLocation | frontend/src/pages/map.jsx:399-403 | a click without a known location only adds the location alert; nothing else changes |
| Session.ClickWithLocation | frontend/src/pages/map.jsx:405-414 | a click with a known location sets destination and facility together; with voice on it adds exactly one announcement in the current language, otherwise none |
| Session.ClearRouteAlways | frontend/src/pages/map.jsx:418-426 | clearing empties destination and facility from any state; with voice on it announces "Route cleared" even when there was no route |
| Session.ToggleVoiceFlips | frontend/src/pages/map.jsx:442 | the voice toggle flips only its flag; toggling twice restores the state |
| Session.SettersChangeOneField | frontend/src/pages/map.jsx:438-440 | choosing a style or a language changes only that field |
| Session.InitialFailureFallsBack | frontend/src/pages/map.jsx:390-393 | a failed first position request puts the user at [33.6844, 73.0479] |
| Session.LogsOnlyGrow | frontend/src/pages/map.jsx:399-426 | handlers only ever append to what has been said and alerted |
| Session.SilentWhileMuted | frontend/src/pages/map.jsx:330-426 | with voice off and no toggle, nothing is ever said |
| Session.LocationStaysKnown | frontend/src/pages/map.jsx:386-403 | once a location is known it stays known, and no later click raises the alert |
| Session.HeadquartersClick | frontend/src/pages/map.jsx:564-570 | the head-office button, with a known location and voice on in English, selects the head office at [33.6844, 73.0479] and announces "Calculating route to SehatPlus HQ" |
| Session.NavigationScenario | frontend/src/pages/map.jsx:330-414 | first fix fails, a facility is clicked, three instructions come back: the user is at the fallback, the facility is selected, and its announcement and then the first instruction are spoken, both in US English |
| Session.MapSession.constructor | frontend/src/pages/map.jsx:363-368 | the new session holds the initial state and is valid |
| Session.MapSession.CurrentTiles | frontend/src/pages/map.jsx:448-452 | the tile layer is `basemaps[selectedBasemap]`, which is defined in every valid state and is one of the table's entries |
| Session.MapSession.OnLocationFound | frontend/src/pages/map.jsx:388 | the new state is `Step` for a position update; the location is the new position |
| Session.MapSession.OnInitialLocationError | frontend/src/pages/map.jsx:390-393 | the new state is `Step` for the failed first fix; the location is the fallback |
| Session.MapSession.HandleHospitalClick | frontend/src/pages/map.jsx:399-415 | the new state is `Step` for the click; without a location, destination, facility and speech are unchanged; with one, both are set |
| Session.MapSession.HandleClearRoute | frontend/src/pages/map.jsx:418-426 | the new state is `Step` for clearing; destination and facility are empty |
| Session.MapSession.ToggleVoice | frontend/src/pages/map.jsx:442 | the new state is `Step` for the toggle; the flag is negated |
| Session.MapSession.SetBasemap | frontend/src/pages/map.jsx:438 | the new state is `Step` for the style choice; the style is the chosen key |
| Session.MapSession.SetVoiceLanguage | frontend/src/pages/map.jsx:440 | the new state is `Step` for the language choice; the language is the chosen one |
| Session.MapSession.OnRoutesFound | frontend/src/pages/map.jsx:330-348 | the new state is `Step` for a found route: the first instruction is spoken when voice is on, translated when the language is 'ur' |

## Left out

- Rendering: the React components, markers, popups, the control panel and its menus, and the
  Leaflet map. `CurrentTiles` stands for the tile layer.
- The route request. Creating the OSRM routing control is network I/O, and so is its
  scheduling by React effects. A route result is an input to the `RoutesFound` event.
- Session.Step: a `routesfound` event is accepted only while both a location and a
  destination are set, the condition under which a routing control is mounted
  (map.jsx:454-461). The listener of a control that was already removed is never detached
  (map.jsx:351-354), and a new control is created on every render, so a reply can reach a
  removed control, for example after a clear, a mute or a language change; such a reply is
  not modelled. SilentWhileMuted holds for the modelled events only.
- Session.Step: a route result is answered with the voice settings current when it arrives.
  The code's listener keeps the settings of the render that created its control
  (map.jsx:330-346, 356).
- Session.Step: a route result is assumed to carry at least one route, as the routing
  library sends; the code reads `e.routes[0].instructions` (map.jsx:332-333), which would
  fail on an empty list. RouteAnnouncement and Session.MapSession.OnRoutesFound require it.
- Session.Step: a location update only replaces `userLocation`. Because the routing effect
  depends on `from` (map.jsx:356), the code also requests the route again. That request is
  outside the model.
- Session: there is no stored route. The code keeps none; the screen derives "has a route"
  from the destination (`HasRoute`, map.jsx:444).
- Session.MapSession.SetBasemap: requires a key of the table. The code stores any key, but
  only table keys are offered, and any other key would make `basemaps[selectedBasemap]`
  undefined at map.jsx:134 and map.jsx:450.
- Session.MapSession.SetVoiceLanguage: requires 'en' or 'ur', the two languages the menu offers.
- Speech synthesis. The model records each utterance `speakInstructions` would hand to the
  browser, in the order the handlers run, not the order of the calls. Because of the 500 ms
  and 1000 ms delays (map.jsx:413, 344-346) the calls can come in another order: a click
  followed within 500 ms by a clear speaks "Route cleared" (map.jsx:424) before
  "Calculating route to ..." (map.jsx:413), while the model logs them the other way round.
  Whether `speechSynthesis` exists, the cancellation of earlier speech, and rate, pitch and
  volume are left out.
- Session.ClearRouteAlways: the handler clears and announces in any state, and the model
  lets `ClearRoute` happen in any state. On the screen its only caller, the "Clear Route"
  button, is shown only while there is a route and a selected facility (map.jsx:211,
  241-243), so the announcement with no route cannot be triggered from the screen.
- The code has no error for an unknown style key or language, keeps no route object, and
  requests the route again when the location changes; the model follows the code.
- Browser geolocation. The first fix, the watch and the location button are all
  `LocationFound` events; fly-to, the user marker, the error banner and "Geolocation is not
  supported" are left out.
- Loading the GeoJSON file (a fetch). Features are inputs to `FacilityFromFeature`, and
  features whose geometry has fewer than two coordinates are not covered.
- CaseInsensitive.LowerStr: lower-cases ASCII letters only; other characters are kept as
  they are, whereas JavaScript folds case across all of Unicode.
- CaseInsensitive.ReplaceAllCI: the keys are used as literal text. This matches the
  table's keys, which contain no regular-expression metacharacters.
- Real numbers stand for JavaScript numbers; no floating-point rounding is modelled.
- The backend, the other pages and the zoom buttons are not part of this model.
