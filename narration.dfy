/**
 * What the map screen says: the speech language tag, the announcements made when a
 * facility is chosen or the route is cleared, and the first instruction of a found route.
 * Speaking is modelled by the utterance that `speakInstructions` would hand to the browser.
 */
module Narration {
  import opened Wrappers
  import opened Js
  import opened Translation
  import opened CaseInsensitive

  const English: string := "en"
  const Urdu: string := "ur"

  /** The two languages the voice menu offers. */
  const Languages: set<string> := {English, Urdu}

  /** Text to speak and the `lang` tag of the utterance. */
  datatype Utterance = Utterance(text: string, lang: string)

  /** `utterance.lang`: Urdu (Pakistan) for 'ur', US English for anything else. */
  function SpeechTag(language: string): (tag: string)
    ensures tag == "ur-PK" <==> language == Urdu
    ensures tag == "ur-PK" || tag == "en-US"
  {
    if language == Urdu then "ur-PK" else "en-US"
  }

  /** `speakInstructions(text, language)`. */
  function Speak(text: string, language: string): Utterance
  {
    Utterance(text, SpeechTag(language))
  }

  const EnglishSelectionPrefix: string := "Calculating route to "
  const UrduSelectionSuffix: string := " کی طرف راستہ تیار کر رہے ہیں"

  /** The announcement of `handleHospitalClick` for a facility called `name`. */
  function SelectionMessage(language: string, name: string): string
  {
    if language == Urdu then name + UrduSelectionSuffix else EnglishSelectionPrefix + name
  }

  const EnglishCleared: string := "Route cleared"
  const UrduCleared: string := "راستہ صاف کر دیا گیا"

  /** The announcement of `handleClearRoute`. */
  function ClearedMessage(language: string): string
  {
    if language == Urdu then UrduCleared else EnglishCleared
  }

  /**
   * The selection message is the Urdu template exactly when the language is 'ur', and it
   * always carries the facility's name.
   */
  lemma SelectionMessageUrduIff(language: string, name: string)
    ensures SelectionMessage(language, name) == name + UrduSelectionSuffix <==> language == Urdu
    ensures var m := SelectionMessage(language, name);
      if language == Urdu then m[..|name|] == name else m[|EnglishSelectionPrefix|..] == name
  {
  }

  /** The cleared message is the Urdu one exactly when the language is 'ur'. */
  lemma ClearedMessageUrduIff(language: string)
    ensures ClearedMessage(language) == UrduCleared <==> language == Urdu
  {
  }

  /** An entry of a route's `instructions` list. */
  datatype Instruction = Instruction(text: Option<string>, instruction: Option<string>)

  /** A route as the router reports it; `instructions` may be absent. */
  datatype Route = Route(instructions: Option<seq<Instruction>>)

  const RouteFoundText: string := "Route found"

  /** `firstInstruction.text || firstInstruction.instruction || 'Route found'`. */
  function InstructionText(i: Instruction): (t: string)
    ensures t != ""
    ensures Truthy(i.text) ==> t == i.text.value
    ensures !Truthy(i.text) && Truthy(i.instruction) ==> t == i.instruction.value
    ensures !Truthy(i.text) && !Truthy(i.instruction) ==> t == RouteFoundText
  {
    OrDefault(OrElse(i.text, i.instruction), RouteFoundText)
  }

  /** `route.instructions || []`. */
  function InstructionsOf(route: Route): seq<Instruction>
  {
    if route.instructions.Some? then route.instructions.value else []
  }

  /**
   * The `routesfound` listener: with voice on and at least one instruction in the first
   * route, the first instruction's text, translated when the language is 'ur', is spoken.
   */
  function RouteAnnouncement(voiceEnabled: bool, language: string, routes: seq<Route>): Option<Utterance>
    requires |routes| > 0
  {
    var instructions := InstructionsOf(routes[0]);
    if voiceEnabled && |instructions| > 0 then
      var text := InstructionText(instructions[0]);
      Some(Speak(if language == Urdu then TranslateToUrdu(text) else text, language))
    else None
  }

  /**
   * A route produces an announcement exactly when voice is on and the first route has an
   * instruction. The announcement speaks the first instruction in the language's tag,
   * translated exactly when the language is Urdu.
   */
  lemma RouteAnnouncementSpec(voiceEnabled: bool, language: string, routes: seq<Route>)
    requires |routes| > 0
    ensures RouteAnnouncement(voiceEnabled, language, routes).Some? <==>
      voiceEnabled && |InstructionsOf(routes[0])| > 0
    ensures RouteAnnouncement(voiceEnabled, language, routes).Some? ==>
      && (RouteAnnouncement(voiceEnabled, language, routes).value.lang == "ur-PK" <==> language == Urdu)
      && (language != Urdu ==>
            RouteAnnouncement(voiceEnabled, language, routes).value.text == InstructionText(InstructionsOf(routes[0])[0]))
      && (language == Urdu ==>
            RouteAnnouncement(voiceEnabled, language, routes).value.text ==
              TranslateToUrdu(InstructionText(InstructionsOf(routes[0])[0])))
  {
  }

  /**
   * The spoken text differs from the router's English instruction exactly when the
   * language is Urdu and a phrase of the table occurs in the instruction.
   */
  lemma RouteAnnouncementTranslatedIff(voiceEnabled: bool, language: string, routes: seq<Route>)
    requires |routes| > 0 && voiceEnabled && |InstructionsOf(routes[0])| > 0
    ensures RouteAnnouncement(voiceEnabled, language, routes).Some?
    ensures (RouteAnnouncement(voiceEnabled, language, routes).value.text !=
               InstructionText(InstructionsOf(routes[0])[0])) <==>
      language == Urdu &&
      exists j :: 0 <= j < |UrduPhrases| && ContainsCI(InstructionText(InstructionsOf(routes[0])[0]), UrduPhrases[j].english)
  {
    TranslateToUrduChangesIff(InstructionText(InstructionsOf(routes[0])[0]));
  }
}
