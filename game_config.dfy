/**
 * The game's constant tables (worker attributes, the event catalogue, the numeric
 * rules) and the service-duration rule, from src/core/GameConfig.js.
 */
module GameConfig {
  import opened Wrappers

  /** WorkerAttributes: the closed set of worker capabilities. */
  datatype Attribute = Strong | Talkative | Smart

  /** An entry of the EventTypes catalogue; the display name, description and colour are left out. */
  datatype EventType = EventType(id: string, requiredAttr: seq<Attribute>)

  /** The catalogue keys in declaration order, which is the order Object.keys returns them in. */
  const EventKeys: seq<string> := ["E-01", "E-02", "E-03", "E-04", "E-05"]

  const EventTypes: map<string, EventType> := map[
    "E-01" := EventType("E-01", [Strong]),
    "E-02" := EventType("E-02", [Talkative]),
    "E-03" := EventType("E-03", [Smart]),
    "E-04" := EventType("E-04", [Talkative]),
    "E-05" := EventType("E-05", [Strong, Smart])
  ]

  // GameRules. Service times are milliseconds, spawn intervals seconds.
  const BaseServiceTime: real := 5000.0
  const PerfectMatchFactor: real := 0.5
  const ScorePerEvent: int := 100
  const ScoreComboMultiplier: real := 0.1
  const SpawnIntervalMin: real := 3.0
  const SpawnIntervalMax: real := 7.0
  const MaxActiveNpcs: int := 10

  /** A worker with attribute `a` is a perfect match for the catalogue event `eventId`. */
  predicate IsMatch(a: Attribute, eventId: string)
  {
    eventId in EventTypes && a in EventTypes[eventId].requiredAttr
  }

  /**
   * The property names every plain object inherits from Object.prototype. Looking
   * one of them up in the EventTypes object literal finds the inherited member.
   */
  const PrototypeMembers: set<string> := {
    "__proto__", "constructor", "hasOwnProperty", "isPrototypeOf", "propertyIsEnumerable",
    "toLocaleString", "toString", "valueOf",
    "__defineGetter__", "__defineSetter__", "__lookupGetter__", "__lookupSetter__"
  }

  /**
   * EventTypes[eventId] is an inherited member: truthy, but with no requiredAttr,
   * so reading requiredAttr.includes throws a TypeError.
   */
  predicate InheritedName(eventId: string)
  {
    eventId !in EventTypes && eventId in PrototypeMembers
  }

  /**
   * calculateServiceTime: the service duration in milliseconds, or None where the
   * call throws. An id the lookup does not find at all falls back to the base time
   * (the source logs an error there).
   */
  function CalculateServiceTime(workerAttr: Attribute, eventId: string): (ms: Option<real>)
    ensures ms.None? <==> InheritedName(eventId)
    ensures ms.Some? ==> ms.value == BaseServiceTime * (1.0 - PerfectMatchFactor) || ms.value == BaseServiceTime
    ensures ms.Some? ==> 0.0 < ms.value <= BaseServiceTime
  {
    if eventId !in EventTypes && eventId !in PrototypeMembers then
      Some(BaseServiceTime)
    else if eventId !in EventTypes then
      None
    else
      var event := EventTypes[eventId];
      if workerAttr in event.requiredAttr then
        Some(BaseServiceTime * (1.0 - PerfectMatchFactor))
      else
        Some(BaseServiceTime)
  }

  /**
   * The reduced duration is returned exactly for a perfect match, and the base
   * duration exactly for every other id the call does not throw on.
   */
  lemma ServiceTimeMatchesIff(a: Attribute, eventId: string)
    ensures CalculateServiceTime(a, eventId) == Some(2500.0) <==> IsMatch(a, eventId)
    ensures CalculateServiceTime(a, eventId) == Some(5000.0) <==> !IsMatch(a, eventId) && !InheritedName(eventId)
  {
  }

  /** An id neither in the catalogue nor inherited is served in the base time. */
  lemma UnknownEventUsesBase(a: Attribute, eventId: string)
    requires eventId !in EventTypes && eventId !in PrototypeMembers
    ensures CalculateServiceTime(a, eventId) == Some(BaseServiceTime)
  {
  }

  /** No catalogue id is an inherited name, so every inherited name throws. */
  lemma InheritedNamesThrow(a: Attribute, eventId: string)
    requires eventId in PrototypeMembers
    ensures CalculateServiceTime(a, eventId) == None
  {
  }

  /** The three self-test vectors at the end of GameConfig.js. */
  lemma SelfTestVectors()
    ensures CalculateServiceTime(Strong, "E-01") == Some(2500.0)
    ensures CalculateServiceTime(Talkative, "E-01") == Some(5000.0)
    ensures CalculateServiceTime(Smart, "E-05") == Some(2500.0)
  {
  }

  /** Every catalogue entry is filed under its own id, needs at least one attribute, and is listed in EventKeys. */
  lemma CatalogueWellFormed()
    ensures forall k :: k in EventTypes ==> EventTypes[k].id == k && |EventTypes[k].requiredAttr| > 0
    ensures forall k :: k in EventTypes <==> k in EventKeys
    ensures forall i, j :: 0 <= i < j < |EventKeys| ==> EventKeys[i] != EventKeys[j]
  {
  }

  /** E-05 is a perfect match for both Strong and Smart workers, and for nobody else. */
  lemma EmergencyMatchesStrongAndSmart()
    ensures IsMatch(Strong, "E-05") && IsMatch(Smart, "E-05") && !IsMatch(Talkative, "E-05")
  {
  }
}
