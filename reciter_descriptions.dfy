/** One-line descriptions of the reciters, looked up by the reciter label the
    clip parser produces, with fallbacks for an absent name and an unknown
    one. */
module ReciterDescriptions {
  import opened Strings

  const NoDescription := "No description available."
  const GenericDescription := "A reciter whose beautiful recitation has been preserved for this surah."
  const DefaultOption := "A default recitation option for this surah."

  /** `reciterDescriptions`. */
  const Descriptions: map<string, string> := map[
    "Default" := DefaultOption,
    "audio1" := DefaultOption,
    "Sheikh Fouad Saeed Abdulkadir" := "A renowned reciter known for his beautiful and melodious recitation style.",
    "Shiekh Magdi Osman" := "A respected reciter whose recitations continue to inspire listeners worldwide.",
    "Stranger" := "An anonymous reciter whose recitation has been preserved for posterity."
  ]

  /** `getReciterDescription(reciterName)`. `None` stands for `null` and
      `undefined`; the empty name is falsy as well. Only the table's own
      entries are consulted (see `GetReciterDescriptionAsWritten` for the
      property lookup the code performs). */
  function GetReciterDescription(reciterName: Option<string>): (r: string)
    ensures r != []
  {
    if reciterName.None? || reciterName.value == [] then NoDescription
    else if reciterName.value in Descriptions then DescriptionOf(reciterName.value)
    else GenericDescription
  }

  /** The table's entry for `name`, read as `table[name] || generic`: every
      entry is non-empty, so the entry itself. */
  function DescriptionOf(name: string): (r: string)
    requires name in Descriptions
    ensures r == Descriptions[name] && r != []
  {
    var d := Descriptions[name];
    TableValuesNonEmpty(name);
    if d == [] then GenericDescription else d
  }

  lemma TableValuesNonEmpty(name: string)
    requires name in Descriptions
    ensures Descriptions[name] != []
  {
  }

  /** The three outcomes: a falsy name gets the "no description" sentence, a
      table key its entry, any other name the generic sentence; never an empty
      string. */
  lemma DescriptionCases(reciterName: Option<string>)
    ensures reciterName.None? || reciterName.value == [] ==>
              GetReciterDescription(reciterName) == NoDescription
    ensures reciterName.Some? && reciterName.value in Descriptions ==>
              GetReciterDescription(reciterName) == Descriptions[reciterName.value]
    ensures reciterName.Some? && reciterName.value != [] && reciterName.value !in Descriptions ==>
              GetReciterDescription(reciterName) == GenericDescription
  {
    assert [] !in Descriptions;
  }

  /** The label the parser gives `ShiekhMagdiOsman_1-6.mp3` has its own entry. */
  lemma ManifestReciterDescribed()
    ensures GetReciterDescription(Some("Shiekh Magdi Osman"))
         == "A respected reciter whose recitations continue to inspire listeners worldwide."
    ensures GetReciterDescription(Some("Stranger"))
         == "An anonymous reciter whose recitation has been preserved for posterity."
  {
    DescriptionCases(Some("Shiekh Magdi Osman"));
    DescriptionCases(Some("Stranger"));
  }

  // ---------------------------------------------------------------------------
  // The lookup as written: a property read on a plain object
  // ---------------------------------------------------------------------------

  /** What `table[name]` reads on an object literal: an own entry, or a member
      every plain object inherits from `Object.prototype` (all of them truthy:
      methods, or the prototype itself for `__proto__`). */
  const ObjectPrototypeMembers: set<string> := {
    "constructor", "hasOwnProperty", "isPrototypeOf", "propertyIsEnumerable",
    "toLocaleString", "toString", "valueOf", "__proto__",
    "__defineGetter__", "__defineSetter__", "__lookupGetter__", "__lookupSetter__"
  }

  /** A JavaScript value the lookup may return: a string, or an inherited
      member that is not a string. */
  datatype JsValue = Text(text: string) | InheritedMember(member: string)

  /** `getReciterDescription` as written: `reciterDescriptions[name]` also finds
      inherited members, and since those are truthy they are returned. */
  function GetReciterDescriptionAsWritten(reciterName: Option<string>): (r: JsValue)
    ensures r.Text? ==> r.text != []
  {
    if reciterName.None? || reciterName.value == [] then Text(NoDescription)
    else if reciterName.value in Descriptions then Text(DescriptionOf(reciterName.value))
    else if reciterName.value in ObjectPrototypeMembers then InheritedMember(reciterName.value)
    else Text(GenericDescription)
  }

  /** A reciter labelled `constructor` (from a clip named `constructor_1-3.mp3`)
      gets the `Object` constructor function instead of a description. */
  lemma ConstructorNameReturnsFunction()
    ensures GetReciterDescriptionAsWritten(Some("constructor")) == InheritedMember("constructor")
    ensures GetReciterDescription(Some("constructor")) == GenericDescription
  {
    assert "constructor" !in Descriptions;
  }

  /** Outside the inherited member names the code as written and the own-entry
      lookup agree. */
  lemma AsWrittenAgreesOffPrototype(reciterName: Option<string>)
    requires reciterName.None? || reciterName.value !in ObjectPrototypeMembers
    ensures GetReciterDescriptionAsWritten(reciterName) == Text(GetReciterDescription(reciterName))
  {
  }
}
