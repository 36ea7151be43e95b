/** The results panel: the description looked up for the predicted class and
    the colour band the confidence is shown in. */
module ResultsView {

  /** An entry of `classInfo`, or the fallback shown for an unknown class. */
  datatype ClassData = ClassData(name: string, description: string, color: string)

  const Cll := ClassData("Chronic Lymphocytic Leukemia",
    "A type of cancer that starts from white blood cells (lymphocytes) in the bone marrow. CLL affects a particular lymphocyte, the B cell, which normally fights infections.",
    "blue")
  const Fl := ClassData("Follicular Lymphoma",
    "A type of non-Hodgkin lymphoma that begins in the lymphatic system. FL is characterized by the appearance of malignant germinal center B cells that typically grow in a follicular pattern.",
    "green")
  const Mcl := ClassData("Mantle Cell Lymphoma",
    "A rare type of B-cell non-Hodgkin lymphoma that arises from cells originating in the \"mantle zone\" of the lymph node, and typically affects men over the age of 60.",
    "purple")

  const FallbackDescription := "No additional information available"
  const FallbackColor := "gray"

  /** The own properties of the `classInfo` object literal. */
  const ClassInfo: map<string, ClassData> := map["CLL" := Cll, "FL" := Fl, "MCL" := Mcl]

  /** Property names every plain object inherits from `Object.prototype`; the
      JavaScript `in` operator reports them as present. */
  const InheritedKeys: set<string> := {
    "constructor", "hasOwnProperty", "isPrototypeOf", "propertyIsEnumerable",
    "toLocaleString", "toString", "valueOf", "__proto__",
    "__defineGetter__", "__defineSetter__", "__lookupGetter__", "__lookupSetter__"
  }

  /** What `result.class in classInfo ? classInfo[result.class] : fallback`
      evaluates to as written: an own entry, an inherited `Object.prototype`
      member, or the grey fallback. */
  datatype Lookup = Own(data: ClassData) | Inherited(key: string) | Fallback(data: ClassData)

  function Unknown(className: string): ClassData {
    ClassData(className, FallbackDescription, FallbackColor)
  }

  /** The lookup as written: `in` also sees inherited properties, so a class such
      as "toString" gets the inherited function instead of the grey fallback. */
  function ClassDataAsWritten(className: string): (l: Lookup)
    ensures className in ClassInfo ==> l == Own(ClassInfo[className])
    ensures className !in ClassInfo && className !in InheritedKeys ==> l == Fallback(Unknown(className))
    ensures l.Inherited? <==> className in InheritedKeys
  {
    if className in ClassInfo then Own(ClassInfo[className])
    else if className in InheritedKeys then Inherited(className)
    else Fallback(Unknown(className))
  }

  /** An inherited property name is neither a known class nor shown with the fallback. */
  lemma InheritedKeyMissesFallback()
    ensures ClassDataAsWritten("toString") == Inherited("toString")
    ensures ClassDataFor("toString") == Unknown("toString")
  {
  }

  /** The lookup as intended: an own entry of `classInfo`, else the fallback. */
  function ClassDataFor(className: string): (d: ClassData)
    ensures className == "CLL" ==> d == Cll
    ensures className == "FL" ==> d == Fl
    ensures className == "MCL" ==> d == Mcl
    ensures className !in {"CLL", "FL", "MCL"} ==>
              d.name == className && d.description == FallbackDescription && d.color == FallbackColor
  {
    if className in ClassInfo then ClassInfo[className] else Unknown(className)
  }

  /** The known classes are shown in blue, green and purple; every other class in grey. */
  lemma ClassColors(className: string)
    ensures ClassDataFor(className).color == "gray" <==> className !in {"CLL", "FL", "MCL"}
    ensures className == "CLL" ==> ClassDataFor(className).name == "Chronic Lymphocytic Leukemia"
    ensures className == "FL" ==> ClassDataFor(className).name == "Follicular Lymphoma"
    ensures className == "MCL" ==> ClassDataFor(className).name == "Mantle Cell Lymphoma"
  {
  }

  /** Both lookups agree on every class name that is not an inherited property. */
  lemma LookupsAgreeOffPrototype(className: string)
    requires className !in InheritedKeys
    ensures var l := ClassDataAsWritten(className);
            (l.Own? || l.Fallback?) && l.data == ClassDataFor(className)
  {
  }

  const Green := "text-green-600"
  const Blue := "text-blue-600"
  const Yellow := "text-yellow-600"
  const Red := "text-red-600"

  /** `getConfidenceColor`: four bands with lower bounds 0.9, 0.7 and 0.5. */
  function ConfidenceColor(confidence: real): (c: string)
    ensures c == Green <==> confidence >= 0.9
    ensures c == Blue <==> 0.7 <= confidence < 0.9
    ensures c == Yellow <==> 0.5 <= confidence < 0.7
    ensures c == Red <==> confidence < 0.5
  {
    if confidence >= 0.9 then Green
    else if confidence >= 0.7 then Blue
    else if confidence >= 0.5 then Yellow
    else Red
  }

  /** The order of the bands, red lowest and green highest. */
  function BandRank(c: string): nat {
    if c == Green then 3 else if c == Blue then 2 else if c == Yellow then 1 else 0
  }

  /** A higher confidence never gets a lower band. */
  lemma ConfidenceColorMonotone(a: real, b: real)
    requires a <= b
    ensures BandRank(ConfidenceColor(a)) <= BandRank(ConfidenceColor(b))
  {
  }
}
