/** The text overlays a GIF carries: a map from variable name to the text it shows and where
    and how it is drawn, and the blank-to-space sanitiser applied before rendering. */
module Variables {
  import opened Wrappers
  import opened JsText
  import opened JsObject

  /** Where and how one overlay is drawn; every measure is kept as the text the editor holds
      (`"45%"`, `"68px"`, `"#ffffff"`). */
  datatype Position = Position(top: string, left: string, fontSize: string, color: string,
                               horizontalCenter: bool)

  /** One overlay: its text and its position. */
  datatype VariableData = VariableData(value: string, position: Position)

  /** `Record<string, VariableData>`, keyed by variable name. */
  type VariableMap = JsObject<VariableData>

  /** `s.trim() === ""`: nothing but whitespace (see `BlankIffTrimmedEmpty`). */
  predicate IsBlank(s: string) {
    AllWhitespace(s)
  }

  /** Blank text is exactly the text that trims to nothing. */
  lemma BlankIffTrimmedEmpty(s: string)
    ensures IsBlank(s) <==> Trim(s) == []
  {
  }

  lemma SpaceIsBlank()
    ensures IsBlank(" ")
  {
    assert IsWhitespace(' ');
  }

  /** `value.trim() === "" ? " " : value`: a blank text becomes one space, any other is kept. */
  function SanitizeValue(v: string): (r: string)
    ensures r == " " <==> IsBlank(v)
    ensures !IsBlank(v) ==> r == v
    ensures |r| >= 1
  {
    SpaceIsBlank();
    if IsBlank(v) then " " else v
  }

  /** The variable with its text sanitised and its position untouched. */
  function SanitizeData(d: VariableData): (r: VariableData)
    ensures r.position == d.position && r.value == SanitizeValue(d.value)
  {
    d.(value := SanitizeValue(d.value))
  }

  /** `Object.fromEntries(Object.entries(variables).map(...))` with the sanitiser: every key
      stays in its place with its position, and only blank texts change, to `" "`. */
  function SanitizeVariables(variables: VariableMap): (r: VariableMap)
    ensures KeysOf(r) == KeysOf(variables)
    ensures forall j :: 0 <= j < |r| ==> r[j].value.position == variables[j].value.position
    ensures forall j :: 0 <= j < |r| ==>
      (r[j].value.value == " " <==> IsBlank(variables[j].value.value))
    ensures forall j :: 0 <= j < |r| ==>
      !IsBlank(variables[j].value.value) ==> r[j].value.value == variables[j].value.value
  {
    var r := seq(|variables|, j requires 0 <= j < |variables| =>
      Property(variables[j].key, SanitizeData(variables[j].value)));
    assert KeysOf(r) == KeysOf(variables);
    r
  }

  /** Sanitising twice is sanitising once. */
  lemma SanitizeVariablesIdempotent(variables: VariableMap)
    ensures SanitizeVariables(SanitizeVariables(variables)) == SanitizeVariables(variables)
  {
    var once := SanitizeVariables(variables);
    var twice := SanitizeVariables(once);
    forall j | 0 <= j < |once| ensures twice[j] == once[j] {
      SpaceIsBlank();
      assert KeysOf(twice)[j] == KeysOf(once)[j];
    }
  }

  /** The sanitised map answers every lookup with the sanitised variable. */
  lemma SanitizeVariablesGet(variables: VariableMap, k: string)
    ensures Get(SanitizeVariables(variables), k) ==
      if Has(variables, k) then Some(SanitizeData(Get(variables, k).value)) else None
  {
    var r := SanitizeVariables(variables);
    HasIff(variables, k);
    HasIff(r, k);
    if Has(variables, k) {
      var j := FindKey(variables, k);
      GetAt(r, j);
      assert KeysOf(r)[j] == KeysOf(variables)[j];
    }
  }
}
