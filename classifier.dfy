/**
 * The classifier-output validator: the text the language model returns is
 * cleaned of Markdown code fences, parsed as JSON (outside this model), and
 * the parsed value is checked against the intake schema, one check after
 * another in a fixed order, the first failing check deciding the error.
 */
module Classifier {
  import opened Wrappers
  import opened Json
  import PyStr

  const FENCE := "```"
  const JSON_TAG := "json"

  const REQUIRED_KEYS: set<string> := {
    "case_type",
    "viability_score",
    "urgency",
    "statute_of_limitations_flag",
    "key_facts",
    "recommended_specialty",
    "recommended_action",
    "client_acknowledgment"
  }

  const VALID_CASE_TYPES: set<string> := {
    "Personal Injury - Vehicle Accident",
    "Personal Injury - Slip and Fall",
    "Personal Injury - Medical Malpractice",
    "Personal Injury - Workplace Injury",
    "Defamation - Libel (Written)",
    "Defamation - Slander (Spoken)",
    "Malicious Prosecution - False Criminal Accusation",
    "Malicious Prosecution - Workplace False Accusation",
    "Malicious Prosecution - False Sexual Misconduct Accusation",
    "Family Law",
    "Employment Law",
    "Out of Scope"
  }

  const VALID_URGENCY: set<string> := {"low", "medium", "high", "critical"}

  /** The free-text fields, in the order the validator checks them. */
  const TEXT_FIELDS: seq<string> := ["recommended_specialty", "recommended_action", "client_acknowledgment"]

  lemma SchemaConstants()
    ensures "Personal Injury - Vehicle Accident" in VALID_CASE_TYPES
    ensures "high" in VALID_URGENCY && "critical" in VALID_URGENCY
  {
  }

  // ---------------------------------------------------------------------------
  // Fence stripping
  // ---------------------------------------------------------------------------

  /** For text that opens with a fence: what lies between it and the next fence, or the end. */
  function FencedBody(t: string): string
    requires PyStr.StartsWith(t, FENCE)
  {
    var rest := t[|FENCE|..];
    match PyStr.Find(rest, FENCE)
    case None => rest
    case Some(i) => rest[..i]
  }

  /** Drops one leading `json` language tag. */
  function DropJsonTag(c: string): string {
    if PyStr.StartsWith(c, JSON_TAG) then c[|JSON_TAG|..] else c
  }

  /** Text that opens with a fence splits into an empty first piece and at least one more. */
  lemma FencedSplitHasTwoParts(t: string)
    requires PyStr.StartsWith(t, FENCE)
    ensures var parts := PyStr.Split(t, FENCE);
      |parts| >= 2 && parts[0] == "" && parts[1] == FencedBody(t)
  {
    assert t[0..|FENCE|] == FENCE;
    assert PyStr.Find(t, FENCE) == Some(0);
    var rest := t[|FENCE|..];
    assert PyStr.Split(t, FENCE) == [t[..0]] + PyStr.Split(rest, FENCE);
  }

  /**
   * `_strip_fences`: strips the text; if it then opens with a fence, keeps the
   * piece between the first two fences, without a leading `json` tag, stripped.
   * Whichever branch is taken, the result neither begins nor ends with whitespace.
   */
  function StripFences(text: string): (r: string)
    ensures r == [] || (!PyStr.IsSpace(r[0]) && !PyStr.IsSpace(r[|r| - 1]))
  {
    var t := PyStr.Strip(text);
    if PyStr.StartsWith(t, FENCE) then FencedContent(t) else t
  }

  /** The fenced branch: the second piece of the split on fences, less a `json` tag, stripped. */
  function FencedContent(t: string): (r: string)
    requires PyStr.StartsWith(t, FENCE)
    ensures r == [] || (!PyStr.IsSpace(r[0]) && !PyStr.IsSpace(r[|r| - 1]))
  {
    FencedSplitHasTwoParts(t);
    var parts := PyStr.Split(t, FENCE);
    var content := parts[1];
    var content' := if PyStr.StartsWith(content, JSON_TAG) then content[4..] else content;
    PyStr.Strip(content')
  }

  /** Unfenced text is only stripped, so a second pass changes nothing. */
  lemma StripFencesUnfenced(text: string)
    requires !PyStr.StartsWith(PyStr.Strip(text), FENCE)
    ensures StripFences(text) == PyStr.Strip(text)
    ensures StripFences(StripFences(text)) == StripFences(text)
  {
    PyStr.StripIdempotent(text);
  }

  /** The body between two fences holds no fence, and neither does what is left of it. */
  lemma FencedBodyAvoidsFence(t: string)
    requires PyStr.StartsWith(t, FENCE)
    ensures !PyStr.Contains(PyStr.Strip(DropJsonTag(FencedBody(t))), FENCE)
  {
    FencedSplitHasTwoParts(t);
    var body := FencedBody(t);
    assert !PyStr.Contains(body, FENCE);
    DropJsonTagAvoids(body, FENCE);
    PyStr.StripAvoids(DropJsonTag(body), FENCE);
  }

  /** Dropping the tag keeps a string free of a separator it was free of. */
  lemma DropJsonTagAvoids(c: string, sep: string)
    requires !PyStr.Contains(c, sep)
    ensures !PyStr.Contains(DropJsonTag(c), sep)
  {
    if PyStr.StartsWith(c, JSON_TAG) {
      PyStr.SliceAvoids(c, sep, |JSON_TAG|, |c|);
      assert DropJsonTag(c) == c[|JSON_TAG|..|c|];
    }
  }

  /** Fenced text yields the stripped body between the first two fences, which holds no fence. */
  lemma StripFencesFenced(text: string)
    requires PyStr.StartsWith(PyStr.Strip(text), FENCE)
    ensures StripFences(text) == PyStr.Strip(DropJsonTag(FencedBody(PyStr.Strip(text))))
    ensures !PyStr.Contains(StripFences(text), FENCE)
  {
    var t := PyStr.Strip(text);
    FencedSplitHasTwoParts(t);
    FencedBodyAvoidsFence(t);
  }

  // ---------------------------------------------------------------------------
  // Schema validation
  // ---------------------------------------------------------------------------

  datatype ValidationError =
    /** The parsed value has no `keys()` (an `AttributeError` in the source). */
    | NotAnObject
    | MissingKeys(missing: set<string>)
    /** A list or dict tested for set membership (a `TypeError` in the source). */
    | UnhashableValue(key: string)
    | InvalidCaseType(caseType: Value)
    | InvalidUrgency(urgency: Value)
    | ScoreOutOfRange(score: Value)
    | FlagNotBoolean
    | KeyFactsInvalid(facts: Value)
    | KeyFactNotString(index: nat)
    | BlankText(field: string)

  /** `v in values` for a hashable `v`: only a string can be a member of a set of strings. */
  predicate InEnum(v: Value, values: set<string>) {
    v.JString? && v.s in values
  }

  /** `isinstance(score, int) and 0 <= score <= 10`; a bool is an int in Python. */
  predicate ScoreAcceptable(score: Value) {
    (score.JInt? && 0 <= score.i <= 10) || score.JBool?
  }

  predicate KeyFactsShapeOk(facts: Value) {
    facts.JList? && 3 <= |facts.items| <= 5
  }

  predicate TextOk(v: Value) {
    v.JString? && PyStr.Strip(v.s) != ""
  }

  /** The index of the first element from `from` on that is not a string. */
  function FirstNonString(facts: seq<Value>, from: nat): (r: Option<nat>)
    ensures r.Some? ==> from <= r.value < |facts| && !facts[r.value].JString?
    ensures forall i :: from <= i < |facts| && (r.None? || i < r.value) ==> facts[i].JString?
    decreases |facts| - from
  {
    if from >= |facts| then None
    else if !facts[from].JString? then Some(from)
    else FirstNonString(facts, from + 1)
  }

  /** The first of the text values, from position `from` on, that is not a non-blank string. */
  function FirstBlankText(texts: seq<Value>, from: nat): (r: Option<nat>)
    ensures r.Some? ==> from <= r.value < |texts| && !TextOk(texts[r.value])
    ensures forall k :: from <= k < |texts| && (r.None? || k < r.value) ==> TextOk(texts[k])
    decreases |texts| - from
  {
    if from >= |texts| then None
    else if !TextOk(texts[from]) then Some(from)
    else FirstBlankText(texts, from + 1)
  }

  /** The eight required keys, one by one. */
  predicate HasRequiredKeys(f: map<string, Value>) {
    && "case_type" in f && "viability_score" in f && "urgency" in f
    && "statute_of_limitations_flag" in f && "key_facts" in f
    && "recommended_specialty" in f && "recommended_action" in f && "client_acknowledgment" in f
  }

  /** The values of the three text fields, in the order of `TEXT_FIELDS`. */
  function TextValues(f: map<string, Value>): (vs: seq<Value>)
    requires HasRequiredKeys(f)
    ensures |vs| == |TEXT_FIELDS|
  {
    [f["recommended_specialty"], f["recommended_action"], f["client_acknowledgment"]]
  }

  lemma TextValuesAreTheFields(f: map<string, Value>)
    requires HasRequiredKeys(f)
    ensures forall k :: 0 <= k < |TEXT_FIELDS| ==> TEXT_FIELDS[k] in f && TextValues(f)[k] == f[TEXT_FIELDS[k]]
  {
  }

  /** No key is missing exactly when all eight are present. */
  lemma MissingKeysEmptyIffPresent(f: map<string, Value>)
    ensures REQUIRED_KEYS - f.Keys == {} <==> HasRequiredKeys(f)
    ensures REQUIRED_KEYS <= f.Keys <==> HasRequiredKeys(f)
  {
    if !HasRequiredKeys(f) {
      var k :| k in REQUIRED_KEYS && k !in f;
      assert k in REQUIRED_KEYS - f.Keys;
    }
  }

  /** `_validate`: the checks in the source's order; the first one that fails decides the error. */
  function Validate(result: Value): (r: Outcome<ValidationError>)
    ensures r.Pass? ==> result.JObject? && HasRequiredKeys(result.fields)
    ensures r == Fail(NotAnObject) <==> !result.JObject?
    ensures r.Fail? && r.error.MissingKeys? ==>
      result.JObject? && r.error.missing == REQUIRED_KEYS - result.fields.Keys && r.error.missing != {}
  {
    if !result.JObject? then Fail(NotAnObject)
    else
      var missing := REQUIRED_KEYS - result.fields.Keys;
      if missing != {} then Fail(MissingKeys(missing))
      else
        MissingKeysEmptyIffPresent(result.fields);
        ValidateFields(result.fields)
  }

  /** The checks after the key check, in order (lines 58-81 of the source). */
  function ValidateFields(f: map<string, Value>): (r: Outcome<ValidationError>)
    requires HasRequiredKeys(f)
    ensures r.Fail? ==> !r.error.NotAnObject? && !r.error.MissingKeys?
    ensures r.Fail? && r.error.KeyFactNotString? ==>
      f["key_facts"].JList? && r.error.index < |f["key_facts"].items|
    ensures r.Fail? && r.error.BlankText? ==> r.error.field in TEXT_FIELDS
  {
    if !Hashable(f["case_type"]) then Fail(UnhashableValue("case_type"))
    else if !InEnum(f["case_type"], VALID_CASE_TYPES) then Fail(InvalidCaseType(f["case_type"]))
    else if !Hashable(f["urgency"]) then Fail(UnhashableValue("urgency"))
    else if !InEnum(f["urgency"], VALID_URGENCY) then Fail(InvalidUrgency(f["urgency"]))
    else if !ScoreAcceptable(f["viability_score"]) then Fail(ScoreOutOfRange(f["viability_score"]))
    else if !f["statute_of_limitations_flag"].JBool? then Fail(FlagNotBoolean)
    else if !KeyFactsShapeOk(f["key_facts"]) then Fail(KeyFactsInvalid(f["key_facts"]))
    else match FirstNonString(f["key_facts"].items, 0)
      case Some(i) => Fail(KeyFactNotString(i))
      case None =>
        match FirstBlankText(TextValues(f), 0)
        case Some(k) => Fail(BlankText(TEXT_FIELDS[k]))
        case None => Pass
  }

  /** The schema's demands on the fields, stated on their own. */
  ghost predicate FieldsConform(f: map<string, Value>)
    requires HasRequiredKeys(f)
  {
    && InEnum(f["case_type"], VALID_CASE_TYPES)
    && InEnum(f["urgency"], VALID_URGENCY)
    && (f["viability_score"].JBool? || (f["viability_score"].JInt? && 0 <= f["viability_score"].i <= 10))
    && f["statute_of_limitations_flag"].JBool?
    && f["key_facts"].JList?
    && 3 <= |f["key_facts"].items| <= 5
    && (forall i :: 0 <= i < |f["key_facts"].items| ==> f["key_facts"].items[i].JString?)
    && (forall k :: 0 <= k < |TEXT_FIELDS| ==> TextOk(TextValues(f)[k]))
  }

  /** The intake schema: what an accepted classification looks like. */
  ghost predicate Conforms(v: Value) {
    v.JObject? && HasRequiredKeys(v.fields) && FieldsConform(v.fields)
  }

  lemma FieldChecksAcceptExactlyConforming(f: map<string, Value>)
    requires HasRequiredKeys(f)
    ensures ValidateFields(f).Pass? <==> FieldsConform(f)
  {
    if ValidateFields(f).Pass? {
      PassingFieldsConform(f);
    }
    if FieldsConform(f) {
      ConformingFieldsPass(f);
    }
  }

  lemma PassingFieldsConform(f: map<string, Value>)
    requires HasRequiredKeys(f) && ValidateFields(f).Pass?
    ensures FieldsConform(f)
  {
    NoNonStringIffAllStrings(f["key_facts"].items);
    NoBlankTextIffAllOk(f);
  }

  lemma ConformingFieldsPass(f: map<string, Value>)
    requires HasRequiredKeys(f) && FieldsConform(f)
    ensures ValidateFields(f).Pass?
  {
    assert Hashable(f["case_type"]) && InEnum(f["case_type"], VALID_CASE_TYPES);
    assert Hashable(f["urgency"]) && InEnum(f["urgency"], VALID_URGENCY);
    assert ScoreAcceptable(f["viability_score"]) && f["statute_of_limitations_flag"].JBool?;
    assert KeyFactsShapeOk(f["key_facts"]);
    NoNonStringIffAllStrings(f["key_facts"].items);
    assert FirstNonString(f["key_facts"].items, 0).None?;
    NoBlankTextIffAllOk(f);
    assert FirstBlankText(TextValues(f), 0).None?;
  }

  lemma NoNonStringIffAllStrings(facts: seq<Value>)
    ensures FirstNonString(facts, 0).None? <==> forall i :: 0 <= i < |facts| ==> facts[i].JString?
  {
  }

  lemma NoBlankTextIffAllOk(f: map<string, Value>)
    requires HasRequiredKeys(f)
    ensures FirstBlankText(TextValues(f), 0).None? <==> forall k :: 0 <= k < |TEXT_FIELDS| ==> TextOk(TextValues(f)[k])
  {
  }

  /** The validator accepts exactly the values that conform to the schema. */
  lemma ValidateAcceptsExactlyConforming(v: Value)
    ensures Validate(v).Pass? <==> Conforms(v)
  {
    if v.JObject? {
      MissingKeysEmptyIffPresent(v.fields);
      if HasRequiredKeys(v.fields) {
        FieldChecksAcceptExactlyConforming(v.fields);
      }
    }
  }

  /** The position of each error in the validator's sequence of checks. */
  function Stage(e: ValidationError): nat {
    match e
    case NotAnObject => 0
    case MissingKeys(_) => 1
    case UnhashableValue(key) => if key == "case_type" then 2 else 3
    case InvalidCaseType(_) => 2
    case InvalidUrgency(_) => 3
    case ScoreOutOfRange(_) => 4
    case FlagNotBoolean => 5
    case KeyFactsInvalid(_) => 6
    case KeyFactNotString(_) => 7
    case BlankText(_) => 8
  }

  /** Check number `s` of the validator. */
  ghost predicate CheckHolds(v: Value, s: nat) {
    if s == 0 then v.JObject?
    else if !v.JObject? || !HasRequiredKeys(v.fields) then false
    else
      var f := v.fields;
      match s
      case 1 => true
      case 2 => InEnum(f["case_type"], VALID_CASE_TYPES)
      case 3 => InEnum(f["urgency"], VALID_URGENCY)
      case 4 => ScoreAcceptable(f["viability_score"])
      case 5 => f["statute_of_limitations_flag"].JBool?
      case 6 => KeyFactsShapeOk(f["key_facts"])
      case 7 => f["key_facts"].JList? && forall i :: 0 <= i < |f["key_facts"].items| ==> f["key_facts"].items[i].JString?
      case _ => forall k :: 0 <= k < |TEXT_FIELDS| ==> TextOk(TextValues(f)[k])
  }

  /**
   * The error a rejected value gets is that of the first failing check: every
   * earlier check holds and the reported one does not.
   */
  lemma ValidateReportsFirstFailure(v: Value)
    requires Validate(v).Fail?
    ensures var e := Validate(v).error;
      (forall s :: 0 <= s < Stage(e) ==> CheckHolds(v, s)) && !CheckHolds(v, Stage(e))
  {
    var e := Validate(v).error;
    if v.JObject? {
      var f := v.fields;
      MissingKeysEmptyIffPresent(f);
      if HasRequiredKeys(f) {
        FieldErrorIsFirstFailure(v);
      }
    }
  }

  lemma FieldErrorIsFirstFailure(v: Value)
    requires v.JObject? && HasRequiredKeys(v.fields) && ValidateFields(v.fields).Fail?
    ensures var e := ValidateFields(v.fields).error;
      (forall s :: 0 <= s < Stage(e) ==> CheckHolds(v, s)) && !CheckHolds(v, Stage(e))
  {
    var f := v.fields;
    var e := ValidateFields(f).error;
    var n := Stage(e);
    assert n > 2 ==> CheckHolds(v, 2);
    assert n > 3 ==> CheckHolds(v, 3);
    assert n > 4 ==> CheckHolds(v, 4);
    assert n > 5 ==> CheckHolds(v, 5);
    assert n > 6 ==> CheckHolds(v, 6);
    if n == 8 {
      assert KeyFactsShapeOk(f["key_facts"]);
      assert FirstNonString(f["key_facts"].items, 0).None?;
      assert CheckHolds(v, 7);
    }
    forall s | 0 <= s < n
      ensures CheckHolds(v, s)
    {
      assert s == 0 || s == 1 || s == 2 || s == 3 || s == 4 || s == 5 || s == 6 || s == 7;
    }
    assert !CheckHolds(v, n);
  }

  /** A missing key is reported, with exactly the missing keys, before anything else is looked at. */
  lemma ValidateErrorDetails(v: Value)
    requires Validate(v).Fail?
    ensures var e := Validate(v).error;
      e.MissingKeys? <==> (v.JObject? && REQUIRED_KEYS - v.fields.Keys != {})
    ensures var e := Validate(v).error;
      e.MissingKeys? ==> e.missing == REQUIRED_KEYS - v.fields.Keys
  {
    if v.JObject? {
      MissingKeysEmptyIffPresent(v.fields);
    }
  }

  /** A key fact that is not a string is reported at the first such fact. */
  lemma KeyFactErrorIsFirstBadFact(v: Value)
    requires Validate(v).Fail? && Validate(v).error.KeyFactNotString?
    ensures v.JObject? && HasRequiredKeys(v.fields) && v.fields["key_facts"].JList?
    ensures var i := Validate(v).error.index; var facts := v.fields["key_facts"].items;
      && i < |facts| && !facts[i].JString?
      && forall j :: 0 <= j < i ==> facts[j].JString?
  {
    MissingKeysEmptyIffPresent(v.fields);
    assert KeyFactsShapeOk(v.fields["key_facts"]);
  }

  /** A blank or non-string text field is reported by name, the first such field in order. */
  lemma BlankTextErrorIsFirstBadField(v: Value)
    requires Validate(v).Fail? && Validate(v).error.BlankText?
    ensures v.JObject? && HasRequiredKeys(v.fields)
    ensures exists k :: (&& 0 <= k < |TEXT_FIELDS| && Validate(v).error.field == TEXT_FIELDS[k]
                         && !TextOk(TextValues(v.fields)[k])
                         && forall j :: 0 <= j < k ==> TextOk(TextValues(v.fields)[j]))
  {
    var f := v.fields;
    MissingKeysEmptyIffPresent(f);
    assert KeyFactsShapeOk(f["key_facts"]);
    assert FirstNonString(f["key_facts"].items, 0).None?;
    var k := FirstBlankText(TextValues(f), 0).value;
    assert Validate(v).error.field == TEXT_FIELDS[k];
  }

  /** What an accepted classification guarantees to the code that stores it. */
  lemma AcceptedClassification(v: Value)
    requires Validate(v).Pass?
    ensures v.JObject? && REQUIRED_KEYS <= v.fields.Keys && HasRequiredKeys(v.fields)
    ensures v.fields["case_type"].JString? && v.fields["case_type"].s in VALID_CASE_TYPES
    ensures v.fields["urgency"].JString? && v.fields["urgency"].s in VALID_URGENCY
    ensures var n := PyInt(v.fields["viability_score"]); n.Some? && 0 <= n.value <= 10
    ensures v.fields["viability_score"].JBool?
      || (v.fields["viability_score"].JInt? && 0 <= v.fields["viability_score"].i <= 10)
    ensures v.fields["statute_of_limitations_flag"].JBool?
    ensures var facts := v.fields["key_facts"];
      facts.JList? && 3 <= |facts.items| <= 5 && forall i :: 0 <= i < |facts.items| ==> facts.items[i].JString?
    ensures forall k :: 0 <= k < |TEXT_FIELDS| ==> TEXT_FIELDS[k] in v.fields && TextOk(v.fields[TEXT_FIELDS[k]])
  {
    ValidateAcceptsExactlyConforming(v);
    MissingKeysEmptyIffPresent(v.fields);
    TextValuesAreTheFields(v.fields);
  }

  // ---------------------------------------------------------------------------
  // classify, after the model call
  // ---------------------------------------------------------------------------

  datatype ClassifyError =
    /** `json.loads` failed on the cleaned text. */
    | InvalidJson
    | Rejected(reason: ValidationError)

  /**
   * The part of `classify` that follows the model call: strip the fences,
   * parse (the parser is a parameter), validate, and hand back the parsed
   * value unchanged when it is accepted.
   */
  function Interpret(rawText: string, parse: string -> Option<Value>): (r: Result<Value, ClassifyError>)
    ensures parse(StripFences(rawText)).None? <==> r == Failure(InvalidJson)
    ensures r.Success? ==> parse(StripFences(rawText)) == Some(r.value) && Conforms(r.value)
    ensures r.Failure? && r.error.Rejected? ==>
      parse(StripFences(rawText)).Some? && Validate(parse(StripFences(rawText)).value) == Fail(r.error.reason)
  {
    match parse(StripFences(rawText))
    case None => Failure(InvalidJson)
    case Some(result) =>
      ValidateAcceptsExactlyConforming(result);
      match Validate(result)
      case Fail(e) => Failure(Rejected(e))
      case Pass => Success(result)
  }
}
