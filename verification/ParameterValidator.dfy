/** Validation of the parameter values of a new instance against the extension's definitions. */
module ParameterValidator {
  import opened Text
  import opened Errors

  /** A JavaScript value: a string, or anything else with the text it is printed as. */
  datatype JsValue = JsString(s: string) | JsOther(display: string)
  {
    function Display(): string {
      if JsString? then s else display
    }
  }

  /** A parameter definition as the extension returns it. `required` is the truth value of the
      entry, `regex` is None when it is falsy, `options` is None when it is no array, and an
      option is None when reading its id fails. */
  datatype RawDefinition = RawDefinition(
    id: Option<JsValue>,
    name: Option<JsValue>,
    required: bool,
    kind: JsValue,
    regex: Option<string>,
    options: Option<seq<Option<JsValue>>>)

  datatype RawEntry = Definition(raw: RawDefinition) | NotAMap

  datatype ParameterDefinition = ParameterDefinition(id: string, name: string, raw: RawDefinition)

  datatype ParameterValue = ParameterValue(name: string, value: string)

  datatype ValidationResult = ValidationResult(success: bool, message: string)

  /** Whether the pattern matches the value; None when the pattern is no regular expression. */
  type RegexEngine = (string, string) -> Option<bool>

  // ----- Converting the definitions -----

  function ExtractString(value: Option<JsValue>, key: string): Result<string> {
    if value.Some? && value.value.JsString? then Ok(value.value.s) else Err(Plain(BadDefinition(key)))
  }

  function ConvertDefinition(entry: RawEntry): Result<ParameterDefinition> {
    match entry
    case NotAMap => Err(Plain(BadDefinition("")))
    case Definition(raw) =>
      var id :- ExtractString(raw.id, "id");
      var name :- ExtractString(raw.name, "name");
      Ok(ParameterDefinition(id, name, raw))
  }

  /** The converted definitions, or the error of the first entry that cannot be converted. */
  function Converted(entries: seq<RawEntry>): Result<seq<ParameterDefinition>> {
    if entries == [] then Ok([])
    else
      var first :- ConvertDefinition(entries[0]);
      var rest :- Converted(entries[1..]);
      Ok([first] + rest)
  }

  /** The items collected so far in front of what the rest yields. */
  ghost function After<T>(items: seq<T>, rest: Result<seq<T>>): (r: Result<seq<T>>)
    ensures items == [] ==> r == rest
  {
    if rest.Ok? then
      assert items == [] ==> items + rest.value == rest.value;
      Ok(items + rest.value)
    else rest
  }

  lemma AfterMore<T>(items: seq<T>, more: seq<T>, rest: Result<seq<T>>)
    ensures After(items + more, rest) == After(items, if rest.Ok? then Ok(more + rest.value) else rest)
  {
    if rest.Ok? {
      assert items + more + rest.value == items + (more + rest.value);
    }
  }

  method ConvertDefinitions(entries: seq<RawEntry>) returns (r: Result<seq<ParameterDefinition>>)
    ensures r == Converted(entries)
  {
    var definitions := [];
    assert entries[0..] == entries;
    for i := 0 to |entries|
      invariant Converted(entries) == After(definitions, Converted(entries[i..]))
    {
      assert entries[i..][1..] == entries[i + 1..];
      var converted := ConvertDefinition(entries[i]);
      if converted.IsFailure() {
        return converted.PropagateFailure();
      }
      AfterMore(definitions, [converted.value], Converted(entries[i + 1..]));
      definitions := definitions + [converted.value];
    }
    assert entries[|entries|..] == [] && definitions + [] == definitions;
    return Ok(definitions);
  }

  /** Conversion succeeds exactly when every entry has a string for its id and its name, and then it
      keeps number and order and each raw definition. */
  lemma {:induction false} ConversionIsComplete(entries: seq<RawEntry>)
    ensures Converted(entries).Ok? <==>
              forall i | 0 <= i < |entries| ::
                && entries[i].Definition?
                && entries[i].raw.id.Some? && entries[i].raw.id.value.JsString?
                && entries[i].raw.name.Some? && entries[i].raw.name.value.JsString?
    ensures Converted(entries).Ok? ==>
              var definitions := Converted(entries).value;
              && |definitions| == |entries|
              && forall i | 0 <= i < |entries| ::
                   && definitions[i].raw == entries[i].raw
                   && entries[i].raw.id == Some(JsString(definitions[i].id))
                   && entries[i].raw.name == Some(JsString(definitions[i].name))
    ensures !Converted(entries).Panic?
  {
    if entries != [] {
      ConversionIsComplete(entries[1..]);
      assert entries == [entries[0]] + entries[1..];
      if Converted(entries[1..]).Err? {
        var i :| 0 <= i < |entries[1..]| && !ConvertDefinition(entries[1..][i]).Ok?;
        assert entries[i + 1] == entries[1..][i];
      }
    }
  }

  // ----- The rules -----

  const SUCCESS := ValidationResult(true, "")

  function ValidationError(message: string): ValidationResult {
    ValidationResult(false, message)
  }

  /** The value is acceptable for the definition. */
  predicate Satisfies(engine: RegexEngine, raw: RawDefinition, value: string) {
    if value == "" then !raw.required
    else
      || (raw.kind == JsString("string") && (raw.regex.None? || engine(raw.regex.value, value) == Some(true)))
      || (raw.kind == JsString("boolean") && (value == "true" || value == "false"))
      || (raw.kind == JsString("select") && raw.options.Some? && Some(JsString(value)) in raw.options.value)
  }

  /** The definition is broken in a way that makes the rules throw for the value. */
  predicate Throws(engine: RegexEngine, raw: RawDefinition, value: string) {
    value != "" &&
    ((raw.kind == JsString("string") && raw.regex.Some? && engine(raw.regex.value, value).None?) ||
     (raw.kind == JsString("select") && (raw.options.None? || None in raw.options.value)))
  }

  /** The rules of the validation script; None stands for a thrown error. */
  function Validate(engine: RegexEngine, raw: RawDefinition, value: string): Option<ValidationResult> {
    if value == "" then
      Some(if raw.required then ValidationError("This is a required parameter.") else SUCCESS)
    else if raw.kind == JsString("string") then ValidateString(engine, raw, value)
    else if raw.kind == JsString("boolean") then Some(ValidateBoolean(value))
    else if raw.kind == JsString("select") then ValidateSelect(raw, value)
    else Some(ValidationError("unsupported parameter type '" + raw.kind.Display() + "'"))
  }

  function ValidateString(engine: RegexEngine, raw: RawDefinition, value: string): Option<ValidationResult> {
    if raw.regex.None? then Some(SUCCESS)
    else
      match engine(raw.regex.value, value)
      case None => None
      case Some(matches) => Some(if matches then SUCCESS else ValidationError("The value has an invalid format."))
  }

  function ValidateBoolean(value: string): ValidationResult {
    if value == "true" || value == "false" then SUCCESS
    else ValidationError("Boolean value must be 'true' or 'false'.")
  }

  function ValidateSelect(raw: RawDefinition, value: string): Option<ValidationResult> {
    if raw.options.None? || None in raw.options.value then None
    else
      var ids := raw.options.value;
      if |ids| == 0 then Some(ValidationError("No option available for this parameter."))
      else if Some(JsString(value)) in ids then Some(SUCCESS)
      else
        var quoted := seq(|ids|, i requires 0 <= i < |ids| => "'" + (if ids[i].Some? then ids[i].value.Display() else "") + "'");
        Some(ValidationError("The value is not allowed. Possible values are " + Join(quoted, ", ") + "."))
  }

  /** The script accepts exactly the acceptable values, and throws only for broken definitions. */
  lemma RulesDecide(engine: RegexEngine, raw: RawDefinition, value: string)
    ensures Validate(engine, raw, value).None? <==> Throws(engine, raw, value)
    ensures !Throws(engine, raw, value) ==>
              (Validate(engine, raw, value).value.success <==> Satisfies(engine, raw, value))
  {
  }

  /** What a refused value is told, by the first rule it breaks. */
  lemma RuleMessages(engine: RegexEngine, raw: RawDefinition, value: string)
    requires !Throws(engine, raw, value) && !Satisfies(engine, raw, value)
    ensures Validate(engine, raw, value).Some?
    ensures var message := Validate(engine, raw, value).value.message;
            if value == "" then message == "This is a required parameter."
            else if raw.kind == JsString("string") then message == "The value has an invalid format."
            else if raw.kind == JsString("boolean") then message == "Boolean value must be 'true' or 'false'."
            else if raw.kind == JsString("select") then raw.options.Some? && message == SelectMessage(raw.options.value)
            else message == "unsupported parameter type '" + raw.kind.Display() + "'"
  {
    hide SelectMessage;
    if value != "" && raw.kind == JsString("select") {
      SelectIsTold(raw, value);
    }
  }

  /** The options are listed in order, each in quotes. */
  function SelectMessage(options: seq<Option<JsValue>>): string {
    if options == [] then "No option available for this parameter."
    else "The value is not allowed. Possible values are " + Join(QuotedIds(options), ", ") + "."
  }

  function QuotedIds(options: seq<Option<JsValue>>): seq<string> {
    if options == [] then []
    else ["'" + (if options[0].Some? then options[0].value.Display() else "") + "'"] + QuotedIds(options[1..])
  }

  lemma {:induction false} QuotedIdsAt(options: seq<Option<JsValue>>)
    ensures |QuotedIds(options)| == |options|
    ensures forall i | 0 <= i < |options| ::
              QuotedIds(options)[i] == "'" + (if options[i].Some? then options[i].value.Display() else "") + "'"
  {
    if options != [] {
      QuotedIdsAt(options[1..]);
    }
  }

  lemma SelectIsTold(raw: RawDefinition, value: string)
    requires raw.options.Some? && None !in raw.options.value && Some(JsString(value)) !in raw.options.value
    ensures ValidateSelect(raw, value) == Some(ValidationError(SelectMessage(raw.options.value)))
  {
    var ids := raw.options.value;
    QuotedIdsAt(ids);
    assert QuotedIds(ids) == seq(|ids|, i requires 0 <= i < |ids| => "'" + (if ids[i].Some? then ids[i].value.Display() else "") + "'");
  }

  // ----- Validating all parameters -----

  predicate FirstSupplied(values: seq<ParameterValue>, id: string, k: nat) {
    k < |values| && values[k].name == id && forall i | 0 <= i < k :: values[i].name != id
  }

  /** The value of a parameter: the first one supplied under the id, or the empty string if there is
      none. */
  predicate Supplies(values: seq<ParameterValue>, id: string, value: string) {
    || (exists k :: 0 <= k < |values| && FirstSupplied(values, id, k) && values[k].value == value)
    || (value == "" && forall i | 0 <= i < |values| :: values[i].name != id)
  }

  /** The search for the value finds it. */
  function FindParamValue(values: seq<ParameterValue>, id: string): (value: string)
    ensures Supplies(values, id, value)
  {
    if values == [] then ""
    else if values[0].name == id then assert FirstSupplied(values, id, 0); values[0].value
    else
      var value := FindParamValue(values[1..], id);
      assert Supplies(values, id, value) by { SuppliedBehind(values, id, value); }
      value
  }

  lemma SuppliedBehind(values: seq<ParameterValue>, id: string, value: string)
    requires values != [] && values[0].name != id && Supplies(values[1..], id, value)
    ensures Supplies(values, id, value)
  {
    var rest := values[1..];
    if k :| 0 <= k < |rest| && FirstSupplied(rest, id, k) && rest[k].value == value {
      assert forall i | 0 < i <= k :: values[i] == rest[i - 1];
      assert FirstSupplied(values, id, k + 1);
    } else {
      assert forall i | 0 < i < |values| :: values[i] == rest[i - 1];
    }
  }

  /** A parameter has no other value. */
  lemma SuppliedOnce(values: seq<ParameterValue>, id: string, value: string)
    requires Supplies(values, id, value)
    ensures value == FindParamValue(values, id)
  {
    var found := FindParamValue(values, id);
    if k, n :| 0 <= k < |values| && 0 <= n < |values| && FirstSupplied(values, id, k) && FirstSupplied(values, id, n)
               && values[k].value == value && values[n].value == found {
      assert k == n;
    }
  }

  ghost predicate Accepted(engine: RegexEngine, def: ParameterDefinition, values: seq<ParameterValue>) {
    forall value | Supplies(values, def.id, value) :: Satisfies(engine, def.raw, value)
  }

  ghost predicate Evaluable(engine: RegexEngine, def: ParameterDefinition, values: seq<ParameterValue>) {
    forall value | Supplies(values, def.id, value) :: !Throws(engine, def.raw, value)
  }

  /** It is the first supplied value that counts, and the empty string if there is none. */
  lemma FirstSuppliedDecides(engine: RegexEngine, def: ParameterDefinition, values: seq<ParameterValue>, k: nat)
    ensures FirstSupplied(values, def.id, k) ==>
              && (Accepted(engine, def, values) <==> Satisfies(engine, def.raw, values[k].value))
              && (Evaluable(engine, def, values) <==> !Throws(engine, def.raw, values[k].value))
    ensures (forall i | 0 <= i < |values| :: values[i].name != def.id) ==>
              (Accepted(engine, def, values) <==> !def.raw.required) && Evaluable(engine, def, values)
  {
    hide FindParamValue;
    forall value | Supplies(values, def.id, value) ensures value == FindParamValue(values, def.id) {
      SuppliedOnce(values, def.id, value);
    }
    if FirstSupplied(values, def.id, k) {
      assert Supplies(values, def.id, values[k].value);
    }
    assert Supplies(values, def.id, FindParamValue(values, def.id));
  }

  function ValidateOne(engine: RegexEngine, def: ParameterDefinition, values: seq<ParameterValue>): Result<ValidationResult> {
    var value := FindParamValue(values, def.id);
    match Validate(engine, def.raw, value)
    case None => Err(Plain(ValidatorFailed(value, def.id)))
    case Some(result) => Ok(result)
  }

  function Report(def: ParameterDefinition, result: ValidationResult): ValidationResult {
    ValidationError("Failed to validate parameter '" + def.name + "' (" + def.id + "): " + result.message)
  }

  /** The reports of the failing definitions in definition order; the first validator call that
      errors ends the validation. */
  function Failures(engine: RegexEngine, defs: seq<ParameterDefinition>, values: seq<ParameterValue>)
    : Result<seq<ValidationResult>>
  {
    if defs == [] then Ok([])
    else
      var result :- ValidateOne(engine, defs[0], values);
      var rest :- Failures(engine, defs[1..], values);
      Ok((if result.success then [] else [Report(defs[0], result)]) + rest)
  }

  method ValidateParameters(engine: RegexEngine, defs: seq<ParameterDefinition>, values: seq<ParameterValue>)
    returns (r: Result<seq<ValidationResult>>)
    ensures r == Failures(engine, defs, values)
  {
    var failed := [];
    assert defs[0..] == defs;
    for i := 0 to |defs|
      invariant Failures(engine, defs, values) == After(failed, Failures(engine, defs[i..], values))
    {
      assert defs[i..][1..] == defs[i + 1..];
      var result := ValidateOne(engine, defs[i], values);
      if result.IsFailure() {
        return result.PropagateFailure();
      }
      AfterMore(failed, if result.value.success then [] else [Report(defs[i], result.value)], Failures(engine, defs[i + 1..], values));
      assert failed + [] == failed;
      if !result.value.success {
        failed := failed + [Report(defs[i], result.value)];
      }
    }
    assert defs[|defs|..] == [] && failed + [] == failed;
    return Ok(failed);
  }

  /** The definitions whose value is not acceptable, in order. */
  ghost function Failing(engine: RegexEngine, defs: seq<ParameterDefinition>, values: seq<ParameterValue>)
    : (failing: seq<ParameterDefinition>)
    ensures forall def :: def in failing <==> def in defs && !Accepted(engine, def, values)
  {
    if defs == [] then []
    else (if Accepted(engine, defs[0], values) then [] else [defs[0]]) + Failing(engine, defs[1..], values)
  }

  /** The report names the definition and says what the rules say about its value. */
  ghost predicate Reports(engine: RegexEngine, def: ParameterDefinition, values: seq<ParameterValue>, report: ValidationResult) {
    forall value | Supplies(values, def.id, value) ::
      var result := Validate(engine, def.raw, value);
      && result.Some? && !report.success
      && report.message == "Failed to validate parameter '" + def.name + "' (" + def.id + "): " + result.value.message
  }

  lemma OneDecides(engine: RegexEngine, def: ParameterDefinition, values: seq<ParameterValue>)
    ensures var result := ValidateOne(engine, def, values);
            && (result.Ok? <==> Evaluable(engine, def, values))
            && !result.Panic?
            && (result.Ok? ==>
                  && (result.value.success <==> Accepted(engine, def, values))
                  && Reports(engine, def, values, Report(def, result.value)))
  {
    hide FindParamValue, Satisfies, Throws, Validate;
    var found := FindParamValue(values, def.id);
    RulesDecide(engine, def.raw, found);
    forall value | Supplies(values, def.id, value) ensures value == found {
      SuppliedOnce(values, def.id, value);
    }
  }

  /** When no validator call errors, the report is complete: one entry per failing definition, in
      definition order, and nothing else. It errors exactly when a call errors. */
  lemma {:induction false} ReportIsComplete(engine: RegexEngine, defs: seq<ParameterDefinition>, values: seq<ParameterValue>)
    ensures Failures(engine, defs, values).Ok? <==> forall i | 0 <= i < |defs| :: Evaluable(engine, defs[i], values)
    ensures !Failures(engine, defs, values).Panic?
    ensures Failures(engine, defs, values).Ok? ==>
              var reports, failing := Failures(engine, defs, values).value, Failing(engine, defs, values);
              && |reports| == |failing|
              && forall i | 0 <= i < |failing| :: Reports(engine, failing[i], values, reports[i])
  {
    hide ValidateOne, Evaluable, Accepted, Reports, Report;
    if defs != [] {
      OneDecides(engine, defs[0], values);
      ReportIsComplete(engine, defs[1..], values);
      if forall i | 0 <= i < |defs| :: Evaluable(engine, defs[i], values) {
        forall i | 0 <= i < |defs[1..]| ensures Evaluable(engine, defs[1..][i], values) {
          assert Evaluable(engine, defs[i + 1], values);
        }
      } else if Evaluable(engine, defs[0], values) {
        var i :| 0 <= i < |defs| && !Evaluable(engine, defs[i], values);
        assert defs[1..][i - 1] == defs[i];
      }
    }
  }

  // ----- The message for the client -----

  const SEPARATOR := ", "

  function Messages(results: seq<ValidationResult>): seq<string> {
    seq(|results|, i requires 0 <= i < |results| => results[i].message)
  }

  /** Every message followed by the separator. */
  function Concatenated(messages: seq<string>): string {
    if messages == [] then "" else Concatenated(messages[..|messages| - 1]) + messages[|messages| - 1] + SEPARATOR
  }

  function TrimSuffix(s: string, suffix: string): string {
    if |suffix| <= |s| && s[|s| - |suffix|..] == suffix then s[..|s| - |suffix|] else s
  }

  method BuildMessage(results: seq<ValidationResult>) returns (message: string)
    ensures message == TrimSuffix(Concatenated(Messages(results)), SEPARATOR)
  {
    message := "";
    for i := 0 to |results|
      invariant message == Concatenated(Messages(results)[..i])
    {
      assert Messages(results)[..i + 1][..i] == Messages(results)[..i];
      message := message + results[i].message + SEPARATOR;
    }
    assert Messages(results)[..|results|] == Messages(results);
    message := TrimSuffix(message, SEPARATOR);
  }

  /** Building the message with a separator behind every part and removing the last one is joining. */
  lemma {:induction false} MessageIsJoin(messages: seq<string>)
    ensures TrimSuffix(Concatenated(messages), SEPARATOR) == Join(messages, SEPARATOR)
    ensures messages != [] ==> Concatenated(messages) == Join(messages, SEPARATOR) + SEPARATOR
  {
    if messages != [] {
      var front, last := messages[..|messages| - 1], messages[|messages| - 1];
      assert messages == front + [last];
      MessageIsJoin(front);
      if front != [] {
        JoinAppend(front, last, SEPARATOR);
      }
      assert Concatenated(messages) == Join(messages, SEPARATOR) + SEPARATOR;
    }
  }

  /** The error of a create call whose parameters are refused. */
  function Refusal(engine: RegexEngine, defs: seq<ParameterDefinition>, values: seq<ParameterValue>): Result<()> {
    var results := Failures(engine, defs, values);
    if results.IsFailure() then results.Fail(ValidatingParameters)
    else
      var message := TrimSuffix(Concatenated(Messages(results.value)), SEPARATOR);
      if message != "" then Err(NewApiError(BAD_REQUEST, "invalid parameters: " + message)) else Ok(())
  }

  method CheckParameters(engine: RegexEngine, defs: seq<ParameterDefinition>, values: seq<ParameterValue>)
    returns (r: Result<()>)
    ensures r == Refusal(engine, defs, values)
  {
    var results := ValidateParameters(engine, defs, values);
    if results.IsFailure() {
      return results.Fail(ValidatingParameters);
    }
    var message := BuildMessage(results.value);
    if message != "" {
      return Err(NewApiError(BAD_REQUEST, "invalid parameters: " + message));
    }
    return Ok(());
  }

  lemma JoinNonEmpty(parts: seq<string>, separator: string)
    requires parts != [] && parts[0] != ""
    ensures Join(parts, separator) != ""
  {
  }

  /** The values pass exactly when no rule throws and every definition's value is acceptable. When no
      rule throws, at least one failing definition means status 400 with the messages of exactly
      the failing definitions, joined. */
  lemma RefusalDecides(engine: RegexEngine, defs: seq<ParameterDefinition>, values: seq<ParameterValue>)
    ensures Refusal(engine, defs, values).Ok? <==>
              forall i | 0 <= i < |defs| :: Evaluable(engine, defs[i], values) && Accepted(engine, defs[i], values)
    ensures (forall i | 0 <= i < |defs| :: Evaluable(engine, defs[i], values)) ==>
              var reports := Failures(engine, defs, values);
              && reports.Ok?
              && (Failing(engine, defs, values) != [] <==> Refusal(engine, defs, values).Err?)
              && (Failing(engine, defs, values) != [] ==>
                    var messages := seq(|reports.value|, i requires 0 <= i < |reports.value| => reports.value[i].message);
                    Refusal(engine, defs, values).error == Api(400, "invalid parameters: " + Join(messages, ", "), "", None))
    ensures (exists i :: 0 <= i < |defs| && !Evaluable(engine, defs[i], values)) ==>
              Refusal(engine, defs, values).Err? && StatusOf(Refusal(engine, defs, values).error) == 500
    ensures !Refusal(engine, defs, values).Panic?
  {
    hide Failures, Reports, Accepted, Evaluable, Join, Concatenated, TrimSuffix, StatusOf;
    ReportIsComplete(engine, defs, values);
    var results := Failures(engine, defs, values);
    if results.Ok? {
      var failing := Failing(engine, defs, values);
      RefusalText(engine, defs, values);
      if failing != [] {
        ReportHasText(engine, failing[0], values, results.value[0]);
        JoinNonEmpty(Messages(results.value), ", ");
        assert failing[0] in failing;
      } else {
        NoReports();
        forall i | 0 <= i < |defs| ensures Accepted(engine, defs[i], values) {
          assert defs[i] in defs;
        }
      }
    } else {
      FailuresNeverApi(engine, defs, values);
      PlainIsInternal(results.error);
    }
  }

  lemma RefusalText(engine: RegexEngine, defs: seq<ParameterDefinition>, values: seq<ParameterValue>)
    requires Failures(engine, defs, values).Ok?
    ensures var message := Join(Messages(Failures(engine, defs, values).value), ", ");
            Refusal(engine, defs, values) == if message != "" then Err(Api(400, "invalid parameters: " + message, "", None)) else Ok(())
  {
    hide Failures, Join, Concatenated, TrimSuffix;
    MessageIsJoin(Messages(Failures(engine, defs, values).value));
  }

  lemma ReportHasText(engine: RegexEngine, def: ParameterDefinition, values: seq<ParameterValue>, report: ValidationResult)
    requires Reports(engine, def, values, report)
    ensures report.message != ""
  {
    assert Supplies(values, def.id, FindParamValue(values, def.id));
  }

  lemma NoReports()
    ensures Join(Messages([]), ", ") == ""
  {
  }

  lemma PlainIsInternal(error: Error)
    requires error.Plain?
    ensures StatusOf(Wrapped(ValidatingParameters, error)) == 500
  {
    WrappingKeepsStatus(ValidatingParameters, error);
  }

  lemma {:induction false} FailuresNeverApi(engine: RegexEngine, defs: seq<ParameterDefinition>, values: seq<ParameterValue>)
    ensures Failures(engine, defs, values).Err? ==> Failures(engine, defs, values).error.Plain?
  {
    if defs != [] {
      FailuresNeverApi(engine, defs[1..], values);
    }
  }
}
