/** The generic detail validator and parser: it only requires a non-empty
    `ExportDate` string and a `Homeworks` array, and passes every other
    property through. */
module DetailParser {
  import opened Strings
  import opened JsValues
  import DetailV0

  const NotAnObject := "Data must be an object"
  const BadExportDate := "Missing or invalid \"ExportDate\" field"
  const BadHomeworks := "Missing or invalid \"Homeworks\" field - must be an array"
  const InvalidPrefix := "Invalid detail data: "

  /** What the generic parser accepts. */
  predicate IsValidDetail(d: Json)
  {
    PassesObjectCheck(d) && NonEmptyStr(Get(d, "ExportDate")) && Get(d, "Homeworks").Arr?
  }

  /** The errors `validateDetailData` reports for `d`, in its order. */
  function DetailErrors(d: Json): (errs: seq<string>)
    ensures !PassesObjectCheck(d) ==> errs == [NotAnObject]
    ensures errs == [] <==> IsValidDetail(d)
    ensures |errs| <= 2
  {
    if !PassesObjectCheck(d) then [NotAnObject]
    else
      (if NonEmptyStr(Get(d, "ExportDate")) then [] else [BadExportDate])
      + (if Get(d, "Homeworks").Arr? then [] else [BadHomeworks])
  }

  /** For an object or array, each field's error is reported exactly when its
      check fails, and the `ExportDate` error comes first. */
  lemma ErrorsByField(d: Json)
    requires PassesObjectCheck(d)
    ensures BadExportDate in DetailErrors(d) <==> !NonEmptyStr(Get(d, "ExportDate"))
    ensures BadHomeworks in DetailErrors(d) <==> !Get(d, "Homeworks").Arr?
    ensures NotAnObject !in DetailErrors(d)
    ensures |DetailErrors(d)| == 2 ==> DetailErrors(d) == [BadExportDate, BadHomeworks]
  {
  }

  /** `validateDetailData(data)`. */
  method ValidateDetailData(data: Json) returns (r: ValidationResult)
    ensures r.errors == DetailErrors(data)
    ensures r.isValid <==> r.errors == []
  {
    var errors: seq<string> := [];
    if !Truthy(data) || !IsObjectType(data) {
      errors := errors + [NotAnObject];
      return ValidationResult(|errors| == 0, errors);
    }
    var exportDate := Get(data, "ExportDate");
    if !Truthy(exportDate) || !exportDate.Str? {
      errors := errors + [BadExportDate];
    }
    if !Get(data, "Homeworks").Arr? {
      errors := errors + [BadHomeworks];
    }
    return ValidationResult(|errors| == 0, errors);
  }

  /** `parseDetailData(data)`: throws on invalid input; otherwise the three
      named fields, with every property of the input spread over them. */
  function ParseDetailData(data: Json): (r: Result<map<string, Json>>)
    ensures r.Err? <==> !IsValidDetail(data)
    ensures r.Err? ==> r.message == InvalidPrefix + Join(DetailErrors(data), ", ")
    ensures r.Ok? ==> data.Obj? && r.value.Keys == data.fields.Keys + {"Description"}
    ensures r.Ok? ==> forall k :: k in data.fields ==> k in r.value && r.value[k] == data.fields[k]
    ensures r.Ok? && "Description" !in data.fields ==> r.value["Description"] == Undefined
    ensures r.Ok? ==> NonEmptyStr(r.value["ExportDate"]) && r.value["Homeworks"].Arr?
  {
    var validation := DetailErrors(data);
    if validation != [] then Err(InvalidPrefix + Join(validation, ", "))
    else
      Ok(map["Description" := Get(data, "Description"),
             "ExportDate" := Get(data, "ExportDate"),
             "Homeworks" := Get(data, "Homeworks")]
         + data.fields)
  }

  /** The generic parser and the version-0 parser disagree on one point:
      among documents the version-0 parser accepts, the generic one refuses
      exactly those whose `ExportDate` is the empty string. */
  lemma V0AcceptedIsDetailUnlessDateEmpty(d: Json)
    requires DetailV0.IsValidV0(d)
    ensures IsValidDetail(d) <==> Get(d, "ExportDate").s != ""
  {
  }
}
