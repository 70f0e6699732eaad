/** The strict version-1 job index validator and parser: `name`,
    `description`, `author`, `last` and `version` must each be a non-empty
    string; there is no fallback, and the input is only read. */
module IndexV1 {
  import opened Strings
  import opened JsValues

  const NotAnObject := "Data must be an object"
  const BadName := "Missing or invalid \"name\" field"
  const BadDescription := "Missing or invalid \"description\" field"
  const BadAuthor := "Missing or invalid \"author\" field"
  const BadLast := "Missing or invalid \"last\" field"
  const BadVersion := "Missing or invalid \"version\" field"
  const InvalidPrefix := "Invalid job index data: "

  /** What a valid version-1 job index is: an object whose five required
      fields are non-empty strings. */
  predicate IsValidV1(d: Json)
  {
    PassesObjectCheck(d)
    && NonEmptyStr(Get(d, "name"))
    && NonEmptyStr(Get(d, "description"))
    && NonEmptyStr(Get(d, "author"))
    && NonEmptyStr(Get(d, "last"))
    && NonEmptyStr(Get(d, "version"))
  }

  /** The error one field contributes: none, or `message`. */
  function FieldError(d: Json, key: string, message: string): seq<string>
  {
    if NonEmptyStr(Get(d, key)) then [] else [message]
  }

  /** The errors `validateJobIndex` reports for `d`, in the order it reports them. */
  function V1Errors(d: Json): (errs: seq<string>)
    ensures !PassesObjectCheck(d) ==> errs == [NotAnObject]
    ensures errs == [] <==> IsValidV1(d)
    ensures |errs| <= 5
  {
    if !PassesObjectCheck(d) then [NotAnObject]
    else
      FieldError(d, "name", BadName)
      + FieldError(d, "description", BadDescription)
      + FieldError(d, "author", BadAuthor)
      + FieldError(d, "last", BadLast)
      + FieldError(d, "version", BadVersion)
  }

  /** For an object or array, each field's error is reported exactly when
      that field is not a non-empty string. */
  lemma ErrorsByField(d: Json)
    requires PassesObjectCheck(d)
    ensures BadName in V1Errors(d) <==> !NonEmptyStr(Get(d, "name"))
    ensures BadDescription in V1Errors(d) <==> !NonEmptyStr(Get(d, "description"))
    ensures BadAuthor in V1Errors(d) <==> !NonEmptyStr(Get(d, "author"))
    ensures BadLast in V1Errors(d) <==> !NonEmptyStr(Get(d, "last"))
    ensures BadVersion in V1Errors(d) <==> !NonEmptyStr(Get(d, "version"))
  {
    var a, b, c, e, f := FieldError(d, "name", BadName), FieldError(d, "description", BadDescription),
      FieldError(d, "author", BadAuthor), FieldError(d, "last", BadLast), FieldError(d, "version", BadVersion);
    assert V1Errors(d) == a + b + c + e + f;
    assert forall x :: x in V1Errors(d) <==> x in a || x in b || x in c || x in e || x in f;
  }

  /** `validateJobIndex(data)`: pushes one error per failing field. */
  method ValidateJobIndex(data: Json) returns (r: ValidationResult)
    ensures r.errors == V1Errors(data)
    ensures r.isValid <==> r.errors == []
  {
    var errors: seq<string> := [];
    if !Truthy(data) || !IsObjectType(data) {
      errors := errors + [NotAnObject];
      return ValidationResult(|errors| == 0, errors);
    }
    var name := Get(data, "name");
    if !Truthy(name) || !name.Str? {
      errors := errors + [BadName];
    }
    var description := Get(data, "description");
    if !Truthy(description) || !description.Str? {
      errors := errors + [BadDescription];
    }
    assert errors == FieldError(data, "name", BadName) + FieldError(data, "description", BadDescription);
    var author := Get(data, "author");
    if !Truthy(author) || !author.Str? {
      errors := errors + [BadAuthor];
    }
    var last := Get(data, "last");
    if !Truthy(last) || !last.Str? {
      errors := errors + [BadLast];
    }
    assert errors == FieldError(data, "name", BadName) + FieldError(data, "description", BadDescription)
      + FieldError(data, "author", BadAuthor) + FieldError(data, "last", BadLast);
    var version := Get(data, "version");
    if !Truthy(version) || !version.Str? {
      errors := errors + [BadVersion];
    }
    return ValidationResult(|errors| == 0, errors);
  }

  /** `parseJobIndex(data)`: throws on invalid input; otherwise lists the five
      fields and spreads the whole input over them. */
  function ParseJobIndex(data: Json): (r: Result<map<string, Json>>)
    ensures r.Err? <==> !IsValidV1(data)
    ensures r.Err? ==> r.message == InvalidPrefix + Join(V1Errors(data), ", ")
    ensures r.Ok? ==> data.Obj? && r.value == data.fields
    ensures r.Ok? ==> "name" in r.value && r.value["name"] == data.fields["name"]
    ensures r.Ok? ==> "version" in r.value && r.value["version"] == data.fields["version"] && r.value["version"].Str?
  {
    var validation := V1Errors(data);
    if validation != [] then Err(InvalidPrefix + Join(validation, ", "))
    else
      Ok(map["name" := Get(data, "name"),
             "description" := Get(data, "description"),
             "author" := Get(data, "author"),
             "last" := Get(data, "last"),
             "version" := Get(data, "version")]
         + data.fields)
  }

  /** A numeric `version` is refused here while the validator the store uses
      accepts it. */
  lemma NumericVersionRejected(d: Json)
    requires PassesObjectCheck(d) && Get(d, "version").Num?
    ensures BadVersion in V1Errors(d)
    ensures !IsValidV1(d)
  {
    ErrorsByField(d);
  }
}
