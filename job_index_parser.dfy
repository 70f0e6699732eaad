/** The job index validator and parser that the job store uses: every field
    is checked and each failing field adds one error; a missing `name` is
    taken from `description`, written into the caller's object. */
module JobIndexParser {
  import opened Strings
  import opened JsValues

  const NotAnObject := "Data must be an object"
  const MissingName := "Missing \"name\" field and no suitable fallback available"
  const InvalidName := "Invalid \"name\" field - must be a string"
  const BadDescription := "Missing or invalid \"description\" field"
  const BadAuthor := "Missing or invalid \"author\" field"
  const BadLast := "Missing or invalid \"last\" field"
  const MissingVersion := "Missing \"version\" field"
  const InvalidVersion := "Invalid \"version\" field - must be a string or number"
  const InvalidPrefix := "Invalid job index data: "

  /** Position, in checking order, of the field an error message is about:
      name 0, description 1, author 2, last 3, version 4; 5 for other text. */
  function FieldRank(m: string): nat
  {
    if m == MissingName || m == InvalidName then 0
    else if m == BadDescription then 1
    else if m == BadAuthor then 2
    else if m == BadLast then 3
    else if m == MissingVersion || m == InvalidVersion then 4
    else 5
  }

  /** Validation copies `description` into `name`: the object has a falsy
      `name` and a non-empty string `description`. */
  predicate UsesNameFallback(d: Json)
  {
    d.Obj? && !Truthy(Get(d, "name")) && NonEmptyStr(Get(d, "description"))
  }

  /** The caller's value once validation has run: only `name` may change. */
  function WithNameFallback(d: Json): (r: Json)
    ensures r.Obj? <==> d.Obj?
    ensures forall k :: k != "name" ==> Get(r, k) == Get(d, k)
    ensures Get(r, "name") == if UsesNameFallback(d) then Get(d, "description") else Get(d, "name")
    ensures r.Obj? ==> r.fields.Keys == d.fields.Keys + (if UsesNameFallback(d) then {"name"} else {})
  {
    if UsesNameFallback(d) then Obj(d.fields["name" := Get(d, "description")]) else d
  }

  /** What a valid job index is, field by field. */
  predicate IsValidJobIndex(d: Json)
  {
    PassesObjectCheck(d)
    && (Get(d, "name").Str? || !Truthy(Get(d, "name")))
    && NonEmptyStr(Get(d, "description"))
    && NonEmptyStr(Get(d, "author"))
    && NonEmptyStr(Get(d, "last"))
    && (Get(d, "version").Str? || Get(d, "version").Num?)
  }

  function NameErrors(d: Json): seq<string>
  {
    var name := Get(d, "name");
    if !Truthy(name) then (if NonEmptyStr(Get(d, "description")) then [] else [MissingName])
    else if !name.Str? then [InvalidName]
    else []
  }

  function StringFieldErrors(d: Json, key: string, message: string): seq<string>
  {
    if NonEmptyStr(Get(d, key)) then [] else [message]
  }

  function VersionErrors(d: Json): seq<string>
  {
    var version := Get(d, "version");
    if version.Undefined? || version.Null? then [MissingVersion]
    else if !version.Str? && !version.Num? then [InvalidVersion]
    else []
  }

  /** The errors validation reports for `d`, in the order it reports them. */
  function JobIndexErrors(d: Json): (errs: seq<string>)
    ensures !PassesObjectCheck(d) ==> errs == [NotAnObject]
    ensures errs == [] <==> IsValidJobIndex(d)
    ensures |errs| <= 5
  {
    if !PassesObjectCheck(d) then [NotAnObject]
    else
      NameErrors(d)
      + StringFieldErrors(d, "description", BadDescription)
      + StringFieldErrors(d, "author", BadAuthor)
      + StringFieldErrors(d, "last", BadLast)
      + VersionErrors(d)
  }

  lemma MessageRanks()
    ensures FieldRank(MissingName) == 0 && FieldRank(InvalidName) == 0
    ensures FieldRank(BadDescription) == 1 && FieldRank(BadAuthor) == 2 && FieldRank(BadLast) == 3
    ensures FieldRank(MissingVersion) == 4 && FieldRank(InvalidVersion) == 4
    ensures MissingName != InvalidName && MissingVersion != InvalidVersion
  {
  }

  /** For an object or array, each field adds at most one error, and the
      errors come in field order: name, description, author, last, version. */
  lemma ErrorsInFieldOrder(d: Json)
    requires PassesObjectCheck(d)
    ensures forall i, j :: 0 <= i < j < |JobIndexErrors(d)| ==>
      FieldRank(JobIndexErrors(d)[i]) < FieldRank(JobIndexErrors(d)[j]) < 5
  {
    var a, b, c, e, f := NameErrors(d), StringFieldErrors(d, "description", BadDescription),
      StringFieldErrors(d, "author", BadAuthor), StringFieldErrors(d, "last", BadLast), VersionErrors(d);
    PieceRanks(d);
    var errs := JobIndexErrors(d);
    assert errs == a + b + c + e + f;
    forall i, j | 0 <= i < j < |errs|
      ensures FieldRank(errs[i]) < FieldRank(errs[j]) < 5
    {
      RankAt(a, b, c, e, f, i);
      RankAt(a, b, c, e, f, j);
    }
  }

  /** Each field's piece of the error list holds at most one message, of
      that field's rank. */
  lemma PieceRanks(d: Json)
    ensures |NameErrors(d)| <= 1 && forall x :: x in NameErrors(d) ==> FieldRank(x) == 0
    ensures var b := StringFieldErrors(d, "description", BadDescription);
      |b| <= 1 && forall x :: x in b ==> FieldRank(x) == 1
    ensures var c := StringFieldErrors(d, "author", BadAuthor);
      |c| <= 1 && forall x :: x in c ==> FieldRank(x) == 2
    ensures var e := StringFieldErrors(d, "last", BadLast);
      |e| <= 1 && forall x :: x in e ==> FieldRank(x) == 3
    ensures |VersionErrors(d)| <= 1 && forall x :: x in VersionErrors(d) ==> FieldRank(x) == 4
  {
    MessageRanks();
  }

  /** The rank of the `k`-th error is the number of the piece it comes from. */
  lemma RankAt(a: seq<string>, b: seq<string>, c: seq<string>, e: seq<string>, f: seq<string>, k: nat)
    requires k < |a + b + c + e + f|
    requires |a| <= 1 && |b| <= 1 && |c| <= 1 && |e| <= 1 && |f| <= 1
    requires forall x :: x in a ==> FieldRank(x) == 0
    requires forall x :: x in b ==> FieldRank(x) == 1
    requires forall x :: x in c ==> FieldRank(x) == 2
    requires forall x :: x in e ==> FieldRank(x) == 3
    requires forall x :: x in f ==> FieldRank(x) == 4
    ensures FieldRank((a + b + c + e + f)[k]) ==
      if k < |a| then 0 else if k < |a + b| then 1 else if k < |a + b + c| then 2
      else if k < |a + b + c + e| then 3 else 4
  {
    var s := a + b + c + e + f;
    if k < |a| { assert s[k] == a[k]; }
    else if k < |a + b| { assert s[k] == b[k - |a|]; }
    else if k < |a + b + c| { assert s[k] == c[k - |a + b|]; }
    else if k < |a + b + c + e| { assert s[k] == e[k - |a + b + c|]; }
    else { assert s[k] == f[k - |a + b + c + e|]; }
  }

  /** Which error each field contributes, stated field by field in both
      directions. A falsy `name` together with a bad `description` yields
      both the fallback error and the description error. */
  lemma ErrorsByField(d: Json)
    requires PassesObjectCheck(d)
    ensures MissingName in JobIndexErrors(d) <==> !Truthy(Get(d, "name")) && !NonEmptyStr(Get(d, "description"))
    ensures InvalidName in JobIndexErrors(d) <==> Truthy(Get(d, "name")) && !Get(d, "name").Str?
    ensures BadDescription in JobIndexErrors(d) <==> !NonEmptyStr(Get(d, "description"))
    ensures BadAuthor in JobIndexErrors(d) <==> !NonEmptyStr(Get(d, "author"))
    ensures BadLast in JobIndexErrors(d) <==> !NonEmptyStr(Get(d, "last"))
    ensures MissingVersion in JobIndexErrors(d) <==> Get(d, "version").Undefined? || Get(d, "version").Null?
    ensures InvalidVersion in JobIndexErrors(d) <==>
      Get(d, "version").Bool? || Get(d, "version").Arr? || Get(d, "version").Obj?
  {
    MessageRanks();
    var a, b, c, e, f := NameErrors(d), StringFieldErrors(d, "description", BadDescription),
      StringFieldErrors(d, "author", BadAuthor), StringFieldErrors(d, "last", BadLast), VersionErrors(d);
    var errs := JobIndexErrors(d);
    assert errs == a + b + c + e + f;
    assert forall x :: x in errs <==> x in a || x in b || x in c || x in e || x in f;
  }

  /** `validateJobIndex(data)`: pushes one error per failing field and, when
      `name` is falsy and `description` is a non-empty string, assigns
      `description` to the caller's `name`. */
  method ValidateJobIndex(data: Handle) returns (r: ValidationResult)
    modifies data
    ensures r.errors == JobIndexErrors(old(data.value))
    ensures r.isValid <==> r.errors == []
    ensures data.value == WithNameFallback(old(data.value))
  {
    ghost var d := data.value;
    var errors: seq<string> := [];
    if !Truthy(data.value) || !IsObjectType(data.value) {
      errors := errors + [NotAnObject];
      return ValidationResult(|errors| == 0, errors);
    }
    if !Truthy(Get(data.value, "name")) {
      var description := Get(data.value, "description");
      if Truthy(description) && description.Str? {
        data.value := Obj(data.value.fields["name" := description]);
      } else {
        errors := errors + [MissingName];
      }
    } else if !Get(data.value, "name").Str? {
      errors := errors + [InvalidName];
    }
    assert data.value == WithNameFallback(d) && errors == NameErrors(d);
    var description := Get(data.value, "description");
    if !Truthy(description) || !description.Str? {
      errors := errors + [BadDescription];
    }
    assert errors == NameErrors(d) + StringFieldErrors(d, "description", BadDescription);
    var author := Get(data.value, "author");
    if !Truthy(author) || !author.Str? {
      errors := errors + [BadAuthor];
    }
    var last := Get(data.value, "last");
    if !Truthy(last) || !last.Str? {
      errors := errors + [BadLast];
    }
    assert errors == NameErrors(d) + StringFieldErrors(d, "description", BadDescription)
      + StringFieldErrors(d, "author", BadAuthor) + StringFieldErrors(d, "last", BadLast);
    var version := Get(data.value, "version");
    if version.Undefined? || version.Null? {
      errors := errors + [MissingVersion];
    } else if !version.Str? && !version.Num? {
      errors := errors + [InvalidVersion];
    }
    return ValidationResult(|errors| == 0, errors);
  }

  /** What `parseJobIndex(data)` returns or throws, for the value the caller
      passes in. The five named fields are listed first and then the whole
      object is spread over them, so every field keeps its input value. */
  function JobIndexParse(d: Json): (r: Result<map<string, Json>>)
    ensures r.Err? <==> !IsValidJobIndex(d)
    ensures r.Err? ==> r.message == InvalidPrefix + Join(JobIndexErrors(d), ", ")
    ensures r.Ok? ==> d.Obj? && r.value == WithNameFallback(d).fields
    ensures r.Ok? ==> forall k :: k in d.fields && k != "name" ==> k in r.value && r.value[k] == d.fields[k]
    ensures r.Ok? ==> "name" in r.value && NonEmptyStr(r.value["name"])
    ensures r.Ok? && UsesNameFallback(d) ==> r.value["name"] == d.fields["description"]
    ensures r.Ok? ==> "version" in d.fields && r.value["version"] == d.fields["version"]
  {
    var errors := JobIndexErrors(d);
    if errors != [] then Err(InvalidPrefix + Join(errors, ", "))
    else
      var jobData := WithNameFallback(d);
      var name :=
        if !Truthy(Get(jobData, "name")) && Truthy(Get(jobData, "description"))
        then Get(jobData, "description") else Get(jobData, "name");
      var version :=
        if Get(jobData, "version").Num? then Str(IntToString(Get(jobData, "version").n))
        else Get(jobData, "version");
      Ok(map["name" := name,
             "description" := Get(jobData, "description"),
             "author" := Get(jobData, "author"),
             "last" := Get(jobData, "last"),
             "version" := version]
         + jobData.fields)
  }

  /** `parseJobIndex(data)`: validates (which may write `name` into the
      caller's object) and builds the result from the validated object. */
  method ParseJobIndex(data: Handle) returns (r: Result<map<string, Json>>)
    modifies data
    ensures r == JobIndexParse(old(data.value))
    ensures data.value == WithNameFallback(old(data.value))
  {
    var validation := ValidateJobIndex(data);
    if !validation.isValid {
      return Err(InvalidPrefix + Join(validation.errors, ", "));
    }
    var jobData := data.value;
    var name := Get(jobData, "name");
    if !Truthy(name) && Truthy(Get(jobData, "description")) {
      name := Get(jobData, "description");
    }
    var version := Get(jobData, "version");
    if version.Num? {
      version := Str(IntToString(version.n));
    }
    return Ok(map["name" := name,
                  "description" := Get(jobData, "description"),
                  "author" := Get(jobData, "author"),
                  "last" := Get(jobData, "last"),
                  "version" := version]
              + jobData.fields);
  }

  /** Validating an object a second time, after the first validation wrote
      the `name` fallback into it, reports the same errors, writes nothing
      more, and parses to the same result. */
  lemma RevalidationAgrees(d: Json)
    ensures WithNameFallback(WithNameFallback(d)) == WithNameFallback(d)
    ensures JobIndexErrors(WithNameFallback(d)) == JobIndexErrors(d)
    ensures JobIndexParse(WithNameFallback(d)) == JobIndexParse(d)
  {
    var d' := WithNameFallback(d);
    assert PassesObjectCheck(d') <==> PassesObjectCheck(d);
    if PassesObjectCheck(d) {
      assert NameErrors(d') == NameErrors(d);
    }
    if IsValidJobIndex(d) {
      assert JobIndexParse(d').Ok?;
    }
  }
}
