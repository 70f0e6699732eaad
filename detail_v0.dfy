/** The version-0 parser of the StickyHomeworks export: its checks run in a
    fixed order and the first failing one throws; a document that passes is
    rebuilt with exactly the known fields. */
module DetailV0 {
  import opened Strings
  import opened JsValues

  datatype Homework = Homework(content: string, subject: string, dueTime: string, tags: Option<seq<string>>)

  datatype StickyHomeworksDataV0 =
    StickyHomeworksDataV0(version: int, description: string, exportDate: string, homeworks: seq<Homework>)

  /** What the parser throws: an `Error` carrying its message, or the
      TypeError the engine raises when `hasOwnProperty` is called on null or
      undefined (its text belongs to the engine and is not modelled). */
  datatype Failure = Thrown(message: string) | NullRead

  datatype V0Result = Parsed(data: StickyHomeworksDataV0) | Failed(failure: Failure)

  function Missing(field: string): string
  {
    "Missing required field: " + field
  }

  function MustBe(field: string, kind: string): string
  {
    "Field \"" + field + "\" must be " + kind
  }

  function UnsupportedVersion(n: int): string
  {
    "Unsupported version: " + IntToString(n) + ". Only version 0 is supported."
  }

  /** The words every message about homework item `i` starts with. */
  function ItemPrefix(i: nat): string
  {
    "Homework item " + IntToString(i) + " "
  }

  function ItemMissing(i: nat, field: string): string
  {
    ItemPrefix(i) + "is missing required field: " + field
  }

  function ItemMustBe(i: nat, field: string, kind: string): string
  {
    ItemPrefix(i) + "field \"" + field + "\" must be " + kind
  }

  function TagNotString(i: nat, j: nat): string
  {
    ItemPrefix(i) + "Tags[" + IntToString(j) + "] must be a string"
  }

  /** A string-valued own property, as `hasOwnProperty` and `typeof` test it. */
  predicate HasString(v: Json, key: string)
  {
    HasOwn(v, key) && Get(v, key).Str?
  }

  /** `Tags` as the checks accept it: absent, or an array of strings. */
  predicate IsValidTags(t: Json)
  {
    t.Undefined? || (t.Arr? && forall k :: 0 <= k < |t.items| ==> t.items[k].Str?)
  }

  predicate IsValidHomework(h: Json)
  {
    HasString(h, "Content") && HasString(h, "Subject") && HasString(h, "DueTime")
    && IsValidTags(Get(h, "Tags"))
  }

  /** The top-level part of a valid document. */
  predicate IsValidHeader(d: Json)
  {
    HasOwn(d, "Version") && Get(d, "Version") == Num(0)
    && HasString(d, "Description") && HasString(d, "ExportDate")
    && HasOwn(d, "Homeworks") && Get(d, "Homeworks").Arr?
  }

  /** What a valid version-0 document is. Empty strings and an empty
      `Homeworks` array are allowed. */
  predicate IsValidV0(d: Json)
  {
    IsValidHeader(d)
    && forall k :: 0 <= k < |Get(d, "Homeworks").items| ==> IsValidHomework(Get(d, "Homeworks").items[k])
  }

  /** The first failing top-level check, in the order the parser makes them. */
  function HeaderFailure(d: Json): (f: Option<Failure>)
    ensures f.None? <==> IsValidHeader(d)
  {
    if d.Undefined? || d.Null? then Some(NullRead)
    else if !HasOwn(d, "Version") then Some(Thrown(Missing("Version")))
    else if !Get(d, "Version").Num? then Some(Thrown(MustBe("Version", "a number")))
    else if Get(d, "Version").n != 0 then Some(Thrown(UnsupportedVersion(Get(d, "Version").n)))
    else if !HasOwn(d, "Description") then Some(Thrown(Missing("Description")))
    else if !Get(d, "Description").Str? then Some(Thrown(MustBe("Description", "a string")))
    else if !HasOwn(d, "ExportDate") then Some(Thrown(Missing("ExportDate")))
    else if !Get(d, "ExportDate").Str? then Some(Thrown(MustBe("ExportDate", "a string")))
    else if !HasOwn(d, "Homeworks") then Some(Thrown(Missing("Homeworks")))
    else if !Get(d, "Homeworks").Arr? then Some(Thrown(MustBe("Homeworks", "an array")))
    else None
  }

  /** The checks of one string field of item `i`. */
  function FieldFailure(i: nat, h: Json, field: string): (f: Option<Failure>)
    ensures f.None? <==> HasString(h, field)
  {
    if !HasOwn(h, field) then Some(Thrown(ItemMissing(i, field)))
    else if !Get(h, field).Str? then Some(Thrown(ItemMustBe(i, field, "a string")))
    else None
  }

  /** The first element of `tags` at or after `j` that is not a string. */
  function TagFailure(i: nat, tags: seq<Json>, j: nat): (f: Option<Failure>)
    requires j <= |tags|
    ensures f.Some? ==> exists k :: (j <= k < |tags| && !tags[k].Str? && f.value == Thrown(TagNotString(i, k))
      && forall k' :: j <= k' < k ==> tags[k'].Str?)
    decreases |tags| - j
  {
    if j == |tags| then None
    else if !tags[j].Str? then Some(Thrown(TagNotString(i, j)))
    else TagFailure(i, tags, j + 1)
  }

  /** The first failing check on homework item `i`. */
  function ItemFailure(i: nat, h: Json): (f: Option<Failure>)
    ensures f == Some(NullRead) <==> h.Undefined? || h.Null?
  {
    var tags := Get(h, "Tags");
    if h.Undefined? || h.Null? then Some(NullRead)
    else if FieldFailure(i, h, "Content").Some? then FieldFailure(i, h, "Content")
    else if FieldFailure(i, h, "Subject").Some? then FieldFailure(i, h, "Subject")
    else if FieldFailure(i, h, "DueTime").Some? then FieldFailure(i, h, "DueTime")
    else if !tags.Undefined? && !tags.Arr? then Some(Thrown(ItemMustBe(i, "Tags", "an array")))
    else if Truthy(tags) then TagFailure(i, tags.items, 0)
    else None
  }

  /** The first failure among the items from index `i` on. */
  function ItemsFailure(items: seq<Json>, i: nat): (f: Option<Failure>)
    requires i <= |items|
    ensures f.Some? ==> exists k :: i <= k < |items| && f == ItemFailure(k, items[k])
    decreases |items| - i
  {
    if i == |items| then None
    else if ItemFailure(i, items[i]).Some? then ItemFailure(i, items[i])
    else ItemsFailure(items, i + 1)
  }

  lemma {:induction false} TagFailureNone(i: nat, tags: seq<Json>, j: nat)
    requires j <= |tags|
    ensures TagFailure(i, tags, j).None? <==> forall k :: j <= k < |tags| ==> tags[k].Str?
    decreases |tags| - j
  {
    if j < |tags| {
      TagFailureNone(i, tags, j + 1);
    }
  }

  lemma ItemFailureNone(i: nat, h: Json)
    ensures ItemFailure(i, h).None? <==> IsValidHomework(h)
  {
    if Get(h, "Tags").Arr? {
      TagFailureNone(i, Get(h, "Tags").items, 0);
    }
  }

  /** No item from `i` on fails exactly when all of them are valid. */
  lemma {:induction false} ItemsFailureNone(items: seq<Json>, i: nat)
    requires i <= |items|
    ensures ItemsFailure(items, i).None? <==> forall k :: i <= k < |items| ==> IsValidHomework(items[k])
    decreases |items| - i
  {
    if i < |items| {
      ItemFailureNone(i, items[i]);
      ItemsFailureNone(items, i + 1);
    }
  }

  /** A valid item, rebuilt: its four fields copied as they are (the content
      is not sanitised), anything else dropped. */
  function NormalizeHomework(h: Json): (r: Homework)
    requires IsValidHomework(h)
    ensures r.content == Get(h, "Content").s && r.subject == Get(h, "Subject").s
    ensures r.dueTime == Get(h, "DueTime").s
    ensures r.tags.None? <==> Get(h, "Tags").Undefined?
    ensures r.tags.Some? ==> |r.tags.value| == |Get(h, "Tags").items|
    ensures r.tags.Some? ==> forall k :: 0 <= k < |r.tags.value| ==> Get(h, "Tags").items[k] == Str(r.tags.value[k])
  {
    var tags := Get(h, "Tags");
    Homework(Get(h, "Content").s, Get(h, "Subject").s, Get(h, "DueTime").s,
             if tags.Arr? then Some(seq(|tags.items|, k requires 0 <= k < |tags.items| => tags.items[k].s)) else None)
  }

  /** What `parseStickyHomeworksDataV0(data)` returns or throws. */
  function V0Parse(d: Json): (r: V0Result)
    ensures r.Parsed? <==> IsValidV0(d)
    ensures HeaderFailure(d).Some? ==> r == Failed(HeaderFailure(d).value)
    ensures r.Parsed? ==> r.data.version == 0 && r.data.description == Get(d, "Description").s
    ensures r.Parsed? ==> r.data.exportDate == Get(d, "ExportDate").s
    ensures r.Parsed? ==> |r.data.homeworks| == |Get(d, "Homeworks").items|
    ensures r.Parsed? ==> forall k :: 0 <= k < |r.data.homeworks| ==>
      r.data.homeworks[k] == NormalizeHomework(Get(d, "Homeworks").items[k])
  {
    if HeaderFailure(d).Some? then Failed(HeaderFailure(d).value)
    else
      var items := Get(d, "Homeworks").items;
      ItemsFailureNone(items, 0);
      if ItemsFailure(items, 0).Some? then Failed(ItemsFailure(items, 0).value)
      else
        Parsed(StickyHomeworksDataV0(
          Get(d, "Version").n, Get(d, "Description").s, Get(d, "ExportDate").s,
          seq(|items|, k requires 0 <= k < |items| => NormalizeHomework(items[k]))))
  }

  /** The inner loop of `parseStickyHomeworksDataV0` over the tags of item
      `i`: it stops at the first tag that is not a string. */
  method CheckTags(i: nat, tags: seq<Json>) returns (f: Option<Failure>)
    ensures f == TagFailure(i, tags, 0)
  {
    var j := 0;
    while j < |tags|
      invariant 0 <= j <= |tags|
      invariant TagFailure(i, tags, 0) == TagFailure(i, tags, j)
    {
      if !tags[j].Str? { return Some(Thrown(TagNotString(i, j))); }
      j := j + 1;
    }
    return None;
  }

  /** `parseStickyHomeworksDataV0(data)`: the checks in order, a loop over the
      items with an inner loop over each item's tags, then the rebuilt object. */
  method ParseStickyHomeworksDataV0(data: Json) returns (r: V0Result)
    ensures r == V0Parse(data)
  {
    if data.Undefined? || data.Null? { return Failed(NullRead); }
    if !HasOwn(data, "Version") { return Failed(Thrown(Missing("Version"))); }
    if !Get(data, "Version").Num? { return Failed(Thrown(MustBe("Version", "a number"))); }
    if Get(data, "Version").n != 0 { return Failed(Thrown(UnsupportedVersion(Get(data, "Version").n))); }
    if !HasOwn(data, "Description") { return Failed(Thrown(Missing("Description"))); }
    if !Get(data, "Description").Str? { return Failed(Thrown(MustBe("Description", "a string"))); }
    if !HasOwn(data, "ExportDate") { return Failed(Thrown(Missing("ExportDate"))); }
    if !Get(data, "ExportDate").Str? { return Failed(Thrown(MustBe("ExportDate", "a string"))); }
    if !HasOwn(data, "Homeworks") { return Failed(Thrown(Missing("Homeworks"))); }
    if !Get(data, "Homeworks").Arr? { return Failed(Thrown(MustBe("Homeworks", "an array"))); }

    var homeworks := Get(data, "Homeworks").items;
    var i := 0;
    while i < |homeworks|
      invariant 0 <= i <= |homeworks|
      invariant ItemsFailure(homeworks, 0) == ItemsFailure(homeworks, i)
    {
      var homework := homeworks[i];
      if homework.Undefined? || homework.Null? { return Failed(NullRead); }
      if !HasOwn(homework, "Content") { return Failed(Thrown(ItemMissing(i, "Content"))); }
      if !Get(homework, "Content").Str? { return Failed(Thrown(ItemMustBe(i, "Content", "a string"))); }
      if !HasOwn(homework, "Subject") { return Failed(Thrown(ItemMissing(i, "Subject"))); }
      if !Get(homework, "Subject").Str? { return Failed(Thrown(ItemMustBe(i, "Subject", "a string"))); }
      if !HasOwn(homework, "DueTime") { return Failed(Thrown(ItemMissing(i, "DueTime"))); }
      if !Get(homework, "DueTime").Str? { return Failed(Thrown(ItemMustBe(i, "DueTime", "a string"))); }
      var tags := Get(homework, "Tags");
      if !tags.Undefined? && !tags.Arr? { return Failed(Thrown(ItemMustBe(i, "Tags", "an array"))); }
      if Truthy(tags) {
        var failure := CheckTags(i, tags.items);
        if failure.Some? { return Failed(failure.value); }
      }
      i := i + 1;
    }
    ItemsFailureNone(homeworks, 0);
    return Parsed(StickyHomeworksDataV0(
      Get(data, "Version").n, Get(data, "Description").s, Get(data, "ExportDate").s,
      seq(|homeworks|, k requires 0 <= k < |homeworks| => NormalizeHomework(homeworks[k]))));
  }

  /** A `Version` that is a number other than 0 is refused with a message
      naming it; one that is not a number is refused as such. */
  lemma VersionChecked(d: Json)
    requires !d.Undefined? && !d.Null? && HasOwn(d, "Version")
    ensures !Get(d, "Version").Num? ==> V0Parse(d) == Failed(Thrown(MustBe("Version", "a number")))
    ensures Get(d, "Version").Num? && Get(d, "Version").n != 0 ==>
      V0Parse(d) == Failed(Thrown(UnsupportedVersion(Get(d, "Version").n)))
  {
  }

  /** With a valid header, the failure thrown is the one of the first
      invalid item: the items before it pass, and the message names it. */
  lemma {:induction false} FirstInvalidItemReported(d: Json, i: nat)
    requires IsValidHeader(d)
    requires i < |Get(d, "Homeworks").items|
    requires forall k :: 0 <= k < i ==> IsValidHomework(Get(d, "Homeworks").items[k])
    requires !IsValidHomework(Get(d, "Homeworks").items[i])
    ensures ItemFailure(i, Get(d, "Homeworks").items[i]).Some?
    ensures V0Parse(d) == Failed(ItemFailure(i, Get(d, "Homeworks").items[i]).value)
    ensures V0Parse(d) == Failed(NullRead) || StartsWith(V0Parse(d).failure.message, ItemPrefix(i))
  {
    var items := Get(d, "Homeworks").items;
    ItemFailureNone(i, items[i]);
    SkipValidItems(items, 0, i);
    ItemFailureNamesItem(i, items[i]);
  }

  lemma {:induction false} SkipValidItems(items: seq<Json>, from: nat, i: nat)
    requires from <= i < |items|
    requires forall k :: from <= k < i ==> IsValidHomework(items[k])
    ensures ItemsFailure(items, from) == ItemsFailure(items, i)
    decreases i - from
  {
    if from < i {
      ItemFailureNone(from, items[from]);
      SkipValidItems(items, from + 1, i);
    }
  }

  /** Every message thrown for item `i` starts with `Homework item i `. */
  lemma ItemFailureNamesItem(i: nat, h: Json)
    ensures ItemFailure(i, h).Some? && ItemFailure(i, h).value.Thrown? ==>
      StartsWith(ItemFailure(i, h).value.message, ItemPrefix(i))
  {
    var tags := Get(h, "Tags");
    FieldFailureNamesItem(i, h, "Content");
    FieldFailureNamesItem(i, h, "Subject");
    FieldFailureNamesItem(i, h, "DueTime");
    if tags.Arr? {
      TagFailureNamesItem(i, tags.items, 0);
    }
  }

  lemma FieldFailureNamesItem(i: nat, h: Json, field: string)
    ensures FieldFailure(i, h, field).Some? ==>
      FieldFailure(i, h, field).value.Thrown? && StartsWith(FieldFailure(i, h, field).value.message, ItemPrefix(i))
  {
  }

  lemma {:induction false} TagFailureNamesItem(i: nat, tags: seq<Json>, j: nat)
    requires j <= |tags|
    ensures TagFailure(i, tags, j).Some? ==>
      TagFailure(i, tags, j).value.Thrown? && StartsWith(TagFailure(i, tags, j).value.message, ItemPrefix(i))
    decreases |tags| - j
  {
    if j < |tags| {
      TagFailureNamesItem(i, tags, j + 1);
    }
  }
}
