/** The CommentDetail entity: one comment as the thread-detail view shows
    it. Construction validates the raw row, normalises its date and masks
    the content of a soft-deleted comment. */
module CommentDetails {
  import opened Errors
  import opened Js

  /** What a soft-deleted comment shows instead of its content. */
  const DeletedContent := "**komentar telah dihapus**"

  const NotContainNeededProperty := Error(Plain, "COMMENT_DETAIL.NOT_CONTAIN_NEEDED_PROPERTY")
  const NotMeetDataTypeSpecification := Error(Plain, "COMMENT_DETAIL.NOT_MEET_DATA_TYPE_SPECIFICATION")

  /** The constructed entity: `is_delete` is consumed by the masking and not kept. */
  datatype CommentDetail = CommentDetail(id: string, username: string, date: string, content: string)
  {
    /** The entity as a plain object with exactly its four properties. */
    function ToValue(): (v: Value)
      ensures v.Obj? && v.fields.Keys == {"id", "username", "date", "content"}
      ensures v.fields["id"] == Str(id) && v.fields["username"] == Str(username)
      ensures v.fields["date"] == Str(date) && v.fields["content"] == Str(content)
    {
      Obj(map["id" := Str(id), "username" := Str(username), "date" := Str(date), "content" := Str(content)])
    }
  }

  /** The missing-property test: `id`, `username` and `date` must be truthy,
      while `content` and `is_delete` need only be defined. */
  predicate LacksNeededProperty(p: Payload)
  {
    || !Truthy(Get(p, "id"))
    || !Truthy(Get(p, "username"))
    || !Truthy(Get(p, "date"))
    || Get(p, "content") == Undefined
    || Get(p, "is_delete") == Undefined
  }

  /** A payload the entity accepts, field by field: non-empty strings for
      `id` and `username`, any string for `content`, a boolean `is_delete`,
      and a non-empty string or a valid Date for `date`. */
  predicate WellFormed(p: Payload)
  {
    && Get(p, "id").Str? && Get(p, "id").s != ""
    && Get(p, "username").Str? && Get(p, "username").s != ""
    && Get(p, "content").Str?
    && Get(p, "is_delete").Bool?
    && ((Get(p, "date").Str? && Get(p, "date").s != "") || (Get(p, "date").DateObj? && Get(p, "date").valid))
  }

  /** `_verifyPayload`: the missing check, then the type check, then the
      invalid-Date check, each throwing its own code. */
  function VerifyPayload(p: Payload): (r: Outcome)
    ensures r == Pass <==> WellFormed(p)
    ensures LacksNeededProperty(p) ==> r == Fail(NotContainNeededProperty)
    ensures !LacksNeededProperty(p) && !WellFormed(p) ==> r == Fail(NotMeetDataTypeSpecification)
  {
    var id, username, date, content, isDelete :=
      Get(p, "id"), Get(p, "username"), Get(p, "date"), Get(p, "content"), Get(p, "is_delete");
    if !Truthy(id) || !Truthy(username) || !Truthy(date) || content == Undefined || isDelete == Undefined then
      Fail(NotContainNeededProperty)
    else if !id.Str? || !username.Str? || !content.Str? || !isDelete.Bool? || !(date.Str? || date.DateObj?) then
      Fail(NotMeetDataTypeSpecification)
    else if date.DateObj? && !date.valid then
      Fail(NotMeetDataTypeSpecification)
    else
      Pass
  }

  /** `new CommentDetail(payload)`. */
  function FromPayload(p: Payload, lib: DateLib): (r: Result<CommentDetail>)
    ensures r.Ok? ==> WellFormed(p)
    ensures LacksNeededProperty(p) ==> r == Err(NotContainNeededProperty)
    ensures !LacksNeededProperty(p) && !WellFormed(p) ==> r == Err(NotMeetDataTypeSpecification)
    ensures WellFormed(p) ==> (r.Ok? <==> ToIsoString(Get(p, "date"), lib).Ok?)
    ensures WellFormed(p) && r.Err? ==> r.error == InvalidTimeValue
    ensures r.Ok? ==> && r.value.id == Get(p, "id").s
                      && r.value.username == Get(p, "username").s
                      && r.value.date == ToIsoString(Get(p, "date"), lib).value
    ensures r.Ok? && Get(p, "is_delete").b ==> r.value.content == DeletedContent
    ensures r.Ok? && !Get(p, "is_delete").b ==> r.value.content == Get(p, "content").s
  {
    if VerifyPayload(p).Fail? then Err(VerifyPayload(p).error)
    else
      var date :- ToIsoString(Get(p, "date"), lib);
      var content := if Truthy(Get(p, "is_delete")) then DeletedContent else Get(p, "content").s;
      Ok(CommentDetail(Get(p, "id").s, Get(p, "username").s, date, content))
  }

  /** A payload that is both incomplete and mistyped reports the missing
      property: here `id` is absent and `content` and `is_delete` have the
      wrong types. */
  lemma MissingReportedBeforeType(lib: DateLib)
    ensures FromPayload(map["username" := Str("dicoding"), "date" := Str("2021-08-08T07:22:33.555Z"),
                            "content" := Num(1.0), "is_delete" := Str("false")], lib)
            == Err(NotContainNeededProperty)
  {
    var p := map["username" := Str("dicoding"), "date" := Str("2021-08-08T07:22:33.555Z"),
                 "content" := Num(1.0), "is_delete" := Str("false")];
    assert Get(p, "id") == Undefined;
  }

  /** An empty content and a false `is_delete` pass the missing check, which
      tests those two fields against `undefined` only. */
  lemma EmptyLiveContentKept(id: string, username: string, lib: DateLib, time: int)
    requires id != "" && username != ""
    ensures var p := map["id" := Str(id), "username" := Str(username), "date" := DateObj(true, time),
                         "content" := Str(""), "is_delete" := Bool(false)];
            FromPayload(p, lib) == Ok(CommentDetail(id, username, lib.format(time), ""))
  {
  }
}
