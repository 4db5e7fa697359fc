/** The ThreadDetail entity: a thread with its comments, as the
    thread-detail read returns it. Construction validates the payload,
    normalises the date and copies every other field through. */
module ThreadDetails {
  import opened Errors
  import opened Js

  const NotContainNeededProperty := Error(Plain, "THREAD_DETAIL.NOT_CONTAIN_NEEDED_PROPERTY")
  const NotMeetDataTypeSpecification := Error(Plain, "THREAD_DETAIL.NOT_MEET_DATA_TYPE_SPECIFICATION")

  datatype ThreadDetail = ThreadDetail(
    id: string, title: string, body: string, date: string, username: string, comments: seq<Value>)

  /** The missing-property test: all six properties must be truthy. An empty
      `comments` array passes it, since every array is truthy. */
  predicate LacksNeededProperty(p: Payload)
  {
    || !Truthy(Get(p, "id")) || !Truthy(Get(p, "title")) || !Truthy(Get(p, "body"))
    || !Truthy(Get(p, "date")) || !Truthy(Get(p, "username")) || !Truthy(Get(p, "comments"))
  }

  /** A payload the entity accepts, field by field: non-empty strings for
      `id`, `title`, `body` and `username`, an array (possibly empty) for
      `comments`, and a non-empty string or a valid Date for `date`. */
  predicate WellFormed(p: Payload)
  {
    && Get(p, "id").Str? && Get(p, "id").s != ""
    && Get(p, "title").Str? && Get(p, "title").s != ""
    && Get(p, "body").Str? && Get(p, "body").s != ""
    && Get(p, "username").Str? && Get(p, "username").s != ""
    && Get(p, "comments").Arr?
    && ((Get(p, "date").Str? && Get(p, "date").s != "") || (Get(p, "date").DateObj? && Get(p, "date").valid))
  }

  /** `_verifyPayload`: the missing check, then the type check, then the
      invalid-Date check. */
  function VerifyPayload(p: Payload): (r: Outcome)
    ensures r == Pass <==> WellFormed(p)
    ensures LacksNeededProperty(p) ==> r == Fail(NotContainNeededProperty)
    ensures !LacksNeededProperty(p) && !WellFormed(p) ==> r == Fail(NotMeetDataTypeSpecification)
  {
    var id, title, body, date, username, comments :=
      Get(p, "id"), Get(p, "title"), Get(p, "body"), Get(p, "date"), Get(p, "username"), Get(p, "comments");
    if !Truthy(id) || !Truthy(title) || !Truthy(body) || !Truthy(date) || !Truthy(username) || !Truthy(comments) then
      Fail(NotContainNeededProperty)
    else if !id.Str? || !title.Str? || !body.Str? || !username.Str? || !comments.Arr? || !(date.Str? || date.DateObj?) then
      Fail(NotMeetDataTypeSpecification)
    else if date.DateObj? && !date.valid then
      Fail(NotMeetDataTypeSpecification)
    else
      Pass
  }

  /** `new ThreadDetail(payload)`. */
  function FromPayload(p: Payload, lib: DateLib): (r: Result<ThreadDetail>)
    ensures r.Ok? ==> WellFormed(p)
    ensures LacksNeededProperty(p) ==> r == Err(NotContainNeededProperty)
    ensures !LacksNeededProperty(p) && !WellFormed(p) ==> r == Err(NotMeetDataTypeSpecification)
    ensures WellFormed(p) ==> (r.Ok? <==> ToIsoString(Get(p, "date"), lib).Ok?)
    ensures WellFormed(p) && r.Err? ==> r.error == InvalidTimeValue
    ensures r.Ok? ==> && r.value.id == Get(p, "id").s
                      && r.value.title == Get(p, "title").s
                      && r.value.body == Get(p, "body").s
                      && r.value.username == Get(p, "username").s
                      && r.value.comments == Get(p, "comments").elems
                      && r.value.date == ToIsoString(Get(p, "date"), lib).value
  {
    if VerifyPayload(p).Fail? then Err(VerifyPayload(p).error)
    else
      var date :- ToIsoString(Get(p, "date"), lib);
      Ok(ThreadDetail(Get(p, "id").s, Get(p, "title").s, Get(p, "body").s, date,
                      Get(p, "username").s, Get(p, "comments").elems))
  }

  /** A thread with no comments yet is accepted: `[]` is truthy. */
  lemma EmptyCommentsAccepted(id: string, title: string, body: string, username: string, time: int, lib: DateLib)
    requires id != "" && title != "" && body != "" && username != ""
    ensures var p := map["id" := Str(id), "title" := Str(title), "body" := Str(body),
                         "date" := DateObj(true, time), "username" := Str(username), "comments" := Arr([])];
            FromPayload(p, lib) == Ok(ThreadDetail(id, title, body, lib.format(time), username, []))
  {
  }

  /** A Date object whose time is invalid is a type error, not a runtime
      RangeError: the entity rejects it before normalising. */
  lemma InvalidDateRejected(p: Payload, lib: DateLib)
    requires !LacksNeededProperty(p)
    requires Get(p, "date").DateObj? && !Get(p, "date").valid
    ensures FromPayload(p, lib) == Err(NotMeetDataTypeSpecification)
  {
  }
}
