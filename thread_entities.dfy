/** NewThread (the validated create-thread payload) and AddedThread (what
    the store reports after an insert). Their sources are not part of this
    model: both follow the shape of the entities that are (`!x` for a
    missing property, then a string type check), and their contracts state
    what their tests fix. */
module ThreadEntities {
  import opened Errors
  import opened Js
  import Translator

  const NewThreadNotContainNeededProperty := Error(Plain, "NEW_THREAD.NOT_CONTAIN_NEEDED_PROPERTY")
  const NewThreadNotMeetDataTypeSpecification := Error(Plain, "NEW_THREAD.NOT_MEET_DATA_TYPE_SPECIFICATION")
  const AddedThreadNotContainNeededProperty := Error(Plain, "ADDED_THREAD.NOT_CONTAIN_NEEDED_PROPERTY")
  const AddedThreadNotMeetDataTypeSpecification := Error(Plain, "ADDED_THREAD.NOT_MEET_DATA_TYPE_SPECIFICATION")

  /** `owner` is attached by the add-thread use case after validation; a
      string `owner` in the payload is kept until then. */
  datatype NewThread = NewThread(title: string, body: string, owner: Option<string>)

  datatype AddedThread = AddedThread(id: string, title: string, owner: string)

  /** `new NewThread(payload)`. */
  function NewThreadOf(p: Payload): (r: Result<NewThread>)
    ensures !Truthy(Get(p, "title")) || !Truthy(Get(p, "body")) ==> r == Err(NewThreadNotContainNeededProperty)
    ensures Truthy(Get(p, "title")) && Truthy(Get(p, "body")) && (!Get(p, "title").Str? || !Get(p, "body").Str?)
            ==> r == Err(NewThreadNotMeetDataTypeSpecification)
    ensures r.Ok? <==> Get(p, "title").Str? && Get(p, "title").s != "" && Get(p, "body").Str? && Get(p, "body").s != ""
    ensures r.Ok? ==> && r.value.title == Get(p, "title").s
                      && r.value.body == Get(p, "body").s
                      && (r.value.owner.Some? <==> Get(p, "owner").Str?)
                      && (r.value.owner.Some? ==> r.value.owner.value == Get(p, "owner").s)
  {
    var title, body, owner := Get(p, "title"), Get(p, "body"), Get(p, "owner");
    if !Truthy(title) || !Truthy(body) then Err(NewThreadNotContainNeededProperty)
    else if !title.Str? || !body.Str? then Err(NewThreadNotMeetDataTypeSpecification)
    else Ok(NewThread(title.s, body.s, if owner.Str? then Some(owner.s) else None))
  }

  /** `new AddedThread(payload)`. */
  function AddedThreadOf(p: Payload): (r: Result<AddedThread>)
    ensures !Truthy(Get(p, "id")) || !Truthy(Get(p, "title")) || !Truthy(Get(p, "owner"))
            ==> r == Err(AddedThreadNotContainNeededProperty)
    ensures r.Ok? <==> && Get(p, "id").Str? && Get(p, "id").s != ""
                       && Get(p, "title").Str? && Get(p, "title").s != ""
                       && Get(p, "owner").Str? && Get(p, "owner").s != ""
    ensures r.Err? ==> r.error in {AddedThreadNotContainNeededProperty, AddedThreadNotMeetDataTypeSpecification}
    ensures r.Ok? ==> r.value == AddedThread(Get(p, "id").s, Get(p, "title").s, Get(p, "owner").s)
  {
    var id, title, owner := Get(p, "id"), Get(p, "title"), Get(p, "owner");
    if !Truthy(id) || !Truthy(title) || !Truthy(owner) then Err(AddedThreadNotContainNeededProperty)
    else if !id.Str? || !title.Str? || !owner.Str? then Err(AddedThreadNotMeetDataTypeSpecification)
    else Ok(AddedThread(id.s, title.s, owner.s))
  }

  /** The create-thread codes are client errors; the AddedThread codes have
      no entry in the translator and pass through as internal errors. */
  lemma ThreadCodesTranslation()
    ensures Translator.Translate(NewThreadNotContainNeededProperty).kind == Invariant
    ensures Translator.Translate(NewThreadNotMeetDataTypeSpecification).kind == Invariant
    ensures Translator.Translate(AddedThreadNotContainNeededProperty) == AddedThreadNotContainNeededProperty
    ensures Translator.Translate(AddedThreadNotMeetDataTypeSpecification) == AddedThreadNotMeetDataTypeSpecification
  {
    Translator.KeysAreCodesOrDomainMessages();
  }
}
