/** NewComment (the validated create-comment payload) and AddedComment
    (what the store reports after an insert). Their sources are not part of
    this model: both follow the shape of the entities that are (`!x` for a
    missing property, then a string type check), and their contracts state
    what their tests fix. */
module CommentEntities {
  import opened Errors
  import opened Js
  import Translator

  const NewCommentNotContainNeededProperty := Error(Plain, "NEW_COMMENT.NOT_CONTAIN_NEEDED_PROPERTY")
  const NewCommentNotMeetDataTypeSpecification := Error(Plain, "NEW_COMMENT.NOT_MEET_DATA_TYPE_SPECIFICATION")
  const AddedCommentNotContainNeededProperty := Error(Plain, "ADDED_COMMENT.NOT_CONTAIN_NEEDED_PROPERTY")
  const AddedCommentNotMeetDataTypeSpecification := Error(Plain, "ADDED_COMMENT.NOT_MEET_DATA_TYPE_SPECIFICATION")

  /** `threadId` and `owner` are undefined after construction; the
      add-comment use case attaches them. */
  datatype NewComment = NewComment(content: string, threadId: Option<string>, owner: Option<string>)

  datatype AddedComment = AddedComment(id: string, content: string, owner: string)

  /** `new NewComment(payload)`. */
  function NewCommentOf(p: Payload): (r: Result<NewComment>)
    ensures !Truthy(Get(p, "content")) ==> r == Err(NewCommentNotContainNeededProperty)
    ensures Truthy(Get(p, "content")) && !Get(p, "content").Str? ==> r == Err(NewCommentNotMeetDataTypeSpecification)
    ensures r.Ok? <==> Get(p, "content").Str? && Get(p, "content").s != ""
    ensures r.Ok? ==> r.value == NewComment(Get(p, "content").s, None, None)
  {
    var content := Get(p, "content");
    if !Truthy(content) then Err(NewCommentNotContainNeededProperty)
    else if !content.Str? then Err(NewCommentNotMeetDataTypeSpecification)
    else Ok(NewComment(content.s, None, None))
  }

  /** `new AddedComment(payload)`. */
  function AddedCommentOf(p: Payload): (r: Result<AddedComment>)
    ensures !Truthy(Get(p, "id")) || !Truthy(Get(p, "content")) || !Truthy(Get(p, "owner"))
            ==> r == Err(AddedCommentNotContainNeededProperty)
    ensures r.Ok? <==> && Get(p, "id").Str? && Get(p, "id").s != ""
                       && Get(p, "content").Str? && Get(p, "content").s != ""
                       && Get(p, "owner").Str? && Get(p, "owner").s != ""
    ensures r.Err? ==> r.error in {AddedCommentNotContainNeededProperty, AddedCommentNotMeetDataTypeSpecification}
    ensures r.Ok? ==> r.value == AddedComment(Get(p, "id").s, Get(p, "content").s, Get(p, "owner").s)
  {
    var id, content, owner := Get(p, "id"), Get(p, "content"), Get(p, "owner");
    if !Truthy(id) || !Truthy(content) || !Truthy(owner) then Err(AddedCommentNotContainNeededProperty)
    else if !id.Str? || !content.Str? || !owner.Str? then Err(AddedCommentNotMeetDataTypeSpecification)
    else Ok(AddedComment(id.s, content.s, owner.s))
  }

  /** The create-comment codes are client errors; the AddedComment codes have
      no entry in the translator and pass through as internal errors. */
  lemma CommentCodesTranslation()
    ensures Translator.Translate(NewCommentNotContainNeededProperty).kind == Invariant
    ensures Translator.Translate(NewCommentNotMeetDataTypeSpecification).kind == Invariant
    ensures Translator.Translate(AddedCommentNotContainNeededProperty) == AddedCommentNotContainNeededProperty
    ensures Translator.Translate(AddedCommentNotMeetDataTypeSpecification) == AddedCommentNotMeetDataTypeSpecification
  {
    Translator.KeysAreCodesOrDomainMessages();
  }
}
