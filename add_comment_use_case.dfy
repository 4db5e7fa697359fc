/** AddCommentUseCase: validate the payload, check that the thread exists,
    attach the thread and the authenticated user, then add the comment. */
module AddComment {
  import opened Errors
  import opened Js
  import opened CommentEntities
  import opened Comments
  import opened Threads
  import Translator

  /** What the use case returns and what the comments table becomes; the
      threads table is only read. */
  function AddCommentOutcome(threads: map<string, ThreadRow>, rows: seq<CommentRow>, payload: Payload,
                             credentialId: string, threadId: string, suffix: string, now: int)
    : (r: (Result<AddedComment>, seq<CommentRow>))
    ensures NewCommentOf(payload).Err? ==> r == (Err(NewCommentOf(payload).error), rows)
    ensures NewCommentOf(payload).Ok? && threadId !in threads ==> r == (Err(ThreadNotFound), rows)
    ensures r.0.Ok? ==> r.0.value == AddedComment("comment-" + suffix, Get(payload, "content").s, credentialId)
    ensures r.1 != rows ==>
              && threadId in threads && Get(payload, "content").Str?
              && r.1 == rows + [CommentRow("comment-" + suffix, Get(payload, "content").s, threadId, credentialId, now, false)]
    ensures NewCommentOf(payload).Ok? && threadId in threads && Stored(rows, "comment-" + suffix)
            ==> r == (Err(DuplicateKey), rows)
    ensures NewCommentOf(payload).Ok? && threadId in threads && !Stored(rows, "comment-" + suffix)
            ==> r.1 == rows + [CommentRow("comment-" + suffix, Get(payload, "content").s, threadId, credentialId, now, false)]
    ensures NewCommentOf(payload).Ok? && threadId in threads && credentialId != "" && !Stored(rows, "comment-" + suffix)
            ==> r.0.Ok?
    ensures UniqueIds(rows) ==> UniqueIds(r.1)
  {
    match NewCommentOf(payload)
    case Err(e) => (Err(e), rows)
    case Ok(c) =>
      if ThreadExists(threads, threadId).Fail? then (Err(ThreadNotFound), rows)
      else Insert(rows, c.(threadId := Some(threadId), owner := Some(credentialId)), suffix, now)
  }

  /** A payload without content fails validation whether or not the thread
      exists: validation comes first. */
  lemma ValidationBeforeThreadCheck(threads: map<string, ThreadRow>, rows: seq<CommentRow>,
                                    credentialId: string, threadId: string, suffix: string, now: int)
    ensures var r := AddCommentOutcome(threads, rows, map[], credentialId, threadId, suffix, now);
            && r == (Err(NewCommentNotContainNeededProperty), rows)
            && Translator.Translate(r.0.error).kind == Invariant
  {
    assert Get(map[], "content") == Undefined;
    CommentCodesTranslation();
  }

  /** A valid comment on a missing thread is answered with NotFound and
      stores nothing. */
  lemma MissingThreadStoresNothing(threads: map<string, ThreadRow>, rows: seq<CommentRow>, content: string,
                                   credentialId: string, threadId: string, suffix: string, now: int)
    requires content != "" && threadId !in threads
    ensures var r := AddCommentOutcome(threads, rows, map["content" := Str(content)], credentialId, threadId, suffix, now);
            && r == (Err(ThreadNotFound), rows)
            && Translator.Translate(r.0.error) == ThreadNotFound
  {
    assert Get(map["content" := Str(content)], "content") == Str(content);
    Translator.DirectoryKinds();
  }

  /** An added comment is live, belongs to the thread and is seen by that
      thread's read. */
  lemma AddedCommentIsListed(threads: map<string, ThreadRow>, rows: seq<CommentRow>, content: string,
                             credentialId: string, threadId: string, suffix: string, now: int, users: map<string, string>)
    requires content != "" && threadId in threads && credentialId != "" && !Stored(rows, "comment-" + suffix)
    ensures var after := AddCommentOutcome(threads, rows, map["content" := Str(content)], credentialId, threadId, suffix, now).1;
            && ExistsCheck(after, "comment-" + suffix) == Pass
            && CommentView("comment-" + suffix, content, now,
                           (if credentialId in users then Some(users[credentialId]) else None), false)
               in ThreadComments(after, threadId, users)
  {
    var p := map["content" := Str(content)];
    assert Get(p, "content") == Str(content);
    var after := AddCommentOutcome(threads, rows, p, credentialId, threadId, suffix, now).1;
    var row := CommentRow("comment-" + suffix, content, threadId, credentialId, now, false);
    assert after == rows + [row];
    assert after[|rows|] == row;
    ThreadCommentsAreTheThreadsRows(after, threadId, users);
  }

  class AddCommentUseCase {
    const threadRepository: ThreadRepositoryPostgres
    const commentRepository: CommentRepositoryPostgres

    constructor(threadRepository: ThreadRepositoryPostgres, commentRepository: CommentRepositoryPostgres)
      ensures this.threadRepository == threadRepository && this.commentRepository == commentRepository
    {
      this.threadRepository := threadRepository;
      this.commentRepository := commentRepository;
    }

    /** `suffix` is what the repository's id generator yields and `now` what
        the runtime clock reads. */
    method Execute(payload: Payload, credentialId: string, threadId: string, suffix: string, now: int)
      returns (r: Result<AddedComment>)
      requires commentRepository.Valid()
      modifies commentRepository
      ensures commentRepository.Valid()
      ensures (r, commentRepository.rows)
           == AddCommentOutcome(threadRepository.threads, old(commentRepository.rows), payload, credentialId, threadId, suffix, now)
    {
      var newComment :- NewCommentOf(payload);
      var threadCheck := threadRepository.VerifyThreadExists(threadId);
      if threadCheck.Fail? {
        return Err(threadCheck.error);
      }
      newComment := newComment.(threadId := Some(threadId), owner := Some(credentialId));
      r := commentRepository.AddComment(newComment, suffix, now);
    }
  }
}
