/** DeleteCommentUseCase: check the thread, then the comment, then its
    owner, then soft-delete it. The comment is never checked to belong to
    the thread named in the request. */
module DeleteComment {
  import opened Errors
  import opened Comments
  import opened Threads
  import Translator

  /** What the use case reports and what the comments table becomes. */
  function DeleteCommentOutcome(threads: map<string, ThreadRow>, rows: seq<CommentRow>,
                                threadId: string, commentId: string, owner: string)
    : (r: (Outcome, seq<CommentRow>))
    ensures threadId !in threads ==> r == (Fail(ThreadNotFound), rows)
    ensures threadId in threads && !Stored(rows, commentId) ==> r == (Fail(CommentNotFound), rows)
    ensures forall i | threadId in threads && FirstWithId(rows, commentId, i) ::
              r == if rows[i].isDelete then (Fail(CommentNotFound), rows)
                   else if rows[i].owner != owner then (Fail(NotCommentOwner), rows)
                   else (Pass, SoftDelete(rows, commentId).1)
    ensures r.0.Fail? ==> r.1 == rows && r.0.error in {ThreadNotFound, CommentNotFound, NotCommentOwner}
  {
    if ThreadExists(threads, threadId).Fail? then (ThreadExists(threads, threadId), rows)
    else if ExistsCheck(rows, commentId).Fail? then (ExistsCheck(rows, commentId), rows)
    else if OwnerCheck(rows, commentId, owner).Fail? then (OwnerCheck(rows, commentId, owner), rows)
    else SoftDelete(rows, commentId)
  }

  /** The delete succeeds exactly when the thread exists and the comment is
      live and owned by the caller; then that one row's flag is set and
      nothing else changes. */
  lemma DeleteSucceedsExactly(threads: map<string, ThreadRow>, rows: seq<CommentRow>,
                              threadId: string, commentId: string, owner: string)
    requires UniqueIds(rows)
    ensures DeleteCommentOutcome(threads, rows, threadId, commentId, owner).0 == Pass <==>
              threadId in threads &&
              exists i | 0 <= i < |rows| :: rows[i].id == commentId && !rows[i].isDelete && rows[i].owner == owner
    ensures forall i | 0 <= i < |rows| && rows[i].id == commentId ::
              DeleteCommentOutcome(threads, rows, threadId, commentId, owner).0 == Pass ==>
              DeleteCommentOutcome(threads, rows, threadId, commentId, owner).1 == rows[i := rows[i].(isDelete := true)]
  {
    var r := DeleteCommentOutcome(threads, rows, threadId, commentId, owner);
    if Stored(rows, commentId) {
      var i :| 0 <= i < |rows| && rows[i].id == commentId;
      FirstWithIdIsUnique(rows, commentId, i);
      SoftDeleteTouchesOnlyTarget(rows, commentId, i);
      forall j | 0 <= j < |rows| && rows[j].id == commentId ensures j == i {
      }
    }
  }

  /** The second delete of the same comment, even by its owner, is
      answered with NotFound. */
  lemma SecondDeleteNotFound(threads: map<string, ThreadRow>, rows: seq<CommentRow>,
                             threadId: string, commentId: string, owner: string)
    requires UniqueIds(rows)
    requires DeleteCommentOutcome(threads, rows, threadId, commentId, owner).0 == Pass
    ensures var after := DeleteCommentOutcome(threads, rows, threadId, commentId, owner).1;
            DeleteCommentOutcome(threads, after, threadId, commentId, owner) == (Fail(CommentNotFound), after)
  {
    assert Stored(rows, commentId);
    var after := SoftDelete(rows, commentId).1;
    DeletedCommentStillExists(rows, commentId);
    DeletedCommentFailsOwnerCheck(rows, commentId, owner);
  }

  /** Every failure reaches the client as a 404 or 403 with the same message. */
  lemma FailuresTranslateToThemselves(threads: map<string, ThreadRow>, rows: seq<CommentRow>,
                                      threadId: string, commentId: string, owner: string)
    ensures var r := DeleteCommentOutcome(threads, rows, threadId, commentId, owner).0;
            r.Fail? ==> Translator.Translate(r.error) == r.error && r.error.kind in {NotFound, Authorization}
  {
    Translator.DirectoryKinds();
  }

  /** The request's thread id is only checked to exist: a live comment of
      the caller's is deleted through any existing thread, whatever thread
      the comment belongs to. */
  lemma ThreadMembershipNotChecked(threads: map<string, ThreadRow>, rows: seq<CommentRow>,
                                   threadId: string, owner: string, i: int)
    requires UniqueIds(rows) && threadId in threads
    requires 0 <= i < |rows| && !rows[i].isDelete && rows[i].owner == owner
    ensures DeleteCommentOutcome(threads, rows, threadId, rows[i].id, owner) == (Pass, rows[i := rows[i].(isDelete := true)])
  {
    DeleteSucceedsExactly(threads, rows, threadId, rows[i].id, owner);
  }

  /** Owning the thread gives no right over its comments: anyone but a
      comment's author, the thread's author included, is refused with
      Authorization and the comment stays live. */
  lemma ThreadOwnerCannotDeleteOthersComment(threads: map<string, ThreadRow>, rows: seq<CommentRow>,
                                             threadId: string, caller: string, i: int)
    requires UniqueIds(rows) && threadId in threads
    requires 0 <= i < |rows| && !rows[i].isDelete && rows[i].owner != caller
    ensures DeleteCommentOutcome(threads, rows, threadId, rows[i].id, caller) == (Fail(NotCommentOwner), rows)
  {
    FirstWithIdIsUnique(rows, rows[i].id, i);
  }

  class DeleteCommentUseCase {
    const threadRepository: ThreadRepositoryPostgres
    const commentRepository: CommentRepositoryPostgres

    constructor(threadRepository: ThreadRepositoryPostgres, commentRepository: CommentRepositoryPostgres)
      ensures this.threadRepository == threadRepository && this.commentRepository == commentRepository
    {
      this.threadRepository := threadRepository;
      this.commentRepository := commentRepository;
    }

    method Execute(threadId: string, commentId: string, owner: string) returns (r: Outcome)
      requires commentRepository.Valid()
      modifies commentRepository
      ensures commentRepository.Valid()
      ensures (r, commentRepository.rows)
           == DeleteCommentOutcome(threadRepository.threads, old(commentRepository.rows), threadId, commentId, owner)
    {
      r := threadRepository.VerifyThreadExists(threadId);
      if r.Fail? {
        return;
      }
      r := commentRepository.VerifyCommentExists(commentId);
      if r.Fail? {
        return;
      }
      r := commentRepository.VerifyCommentOwner(commentId, owner);
      if r.Fail? {
        return;
      }
      r := commentRepository.DeleteComment(commentId);
    }
  }
}
