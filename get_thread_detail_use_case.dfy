/** GetThreadDetailUseCase: read the thread, read its comments, turn each
    comment row into a CommentDetail, and build the ThreadDetail. Nothing is
    written. */
module GetThreadDetail {
  import opened Errors
  import opened Js
  import opened Comments
  import opened Threads
  import CommentDetails
  import ThreadDetails

  /** `xs.map(f)` where `f` may throw: the first element on which `f`
      fails fails the whole map. */
  function MapOrFirstError<A, B>(xs: seq<A>, f: A -> Result<B>): (r: Result<seq<B>>)
    ensures r.Ok? <==> forall i | 0 <= i < |xs| :: f(xs[i]).Ok?
    ensures r.Ok? ==> (|r.value| == |xs| && forall i | 0 <= i < |xs| :: f(xs[i]) == Ok(r.value[i]))
    ensures r.Err? ==> exists i | 0 <= i < |xs| :: f(xs[i]) == Err(r.error) && forall j | 0 <= j < i :: f(xs[j]).Ok?
  {
    if xs == [] then Ok([])
    else
      var first :- f(xs[0]);
      var rest := MapOrFirstError(xs[1..], f);
      if rest.Err? then
        var k :| 0 <= k < |xs[1..]| && f(xs[1..][k]) == Err(rest.error)
                 && forall j | 0 <= j < k :: f(xs[1..][j]).Ok?;
        assert forall j | 1 <= j < k + 1 :: xs[j] == xs[1..][j - 1];
        assert xs[k + 1] == xs[1..][k];
        Err(rest.error)
      else
        assert forall i | 1 <= i < |xs| :: xs[i] == xs[1..][i - 1];
        Ok([first] + rest.value)
  }

  /** `new CommentDetail(comment)` on one row of the comments read. A row
      always has a valid Date, a string content and a boolean flag, so it can
      only be refused for a missing property. */
  function CommentDetailOf(v: CommentView, lib: DateLib): (r: Result<CommentDetails.CommentDetail>)
    ensures r.Err? ==> r.error == CommentDetails.NotContainNeededProperty
  {
    CommentDetails.FromPayload(v.ToPayload(), lib)
  }

  function DetailValues(details: seq<CommentDetails.CommentDetail>): (vs: seq<Value>)
    ensures |vs| == |details| && forall i | 0 <= i < |details| :: vs[i] == details[i].ToValue()
  {
    seq(|details|, i requires 0 <= i < |details| => details[i].ToValue())
  }

  /** What a client sees of one comment row: its id and its author's
      username, the ISO form of its date, and the mask in place of the
      content of a deleted comment. */
  function Shown(v: CommentView, lib: DateLib): CommentDetails.CommentDetail
    requires v.username.Some?
  {
    CommentDetails.CommentDetail(v.id, v.username.value, lib.format(v.date),
                                 if v.isDelete then CommentDetails.DeletedContent else v.content)
  }

  predicate ShowsComment(shown: Value, v: CommentView, lib: DateLib)
  {
    v.username.Some? && shown == Shown(v, lib).ToValue()
  }

  /** One comment row through CommentDetail: a row always carries a valid
      Date, a string content and a boolean flag, so it fails only on an empty
      id or a missing or empty username, and then with the missing-property
      code. */
  lemma CommentRowDetail(v: CommentView, lib: DateLib)
    ensures CommentDetailOf(v, lib).Ok? <==> v.id != "" && v.username.Some? && v.username.value != ""
    ensures CommentDetailOf(v, lib).Err? ==> CommentDetailOf(v, lib).error == CommentDetails.NotContainNeededProperty
    ensures CommentDetailOf(v, lib).Ok? ==> v.username.Some? && CommentDetailOf(v, lib).value == Shown(v, lib)
  {
    var p := v.ToPayload();
    if v.id != "" && v.username.Some? && v.username.value != "" {
      assert CommentDetails.WellFormed(p);
    }
  }

  /** Every comment row that passes CommentDetail is shown as `Shown` says. */
  lemma PassingRowsAreShown(lib: DateLib)
    ensures forall v :: CommentDetailOf(v, lib).Ok? ==> v.username.Some? && CommentDetailOf(v, lib).value == Shown(v, lib)
  {
    forall v ensures CommentDetailOf(v, lib).Ok? ==> v.username.Some? && CommentDetailOf(v, lib).value == Shown(v, lib) {
      CommentRowDetail(v, lib);
    }
  }

  /** After a successful map with a function that shows every row it
      accepts, the i-th detail shows the i-th row. */
  lemma DetailsShowComments(comments: seq<CommentView>, details: seq<CommentDetails.CommentDetail>,
                            f: CommentView -> Result<CommentDetails.CommentDetail>, lib: DateLib)
    requires forall v :: f(v).Ok? ==> v.username.Some? && f(v).value == Shown(v, lib)
    requires MapOrFirstError(comments, f) == Ok(details)
    ensures |DetailValues(details)| == |comments|
    ensures forall i | 0 <= i < |comments| :: ShowsComment(DetailValues(details)[i], comments[i], lib)
  {
    forall i | 0 <= i < |comments| ensures ShowsComment(DetailValues(details)[i], comments[i], lib) {
      assert f(comments[i]) == Ok(details[i]);
    }
  }

  /** `{...thread, comments}`: the thread's record with the comments added. */
  function WithComments(thread: ThreadView, comments: seq<Value>): (p: Payload)
    ensures Get(p, "id") == Str(thread.id) && Get(p, "title") == Str(thread.title) && Get(p, "body") == Str(thread.body)
    ensures Get(p, "date") == DateObj(true, thread.date)
    ensures Get(p, "username") == if thread.username.Some? then Str(thread.username.value) else Null
    ensures Get(p, "comments") == Arr(comments)
  {
    thread.ToPayload()["comments" := Arr(comments)]
  }

  /** The thread-detail read on the two tables. */
  function ThreadDetailOf(threads: map<string, ThreadRow>, rows: seq<CommentRow>, users: map<string, string>,
                          lib: DateLib, threadId: string): (r: Result<ThreadDetails.ThreadDetail>)
    ensures threadId !in threads ==> r == Err(ThreadNotFound)
    ensures r.Ok? ==> && threadId in threads
                      && r.value.title == threads[threadId].title && r.value.body == threads[threadId].body
                      && r.value.date == lib.format(threads[threadId].date)
                      && threads[threadId].owner in users && r.value.username == users[threads[threadId].owner]
    ensures r.Ok? && KeyedById(threads) ==> r.value.id == threadId
    ensures r.Ok? ==> var cs := ThreadComments(rows, threadId, users);
                      && |r.value.comments| == |cs|
                      && forall i | 0 <= i < |cs| :: ShowsComment(r.value.comments[i], cs[i], lib)
  {
    var thread :- ThreadById(threads, threadId, users);
    var comments := ThreadComments(rows, threadId, users);
    var details :- MapOrFirstError(comments, v => CommentDetailOf(v, lib));
    PassingRowsAreShown(lib);
    DetailsShowComments(comments, details, v => CommentDetailOf(v, lib), lib);
    ThreadDetails.FromPayload(WithComments(thread, DetailValues(details)), lib)
  }

  /** One comment row that fails CommentDetail (an empty id, or an author
      missing from the users table) fails the whole read with the
      missing-property code, for an existing thread. */
  lemma BadCommentFailsRead(threads: map<string, ThreadRow>, rows: seq<CommentRow>, users: map<string, string>,
                            lib: DateLib, threadId: string, i: int)
    requires threadId in threads
    requires 0 <= i < |ThreadComments(rows, threadId, users)|
    requires var v := ThreadComments(rows, threadId, users)[i];
             v.id == "" || v.username.None? || v.username.value == ""
    ensures ThreadDetailOf(threads, rows, users, lib, threadId) == Err(CommentDetails.NotContainNeededProperty)
  {
    var cs := ThreadComments(rows, threadId, users);
    CommentRowDetail(cs[i], lib);
    var m := MapOrFirstError(cs, v => CommentDetailOf(v, lib));
    assert m.Err?;
    var k :| 0 <= k < |cs| && CommentDetailOf(cs[k], lib) == Err(m.error);
    CommentRowDetail(cs[k], lib);
  }

  /** A thread whose author is a known user with a non-empty name, whose
      fields are non-empty, and whose comments all pass CommentDetail is
      read successfully. */
  lemma GoodThreadIsRead(threads: map<string, ThreadRow>, rows: seq<CommentRow>, users: map<string, string>,
                         lib: DateLib, threadId: string)
    requires threadId in threads
    requires var t := threads[threadId];
             t.id != "" && t.title != "" && t.body != "" && t.owner in users && users[t.owner] != ""
    requires forall v | v in ThreadComments(rows, threadId, users) ::
               v.id != "" && v.username.Some? && v.username.value != ""
    ensures ThreadDetailOf(threads, rows, users, lib, threadId).Ok?
  {
    var cs := ThreadComments(rows, threadId, users);
    forall i | 0 <= i < |cs| ensures CommentDetailOf(cs[i], lib).Ok? {
      assert cs[i] in cs;
      CommentRowDetail(cs[i], lib);
    }
    var thread := ThreadById(threads, threadId, users).value;
    var details := MapOrFirstError(cs, v => CommentDetailOf(v, lib)).value;
    var p := WithComments(thread, DetailValues(details));
    assert ThreadDetails.WellFormed(p);
  }

  /** The comments come in date order, deleted ones included, one for each
      of the thread's rows. */
  lemma DetailCommentsFollowRows(threads: map<string, ThreadRow>, rows: seq<CommentRow>, users: map<string, string>,
                                 lib: DateLib, threadId: string)
    requires ThreadDetailOf(threads, rows, users, lib, threadId).Ok?
    ensures var cs := ThreadComments(rows, threadId, users);
            && SortedByDate(cs)
            && |ThreadDetailOf(threads, rows, users, lib, threadId).value.comments| == |OfThread(rows, threadId)|
            && forall v :: v in cs <==> exists i | 0 <= i < |rows| :: rows[i].threadId == threadId && v == ViewOf(rows[i], users)
  {
    ThreadCommentsAreTheThreadsRows(rows, threadId, users);
  }

  class GetThreadDetailUseCase {
    const threadRepository: ThreadRepositoryPostgres
    const commentRepository: CommentRepositoryPostgres

    constructor(threadRepository: ThreadRepositoryPostgres, commentRepository: CommentRepositoryPostgres)
      ensures this.threadRepository == threadRepository && this.commentRepository == commentRepository
    {
      this.threadRepository := threadRepository;
      this.commentRepository := commentRepository;
    }

    /** `users` is the users table the reads join with; `lib` stands for the
        runtime's Date parsing and ISO formatting. */
    method Execute(threadId: string, users: map<string, string>, lib: DateLib) returns (r: Result<ThreadDetails.ThreadDetail>)
      ensures r == ThreadDetailOf(threadRepository.threads, commentRepository.rows, users, lib, threadId)
    {
      var thread :- threadRepository.GetThreadById(threadId, users);
      var comments := commentRepository.GetCommentsByThreadId(threadId, users);
      var details :- MapOrFirstError(comments, v => CommentDetailOf(v, lib));
      r := ThreadDetails.FromPayload(WithComments(thread, DetailValues(details)), lib);
    }
  }
}
