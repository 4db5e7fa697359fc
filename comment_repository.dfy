/** CommentRepositoryPostgres over an in-memory `comments` table. A row is
    never removed: deletion sets its `isDelete` flag. */
module Comments {
  import opened Errors
  import opened Js
  import opened CommentEntities

  /** One row of the `comments` table; `date` is the creation time. */
  datatype CommentRow = CommentRow(
    id: string, content: string, threadId: string, owner: string, date: int, isDelete: bool)

  /** One row of the per-thread read: the comment joined with its author's
      username, which is None when no user matches the owner (LEFT JOIN). */
  datatype CommentView = CommentView(
    id: string, content: string, date: int, username: Option<string>, isDelete: bool)
  {
    /** The row as the database driver hands it over: the timestamp as a
        valid Date, the flag as a boolean, a missing username as null. */
    function ToPayload(): (p: Payload)
      ensures Get(p, "id") == Str(id) && Get(p, "content") == Str(content)
      ensures Get(p, "date") == DateObj(true, date) && Get(p, "is_delete") == Bool(isDelete)
      ensures Get(p, "username") == if username.Some? then Str(username.value) else Null
    {
      map["id" := Str(id), "content" := Str(content), "date" := DateObj(true, date),
          "username" := (if username.Some? then Str(username.value) else Null),
          "is_delete" := Bool(isDelete)]
    }
  }

  /** The table's primary key: no two rows share an id. */
  ghost predicate UniqueIds(rows: seq<CommentRow>)
  {
    forall i, j | 0 <= i < j < |rows| :: rows[i].id != rows[j].id
  }

  predicate Stored(rows: seq<CommentRow>, id: string)
  {
    exists i | 0 <= i < |rows| :: rows[i].id == id
  }

  /** Row `i` is the first row with the given id. */
  predicate FirstWithId(rows: seq<CommentRow>, id: string, i: int)
  {
    0 <= i < |rows| && rows[i].id == id && forall j | 0 <= j < i :: rows[j].id != id
  }

  /** The position of the row `WHERE id = $1` selects. */
  function Lookup(rows: seq<CommentRow>, id: string): (r: Option<nat>)
    ensures r.None? <==> !Stored(rows, id)
    ensures r.Some? ==> FirstWithId(rows, id, r.value)
  {
    if rows == [] then None
    else if rows[0].id == id then Some(0)
    else match Lookup(rows[1..], id)
      case None => assert forall i | 1 <= i < |rows| :: rows[i] == rows[1..][i - 1]; None
      case Some(k) => assert forall j | 1 <= j < k + 1 :: rows[j] == rows[1..][j - 1]; Some(k + 1)
  }

  lemma FirstWithIdIsUnique(rows: seq<CommentRow>, id: string, i: int)
    requires UniqueIds(rows) && 0 <= i < |rows| && rows[i].id == id
    ensures FirstWithId(rows, id, i)
  {
  }

  /** `addComment` on the table: insert the row `comment-<suffix>` with the
      default `isDelete` false, then validate the returned id, content and
      owner as an AddedComment. */
  function Insert(rows: seq<CommentRow>, c: NewComment, suffix: string, now: int): (r: (Result<AddedComment>, seq<CommentRow>))
    ensures c.threadId.None? || c.owner.None? ==> r == (Err(NotNullViolation), rows)
    ensures c.threadId.Some? && c.owner.Some? && Stored(rows, "comment-" + suffix) ==> r == (Err(DuplicateKey), rows)
    ensures c.threadId.Some? && c.owner.Some? && !Stored(rows, "comment-" + suffix) ==>
              r.1 == rows + [CommentRow("comment-" + suffix, c.content, c.threadId.value, c.owner.value, now, false)]
    ensures r.0.Ok? ==> r.0.value == AddedComment("comment-" + suffix, c.content, c.owner.value)
    ensures r.0.Ok? ==> c.content != "" && c.owner.value != ""
    ensures (c.threadId.Some? && c.owner.Some? && !Stored(rows, "comment-" + suffix)
             && c.content != "" && c.owner.value != "") ==> r.0.Ok?
    ensures UniqueIds(rows) ==> UniqueIds(r.1)
  {
    var id := "comment-" + suffix;
    if c.threadId.None? || c.owner.None? then (Err(NotNullViolation), rows)
    else if Lookup(rows, id).Some? then (Err(DuplicateKey), rows)
    else
      var row := CommentRow(id, c.content, c.threadId.value, c.owner.value, now, false);
      (AddedCommentOf(map["id" := Str(id), "content" := Str(c.content), "owner" := Str(c.owner.value)]), rows + [row])
  }

  /** `deleteComment` on the table: `UPDATE ... SET is_delete = TRUE WHERE id = $1`,
      NotFound when no row matched. */
  function SoftDelete(rows: seq<CommentRow>, id: string): (r: (Outcome, seq<CommentRow>))
    ensures r.0 == (if Stored(rows, id) then Pass else Fail(CommentNotFound))
    ensures |r.1| == |rows|
    ensures forall k | 0 <= k < |rows| :: r.1[k] == rows[k].(isDelete := rows[k].isDelete || rows[k].id == id)
    ensures !Stored(rows, id) ==> r.1 == rows
  {
    var updated := seq(|rows|, k requires 0 <= k < |rows| =>
                         if rows[k].id == id then rows[k].(isDelete := true) else rows[k]);
    if Lookup(rows, id).None? then (Fail(CommentNotFound), rows) else (Pass, updated)
  }

  /** `verifyCommentOwner` on the table: missing row, then deleted row, then
      owner mismatch. */
  function OwnerCheck(rows: seq<CommentRow>, id: string, owner: string): (r: Outcome)
    ensures !Stored(rows, id) ==> r == Fail(CommentNotFound)
    ensures forall i | FirstWithId(rows, id, i) ::
              r == if rows[i].isDelete then Fail(CommentNotFound)
                   else if rows[i].owner != owner then Fail(NotCommentOwner)
                   else Pass
  {
    match Lookup(rows, id)
    case None => Fail(CommentNotFound)
    case Some(i) =>
      var row := rows[i];
      if row.isDelete then Fail(CommentNotFound)
      else if row.owner != owner then Fail(NotCommentOwner)
      else Pass
  }

  /** `verifyCommentExists` on the table: the delete flag plays no part. */
  function ExistsCheck(rows: seq<CommentRow>, id: string): (r: Outcome)
    ensures r == Pass <==> Stored(rows, id)
    ensures r != Pass ==> r == Fail(CommentNotFound)
  {
    if Lookup(rows, id).Some? then Pass else Fail(CommentNotFound)
  }

  /** The join of one row with the users table. */
  function ViewOf(row: CommentRow, users: map<string, string>): CommentView
  {
    CommentView(row.id, row.content, row.date, if row.owner in users then Some(users[row.owner]) else None, row.isDelete)
  }

  function Views(rows: seq<CommentRow>, users: map<string, string>): (vs: seq<CommentView>)
    ensures |vs| == |rows| && forall i | 0 <= i < |rows| :: vs[i] == ViewOf(rows[i], users)
  {
    seq(|rows|, i requires 0 <= i < |rows| => ViewOf(rows[i], users))
  }

  /** `WHERE thread_id = $1`: the thread's rows, in table order. */
  function OfThread(rows: seq<CommentRow>, threadId: string): seq<CommentRow>
  {
    if rows == [] then []
    else OfThread(rows[..|rows| - 1], threadId)
         + (if rows[|rows| - 1].threadId == threadId then [rows[|rows| - 1]] else [])
  }

  lemma ViewsAppend(a: seq<CommentRow>, b: seq<CommentRow>, users: map<string, string>)
    ensures Views(a + b, users) == Views(a, users) + Views(b, users)
  {
  }

  /** The joined rows of a thread are exactly the joins of the table's rows
      that belong to it. */
  lemma {:induction false} ViewsOfThreadMembers(rows: seq<CommentRow>, threadId: string, users: map<string, string>)
    ensures forall v :: v in Views(OfThread(rows, threadId), users) <==>
              exists i | 0 <= i < |rows| :: rows[i].threadId == threadId && v == ViewOf(rows[i], users)
  {
    if rows != [] {
      var init, last := rows[..|rows| - 1], rows[|rows| - 1];
      var matching := if last.threadId == threadId then [last] else [];
      ViewsOfThreadMembers(init, threadId, users);
      ViewsAppend(OfThread(init, threadId), matching, users);
      forall v ensures v in Views(OfThread(rows, threadId), users) ==>
                         exists i | 0 <= i < |rows| :: rows[i].threadId == threadId && v == ViewOf(rows[i], users)
      {
        if v in Views(OfThread(init, threadId), users) {
          var i :| 0 <= i < |init| && init[i].threadId == threadId && v == ViewOf(init[i], users);
          assert rows[i] == init[i];
        } else if v in Views(matching, users) {
          assert rows[|rows| - 1] == last;
        }
      }
      forall i | 0 <= i < |rows| && rows[i].threadId == threadId
        ensures ViewOf(rows[i], users) in Views(OfThread(rows, threadId), users)
      {
        if i < |init| {
          assert init[i] == rows[i];
        } else {
          assert Views(matching, users) == [ViewOf(rows[i], users)];
        }
      }
    }
  }

  predicate SortedByDate(vs: seq<CommentView>)
  {
    forall i, j | 0 <= i < j < |vs| :: vs[i].date <= vs[j].date
  }

  /** Putting an element no later than any other in front keeps the order. */
  lemma SortedCons(x: CommentView, vs: seq<CommentView>)
    requires SortedByDate(vs) && forall k | 0 <= k < |vs| :: x.date <= vs[k].date
    ensures SortedByDate([x] + vs)
  {
    forall i, j | 0 <= i < j < |[x] + vs| ensures ([x] + vs)[i].date <= ([x] + vs)[j].date {
      if i > 0 {
        assert ([x] + vs)[i] == vs[i - 1];
      }
      assert ([x] + vs)[j] == vs[j - 1];
    }
  }

  /** Insert `v` after every element whose date is not later than its own. */
  function InsertByDate(vs: seq<CommentView>, v: CommentView): (r: seq<CommentView>)
    requires SortedByDate(vs)
    ensures SortedByDate(r)
    ensures multiset(r) == multiset(vs) + multiset{v}
  {
    if vs == [] then [v]
    else if v.date < vs[0].date then
      SortedCons(v, vs);
      [v] + vs
    else
      var rest := InsertByDate(vs[1..], v);
      assert forall k | 0 <= k < |rest| :: vs[0].date <= rest[k].date by {
        forall k | 0 <= k < |rest| ensures vs[0].date <= rest[k].date {
          assert rest[k] in multiset(vs[1..]) + multiset{v};
        }
      }
      SortedCons(vs[0], rest);
      assert vs == [vs[0]] + vs[1..];
      [vs[0]] + rest
  }

  /** `getCommentsByThreadId` on the table: the thread's rows joined with
      their authors' usernames, `ORDER BY date ASC`. Rows are taken in table
      order and each is placed after the rows of the same date. */
  function ThreadComments(rows: seq<CommentRow>, threadId: string, users: map<string, string>): (r: seq<CommentView>)
    ensures SortedByDate(r)
    ensures multiset(r) == multiset(Views(OfThread(rows, threadId), users))
  {
    if rows == [] then []
    else
      var init, last := rows[..|rows| - 1], rows[|rows| - 1];
      var before := ThreadComments(init, threadId, users);
      var matching := if last.threadId == threadId then [last] else [];
      ViewsAppend(OfThread(init, threadId), matching, users);
      if last.threadId == threadId then InsertByDate(before, ViewOf(last, users)) else before
  }

  /** The read returns one entry per row of the thread, deleted ones
      included, and nothing else. */
  lemma ThreadCommentsAreTheThreadsRows(rows: seq<CommentRow>, threadId: string, users: map<string, string>)
    ensures |ThreadComments(rows, threadId, users)| == |OfThread(rows, threadId)|
    ensures forall v :: v in ThreadComments(rows, threadId, users) <==>
              exists i | 0 <= i < |rows| :: rows[i].threadId == threadId && v == ViewOf(rows[i], users)
  {
    var r, vs := ThreadComments(rows, threadId, users), Views(OfThread(rows, threadId), users);
    assert |multiset(r)| == |multiset(vs)|;
    ViewsOfThreadMembers(rows, threadId, users);
    forall v ensures v in r <==> v in vs {
      assert v in r <==> v in multiset(r);
      assert v in vs <==> v in multiset(vs);
    }
  }

  /** A soft-deleted comment still exists. */
  lemma DeletedCommentStillExists(rows: seq<CommentRow>, id: string)
    ensures ExistsCheck(SoftDelete(rows, id).1, id) == ExistsCheck(rows, id)
  {
    var after := SoftDelete(rows, id).1;
    if Stored(rows, id) {
      var i :| 0 <= i < |rows| && rows[i].id == id;
      assert after[i].id == id;
    } else {
      assert after == rows;
    }
  }

  /** Deleting twice leaves the table as deleting once and succeeds again. */
  lemma SoftDeleteIdempotent(rows: seq<CommentRow>, id: string)
    ensures var once := SoftDelete(rows, id);
            SoftDelete(once.1, id) == once
  {
    var once := SoftDelete(rows, id).1;
    var twice := SoftDelete(once, id).1;
    assert forall k | 0 <= k < |rows| :: once[k].id == rows[k].id;
    assert Stored(once, id) == Stored(rows, id) by {
      if Stored(rows, id) {
        var i :| 0 <= i < |rows| && rows[i].id == id;
        assert once[i].id == id;
      }
    }
    assert forall k | 0 <= k < |rows| :: twice[k] == once[k];
    assert twice == once;
  }

  /** With unique ids, a delete changes the flag of the one matching row and
      nothing else. */
  lemma SoftDeleteTouchesOnlyTarget(rows: seq<CommentRow>, id: string, i: int)
    requires UniqueIds(rows) && 0 <= i < |rows| && rows[i].id == id
    ensures SoftDelete(rows, id) == (Pass, rows[i := rows[i].(isDelete := true)])
  {
    var after := SoftDelete(rows, id).1;
    assert rows[i].id == id;
    assert forall k | 0 <= k < |rows| :: after[k] == rows[i := rows[i].(isDelete := true)][k];
    assert after == rows[i := rows[i].(isDelete := true)];
  }

  /** A row once deleted fails the owner check with NotFound, for its owner
      as for anyone else. */
  lemma DeletedCommentFailsOwnerCheck(rows: seq<CommentRow>, id: string, owner: string)
    requires UniqueIds(rows) && Stored(rows, id)
    ensures OwnerCheck(SoftDelete(rows, id).1, id, owner) == Fail(CommentNotFound)
  {
    var i :| 0 <= i < |rows| && rows[i].id == id;
    var after := SoftDelete(rows, id).1;
    SoftDeleteTouchesOnlyTarget(rows, id, i);
    assert UniqueIds(after) by {
      assert forall k | 0 <= k < |rows| :: after[k].id == rows[k].id;
    }
    FirstWithIdIsUnique(after, id, i);
  }

  class CommentRepositoryPostgres {
    var rows: seq<CommentRow>

    ghost predicate Valid()
      reads this
    {
      UniqueIds(rows)
    }

    constructor()
      ensures Valid() && rows == []
    {
      rows := [];
    }

    method AddComment(newComment: NewComment, suffix: string, now: int) returns (r: Result<AddedComment>)
      requires Valid()
      modifies this
      ensures Valid()
      ensures (r, rows) == Insert(old(rows), newComment, suffix, now)
    {
      var id := "comment-" + suffix;
      if newComment.threadId.None? || newComment.owner.None? {
        return Err(NotNullViolation);
      }
      if Lookup(rows, id).Some? {
        return Err(DuplicateKey);
      }
      rows := rows + [CommentRow(id, newComment.content, newComment.threadId.value, newComment.owner.value, now, false)];
      r := AddedCommentOf(map["id" := Str(id), "content" := Str(newComment.content), "owner" := Str(newComment.owner.value)]);
    }

    method DeleteComment(commentId: string) returns (r: Outcome)
      requires Valid()
      modifies this
      ensures Valid()
      ensures (r, rows) == SoftDelete(old(rows), commentId)
    {
      match Lookup(rows, commentId)
      case None =>
        r := Fail(CommentNotFound);
      case Some(i) =>
        SoftDeleteTouchesOnlyTarget(rows, commentId, i);
        rows := rows[i := rows[i].(isDelete := true)];
        r := Pass;
    }

    method VerifyCommentOwner(commentId: string, owner: string) returns (r: Outcome)
      ensures r == OwnerCheck(rows, commentId, owner)
    {
      r := OwnerCheck(rows, commentId, owner);
    }

    method GetCommentsByThreadId(threadId: string, users: map<string, string>) returns (r: seq<CommentView>)
      ensures r == ThreadComments(rows, threadId, users)
    {
      r := ThreadComments(rows, threadId, users);
    }

    method VerifyCommentExists(commentId: string) returns (r: Outcome)
      ensures r == ExistsCheck(rows, commentId)
    {
      r := ExistsCheck(rows, commentId);
    }
  }
}
