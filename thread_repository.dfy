/** ThreadRepositoryPostgres over an in-memory `threads` table keyed by id.
    Its source is not part of this model: the operations follow what the
    repository's tests expect (the `thread-` id prefix, a NotFound error for
    an unknown id, the stored fields), the NotFound message the HTTP tests
    expect, the NOT NULL and primary-key constraints of the `threads`
    table, and two assumptions: `AddedThread` validates like the
    other entities, and the read joins users with a left join. */
module Threads {
  import opened Errors
  import opened Js
  import opened ThreadEntities

  /** One row of the `threads` table; `date` is the creation time. */
  datatype ThreadRow = ThreadRow(id: string, title: string, body: string, owner: string, date: int)

  /** A thread as `getThreadById` reads it: joined with its author's
      username, None when no user matches the owner. */
  datatype ThreadView = ThreadView(id: string, title: string, body: string, date: int, username: Option<string>)
  {
    /** The record as the driver hands it over: the timestamp as a valid
        Date, a missing username as null. */
    function ToPayload(): (p: Payload)
      ensures Get(p, "id") == Str(id) && Get(p, "title") == Str(title) && Get(p, "body") == Str(body)
      ensures Get(p, "date") == DateObj(true, date)
      ensures Get(p, "username") == if username.Some? then Str(username.value) else Null
      ensures Get(p, "comments") == Undefined
    {
      map["id" := Str(id), "title" := Str(title), "body" := Str(body), "date" := DateObj(true, date),
          "username" := (if username.Some? then Str(username.value) else Null)]
    }
  }

  /** The primary key: every row is stored under its own id. */
  ghost predicate KeyedById(threads: map<string, ThreadRow>)
  {
    forall k | k in threads :: threads[k].id == k
  }

  /** `addThread` on the table: insert `thread-<suffix>`, then report the
      row's id, title and owner as an AddedThread. */
  function InsertThread(threads: map<string, ThreadRow>, t: NewThread, suffix: string, now: int)
    : (r: (Result<AddedThread>, map<string, ThreadRow>))
    ensures t.owner.None? ==> r == (Err(NotNullViolation), threads)
    ensures t.owner.Some? && "thread-" + suffix in threads ==> r == (Err(DuplicateKey), threads)
    ensures t.owner.Some? && "thread-" + suffix !in threads ==>
              r.1 == threads["thread-" + suffix := ThreadRow("thread-" + suffix, t.title, t.body, t.owner.value, now)]
    ensures r.0.Ok? ==> r.0.value == AddedThread("thread-" + suffix, t.title, t.owner.value)
    ensures t.owner.Some? && "thread-" + suffix !in threads && t.title != "" && t.owner.value != "" ==> r.0.Ok?
    ensures KeyedById(threads) ==> KeyedById(r.1)
  {
    var id := "thread-" + suffix;
    if t.owner.None? then (Err(NotNullViolation), threads)
    else if id in threads then (Err(DuplicateKey), threads)
    else
      (AddedThreadOf(map["id" := Str(id), "title" := Str(t.title), "owner" := Str(t.owner.value)]),
       threads[id := ThreadRow(id, t.title, t.body, t.owner.value, now)])
  }

  /** `verifyThreadExists` on the table. */
  function ThreadExists(threads: map<string, ThreadRow>, id: string): (r: Outcome)
    ensures r == Pass <==> id in threads
    ensures r != Pass ==> r == Fail(ThreadNotFound)
  {
    if id in threads then Pass else Fail(ThreadNotFound)
  }

  /** `getThreadById` on the table, joined with the users table. */
  function ThreadById(threads: map<string, ThreadRow>, id: string, users: map<string, string>): (r: Result<ThreadView>)
    ensures r.Err? <==> id !in threads
    ensures r.Err? ==> r.error == ThreadNotFound
    ensures r.Ok? ==> && r.value.title == threads[id].title && r.value.body == threads[id].body
                      && r.value.date == threads[id].date
                      && (r.value.username.Some? <==> threads[id].owner in users)
                      && (r.value.username.Some? ==> r.value.username.value == users[threads[id].owner])
    ensures r.Ok? && KeyedById(threads) ==> r.value.id == id
  {
    if id !in threads then Err(ThreadNotFound)
    else
      var row := threads[id];
      Ok(ThreadView(row.id, row.title, row.body, row.date,
                    if row.owner in users then Some(users[row.owner]) else None))
  }

  /** A thread that was added can be found and read back with the title and
      body it was added with. */
  lemma AddedThreadIsReadable(threads: map<string, ThreadRow>, t: NewThread, suffix: string, now: int, users: map<string, string>)
    requires t.owner.Some? && "thread-" + suffix !in threads
    ensures var after := InsertThread(threads, t, suffix, now).1;
            && ThreadExists(after, "thread-" + suffix) == Pass
            && ThreadById(after, "thread-" + suffix, users).Ok?
            && ThreadById(after, "thread-" + suffix, users).value.title == t.title
            && ThreadById(after, "thread-" + suffix, users).value.body == t.body
            && ThreadById(after, "thread-" + suffix, users).value.date == now
  {
  }

  class ThreadRepositoryPostgres {
    var threads: map<string, ThreadRow>

    ghost predicate Valid()
      reads this
    {
      KeyedById(threads)
    }

    constructor()
      ensures Valid() && threads == map[]
    {
      threads := map[];
    }

    method AddThread(newThread: NewThread, suffix: string, now: int) returns (r: Result<AddedThread>)
      requires Valid()
      modifies this
      ensures Valid()
      ensures (r, threads) == InsertThread(old(threads), newThread, suffix, now)
    {
      var id := "thread-" + suffix;
      if newThread.owner.None? {
        return Err(NotNullViolation);
      }
      if id in threads {
        return Err(DuplicateKey);
      }
      threads := threads[id := ThreadRow(id, newThread.title, newThread.body, newThread.owner.value, now)];
      r := AddedThreadOf(map["id" := Str(id), "title" := Str(newThread.title), "owner" := Str(newThread.owner.value)]);
    }

    method VerifyThreadExists(threadId: string) returns (r: Outcome)
      ensures r == ThreadExists(threads, threadId)
    {
      r := ThreadExists(threads, threadId);
    }

    method GetThreadById(threadId: string, users: map<string, string>) returns (r: Result<ThreadView>)
      ensures r == ThreadById(threads, threadId, users)
    {
      r := ThreadById(threads, threadId, users);
    }
  }
}
