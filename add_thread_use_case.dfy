/** AddThreadUseCase: validate the payload, make the authenticated user the
    owner, then add the thread. */
module AddThread {
  import opened Errors
  import opened Js
  import opened ThreadEntities
  import opened Threads
  import Translator

  /** What the use case returns and what the threads table becomes. */
  function AddThreadOutcome(threads: map<string, ThreadRow>, payload: Payload, credentialId: string, suffix: string, now: int)
    : (r: (Result<AddedThread>, map<string, ThreadRow>))
    ensures NewThreadOf(payload).Err? ==> r == (Err(NewThreadOf(payload).error), threads)
    ensures r.0.Ok? ==> r.0.value == AddedThread("thread-" + suffix, Get(payload, "title").s, credentialId)
    ensures NewThreadOf(payload).Ok? && "thread-" + suffix in threads ==> r == (Err(DuplicateKey), threads)
    ensures NewThreadOf(payload).Ok? && "thread-" + suffix !in threads ==>
              r.1 == threads["thread-" + suffix := ThreadRow("thread-" + suffix, Get(payload, "title").s,
                                                            Get(payload, "body").s, credentialId, now)]
    ensures r.0.Ok? ==> "thread-" + suffix !in threads && "thread-" + suffix in r.1
    ensures NewThreadOf(payload).Ok? && credentialId != "" && "thread-" + suffix !in threads ==> r.0.Ok?
    ensures KeyedById(threads) ==> KeyedById(r.1)
  {
    match NewThreadOf(payload)
    case Err(e) => (Err(e), threads)
    case Ok(t) => InsertThread(threads, t.(owner := Some(credentialId)), suffix, now)
  }

  /** A thread added through the use case is stored with the credential as
      its owner and reads back with the payload's title and body and the
      owner's username. */
  lemma AddedThreadIsStored(threads: map<string, ThreadRow>, payload: Payload, credentialId: string, suffix: string,
                            now: int, users: map<string, string>)
    requires AddThreadOutcome(threads, payload, credentialId, suffix, now).0.Ok?
    ensures var after := AddThreadOutcome(threads, payload, credentialId, suffix, now).1;
            var read := ThreadById(after, "thread-" + suffix, users);
            && after["thread-" + suffix].owner == credentialId
            && read.Ok? && read.value.title == Get(payload, "title").s && read.value.body == Get(payload, "body").s
            && read.value.date == now
            && (read.value.username.Some? <==> credentialId in users)
            && (credentialId in users ==> read.value.username.value == users[credentialId])
  {
  }

  /** An `owner` sent in the payload has no effect: the credential wins. */
  lemma PayloadOwnerIgnored(threads: map<string, ThreadRow>, payload: Payload, owner: Value, credentialId: string, suffix: string, now: int)
    ensures AddThreadOutcome(threads, payload["owner" := owner], credentialId, suffix, now)
         == AddThreadOutcome(threads, payload, credentialId, suffix, now)
  {
    var p' := payload["owner" := owner];
    assert Get(p', "title") == Get(payload, "title") && Get(p', "body") == Get(payload, "body");
    match NewThreadOf(payload)
    case Err(e) =>
    case Ok(t) =>
      assert NewThreadOf(p').value.(owner := Some(credentialId)) == t.(owner := Some(credentialId));
  }

  /** A payload without `body` is refused before the store is touched, and
      the HTTP layer reports the translated message as a client error. */
  lemma MissingBodyRefused(threads: map<string, ThreadRow>, title: string, credentialId: string, suffix: string, now: int)
    ensures var r := AddThreadOutcome(threads, map["title" := Str(title)], credentialId, suffix, now);
            && r == (Err(NewThreadNotContainNeededProperty), threads)
            && Translator.Translate(r.0.error).kind == Invariant
  {
    var p := map["title" := Str(title)];
    assert Get(p, "body") == Undefined;
    ThreadCodesTranslation();
  }

  /** A non-string title is a type error once both properties are present. */
  lemma NonStringTitleRefused(threads: map<string, ThreadRow>, n: real, body: string, credentialId: string, suffix: string, now: int)
    requires n != 0.0 && body != ""
    ensures AddThreadOutcome(threads, map["title" := Num(n), "body" := Str(body)], credentialId, suffix, now)
         == (Err(NewThreadNotMeetDataTypeSpecification), threads)
  {
    var p := map["title" := Num(n), "body" := Str(body)];
    assert Get(p, "title") == Num(n) && Get(p, "body") == Str(body);
  }

  class AddThreadUseCase {
    const threadRepository: ThreadRepositoryPostgres

    constructor(threadRepository: ThreadRepositoryPostgres)
      ensures this.threadRepository == threadRepository
    {
      this.threadRepository := threadRepository;
    }

    /** `suffix` is what the repository's id generator yields and `now` what
        the clock reads. */
    method Execute(payload: Payload, credentialId: string, suffix: string, now: int) returns (r: Result<AddedThread>)
      requires threadRepository.Valid()
      modifies threadRepository
      ensures threadRepository.Valid()
      ensures (r, threadRepository.threads) == AddThreadOutcome(old(threadRepository.threads), payload, credentialId, suffix, now)
    {
      var newThread :- NewThreadOf(payload);
      newThread := newThread.(owner := Some(credentialId));
      r := threadRepository.AddThread(newThread, suffix, now);
    }
  }
}
