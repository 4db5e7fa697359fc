# Forum backend: validation and ownership pipeline

This project models the core of a discussion-forum backend written in
JavaScript. Users open threads, comment on them and soft-delete their own
comments. The model covers:

- **The two read-side entities.** `CommentDetail` and `ThreadDetail` validate a
  raw record (missing properties first, then types, then an invalid Date),
  normalise its date to an ISO string and copy its fields. `CommentDetail` also
  replaces the content of a deleted comment with `**komentar telah dihapus**`.
- **The error translator.** It maps an error message to the error the HTTP
  layer reports: a client error (Invariant), NotFound or Authorization. A
  message with no entry passes through unchanged.
- **The comment repository.** It is a class over an in-memory `comments` table.
  - `addComment` appends a row whose delete flag is false.
  - `deleteComment` sets the flag in place.
  - `verifyCommentOwner` decides missing, then deleted, then not the owner.
  - `verifyCommentExists` ignores the flag.
  - `getCommentsByThreadId` returns the thread's rows joined with their
    authors' usernames, ordered by date.
- **The thread repository.** Its source is not part of this model. It is a
  class over a `threads` table. Its operations combine three things: what
  `ThreadRepositoryPostgres.test.js` expects (the `thread-` id prefix, a
  NotFound error for an unknown id, the stored and read fields), the NotFound
  message "thread tidak ditemukan" the HTTP tests expect (threads.test.js:245-260,
  comments.test.js:153-175), the NOT NULL and primary-key
  constraints of the `threads` migration, and the assumptions listed under
  "Left out" (the `AddedThread` validator, the left join with users).
- **The four use cases.**
  - Add thread: validate, set the owner, add.
  - Add comment: validate, check the thread, attach thread and owner, add.
  - Delete comment: check the thread, the comment and its owner, then
    soft-delete.
  - Get thread detail: read the thread and its comments, build a
    CommentDetail for each comment, then build the ThreadDetail.

JavaScript values are the datatype `Js.Value`, and `Js.Truthy` follows `!x`:
`""`, `0`, `NaN`, `false`, `null` and `undefined` are falsy, and `[]` is
truthy. The database driver turns timestamps into Date objects and booleans
into booleans, so a repository row reaches an entity as a valid Date and a
boolean flag.

Each state-changing operation is specified twice:

- a pure function gives the result and the new table from the old one
  (`Comments.Insert`, `Comments.SoftDelete`, `DeleteComment.DeleteCommentOutcome`, …);
- the class method is proved to produce exactly that.

The lemmas state what the code promises about those functions.

Two facts about deletion follow from the code:

- **Only a comment's author can delete it.** `verifyCommentOwner`
  (CommentRepositoryPostgres.js:60-62) compares the comment's owner with the
  caller, so a thread's author deleting another user's comment fails with
  Authorization and the comment stays live
  (`DeleteComment.ThreadOwnerCannotDeleteOthersComment`).
- **Thread membership is not checked.** The delete use case
  (DeleteCommentUseCase.js:11-18) checks only that the thread exists, so a
  comment is deleted through any existing thread id, whatever thread it
  belongs to (`DeleteComment.ThreadMembershipNotChecked`).

## Model

| member | source | states |
|---|---|---|
| Js.Get | src/Domains/comments/entities/CommentDetail.js:14 | Reading a property yields its value when present, and `undefined` exactly when it is absent or holds `undefined`. |
| Js.Truthy | src/Domains/comments/entities/CommentDetail.js:16-18 | A value fails a `!x` test exactly when it is `undefined`, `null`, `""`, `0`, `NaN` or `false`; every object, an empty array included, passes. |
| Js.ToIsoString | src/Domains/comments/entities/CommentDetail.js:9 | A valid Date formats to its ISO string. An invalid Date, or a string that does not parse, raises the runtime's "Invalid time value" RangeError. A parseable string formats to the ISO string of its parsed time. |
| CommentDetails.CommentDetail.ToValue | src/Domains/comments/entities/CommentDetail.js:7-11 | The entity has exactly the properties id, username, date and content, each holding its field; `is_delete` is not kept. |
| CommentDetails.VerifyPayload | src/Domains/comments/entities/CommentDetail.js:14-38 | Passes exactly the well-formed records. A falsy id/username/date, or an undefined content/is_delete, gives NOT_CONTAIN_NEEDED_PROPERTY, and that check comes first. Any other ill-formed record, including one with an invalid Date, gives NOT_MEET_DATA_TYPE_SPECIFICATION. |
| CommentDetails.FromPayload | src/Domains/comments/entities/CommentDetail.js:2-12 | The same error precedence as the validation. A well-formed record fails only when its date cannot be normalised. On success, id and username are copied, the date is the ISO string, and the content is the mask when `is_delete` is true and the original content otherwise. |
| CommentDetails.MissingReportedBeforeType | src/Domains/comments/entities/CommentDetail.js:15-33 | A record that lacks `id` and also has mistyped content and flag reports the missing property. |
| CommentDetails.EmptyLiveContentKept | src/Domains/comments/entities/CommentDetail.js:19-20 | An empty content with `is_delete` false passes the missing check and is kept verbatim. |
| ThreadDetails.VerifyPayload | src/Domains/threads/entities/ThreadDetail.js:15-33 | Passes exactly the well-formed records. Any falsy property gives NOT_CONTAIN_NEEDED_PROPERTY first. A truthy non-string field, a truthy non-array comments value, a date that is neither a string nor a Date, or an invalid Date gives NOT_MEET_DATA_TYPE_SPECIFICATION. |
| ThreadDetails.FromPayload | src/Domains/threads/entities/ThreadDetail.js:2-13 | The same error precedence. On success, id, title, body, username and the comments (same elements, same order) are copied, and the date is the ISO string. |
| ThreadDetails.EmptyCommentsAccepted | src/Domains/threads/entities/ThreadDetail.js:16 | A thread with an empty comments array is accepted, because `[]` is truthy. |
| ThreadDetails.InvalidDateRejected | src/Domains/threads/entities/ThreadDetail.js:30-32 | An invalid Date object is a type error, reported before any normalisation. |
| Translator.Translate | src/Commons/exceptions/DomainErrorTranslator.js:6-8 | A message with an entry yields that entry; any other error is returned unchanged. |
| Translator.DirectoryKinds | src/Commons/exceptions/DomainErrorTranslator.js:11-67 | Every entry is a client error except three. "thread tidak ditemukan" and "komentar tidak ditemukan" map to NotFound, and "Anda tidak berhak menghapus komentar ini" maps to Authorization, each with the same message. |
| Translator.KeysAreCodesOrDomainMessages | src/Commons/exceptions/DomainErrorTranslator.js:11-67 | Every key is an upper-case code or one of the three domain messages. |
| Translator.InvariantMessagesAreLowerCase | src/Commons/exceptions/DomainErrorTranslator.js:11-67 | No client-error message ends like a code. |
| Translator.InvariantMessagesAreNotDomainMessages | src/Commons/exceptions/DomainErrorTranslator.js:11-67 | No client-error message is one of the domain messages. |
| Translator.DirectoryClosed | src/Commons/exceptions/DomainErrorTranslator.js:11-67 | A translated message is never itself a key, unless its entry maps to itself. |
| Translator.TranslateIdempotent | src/Commons/exceptions/DomainErrorTranslator.js:7 | Translating twice gives what translating once gives. |
| ThreadEntities.NewThreadOf | src/Domains/threads/entities/_test/NewThread.test.js:4-27 | A missing or falsy title or body gives NEW_THREAD.NOT_CONTAIN_NEEDED_PROPERTY before any type check, and a truthy non-string one gives NOT_MEET_DATA_TYPE_SPECIFICATION. A payload is accepted exactly when title and body are non-empty strings, and they are kept. |
| ThreadEntities.AddedThreadOf | src/Domains/threads/entities/_test/AddedThread.test.js:4-29 | It is accepted exactly when id, title and owner are non-empty strings, and these are kept. Otherwise it fails with one of the two ADDED_THREAD codes, the missing-property one when a property is falsy. |
| ThreadEntities.ThreadCodesTranslation | src/Commons/exceptions/DomainErrorTranslator.js:38-43 | The NEW_THREAD codes translate to client errors; the ADDED_THREAD codes have no entry and pass through. |
| CommentEntities.NewCommentOf | src/Infrastructures/http/_test/comments.test.js:85-131 | A missing or falsy content gives NEW_COMMENT.NOT_CONTAIN_NEEDED_PROPERTY, and a truthy non-string one gives NOT_MEET_DATA_TYPE_SPECIFICATION. A payload is accepted exactly when content is a non-empty string, and thread and owner are not yet set. |
| CommentEntities.AddedCommentOf | src/Domains/comments/entities/_test/AddedComment.test.js:4-29 | It is accepted exactly when id, content and owner are non-empty strings, and these are kept. Otherwise it fails with one of the two ADDED_COMMENT codes. |
| CommentEntities.CommentCodesTranslation | src/Commons/exceptions/DomainErrorTranslator.js:44-49 | The NEW_COMMENT codes translate to client errors; the ADDED_COMMENT codes pass through. |
| Comments.CommentView.ToPayload | src/Infrastructures/repository/CommentRepositoryPostgres.js:68-71 | A read row carries id, content, a valid Date, the flag as a boolean, and the joined username, or null when no user matches. |
| Comments.Lookup | src/Infrastructures/repository/CommentRepositoryPostgres.js:44-54 | Finds nothing exactly when no row has the id; otherwise it finds the first row with that id. |
| Comments.Insert | src/Infrastructures/repository/CommentRepositoryPostgres.js:14-27 | A missing thread or owner violates NOT NULL, and an existing id violates the key; either leaves the table unchanged. Otherwise the row `comment-<suffix>` with the given content, thread, owner and time is appended with its flag false. A success reports that id, content and owner, and it succeeds whenever the content and owner are non-empty. Unique ids are kept. |
| Comments.SoftDelete | src/Infrastructures/repository/CommentRepositoryPostgres.js:29-40 | Fails with NotFound "komentar tidak ditemukan" exactly when no row has the id, and then changes nothing. Otherwise every row keeps its length and fields, and a row's flag becomes true exactly when it had that id or was already true. |
| Comments.OwnerCheck | src/Infrastructures/repository/CommentRepositoryPostgres.js:42-63 | A missing row gives NotFound. A deleted row gives NotFound even for its owner. An owner mismatch gives Authorization. Otherwise it passes. |
| Comments.ExistsCheck | src/Infrastructures/repository/CommentRepositoryPostgres.js:83-94 | Passes exactly when a row has the id, whatever its flag; otherwise NotFound. |
| Comments.ViewsOfThreadMembers | src/Infrastructures/repository/CommentRepositoryPostgres.js:71-72 | The joined rows of a thread are exactly the joins of the table rows whose thread id matches. |
| Comments.InsertByDate | src/Infrastructures/repository/CommentRepositoryPostgres.js:73 | Inserting into a date-ordered list keeps it ordered and adds exactly the one element. |
| Comments.ThreadComments | src/Infrastructures/repository/CommentRepositoryPostgres.js:65-81 | The result is ordered by date ascending and is a permutation of the thread's rows joined with their usernames, unmasked. |
| Comments.ThreadCommentsAreTheThreadsRows | src/Infrastructures/repository/CommentRepositoryPostgres.js:65-81 | The read returns one entry per row of the thread, deleted rows included. An entry appears exactly when some row of that thread joins to it. |
| Comments.DeletedCommentStillExists | src/Infrastructures/repository/CommentRepositoryPostgres.js:83-94 | Soft deletion does not change the existence check. |
| Comments.SoftDeleteIdempotent | src/Infrastructures/repository/CommentRepositoryPostgres.js:29-40 | Deleting again succeeds and leaves the table as the first delete left it. |
| Comments.SoftDeleteTouchesOnlyTarget | src/Infrastructures/repository/CommentRepositoryPostgres.js:31 | With unique ids, a delete sets the flag of the one matching row and changes nothing else. |
| Comments.DeletedCommentFailsOwnerCheck | src/Infrastructures/repository/CommentRepositoryPostgres.js:55-58 | After a delete, the owner check on that comment gives NotFound, for any caller. |
| Comments.CommentRepositoryPostgres.constructor | src/Infrastructures/repository/CommentRepositoryPostgres.js:8-12 | Starts with an empty table with unique ids. |
| Comments.CommentRepositoryPostgres.AddComment | src/Infrastructures/repository/CommentRepositoryPostgres.js:14-27 | Returns and stores what `Insert` gives, and keeps ids unique. |
| Comments.CommentRepositoryPostgres.DeleteComment | src/Infrastructures/repository/CommentRepositoryPostgres.js:29-40 | Updating the one matching row in place yields the result and table of `SoftDelete`, and ids stay unique. |
| Comments.CommentRepositoryPostgres.VerifyCommentOwner | src/Infrastructures/repository/CommentRepositoryPostgres.js:42-63 | Answers `OwnerCheck` on the current table and changes nothing. |
| Comments.CommentRepositoryPostgres.GetCommentsByThreadId | src/Infrastructures/repository/CommentRepositoryPostgres.js:65-81 | Answers `ThreadComments` on the current table and changes nothing. |
| Comments.CommentRepositoryPostgres.VerifyCommentExists | src/Infrastructures/repository/CommentRepositoryPostgres.js:83-94 | Answers `ExistsCheck` on the current table and changes nothing. |
| Threads.ThreadView.ToPayload | src/Infrastructures/repository/_test/ThreadRepositoryPostgres.test.js:92-117 | A read thread carries id, title, body, a valid Date and the joined username (null when no user matches), and no comments. |
| Threads.InsertThread | src/Infrastructures/repository/_test/ThreadRepositoryPostgres.test.js:28-79 | A missing owner or an existing id leaves the table unchanged. Otherwise `thread-<suffix>` is stored with the thread's title, body, owner and time. A success reports that id, title and owner, and it succeeds whenever the title and owner are non-empty. |
| Threads.ThreadExists | src/Infrastructures/repository/_test/ThreadRepositoryPostgres.test.js:120-146 | Passes exactly for a stored id; otherwise NotFound (the repository test checks the class) with the message "thread tidak ditemukan" (the message comments.test.js:153-175 and comments.test.js:296 expect). |
| Threads.ThreadById | src/Infrastructures/repository/_test/ThreadRepositoryPostgres.test.js:82-117 | Fails with NotFound exactly for an unknown id, with the message "thread tidak ditemukan" that threads.test.js:245-260 expects. Otherwise it returns the row's id, title, body and date, and its owner's username when the owner is a known user. |
| Threads.AddedThreadIsReadable | src/Infrastructures/repository/_test/ThreadRepositoryPostgres.test.js:28-79 | A thread just added exists and reads back with its title, body and time. |
| Threads.ThreadRepositoryPostgres.constructor | src/Infrastructures/repository/_test/ThreadRepositoryPostgres.test.js:37-40 | Starts with an empty table keyed by id. |
| Threads.ThreadRepositoryPostgres.AddThread | src/Infrastructures/repository/_test/ThreadRepositoryPostgres.test.js:28-79 | Returns and stores what `InsertThread` gives, keeping every row under its own id. |
| Threads.ThreadRepositoryPostgres.VerifyThreadExists | src/Infrastructures/repository/_test/ThreadRepositoryPostgres.test.js:120-146 | Answers `ThreadExists` and changes nothing. |
| Threads.ThreadRepositoryPostgres.GetThreadById | src/Infrastructures/repository/_test/ThreadRepositoryPostgres.test.js:82-117 | Answers `ThreadById` and changes nothing. |
| AddThread.AddThreadOutcome | src/Applications/use_case/AddThreadUseCase.js:8-14 | An invalid payload fails with its NEW_THREAD code and leaves the table unchanged. A valid payload whose id `thread-<suffix>` is taken fails with DuplicateKey and leaves the table unchanged. A valid payload with a fresh id stores exactly `thread-<suffix>` with the payload's title and body, the credential as owner and the current time. A success reports that id, title and owner, and a valid payload from a non-empty credential with a fresh id succeeds. |
| AddThread.AddedThreadIsStored | src/Applications/use_case/AddThreadUseCase.js:12-13 | After a successful add, the stored thread's owner is the credential, and the thread reads back with the payload's title and body, the time of the add and the credential's username. |
| AddThread.PayloadOwnerIgnored | src/Applications/use_case/AddThreadUseCase.js:12 | An `owner` sent in the payload changes nothing: the credential is the owner. |
| AddThread.MissingBodyRefused | src/Infrastructures/http/_test/threads.test.js:82-105 | A payload without body fails with NEW_THREAD.NOT_CONTAIN_NEEDED_PROPERTY, stores nothing, and is reported as a client error. |
| AddThread.NonStringTitleRefused | src/Infrastructures/http/_test/threads.test.js:107-131 | A non-zero numeric title with a non-empty body fails with NEW_THREAD.NOT_MEET_DATA_TYPE_SPECIFICATION and stores nothing. |
| AddThread.AddThreadUseCase.constructor | src/Applications/use_case/AddThreadUseCase.js:4-6 | Keeps the thread repository it is given. |
| AddThread.AddThreadUseCase.Execute | src/Applications/use_case/AddThreadUseCase.js:8-14 | Validating, setting the owner and adding yields the result and table of `AddThreadOutcome`. |
| AddComment.AddCommentOutcome | src/Applications/use_case/AddCommentUseCase.js:9-21 | Validation fails first with its NEW_COMMENT code, then a missing thread gives NotFound, then a taken id `comment-<suffix>` gives DuplicateKey; each leaves the table unchanged. Otherwise exactly one live row is appended, with the payload's content, the thread, the credential as owner and the current time. A success reports that id, content and owner, and a valid payload from a non-empty credential with a fresh id succeeds. |
| AddComment.ValidationBeforeThreadCheck | src/Applications/use_case/AddCommentUseCase.js:11-14 | A payload without content fails with the NEW_COMMENT code, whether or not the thread exists, and is reported as a client error. |
| AddComment.MissingThreadStoresNothing | src/Infrastructures/http/_test/comments.test.js:153-175 | A valid comment on a missing thread fails with NotFound, reported as such, and stores nothing. |
| AddComment.AddedCommentIsListed | src/Applications/use_case/AddCommentUseCase.js:17-20 | An added comment exists and appears, live and with its content, in its thread's comment read. |
| AddComment.AddCommentUseCase.constructor | src/Applications/use_case/AddCommentUseCase.js:4-7 | Keeps the thread and comment repositories it is given. |
| AddComment.AddCommentUseCase.Execute | src/Applications/use_case/AddCommentUseCase.js:9-21 | Validating, checking the thread, attaching thread and owner and adding yields the result and table of `AddCommentOutcome`. |
| DeleteComment.DeleteCommentOutcome | src/Applications/use_case/DeleteCommentUseCase.js:7-19 | A missing thread gives NotFound first, then a missing comment gives NotFound. For a comment that exists: a deleted one gives NotFound, another owner's gives Authorization, and otherwise it is soft-deleted. Every failure leaves the table unchanged. |
| DeleteComment.DeleteSucceedsExactly | src/Applications/use_case/DeleteCommentUseCase.js:11-18 | With unique ids, the delete succeeds exactly when the thread exists and the comment is live and the caller's. Then only that row's flag changes. |
| DeleteComment.SecondDeleteNotFound | src/Infrastructures/repository/CommentRepositoryPostgres.js:55-58 | Deleting the same comment again fails with NotFound, even for its owner. |
| DeleteComment.FailuresTranslateToThemselves | src/Infrastructures/http/_test/comments.test.js:231-317 | Every failure reaches the client as NotFound or Authorization with its own message. |
| DeleteComment.ThreadMembershipNotChecked | src/Applications/use_case/DeleteCommentUseCase.js:11-18 | With unique ids, a live comment of the caller's is deleted through any existing thread id, whatever thread it belongs to, and only its flag changes. |
| DeleteComment.ThreadOwnerCannotDeleteOthersComment | src/Infrastructures/repository/CommentRepositoryPostgres.js:60-62 | With unique ids and an existing thread, anyone but the author of a live comment, the thread's author included, gets Authorization when deleting it, and the table stays unchanged. |
| DeleteComment.DeleteCommentUseCase.constructor | src/Applications/use_case/DeleteCommentUseCase.js:2-5 | Keeps the thread and comment repositories it is given. |
| DeleteComment.DeleteCommentUseCase.Execute | src/Applications/use_case/DeleteCommentUseCase.js:7-19 | The four calls in order, stopping at the first failure, yield the result and table of `DeleteCommentOutcome`. |
| GetThreadDetail.MapOrFirstError | src/Applications/use_case/GetThreadDetailUseCase.js:20-22 | It succeeds exactly when every element succeeds, giving one result per element in order. Otherwise it fails with the error of the first failing element. |
| GetThreadDetail.CommentDetailOf | src/Applications/use_case/GetThreadDetailUseCase.js:20-22 | `new CommentDetail(comment)` on a row of the comments read can only fail with COMMENT_DETAIL.NOT_CONTAIN_NEEDED_PROPERTY, because a row always has a valid Date, a string content and a boolean flag. |
| GetThreadDetail.CommentRowDetail | src/Applications/use_case/GetThreadDetailUseCase.js:20-22 | A comment row becomes a CommentDetail exactly when its id and its joined username are non-empty, and fails otherwise with the missing-property code. The detail shows the row's id, username and ISO date, and the mask in place of deleted content. |
| GetThreadDetail.PassingRowsAreShown | src/Applications/use_case/GetThreadDetailUseCase.js:20-22 | Every comment row that CommentDetail accepts is shown with its id, username, ISO date and masked content. |
| GetThreadDetail.DetailsShowComments | src/Applications/use_case/GetThreadDetailUseCase.js:20-22 | After a successful map with a function that shows every row it accepts, there is one detail per row and the i-th detail shows the i-th row. |
| GetThreadDetail.WithComments | src/Applications/use_case/GetThreadDetailUseCase.js:25-28 | The thread's record with `comments` added keeps the thread's id, title, body, date and username. |
| GetThreadDetail.ThreadDetailOf | src/Applications/use_case/GetThreadDetailUseCase.js:10-29 | An unknown thread fails with NotFound. On success: title, body and author's username come from the thread's row, and the date is its ISO form. There is one comment per row of the date-ordered read, the i-th showing the i-th row, masked when deleted. |
| GetThreadDetail.BadCommentFailsRead | src/Applications/use_case/GetThreadDetailUseCase.js:20-22 | One comment row with an empty id or a missing or empty username fails the whole read with COMMENT_DETAIL.NOT_CONTAIN_NEEDED_PROPERTY. |
| GetThreadDetail.GoodThreadIsRead | src/Applications/use_case/GetThreadDetailUseCase.js:10-29 | A thread with non-empty fields, a known author and comments that all pass CommentDetail is read successfully. |
| GetThreadDetail.DetailCommentsFollowRows | src/Applications/use_case/GetThreadDetailUseCase.js:15-22 | A successful read lists its comments in date order, one per row of the thread, deleted ones included. |
| GetThreadDetail.GetThreadDetailUseCase.constructor | src/Applications/use_case/GetThreadDetailUseCase.js:5-8 | Keeps the thread and comment repositories it is given. |
| GetThreadDetail.GetThreadDetailUseCase.Execute | src/Applications/use_case/GetThreadDetailUseCase.js:10-29 | The two reads, the map and the construction yield `ThreadDetailOf` on the current tables; nothing is written. |

## Left out

- SQL, the `pg` pool and `rowCount`: the tables are sequences and maps in memory. Row order stands for the table's physical order.
- The `console.log` in `getCommentsByThreadId`: it is output only.
- Foreign keys: a comment's thread and owner, and a thread's owner, are not checked against other tables; nor is the cascade on user deletion.
- Column lengths: the `VARCHAR(50)` limits are not modelled.
- Comments.ThreadComments: rows with equal dates keep their table order. SQL leaves their order unspecified, so the model fixes one of the orders the database may return.
- Date parsing and ISO formatting: these are the parameter `Js.DateLib`, which stands for the runtime's `Date`.
- The id generator and the clock: they are the `suffix` and `now` parameters of each add operation.
- The users table: it is the `users` parameter of the reads.
- Threads.ThreadById: the source of ThreadRepositoryPostgres is not part of this model. The join with users is assumed to be a left join, as in the comment read, so an unknown author reads as a null username.
- The sources of NewThread, NewComment, AddedThread and AddedComment are not part of this model. Their validators follow the two entities that are part of it (a `!x` test, then a string type test). Only the cases their tests fix are known to match.
- ThreadEntities.AddedThreadOf: which of its two codes a present but mistyped property gets is not known. The contract only says the error is one of the two.
- CommentEntities.AddedCommentOf: which of its two codes a present but mistyped property gets is not known. The contract only says the error is one of the two.
- The driver's coercion of non-string parameters (a numeric owner stored as text, say) is not modelled: owners and ids are strings.
- Concurrency and the async scheduling of the use cases: each operation runs to completion before the next.
- Authentication and the HTTP handlers: the credential id is a parameter.
- The JavaScript quirk of looking up a message such as `"toString"` in the translator's plain object is not modelled: the table is a finite map.
