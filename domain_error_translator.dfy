/** DomainErrorTranslator: maps the message of a thrown error to the
    user-facing error the HTTP layer reports. */
module Translator {
  import opened Errors

  /** `_directories`: message key to the translated error. */
  const Directories: map<string, Error> := map[
    "REGISTER_USER.NOT_CONTAIN_NEEDED_PROPERTY" :=
      Error(Invariant, "tidak dapat membuat user baru karena properti yang dibutuhkan tidak ada"),
    "REGISTER_USER.NOT_MEET_DATA_TYPE_SPECIFICATION" :=
      Error(Invariant, "tidak dapat membuat user baru karena tipe data tidak sesuai"),
    "REGISTER_USER.USERNAME_LIMIT_CHAR" :=
      Error(Invariant, "tidak dapat membuat user baru karena karakter username melebihi batas limit"),
    "REGISTER_USER.USERNAME_CONTAIN_RESTRICTED_CHARACTER" :=
      Error(Invariant, "tidak dapat membuat user baru karena username mengandung karakter terlarang"),
    "USER_LOGIN.NOT_CONTAIN_NEEDED_PROPERTY" :=
      Error(Invariant, "harus mengirimkan username dan password"),
    "USER_LOGIN.NOT_MEET_DATA_TYPE_SPECIFICATION" :=
      Error(Invariant, "username dan password harus string"),
    "REFRESH_AUTHENTICATION_USE_CASE.NOT_CONTAIN_REFRESH_TOKEN" :=
      Error(Invariant, "harus mengirimkan token refresh"),
    "REFRESH_AUTHENTICATION_USE_CASE.PAYLOAD_NOT_MEET_DATA_TYPE_SPECIFICATION" :=
      Error(Invariant, "refresh token harus string"),
    "DELETE_AUTHENTICATION_USE_CASE.NOT_CONTAIN_REFRESH_TOKEN" :=
      Error(Invariant, "harus mengirimkan token refresh"),
    "DELETE_AUTHENTICATION_USE_CASE.PAYLOAD_NOT_MEET_DATA_TYPE_SPECIFICATION" :=
      Error(Invariant, "refresh token harus string"),
    "NEW_THREAD.NOT_CONTAIN_NEEDED_PROPERTY" :=
      Error(Invariant, "tidak dapat membuat thread baru karena properti yang dibutuhkan tidak ada"),
    "NEW_THREAD.NOT_MEET_DATA_TYPE_SPECIFICATION" :=
      Error(Invariant, "tidak dapat membuat thread baru karena tipe data tidak sesuai"),
    "NEW_COMMENT.NOT_CONTAIN_NEEDED_PROPERTY" :=
      Error(Invariant, "tidak dapat membuat komentar baru karena properti yang dibutuhkan tidak ada"),
    "NEW_COMMENT.NOT_MEET_DATA_TYPE_SPECIFICATION" :=
      Error(Invariant, "tidak dapat membuat komentar baru karena tipe data tidak sesuai"),
    "thread tidak ditemukan" := Error(NotFound, "thread tidak ditemukan"),
    "komentar tidak ditemukan" := Error(NotFound, "komentar tidak ditemukan"),
    "Anda tidak berhak menghapus komentar ini" :=
      Error(Authorization, "Anda tidak berhak menghapus komentar ini"),
    "THREAD_DETAIL.NOT_CONTAIN_NEEDED_PROPERTY" :=
      Error(Invariant, "tidak dapat menampilkan detail thread karena properti yang dibutuhkan tidak ada"),
    "THREAD_DETAIL.NOT_MEET_DATA_TYPE_SPECIFICATION" :=
      Error(Invariant, "tidak dapat menampilkan detail thread karena tipe data tidak sesuai"),
    "COMMENT_DETAIL.NOT_CONTAIN_NEEDED_PROPERTY" :=
      Error(Invariant, "tidak dapat menampilkan detail komentar karena properti yang dibutuhkan tidak ada"),
    "COMMENT_DETAIL.NOT_MEET_DATA_TYPE_SPECIFICATION" :=
      Error(Invariant, "tidak dapat menampilkan detail komentar karena tipe data tidak sesuai")
  ]

  /** `translate`: the table's entry for the error's message, or the error
      itself when the message has no entry. */
  function Translate(e: Error): (r: Error)
    ensures e.message in Directories ==> r == Directories[e.message]
    ensures e.message !in Directories ==> r == e
  {
    if e.message in Directories then Directories[e.message] else e
  }

  /** The three messages the repositories throw with a domain kind. */
  const DomainMessages: set<string> :=
    {"thread tidak ditemukan", "komentar tidak ditemukan", "Anda tidak berhak menghapus komentar ini"}

  /** Every entry but the three domain messages is a client error, and those
      three translate to themselves. */
  lemma DirectoryKinds()
    ensures forall k | k in Directories && k !in DomainMessages :: Directories[k].kind == Invariant
    ensures Directories["thread tidak ditemukan"] == ThreadNotFound
    ensures Directories["komentar tidak ditemukan"] == CommentNotFound
    ensures Directories["Anda tidak berhak menghapus komentar ini"] == NotCommentOwner
  {
  }

  predicate EndsUpper(s: string)
  {
    |s| > 0 && 'A' <= s[|s| - 1] <= 'Z'
  }

  /** Every key is an upper-case code or one of the domain messages. */
  lemma KeysAreCodesOrDomainMessages()
    ensures forall k | k in Directories :: k in DomainMessages || EndsUpper(k)
  {
  }

  /** A client-error message ends in lower case. */
  lemma InvariantMessagesAreLowerCase()
    ensures forall k | k in Directories && k !in DomainMessages :: !EndsUpper(Directories[k].message)
  {
  }

  /** A client-error message is none of the domain messages. */
  lemma InvariantMessagesAreNotDomainMessages()
    ensures forall k | k in Directories && k !in DomainMessages :: Directories[k].message !in DomainMessages
  {
  }

  /** No translated message is itself a key, except where the entry maps a
      message to itself. */
  lemma DirectoryClosed()
    ensures forall k | k in Directories ::
              Directories[k].message !in Directories || Directories[Directories[k].message] == Directories[k]
  {
    KeysAreCodesOrDomainMessages();
    InvariantMessagesAreLowerCase();
    InvariantMessagesAreNotDomainMessages();
    DirectoryKinds();
  }

  /** Translating twice gives what translating once gives. */
  lemma TranslateIdempotent(e: Error)
    ensures Translate(Translate(e)) == Translate(e)
  {
    DirectoryClosed();
  }
}
