/**
 * The request handlers, with HTTP stripped away: each takes the session
 * cookie and the request fields, acts on the store and returns what it
 * answers with. Hashing, Markdown rendering, the clock and token / id
 * generation come in as parameters.
 */
module Routes {
  import opened Wrappers
  import opened Seqs
  import opened Records
  import opened Database
  import opened Paging
  import opened Listing

  /** Why a request is turned away. */
  datatype Failure =
    | Unauthorized       // no user behind the session cookie (status 401, or a redirect)
    | UnknownUsername
    | WrongPassword
    | AlreadyRegistered
    | NotFound           // modified count 0 (status 404)

  /**
   * The `auth()` middleware: a missing or empty cookie is anonymous;
   * otherwise the cookie's session resolves to its user, if there is one.
   */
  function Auth(db: Db, cookie: Option<SessionId>): (user: Option<User>)
    reads db
    requires db.Valid()
    ensures cookie.None? || cookie == Some("") ==> user.None?
    ensures cookie.Some? && cookie.value != "" ==>
              (user.Some? <==> exists s :: s in db.sessions && s.sessionId == cookie.value && db.HasUser(s.userId))
    ensures user.Some? ==> user.value in db.users && Session(cookie.value, user.value.id) in db.sessions
  {
    if cookie.None? || cookie.value == "" then None else db.FindUserBySessionId(cookie.value)
  }

  /**
   * `POST /login`: an unknown user name is rejected before the password is
   * looked at; a session is created only when the stored hash equals
   * `hash(password)`.
   */
  method Login(db: Db, userName: string, password: string, hash: string -> string, freshId: SessionId)
    returns (r: Result<SessionId, Failure>)
    requires db.Valid() && !db.HasSession(freshId)
    modifies db
    ensures db.Valid()
    ensures db.users == old(db.users) && db.notes == old(db.notes)
    ensures old(db.FindUserByUsername(userName)).None? ==> r == Err(UnknownUsername)
    ensures old(db.FindUserByUsername(userName)).Some? ==>
              r == if old(db.FindUserByUsername(userName)).value.passwordHash == hash(password)
                   then Ok(freshId) else Err(WrongPassword)
    ensures r.Err? ==> db.sessions == old(db.sessions)
    ensures r.Ok? ==>
              var user := old(db.FindUserByUsername(userName)).value;
              && db.sessions == old(db.sessions) + [Session(freshId, user.id)]
              && db.FindUserBySessionId(freshId) == Some(user)
  {
    var user := db.FindUserByUsername(userName);
    if user.None? {
      return Err(UnknownUsername);
    }
    if user.value.passwordHash != hash(password) {
      return Err(WrongPassword);
    }
    var sessionId := db.CreateSession(user.value.id, freshId);
    r := Ok(sessionId);
  }

  /**
   * `POST /signup`: a taken user name is rejected and nothing is written;
   * otherwise the user is created with `hash(password)` and logged in with a
   * new session. User names stay unique.
   */
  method Signup(db: Db, userName: string, password: string, hash: string -> string,
                freshUserId: UserId, freshSessionId: SessionId)
    returns (r: Result<SessionId, Failure>)
    requires db.Valid() && !db.HasUser(freshUserId) && !db.HasSession(freshSessionId)
    modifies db
    ensures db.Valid()
    ensures db.notes == old(db.notes)
    ensures old(db.FindUserByUsername(userName)).Some? ==>
              r == Err(AlreadyRegistered) && db.users == old(db.users) && db.sessions == old(db.sessions)
    ensures old(db.FindUserByUsername(userName)).None? ==>
              && r == Ok(freshSessionId)
              && db.users == old(db.users) + [User(freshUserId, userName, hash(password))]
              && db.sessions == old(db.sessions) + [Session(freshSessionId, freshUserId)]
              && db.FindUserBySessionId(freshSessionId) == Some(User(freshUserId, userName, hash(password)))
    ensures DistinctKeys(old(db.users), NameOfUser) ==> DistinctKeys(db.users, NameOfUser)
  {
    var user := db.FindUserByUsername(userName);
    if user.Some? {
      return Err(AlreadyRegistered);
    }
    var newUserId := db.CreateUser(userName, password, hash, freshUserId);
    var sessionId := db.CreateSession(newUserId, freshSessionId);
    r := Ok(sessionId);
  }

  /**
   * `GET /logout`: the session is deleted only when it resolves to a user;
   * afterwards the same cookie is anonymous.
   */
  method Logout(db: Db, cookie: Option<SessionId>)
    requires db.Valid()
    modifies db
    ensures db.Valid()
    ensures db.users == old(db.users) && db.notes == old(db.notes)
    ensures old(Auth(db, cookie)).None? ==> db.sessions == old(db.sessions)
    ensures old(Auth(db, cookie)).Some? ==>
              db.sessions == RemoveFirst(old(db.sessions), IdOfSession, cookie.value)
    ensures Auth(db, cookie).None?
  {
    var user := Auth(db, cookie);
    if user.None? {
      return;
    }
    db.DeleteSession(cookie.value);
  }

  /**
   * `GET /api/notes`: resolve the age selector, list the user's notes and
   * cut the page out of them.
   */
  method ListNotes(db: Db, cookie: Option<SessionId>, age: string, page: int,
                   startingMonth: nat -> Timestamp)
    returns (r: Result<Envelope<Note>, Failure>)
    requires db.Valid()
    ensures Auth(db, cookie).None? ==> r == Err(Unauthorized)
    ensures Auth(db, cookie).Some? ==>
              var q := ResolveAge(age);
              var listed := FindNotesByUserId(db.notes, Auth(db, cookie).value.id, q.archived,
                                              LowerBound(q.since, startingMonth));
              r == Ok(Page(listed, page))
  {
    var user := Auth(db, cookie);
    if user.None? {
      return Err(Unauthorized);
    }
    var listed: seq<Note> := [];
    var archive := false;
    var since := Epoch;
    var hasMore := false;
    if age == "archive" {
      archive := true;
    }
    if age == "1month" || age == "3months" {
      since := MonthsBack(MonthCount(age));
    }
    listed := FindNotesByUserId(db.notes, user.value.id, archive, LowerBound(since, startingMonth));
    var data := Some(listed);
    if |listed| > LimitArray {
      var chunks := Chunk(listed, LimitArray);
      data := if 1 <= page <= |chunks| then Some(chunks[page - 1]) else None;
      if |chunks| > page {
        hasMore := true;
      }
    }
    r := Ok(Envelope(data, hasMore));
  }

  /** `GET /api/note/:id`: the note with that id, whoever owns it. */
  method GetNote(db: Db, cookie: Option<SessionId>, id: NoteId) returns (r: Result<Option<Note>, Failure>)
    requires db.Valid()
    ensures Auth(db, cookie).None? ==> r == Err(Unauthorized)
    ensures Auth(db, cookie).Some? ==> r.Ok? && (r.value.Some? <==> db.HasNote(id))
    ensures r.Ok? && r.value.Some? ==> r.value.value in db.notes && r.value.value.id == id
  {
    var user := Auth(db, cookie);
    if user.None? {
      return Err(Unauthorized);
    }
    r := Ok(db.FindNote(id));
  }

  /**
   * `POST /api/notes`: store a new note of the caller's, not archived, its
   * html rendered from its text, stamped with the current time.
   */
  method PostNote(db: Db, cookie: Option<SessionId>, title: string, text: string,
                  render: string -> string, now: Timestamp, freshId: NoteId)
    returns (r: Result<NoteId, Failure>)
    requires db.Valid() && !db.HasNote(freshId)
    modifies db
    ensures db.Valid()
    ensures db.users == old(db.users) && db.sessions == old(db.sessions)
    ensures old(Auth(db, cookie)).None? ==> r == Err(Unauthorized) && db.notes == old(db.notes)
    ensures old(Auth(db, cookie)).Some? ==>
              var note := Note(freshId, old(Auth(db, cookie)).value.id, title, text, render(text), now, false);
              && r == Ok(freshId)
              && db.notes == old(db.notes) + [note]
              && db.FindNote(freshId) == Some(note)
  {
    var user := Auth(db, cookie);
    if user.None? {
      return Err(Unauthorized);
    }
    var note := Note(freshId, user.value.id, title, text, render(text), now, false);
    var insertedId := db.InsertNote(note);
    var stored := db.FindNote(insertedId);
    r := Ok(stored.value.id);
  }

  /**
   * `POST /api/note/:id/edit`: title, text and the html rendered from the
   * new text are set together; an unknown id is reported as not found. The
   * owner of the note is not compared with the caller.
   */
  method EditNote(db: Db, cookie: Option<SessionId>, id: NoteId, title: string, text: string,
                  render: string -> string)
    returns (r: Result<NoteId, Failure>)
    requires db.Valid()
    modifies db
    ensures db.Valid()
    ensures db.users == old(db.users) && db.sessions == old(db.sessions)
    ensures old(Auth(db, cookie)).None? ==> r == Err(Unauthorized) && db.notes == old(db.notes)
    ensures old(Auth(db, cookie)).Some? && !old(db.HasNote(id)) ==>
              r == Err(NotFound) && db.notes == old(db.notes)
    ensures old(Auth(db, cookie)).Some? && old(db.HasNote(id)) ==>
              var i := old(db.NoteIndex(id)).value;
              var n := old(db.notes)[i];
              && r == Ok(id)
              && db.notes == old(db.notes)[i := n.(title := title, text := text, html := render(text))]
  {
    var user := Auth(db, cookie);
    if user.None? {
      return Err(Unauthorized);
    }
    var modifiedCount := db.UpdateNote(id, SetContent(title, text, render(text)));
    if modifiedCount == 0 {
      r := Err(NotFound);
    } else {
      r := Ok(id);
    }
  }

  /**
   * `POST /api/note/:id/archive`: only the archive flag changes; an unknown
   * id is reported as not found. The owner is not compared with the caller.
   */
  method ArchiveNote(db: Db, cookie: Option<SessionId>, id: NoteId, isArchived: bool)
    returns (r: Result<NoteId, Failure>)
    requires db.Valid()
    modifies db
    ensures db.Valid()
    ensures db.users == old(db.users) && db.sessions == old(db.sessions)
    ensures old(Auth(db, cookie)).None? ==> r == Err(Unauthorized) && db.notes == old(db.notes)
    ensures old(Auth(db, cookie)).Some? && !old(db.HasNote(id)) ==>
              r == Err(NotFound) && db.notes == old(db.notes)
    ensures old(Auth(db, cookie)).Some? && old(db.HasNote(id)) ==>
              var i := old(db.NoteIndex(id)).value;
              && r == Ok(id)
              && db.notes == old(db.notes)[i := old(db.notes)[i].(isArchived := isArchived)]
  {
    var user := Auth(db, cookie);
    if user.None? {
      return Err(Unauthorized);
    }
    var modifiedCount := db.UpdateNote(id, SetArchived(isArchived));
    if modifiedCount == 0 {
      r := Err(NotFound);
    } else {
      r := Ok(id);
    }
  }

  /** `DELETE /api/note/:id`: remove the note with that id, whoever owns it; an unknown id changes nothing. */
  method DeleteNoteById(db: Db, cookie: Option<SessionId>, id: NoteId) returns (r: Result<NoteId, Failure>)
    requires db.Valid()
    modifies db
    ensures db.Valid()
    ensures db.users == old(db.users) && db.sessions == old(db.sessions)
    ensures old(Auth(db, cookie)).None? ==> r == Err(Unauthorized) && db.notes == old(db.notes)
    ensures old(Auth(db, cookie)).Some? ==>
              && r == Ok(id)
              && db.notes == RemoveFirst(old(db.notes), IdOfNote, id)
              && !db.HasNote(id)
  {
    var user := Auth(db, cookie);
    if user.None? {
      return Err(Unauthorized);
    }
    db.DeleteNote(id);
    r := Ok(id);
  }

  /** `DELETE /api/note`: remove every archived note of the caller's. */
  method DeleteArchivedNotes(db: Db, cookie: Option<SessionId>) returns (r: Result<(), Failure>)
    requires db.Valid()
    modifies db
    ensures db.Valid()
    ensures db.users == old(db.users) && db.sessions == old(db.sessions)
    ensures old(Auth(db, cookie)).None? ==> r == Err(Unauthorized) && db.notes == old(db.notes)
    ensures old(Auth(db, cookie)).Some? ==>
              r == Ok(()) && db.notes == WithoutArchivedOf(old(db.notes), old(Auth(db, cookie)).value.id)
  {
    var user := Auth(db, cookie);
    if user.None? {
      return Err(Unauthorized);
    }
    db.DeleteNoteAll(user.value.id);
    r := Ok(());
  }
}
